/** The snake's geometry and input buffer as values: what Snake's methods do
    to the body deque, the direction queue, the heading and the wrap flag. */
module SnakeRules {
  import opened Config
  import opened Wrappers
  import opened Grid

  /** The fields of a Snake: body cells head first, current heading,
      queued headings oldest first, and the wrap flag. */
  datatype SnakeState = SnakeState(body: seq<Cell>, dir: Direction, queue: seq<Direction>, wrap: bool)

  /** A new snake: three cells in a row ending at (x, y), heading right, wrap off. */
  function InitialSnake(x: int, y: int): (s: SnakeState)
    ensures |s.body| == 3 && s.body[0] == Cell(x, y)
    ensures forall i :: 0 <= i < 2 ==> s.body[i + 1] == Step(s.body[i], Left)
    ensures s.dir == Right && s.queue == [] && !s.wrap
  {
    SnakeState([Cell(x, y), Cell(x - 1, y), Cell(x - 2, y)], Right, [], false)
  }

  // ---------------------------------------------------------------------------
  // Direction queue

  /** The direction the next update adopts: the oldest queued one, or the
      current heading when nothing is queued.  queueDirection compares new
      input against this same direction (it peeks at the queue's front). */
  function Upcoming(queue: seq<Direction>, cur: Direction): Direction {
    if queue == [] then cur else queue[0]
  }

  /** queueDirection keeps d unless it reverses or repeats the upcoming direction. */
  predicate Accepts(queue: seq<Direction>, cur: Direction, d: Direction) {
    !d.IsOpposite(Upcoming(queue, cur)) && d != Upcoming(queue, cur)
  }

  /** The queue after queueDirection(d); None stands for a null argument.
      An accepted direction goes to the back; a full queue loses its oldest entry. */
  function Enqueued(queue: seq<Direction>, cur: Direction, d: Option<Direction>): (r: seq<Direction>)
    ensures |queue| <= MAX_QUEUED ==> |r| <= MAX_QUEUED
    ensures |queue| <= MAX_QUEUED ==> (r != queue <==> d.Some? && Accepts(queue, cur, d.value))
    ensures r != queue ==> d.Some? && |r| > 0 && r[|r| - 1] == d.value
    ensures r != queue && |queue| < MAX_QUEUED ==> r[..|r| - 1] == queue
    ensures r != queue && |queue| >= MAX_QUEUED ==> r[..|r| - 1] == queue[1..]
  {
    if d.None? || !Accepts(queue, cur, d.value) then queue
    else if |queue| < MAX_QUEUED then queue + [d.value]
    else
      var r := queue[1..] + [d.value];
      assert |queue| == MAX_QUEUED ==> r[0] == queue[1] && r[1] == queue[2] && r[2] == d.value;
      r
  }

  /** The queue after update removes at most one entry. */
  function Dequeued(queue: seq<Direction>): (r: seq<Direction>)
    ensures queue != [] ==> queue == [queue[0]] + r
    ensures queue == [] ==> r == []
  {
    if queue == [] then [] else queue[1..]
  }

  function Queued(s: SnakeState, d: Option<Direction>): SnakeState {
    s.(queue := Enqueued(s.queue, s.dir, d))
  }

  // ---------------------------------------------------------------------------
  // Body

  /** The body after one step: a new head in direction d, the tail cell dropped. */
  function Moved(body: seq<Cell>, d: Direction): (r: seq<Cell>)
    requires |body| >= 1
    ensures |r| == |body|
    ensures r[0] == Step(body[0], d)
    ensures forall i :: 1 <= i < |r| ==> r[i] == body[i - 1]
  {
    [Step(body[0], d)] + body[..|body| - 1]
  }

  /** Snake.update: adopt the upcoming direction, then move one cell. */
  function Updated(s: SnakeState): (r: SnakeState)
    requires |s.body| >= 1
    ensures |r.body| == |s.body| && r.wrap == s.wrap
    ensures r.queue == Dequeued(s.queue)
    ensures r.body[0] == Step(s.body[0], r.dir)
    ensures r.body == Moved(s.body, r.dir)
    ensures s.queue == [] ==> r.dir == s.dir
    ensures s.queue != [] ==> r.dir == s.queue[0]
  {
    var d := Upcoming(s.queue, s.dir);
    SnakeState(Moved(s.body, d), d, Dequeued(s.queue), s.wrap)
  }

  /** The body after grow(n): n copies of the tail cell appended. */
  function Grown(body: seq<Cell>, n: int): (r: seq<Cell>)
    requires |body| >= 1
    decreases n
    ensures |r| == |body| + (if n < 0 then 0 else n)
    ensures r[..|body|] == body
    ensures forall i :: |body| <= i < |r| ==> r[i] == body[|body| - 1]
  {
    if n <= 0 then body else Grown(body, n - 1) + [body[|body| - 1]]
  }

  /** The body after shrink(n): tail cells removed, n of them at most,
      and never the last remaining cell. */
  function Shrunk(body: seq<Cell>, n: int): (r: seq<Cell>)
    requires |body| >= 1
    decreases n
    ensures 1 <= |r| <= |body|
    ensures r == body[..|r|]
    ensures n <= 0 ==> |r| == |body|
    ensures 0 < n < |body| ==> |r| == |body| - n
    ensures |body| <= n ==> |r| == 1
  {
    if n <= 0 || |body| <= 1 then body else Shrunk(body[..|body| - 1], n - 1)
  }

  /** The head lies on another body cell. */
  predicate SelfCollides(body: seq<Cell>) {
    |body| >= 1 && body[0] in body[1..]
  }

  /** The body after wrapPosition(cols, rows): only the head is replaced by its
      floor-mod image. */
  function WrapHead(body: seq<Cell>, cols: int, rows: int): (r: seq<Cell>)
    requires |body| >= 1 && cols != 0 && rows != 0
    ensures |r| == |body| && r[1..] == body[1..]
    ensures r[0] == Cell(FloorMod(body[0].x, cols), FloorMod(body[0].y, rows))
    ensures 0 < cols && 0 < rows ==> 0 <= r[0].x < cols && 0 <= r[0].y < rows
    ensures 0 <= body[0].x < cols && 0 <= body[0].y < rows ==> r == body
  {
    body[0 := Cell(FloorMod(body[0].x, cols), FloorMod(body[0].y, rows))]
  }

  /** Consecutive cells are one step apart, or equal where grow duplicated the tail. */
  predicate Connected(body: seq<Cell>) {
    forall i :: 0 <= i < |body| - 1 ==> body[i] == body[i + 1] || Adjacent(body[i], body[i + 1])
  }

  // ---------------------------------------------------------------------------
  // Properties

  /** Moving is a translation: the cells after a step are the new head plus
      every old cell except the old tail. */
  lemma MovedOccupancy(body: seq<Cell>, d: Direction, p: Cell)
    requires |body| >= 1
    ensures p in Moved(body, d) <==> p == Step(body[0], d) || p in body[..|body| - 1]
  {
    assert Moved(body, d) == [Step(body[0], d)] + body[..|body| - 1];
  }

  /** After a step the snake has hit itself exactly when the new head lands on
      an old cell other than the old tail (the tail moves out of the way). */
  lemma MovedSelfCollision(body: seq<Cell>, d: Direction)
    requires |body| >= 1
    ensures SelfCollides(Moved(body, d)) <==> Step(body[0], d) in body[..|body| - 1]
  {
    assert Moved(body, d)[1..] == body[..|body| - 1];
  }

  /** grow adds no new cell: it only duplicates the tail. */
  lemma {:induction false} GrownSameCells(body: seq<Cell>, n: int, p: Cell)
    requires |body| >= 1
    ensures p in Grown(body, n) <==> p in body
    decreases n
  {
    if n > 0 {
      GrownSameCells(body, n - 1, p);
      assert Grown(body, n) == Grown(body, n - 1) + [body[|body| - 1]];
    }
  }

  /** shrink keeps a prefix, so it can only free cells. */
  lemma ShrunkSubset(body: seq<Cell>, n: int, p: Cell)
    requires |body| >= 1
    ensures p in Shrunk(body, n) ==> p in body
  {
    var r := Shrunk(body, n);
    if p in r {
      var i :| 0 <= i < |r| && r[i] == p;
      assert body[i] == p;
    }
  }

  /** Without wrapping, the body stays a chain of unit steps through moves,
      growth and shrinking (growth adds equal neighbours only). */
  lemma MovedKeepsConnected(body: seq<Cell>, d: Direction)
    requires |body| >= 1 && Connected(body)
    ensures Connected(Moved(body, d))
  {
    var r := Moved(body, d);
    forall i | 0 <= i < |r| - 1
      ensures r[i] == r[i + 1] || Adjacent(r[i], r[i + 1])
    {
      if i > 0 {
        assert r[i] == body[i - 1] && r[i + 1] == body[i];
      }
    }
  }

  lemma GrownKeepsConnected(body: seq<Cell>, n: int)
    requires |body| >= 1 && Connected(body)
    ensures Connected(Grown(body, n))
  {
    var r := Grown(body, n);
    forall i | 0 <= i < |r| - 1
      ensures r[i] == r[i + 1] || Adjacent(r[i], r[i + 1])
    {
      if i < |body| - 1 {
        assert r[i] == body[i] && r[i + 1] == body[i + 1];
      }
    }
  }

  lemma ShrunkKeepsConnected(body: seq<Cell>, n: int)
    requires |body| >= 1 && Connected(body)
    ensures Connected(Shrunk(body, n))
  {
    var r := Shrunk(body, n);
    forall i | 0 <= i < |r| - 1
      ensures r[i] == r[i + 1] || Adjacent(r[i], r[i + 1])
    {
      assert r[i] == body[i] && r[i + 1] == body[i + 1];
    }
  }

  /** A wrapped head is already on the board, so wrapping twice changes nothing more. */
  lemma WrapHeadIdempotent(body: seq<Cell>)
    requires |body| >= 1
    ensures WrapHead(WrapHead(body, COLS, ROWS), COLS, ROWS) == WrapHead(body, COLS, ROWS)
    ensures InGrid(WrapHead(body, COLS, ROWS)[0])
  {
  }

  /** A head that steps one cell off the board re-enters at the opposite
      edge, in the same row or column. */
  lemma WrapAcrossEdge(body: seq<Cell>, d: Direction)
    requires |body| >= 1 && InGrid(body[0])
    ensures var h := body[0];
            var w := WrapHead([Step(h, d)] + body[1..], COLS, ROWS)[0];
            && (h.x + d.Dx() == -1 ==> w.x == COLS - 1)
            && (h.x + d.Dx() == COLS ==> w.x == 0)
            && (h.y + d.Dy() == -1 ==> w.y == ROWS - 1)
            && (h.y + d.Dy() == ROWS ==> w.y == 0)
            && (d.Dx() == 0 ==> w.x == h.x)
            && (d.Dy() == 0 ==> w.y == h.y)
  {
    FloorModAcrossEdge(COLS);
    FloorModAcrossEdge(ROWS);
  }

  /** One direction key between two ticks never turns the snake back on itself. */
  lemma SingleInputNeverReverses(s: SnakeState, d: Direction)
    requires |s.body| >= 1 && s.queue == []
    ensures Updated(Queued(s, Some(d))).dir != s.dir.Opposite()
  {
  }

  /** Because input is compared with the oldest queued entry, three quick keys
      (Up, Left, Right while heading right) queue Right straight after Left. */
  lemma QueueCanHoldReversal()
    ensures Enqueued(Enqueued(Enqueued([], Right, Some(Up)), Right, Some(Left)), Right, Some(Right))
         == [Up, Left, Right]
    ensures Right.IsOpposite(Left)
  {
    EnqueueAccepted([], Right, Up);
    assert [] + [Up] == [Up];
    EnqueueAccepted([Up], Right, Left);
    EnqueueAccepted([Up, Left], Right, Right);
  }

  /** An accepted key joins a queue that has room at the back. */
  lemma EnqueueAccepted(queue: seq<Direction>, cur: Direction, d: Direction)
    requires |queue| < MAX_QUEUED && Accepts(queue, cur, d)
    ensures Enqueued(queue, cur, Some(d)) == queue + [d]
  {
  }

  /** Evicting the oldest entry can also put a reversal of the current heading
      at the front: heading right with [Up, Left, Right] queued, Left is kept. */
  lemma EvictionCanQueueReversal()
    ensures Enqueued([Up, Left, Right], Right, Some(Left)) == [Left, Right, Left]
    ensures Upcoming([Left, Right, Left], Right) == Right.Opposite()
  {
  }

  /** The queued reversal kills a fresh snake: three ticks later its head is on its body. */
  lemma QueuedReversalKillsSnake()
    ensures var s := Queued(Queued(Queued(InitialSnake(14, 12), Some(Up)), Some(Left)), Some(Right));
            SelfCollides(Updated(Updated(Updated(s))).body)
  {
    QueueCanHoldReversal();
    var s := Queued(Queued(Queued(InitialSnake(14, 12), Some(Up)), Some(Left)), Some(Right));
    assert s == SnakeState([Cell(14, 12), Cell(13, 12), Cell(12, 12)], Right, [Up, Left, Right], false);
    ReversalPlaysOut();
  }

  lemma ReversalPlaysOut()
    ensures var s := SnakeState([Cell(14, 12), Cell(13, 12), Cell(12, 12)], Right, [Up, Left, Right], false);
            Updated(Updated(Updated(s))).body == [Cell(14, 11), Cell(13, 11), Cell(14, 11)]
  {
    var s := SnakeState([Cell(14, 12), Cell(13, 12), Cell(12, 12)], Right, [Up, Left, Right], false);
    var s1 := Updated(s);
    assert s1 == SnakeState([Cell(14, 11), Cell(14, 12), Cell(13, 12)], Up, [Left, Right], false) by {
      assert s1.body == [Cell(14, 11), Cell(14, 12), Cell(13, 12)];
    }
    var s2 := Updated(s1);
    assert s2 == SnakeState([Cell(13, 11), Cell(14, 11), Cell(14, 12)], Left, [Right], false) by {
      assert s2.body == [Cell(13, 11), Cell(14, 11), Cell(14, 12)];
    }
    assert Updated(s2).body == [Cell(14, 11), Cell(13, 11), Cell(14, 11)];
  }

  /** A fresh snake at (14, 12) told to go up moves its head to (14, 11),
      heads up and keeps its three cells. */
  lemma TurnUpExample()
    ensures var s := Updated(Queued(InitialSnake(14, 12), Some(Up)));
            s.body == [Cell(14, 11), Cell(14, 12), Cell(13, 12)] && s.dir == Up && s.queue == []
  {
  }
}
