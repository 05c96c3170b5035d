/** The Snake object: a body deque, a heading, a direction queue and a wrap
    flag, all updated in place.  Each method is proved against the value-level
    definition of the same step in SnakeRules. */
module Snakes {
  import opened Config
  import opened Wrappers
  import opened Grid
  import opened SnakeRules

  class Snake {
    var body: seq<Cell>
    var curDir: Direction
    var dirQueue: seq<Direction>
    var wrap: bool

    /** The body is never empty and at most MAX_QUEUED directions wait. */
    ghost predicate Valid()
      reads this
    {
      |body| >= 1 && |dirQueue| <= MAX_QUEUED
    }

    function Model(): SnakeState
      reads this
    {
      SnakeState(body, curDir, dirQueue, wrap)
    }

    constructor (startX: int, startY: int)
      ensures Valid() && Model() == InitialSnake(startX, startY)
    {
      body := [Cell(startX, startY)];
      body := body + [Cell(startX - 1, startY)];
      body := body + [Cell(startX - 2, startY)];
      curDir := Right;
      dirQueue := [];
      wrap := false;
    }

    /** Buffers a direction key; None is a null argument and is ignored. */
    method QueueDirection(d: Option<Direction>)
      requires Valid()
      modifies this
      ensures Valid()
      ensures Model() == Queued(old(Model()), d)
    {
      if d.None? {
        return;
      }
      var last := if dirQueue == [] then curDir else dirQueue[0];
      if !d.value.IsOpposite(last) && d.value != last {
        if |dirQueue| < MAX_QUEUED {
          dirQueue := dirQueue + [d.value];
        } else {
          dirQueue := dirQueue[1..];
          dirQueue := dirQueue + [d.value];
        }
      }
    }

    /** Takes at most one queued direction, then moves one cell. */
    method Update()
      requires Valid()
      modifies this
      ensures Valid()
      ensures Model() == Updated(old(Model()))
    {
      if dirQueue != [] {
        curDir := dirQueue[0];
        dirQueue := dirQueue[1..];
      }
      var head := body[0];
      var next := Cell(head.x + curDir.Dx(), head.y + curDir.Dy());
      body := [next] + body;
      body := body[..|body| - 1];
    }

    /** Appends n copies of the tail cell, one per iteration. */
    method Grow(n: int)
      requires Valid()
      modifies this
      ensures Valid()
      ensures Model() == old(Model()).(body := Grown(old(body), n))
    {
      var i := 0;
      while i < n
        invariant 0 <= i <= (if n < 0 then 0 else n)
        invariant |body| >= 1
        invariant body == Grown(old(body), i)
        invariant Model() == old(Model()).(body := body)
      {
        var tail := body[|body| - 1];
        body := body + [Cell(tail.x, tail.y)];
        i := i + 1;
      }
    }

    /** Removes tail cells, n at most, while more than one cell remains. */
    method Shrink(n: int)
      requires Valid()
      modifies this
      ensures Valid()
      ensures Model() == old(Model()).(body := Shrunk(old(body), n))
    {
      var i := 0;
      while i < n && |body| > 1
        invariant 0 <= i
        invariant |body| >= 1
        invariant Shrunk(body, n - i) == Shrunk(old(body), n)
        invariant Model() == old(Model()).(body := body)
      {
        body := body[..|body| - 1];
        i := i + 1;
      }
    }

    function Occupies(p: Cell): (r: bool)
      reads this
      ensures r <==> exists i :: 0 <= i < |body| && body[i] == p
    {
      p in body
    }

    function Head(): (h: Cell)
      reads this
      requires |body| >= 1
      ensures Occupies(h)
      ensures SelfCollision() <==> h in body[1..]
    {
      body[0]
    }

    /** The head lies on one of the cells after it. */
    function SelfCollision(): (r: bool)
      reads this
      ensures r <==> exists i :: 1 <= i < |body| && body[i] == body[0]
    {
      SelfCollides(body)
    }

    method ToggleWrap()
      requires Valid()
      modifies this
      ensures Valid()
      ensures Model() == old(Model()).(wrap := !old(wrap))
    {
      wrap := !wrap;
    }

    /** The head is off the COLS x ROWS board. */
    function OutOfBounds(): (r: bool)
      reads this
      requires |body| >= 1
      ensures r <==> !InGrid(body[0])
    {
      var h := body[0];
      h.x < 0 || h.x >= COLS || h.y < 0 || h.y >= ROWS
    }

    /** Replaces the head by its floor-mod image; the other cells stay. */
    method WrapPosition(cols: int, rows: int)
      requires Valid() && cols != 0 && rows != 0
      modifies this
      ensures Valid()
      ensures Model() == old(Model()).(body := WrapHead(old(body), cols, rows))
    {
      var h := body[0];
      body := body[0 := Cell(FloorMod(h.x, cols), FloorMod(h.y, rows))];
    }
  }
}
