/** Grid cells, the four headings and Java's Math.floorMod. */
module Grid {
  import opened Config

  /** A java.awt.Point used as a grid cell; equality is equality of coordinates. */
  datatype Cell = Cell(x: int, y: int)

  /** A heading with its unit step; y grows downwards, as on screen. */
  datatype Direction = Up | Down | Left | Right
  {
    function Dx(): int {
      match this
      case Left => -1
      case Right => 1
      case _ => 0
    }

    function Dy(): int {
      match this
      case Up => -1
      case Down => 1
      case _ => 0
    }

    /** The heading that undoes this one's step. */
    function Opposite(): (o: Direction)
      ensures o.Dx() == -Dx() && o.Dy() == -Dy()
      ensures o != this
    {
      match this
      case Up => Down
      case Down => Up
      case Left => Right
      case Right => Left
    }

    predicate IsOpposite(other: Direction) {
      other == Opposite()
    }
  }

  function Abs(n: int): nat {
    if n < 0 then -n else n
  }

  /** Two cells one axis-aligned unit step apart. */
  predicate Adjacent(a: Cell, b: Cell) {
    Abs(a.x - b.x) + Abs(a.y - b.y) == 1
  }

  /** The cell one step from c in direction d. */
  function Step(c: Cell, d: Direction): (n: Cell)
    ensures Adjacent(c, n)
    ensures n != c
  {
    Cell(c.x + d.Dx(), c.y + d.Dy())
  }

  /** Inside [0, COLS) x [0, ROWS). */
  predicate InGrid(c: Cell) {
    0 <= c.x < COLS && 0 <= c.y < ROWS
  }

  /** Java's Math.floorMod: the remainder takes the sign of the divisor.
      A zero divisor throws in Java, hence the precondition. */
  function FloorMod(x: int, m: int): (r: int)
    requires m != 0
    ensures 0 < m ==> 0 <= r < m
    ensures m < 0 ==> m < r <= 0
    ensures 0 <= x < m ==> r == x
    ensures m < x <= 0 ==> r == x
  {
    if 0 < m then
      ModSmall(x, m);
      x % m
    else
      ModSmall(-x, -m);
      -((-x) % (-m))
  }

  /** Dafny's remainder by a positive divisor is in range, and leaves a value
      already in range alone. */
  lemma ModSmall(a: int, b: int)
    requires 0 < b
    ensures 0 <= a % b < b
    ensures 0 <= a < b ==> a % b == a
  {
    if 0 <= a < b {
      assert a / b == 0;
    }
  }

  /** Stepping off one edge re-enters at the opposite edge. */
  lemma FloorModAcrossEdge(m: int)
    requires 0 < m
    ensures FloorMod(-1, m) == m - 1
    ensures FloorMod(m, m) == 0
  {
  }

  /** Adding the divisor does not change the result.  With the range and the
      identity on in-range values, this fixes FloorMod for every x when the
      divisor is positive, as it is for the board. */
  lemma FloorModShift(x: int, m: int)
    requires 0 < m
    ensures FloorMod(x + m, m) == FloorMod(x, m)
  {
    var q, r := x / m, x % m;
    assert x == q * m + r;
    assert x + m == (q + 1) * m + r;
    ModUnique(x + m, m, q + 1, r);
  }

  /** The remainder is the r of any a == q * m + r with 0 <= r < m. */
  lemma ModUnique(a: int, m: int, q: int, r: int)
    requires 0 < m && 0 <= r < m && a == q * m + r
    ensures a % m == r
  {
    var q0, r0 := a / m, a % m;
    var k := q0 - q;
    assert q0 * m == q * m + k * m;
    assert k * m == r - r0;
    if k >= 1 { MulAtLeast(k, m); }
    if k <= -1 { MulAtMost(k, m); }
  }

  lemma MulAtLeast(k: int, m: int)
    requires 1 <= k && 0 < m
    ensures m <= k * m
  {
    assert k * m == (k - 1) * m + m;
  }

  lemma MulAtMost(k: int, m: int)
    requires k <= -1 && 0 < m
    ensures k * m <= -m
  {
    assert k * m == (k + 1) * m - m;
  }
}
