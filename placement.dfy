/** Food, power-ups and the rejection-sampling loops that place them and the
    obstacles.  java.util.Random is replaced by a sequence of drawn cells: each
    loop consumes draws in order until one passes its exclusion rule. */
module Placement {
  import opened Config
  import opened Wrappers
  import opened Grid

  /** A Food object: its cell and whether it is the special kind. */
  datatype Food = Food(pos: Cell, special: bool)

  datatype PowerKind = SpeedBoost | Shrink | ClearObstacles

  /** A PowerUp object: its cell and its kind. */
  datatype PowerUp = PowerUp(pos: Cell, kind: PowerKind)

  /** The cells a placement must avoid: the snake's body, the obstacles and,
      for power-ups, the food cell. */
  datatype Exclusion = Exclusion(snake: seq<Cell>, obstacles: seq<Cell>, food: Option<Cell>)

  predicate Allows(e: Exclusion, c: Cell) {
    c !in e.snake && c !in e.obstacles && (e.food.Some? ==> c != e.food.value)
  }

  /** Index of the first draw the exclusion rule accepts, |draws| if none. */
  function FirstAllowed(draws: seq<Cell>, e: Exclusion): (k: nat)
    ensures k <= |draws|
    ensures k < |draws| ==> Allows(e, draws[k])
    ensures forall j :: 0 <= j < k ==> !Allows(e, draws[j])
  {
    if draws == [] then 0
    else if Allows(e, draws[0]) then 0
    else 1 + FirstAllowed(draws[1..], e)
  }

  /** The accepted draws, in order. */
  function Allowed(draws: seq<Cell>, e: Exclusion): (r: seq<Cell>)
    ensures |r| <= |draws|
    ensures forall i :: 0 <= i < |r| ==> Allows(e, r[i]) && r[i] in draws
  {
    if draws == [] then []
    else (if Allows(e, draws[0]) then [draws[0]] else []) + Allowed(draws[1..], e)
  }

  /** The first accepted draw among the first n, if any. */
  function FirstAllowedWithin(draws: seq<Cell>, e: Exclusion, n: nat): (r: Option<Cell>)
    requires n <= |draws|
    ensures r.Some? ==> Allows(e, r.value) && r.value in draws[..n]
    ensures r.Some? ==> exists k :: 0 <= k < n && r.value == draws[k] && forall j :: 0 <= j < k ==> !Allows(e, draws[j])
    ensures r.None? <==> forall j :: 0 <= j < n ==> !Allows(e, draws[j])
  {
    var k := FirstAllowed(draws[..n], e);
    if k < n then Some(draws[k]) else None
  }

  /** Every draw the rule accepts is kept: the filter is empty only when no draw passes. */
  lemma {:induction false} AllowedEmpty(draws: seq<Cell>, e: Exclusion)
    ensures Allowed(draws, e) == [] <==> forall i :: 0 <= i < |draws| ==> !Allows(e, draws[i])
  {
    if draws != [] {
      AllowedEmpty(draws[1..], e);
      assert forall i :: 1 <= i < |draws| ==> draws[i] == draws[1..][i - 1];
    }
  }

  /** The do-while of spawnFood: draw until a cell passes the rule.  Also
      reports how many draws it consumed. */
  method DrawCell(draws: seq<Cell>, e: Exclusion) returns (p: Cell, used: nat)
    requires exists i :: 0 <= i < |draws| && Allows(e, draws[i])
    ensures used == FirstAllowed(draws, e) + 1 && used <= |draws|
    ensures p == draws[used - 1]
    ensures Allows(e, p)
  {
    used := 0;
    p := draws[used];
    used := used + 1;
    while !Allows(e, p)
      invariant 0 < used <= |draws| && p == draws[used - 1]
      invariant forall j :: 0 <= j < used ==> !Allows(e, draws[j]) || j == used - 1
      decreases |draws| - used
    {
      p := draws[used];
      used := used + 1;
    }
    FirstAllowedIs(draws, e, used - 1);
  }

  lemma {:induction false} FirstAllowedIs(draws: seq<Cell>, e: Exclusion, k: nat)
    requires k < |draws| && Allows(e, draws[k])
    requires forall j :: 0 <= j < k ==> !Allows(e, draws[j])
    ensures FirstAllowed(draws, e) == k
  {
    if k > 0 {
      assert !Allows(e, draws[0]);
      FirstAllowedIs(draws[1..], e, k - 1);
    }
  }

  /** The accepted draws are the first accepted one followed by those after it. */
  lemma {:induction false} AllowedFromFirst(draws: seq<Cell>, e: Exclusion)
    requires FirstAllowed(draws, e) < |draws|
    ensures var k := FirstAllowed(draws, e);
            Allowed(draws, e) == [draws[k]] + Allowed(draws[k + 1..], e)
  {
    if !Allows(e, draws[0]) {
      AllowedFromFirst(draws[1..], e);
      var k := FirstAllowed(draws, e);
      assert draws[1..][k..] == draws[k + 1..];
    }
  }

  /** The loop of spawnObstacles: n cells, each from its own do-while. */
  method DrawCells(n: nat, draws: seq<Cell>, e: Exclusion) returns (cells: seq<Cell>)
    requires n <= |Allowed(draws, e)|
    ensures cells == Allowed(draws, e)[..n]
  {
    cells := [];
    var used := 0;
    for i := 0 to n
      invariant used <= |draws| && |cells| == i
      invariant Allowed(draws, e) == cells + Allowed(draws[used..], e)
    {
      var rest := draws[used..];
      AllowedEmpty(rest, e);
      var p, k := DrawCell(rest, e);
      AllowedFromFirst(rest, e);
      assert rest[k..] == draws[used + k..];
      used := used + k;
      cells := cells + [p];
    }
  }

  /** The do-while of maybeSpawnPowerUp: it gives up after maxAttempts draws. */
  method DrawCellWithin(draws: seq<Cell>, e: Exclusion, maxAttempts: nat) returns (r: Option<Cell>)
    requires maxAttempts <= |draws|
    ensures r == FirstAllowedWithin(draws, e, maxAttempts)
  {
    var attempts := 0;
    while true
      invariant attempts <= maxAttempts
      invariant forall j :: 0 <= j < attempts ==> !Allows(e, draws[j])
      decreases maxAttempts - attempts
    {
      if attempts >= maxAttempts {
        assert forall j :: 0 <= j < maxAttempts ==> !Allows(e, draws[..maxAttempts][j]);
        return None;
      }
      var p := draws[attempts];
      attempts := attempts + 1;
      if Allows(e, p) {
        FirstAllowedIs(draws[..maxAttempts], e, attempts - 1);
        return Some(p);
      }
    }
  }
}
