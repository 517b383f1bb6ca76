/**
 * A moving circle: one hostile unit walking the route one waypoint per move.
 * Python object identity is modelled by a numeric `id`.
 */
module Units {
  import opened Geometry

  /** Health every unit is created with. */
  const UnitHealth: int := 100
  /** Where a unit is drawn before its first move (out of sight). */
  const Offscreen: Point := Point(-100, -100)

  datatype Unit = Unit(id: nat, pathIndex: nat, health: int)

  /** A freshly created unit: full health, before the first waypoint. */
  function Spawned(id: nat): Unit {
    Unit(id, 0, UnitHealth)
  }

  /**
   * The unit's canvas position: off-screen until its first move, afterwards
   * the waypoint it was last moved to (a move draws the unit at
   * `route[pathIndex]` and then increments the index).
   */
  function Position(route: seq<Point>, u: Unit): (r: Point)
    requires u.pathIndex <= |route|
    ensures u.pathIndex == 0 ==> r == Offscreen
    ensures u.pathIndex > 0 ==> r == route[u.pathIndex - 1]
  {
    if u.pathIndex == 0 then Offscreen else route[u.pathIndex - 1]
  }

  /** Outcome of one move of a unit along the route. */
  datatype Move =
    | Stepped(next: Unit)     // moved one waypoint, still on the route
    | Breached(last: Unit)    // moved onto the last waypoint: it got away
    | Idle                    // already at or past the end: nothing happens

  /** One call of `move_circle`, without the canvas and timer effects. */
  function Advance(route: seq<Point>, u: Unit): (r: Move)
    ensures r.Idle? <==> u.pathIndex >= |route|
    ensures r.Stepped? ==> r.next == u.(pathIndex := u.pathIndex + 1) && r.next.pathIndex < |route|
    ensures r.Breached? <==> u.pathIndex + 1 == |route|
    ensures r.Breached? ==> r.last == u.(pathIndex := |route|)
  {
    if u.pathIndex < |route| then
      var moved := u.(pathIndex := u.pathIndex + 1);
      if moved.pathIndex == |route| then Breached(moved) else Stepped(moved)
    else Idle
  }

  /**
   * A move draws the unit at the waypoint its index pointed to before the
   * move: afterwards its position is exactly that waypoint, whether it
   * stepped or breached.
   */
  lemma MoveDrawsAtWaypoint(route: seq<Point>, u: Unit)
    ensures var m := Advance(route, u);
            && (m.Stepped? ==> Position(route, m.next) == route[u.pathIndex])
            && (m.Breached? ==> Position(route, m.last) == route[u.pathIndex])
  {
  }

  /** The outcome of `n` consecutive moves, stopping at the first non-step. */
  function Walk(route: seq<Point>, u: Unit, n: nat): Move
    requires n >= 1
    decreases n
  {
    var m := Advance(route, u);
    if n == 1 || !m.Stepped? then m else Walk(route, m.next, n - 1)
  }

  /**
   * A unit at path index i takes exactly |route| - i moves to get away: every
   * earlier move advances it by one waypoint, and that move is the breach.
   */
  lemma {:induction false} WalkBreachesAtEnd(route: seq<Point>, u: Unit)
    requires u.pathIndex < |route|
    ensures Walk(route, u, |route| - u.pathIndex).Breached?
    ensures forall n | 1 <= n < |route| - u.pathIndex ::
              Walk(route, u, n) == Stepped(u.(pathIndex := u.pathIndex + n))
    decreases |route| - u.pathIndex
  {
    var m := Advance(route, u);
    if u.pathIndex + 1 < |route| {
      WalkBreachesAtEnd(route, m.next);
      forall n | 1 <= n < |route| - u.pathIndex
        ensures Walk(route, u, n) == Stepped(u.(pathIndex := u.pathIndex + n))
      {
        if n > 1 {
          assert Walk(route, u, n) == Walk(route, m.next, n - 1);
        }
      }
    }
  }

  function DecreaseHealth(u: Unit, damage: int): (r: Unit)
    ensures r.health == u.health - damage
    ensures r.id == u.id && r.pathIndex == u.pathIndex
    ensures Killed(r) <==> damage >= u.health
  {
    u.(health := u.health - damage)
  }

  predicate Killed(u: Unit) {
    u.health <= 0
  }

  datatype Colour = Green | Yellow | Orange | Red

  /** How badly a colour says the unit is hurt, 0 (healthy) to 3. */
  function Severity(c: Colour): nat {
    match c
    case Green => 0
    case Yellow => 1
    case Orange => 2
    case Red => 3
  }

  /** The fill colour for a unit's health, in quarter buckets of the starting 100. */
  function HealthColour(health: int): (c: Colour)
    ensures c == Green <==> health > 75
    ensures c == Yellow <==> 50 < health <= 75
    ensures c == Orange <==> 25 < health <= 50
    ensures c == Red <==> health <= 25
  {
    if health > 75 then Green
    else if health > 50 then Yellow
    else if health > 25 then Orange
    else Red
  }

  /** Losing health never makes the colour look healthier. */
  lemma ColourWorsensWithDamage(h1: int, h2: int)
    requires h1 <= h2
    ensures Severity(HealthColour(h1)) >= Severity(HealthColour(h2))
  {
  }

  function Ids(us: seq<Unit>): set<nat> {
    set u | u in us :: u.id
  }

  predicate DistinctIds(us: seq<Unit>) {
    forall i, j | 0 <= i < j < |us| :: us[i].id != us[j].id
  }

  /** How identities distribute over putting one unit in front of a list. */
  lemma ConsIds(x: Unit, t: seq<Unit>)
    ensures Ids([x] + t) == {x.id} + Ids(t)
    ensures DistinctIds([x] + t) <==> x.id !in Ids(t) && DistinctIds(t)
  {
    var s := [x] + t;
    assert forall u :: u in s <==> u == x || u in t;
    if DistinctIds(s) {
      assert forall j | 0 <= j < |t| :: t[j] == s[j + 1];
      forall u | u in t ensures u.id != x.id {
        var j :| 0 <= j < |t| && t[j] == u;
        assert s[0] == x && s[j + 1] == u;
        assert s[0].id != s[j + 1].id;
      }
    }
    if x.id !in Ids(t) && DistinctIds(t) {
      forall i, j | 0 <= i < j < |s| ensures s[i].id != s[j].id {
        assert s[j] == t[j - 1];
        if i > 0 {
          assert s[i] == t[i - 1];
        } else {
          assert t[j - 1] in t;
        }
      }
    }
  }

  /** Without repeated identities there are as many identities as units. */
  lemma {:induction false} DistinctIdsCount(us: seq<Unit>)
    requires DistinctIds(us)
    ensures |Ids(us)| == |us|
  {
    if |us| > 0 {
      assert us == [us[0]] + us[1..];
      ConsIds(us[0], us[1..]);
      DistinctIdsCount(us[1..]);
    }
  }

  /** Replacing a unit by a version of itself keeps the identities. */
  lemma UpdateKeepsIds(us: seq<Unit>, k: nat, v: Unit)
    requires k < |us| && v.id == us[k].id
    ensures Ids(us[k := v]) == Ids(us)
    ensures DistinctIds(us) ==> DistinctIds(us[k := v])
    ensures forall u | u in us[k := v] :: u == v || u in us
  {
    var r := us[k := v];
    forall u | u in r ensures u == v || u in us {
      var j :| 0 <= j < |r| && r[j] == u;
      if j != k { assert us[j] == u; }
    }
    forall u | u in us ensures u.id in Ids(r) {
      var j :| 0 <= j < |us| && us[j] == u;
      if j != k { assert r[j] == u; } else { assert r[k] == v; }
    }
  }

  /** Position of the first unit with this identity, or |us| when there is none. */
  function FirstIndex(us: seq<Unit>, id: nat): (k: nat)
    ensures k <= |us|
    ensures k < |us| <==> id in Ids(us)
    ensures k < |us| ==> us[k].id == id
    ensures forall i | 0 <= i < k :: us[i].id != id
  {
    if |us| == 0 then 0
    else if us[0].id == id then (assert us[0] in us; 0)
    else
      var k := 1 + FirstIndex(us[1..], id);
      assert us == [us[0]] + us[1..];
      ConsIds(us[0], us[1..]);
      k
  }

  /**
   * `remove_circle`'s list removal (`list.remove`): drop the first unit with
   * this identity if there is one, otherwise leave the list alone. Every other
   * unit stays exactly as it was, in its original order.
   */
  function RemoveById(us: seq<Unit>, id: nat): (r: seq<Unit>)
    ensures id !in Ids(us) ==> r == us
    ensures id in Ids(us) ==> |r| == |us| - 1
    ensures forall u | u in r :: u in us
    ensures DistinctIds(us) ==> DistinctIds(r) && Ids(r) == Ids(us) - {id}
  {
    if |us| == 0 then []
    else if us[0].id == id then us[1..]
    else
      var rest := RemoveById(us[1..], id);
      assert us == [us[0]] + us[1..];
      ConsIds(us[0], us[1..]);
      ConsIds(us[0], rest);
      [us[0]] + rest
  }

  /** Cutting position k out of the tail is cutting position k + 1 out of the list. */
  lemma ConsCut(us: seq<Unit>, k: nat)
    requires k + 1 < |us|
    ensures [us[0]] + (us[1..][..k] + us[1..][k + 1..]) == us[..k + 1] + us[k + 2..]
  {
    assert us[1..][..k] == us[1..k + 1];
    assert us[1..][k + 1..] == us[k + 2..];
  }

  /**
   * The removal in closed form: exactly the first unit with the identity is
   * cut out, and every other unit stays as it was, in its original order.
   */
  lemma {:induction false} RemoveByIdCutsFirst(us: seq<Unit>, id: nat)
    ensures var k := FirstIndex(us, id);
            && (k == |us| ==> RemoveById(us, id) == us)
            && (k < |us| ==> RemoveById(us, id) == us[..k] + us[k + 1..])
  {
    if |us| > 0 && us[0].id != id {
      RemoveByIdCutsFirst(us[1..], id);
      var k := FirstIndex(us[1..], id);
      if k < |us| - 1 {
        ConsCut(us, k);
      } else {
        assert us == [us[0]] + us[1..];
      }
    }
  }

  /** With distinct identities, removing the unit at position k cuts out exactly that position. */
  lemma {:induction false} RemoveAtPosition(us: seq<Unit>, k: nat)
    requires DistinctIds(us) && k < |us|
    ensures RemoveById(us, us[k].id) == us[..k] + us[k + 1..]
  {
    var id := us[k].id;
    assert us[k] in us;
    assert id in Ids(us);
    RemoveByIdCutsFirst(us, id);
  }

  /**
   * `after` keeps the same units as `before` minus some: each remaining unit
   * has an identity and path index of a unit of `before` and no more health,
   * and the remaining units keep their relative order. `f` maps each unit
   * of `after` to its position in `before`.
   */
  predicate HurtVia(after: seq<Unit>, before: seq<Unit>, f: seq<nat>) {
    && |f| == |after|
    && (forall i | 0 <= i < |f| ::
          && f[i] < |before|
          && after[i].id == before[f[i]].id
          && after[i].pathIndex == before[f[i]].pathIndex
          && after[i].health <= before[f[i]].health)
    && (forall i, j | 0 <= i < j < |f| :: f[i] < f[j])
  }

  ghost predicate HurtSubsequence(after: seq<Unit>, before: seq<Unit>) {
    exists f :: HurtVia(after, before, f)
  }

  function Identity(n: nat): (f: seq<nat>)
    ensures |f| == n && forall i | 0 <= i < n :: f[i] == i
  {
    seq(n, i => i)
  }

  lemma HurtSubsequenceRefl(us: seq<Unit>)
    ensures HurtSubsequence(us, us)
  {
    assert HurtVia(us, us, Identity(|us|));
  }

  /** Lowering one unit's health keeps everything else in place. */
  lemma HurtSubsequenceOfUpdate(us: seq<Unit>, k: nat, h: int)
    requires k < |us| && h <= us[k].health
    ensures HurtSubsequence(us[k := us[k].(health := h)], us)
  {
    assert HurtVia(us[k := us[k].(health := h)], us, Identity(|us|));
  }

  /** Cutting out one position keeps the rest in place and in order. */
  lemma HurtSubsequenceOfCut(us: seq<Unit>, k: nat)
    requires k < |us|
    ensures HurtSubsequence(us[..k] + us[k + 1..], us)
  {
    var r := us[..k] + us[k + 1..];
    var f := seq(|us| - 1, i => if i < k then i else i + 1);
    forall i | 0 <= i < |f| ensures r[i] == us[f[i]] {
      if i < k { assert r[i] == us[..k][i]; } else { assert r[i] == us[k + 1..][i - k]; }
    }
    assert HurtVia(r, us, f);
  }

  lemma HurtSubsequenceOfRemove(us: seq<Unit>, id: nat)
    ensures HurtSubsequence(RemoveById(us, id), us)
  {
    var k := FirstIndex(us, id);
    RemoveByIdCutsFirst(us, id);
    if k < |us| { HurtSubsequenceOfCut(us, k); } else { HurtSubsequenceRefl(us); }
  }

  lemma HurtSubsequenceTrans(a: seq<Unit>, b: seq<Unit>, c: seq<Unit>)
    requires HurtSubsequence(a, b) && HurtSubsequence(b, c)
    ensures HurtSubsequence(a, c)
  {
    var f :| HurtVia(a, b, f);
    var g :| HurtVia(b, c, g);
    var h := seq(|f|, i requires 0 <= i < |f| => g[f[i]]);
    assert HurtVia(a, c, h);
  }

  /**
   * Removing a unit twice is the same as removing it once, so the kill path
   * and the breach path cannot both take a unit off the active list.
   */
  lemma RemoveIsIdempotent(us: seq<Unit>, id: nat)
    requires DistinctIds(us)
    ensures RemoveById(RemoveById(us, id), id) == RemoveById(us, id)
  {
  }
}
