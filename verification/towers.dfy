/**
 * Towers: the fixed archetype catalog, the fire-rate cooldown and the
 * nearest-target search.
 */
module Towers {
  import opened Options
  import opened Geometry

  /** Side of one grid cell in canvas pixels. */
  const CellSize: int := 20

  datatype Archetype = Basic | Sniper | MachineGun

  /** A tower's reach: a radius in pixels, or unlimited (the `'inf'` default). */
  datatype Range = Within(radius: nat) | Unlimited

  datatype Stats = Stats(cost: nat, range: Range, fireRate: nat, damage: nat)

  /**
   * The catalog the placement handler builds towers from. The sniper keeps
   * the constructor's default range, and the basic tower its default damage.
   * Every archetype fires at a positive rate and does positive damage, and
   * the sniper is the only one without a range limit.
   */
  function StatsOf(kind: Archetype): (r: Stats)
    ensures r.fireRate > 0 && r.damage > 0
    ensures r.range.Unlimited? <==> kind == Sniper
  {
    match kind
    case Basic => Stats(170, Within(200), 1000, 10)
    case Sniper => Stats(200, Unlimited, 2000, 30)
    case MachineGun => Stats(250, Within(100), 200, 5)
  }

  /** `last_shot_time` starts at 0; `cell` is the grid cell it was placed on. */
  datatype Tower = Tower(kind: Archetype, cell: Point, lastShot: int)

  function NewTower(kind: Archetype, cell: Point): Tower {
    Tower(kind, cell, 0)
  }

  /**
   * The tower's canvas position: the top-left corner of its rectangle. It
   * lies on the cell grid, and dividing by the cell size gives the cell back.
   */
  function Anchor(t: Tower): (r: Point)
    ensures r.x % CellSize == 0 && r.y % CellSize == 0
    ensures r.x / CellSize == t.cell.x && r.y / CellSize == t.cell.y
  {
    Point(t.cell.x * CellSize, t.cell.y * CellSize)
  }

  /** `can_shoot` with the clock passed in as `now`, in milliseconds. */
  predicate CanShoot(t: Tower, now: int) {
    now - t.lastShot >= StatsOf(t.kind).fireRate
  }

  /**
   * The cooldown part of `shoot`: the last shot time becomes `now`, so the
   * tower cannot fire again at the same instant; archetype and cell stay.
   */
  function Fired(t: Tower, now: int): (r: Tower)
    ensures r.lastShot == now && !CanShoot(r, now)
    ensures r.kind == t.kind && r.cell == t.cell
  {
    t.(lastShot := now)
  }

  /**
   * After a shot the tower is ready again exactly when a full fire-rate
   * interval has passed; in particular never at the same instant.
   */
  lemma CooldownAfterShot(t: Tower, now: int, later: int)
    ensures CanShoot(Fired(t, now), later) <==> later - now >= StatsOf(t.kind).fireRate
    ensures !CanShoot(Fired(t, now), now)
  {
  }

  /** Squared-distance bound of the search: the current `min_distance`, squared. */
  datatype Bound = NoBound | Below(limit: int)

  predicate Under(d: int, b: Bound) {
    b.NoBound? || d < b.limit
  }

  function InitialBound(range: Range): Bound {
    match range
    case Unlimited => NoBound
    case Within(r) => Below(r * r)
  }

  /** A squared distance strictly inside the tower's range. */
  predicate InRange(range: Range, d: int) {
    Under(d, InitialBound(range))
  }

  /** Squared distance from the tower's anchor to each unit, in list order. */
  function Distances(ps: seq<Point>, tp: Point): seq<int> {
    seq(|ps|, j requires 0 <= j < |ps| => Dist2(ps[j], tp))
  }

  /**
   * The loop of `find_closest_circle` from position i on, over the squared
   * distances: a unit replaces the current choice only when strictly closer
   * than the current bound.
   */
  function ClosestFrom(ds: seq<int>, i: nat, best: Option<nat>, b: Bound): Option<nat>
    requires i <= |ds|
    decreases |ds| - i
  {
    if i == |ds| then best
    else if Under(ds[i], b) then ClosestFrom(ds, i + 1, Some(i), Below(ds[i]))
    else ClosestFrom(ds, i + 1, best, b)
  }

  /**
   * Index of the unit the tower aims at, if any, given the squared distance
   * `ds[j]` from the tower's anchor to unit j (see `Distances`).
   */
  function FindClosest(ds: seq<int>, range: Range): Option<nat> {
    ClosestFrom(ds, 0, None, InitialBound(range))
  }

  /**
   * Independent description of the target among squared distances `ds`:
   * strictly within range, no unit nearer, and every earlier unit strictly
   * farther (ties go to the first).
   */
  predicate IsClosest(ds: seq<int>, range: Range, k: nat) {
    && k < |ds|
    && InRange(range, ds[k])
    && (forall j | 0 <= j < |ds| :: ds[k] <= ds[j])
    && (forall j | 0 <= j < k :: ds[k] < ds[j])
  }

  predicate NoneInRange(ds: seq<int>, range: Range) {
    forall j | 0 <= j < |ds| :: !InRange(range, ds[j])
  }

  /** What the loop knows after scanning the first i distances. */
  predicate ScanInvariant(ds: seq<int>, range: Range, i: nat, best: Option<nat>, b: Bound) {
    && i <= |ds|
    && match best
       case None =>
         && b == InitialBound(range)
         && forall j | 0 <= j < i :: !InRange(range, ds[j])
       case Some(k) =>
         && k < i
         && b == Below(ds[k])
         && InRange(range, ds[k])
         && (forall j | 0 <= j < i :: ds[k] <= ds[j])
         && (forall j | 0 <= j < k :: ds[k] < ds[j])
  }

  lemma {:induction false} ClosestFromCorrect(ds: seq<int>, range: Range, i: nat, best: Option<nat>, b: Bound)
    requires ScanInvariant(ds, range, i, best, b)
    ensures var r := ClosestFrom(ds, i, best, b);
            && (r.None? <==> NoneInRange(ds, range))
            && (r.Some? ==> IsClosest(ds, range, r.value))
    decreases |ds| - i
  {
    if i < |ds| {
      if Under(ds[i], b) {
        ClosestFromCorrect(ds, range, i + 1, Some(i), Below(ds[i]));
      } else {
        ClosestFromCorrect(ds, range, i + 1, best, b);
      }
    }
  }

  /**
   * `find_closest_circle` answers None exactly when no unit is strictly
   * within range, and otherwise the nearest unit, the earliest on ties.
   */
  lemma FindClosestCorrect(ds: seq<int>, range: Range)
    ensures FindClosest(ds, range).None? <==> NoneInRange(ds, range)
    ensures FindClosest(ds, range).Some? ==> IsClosest(ds, range, FindClosest(ds, range).value)
  {
    ClosestFromCorrect(ds, range, 0, None, InitialBound(range));
  }

  /** The description pins the target down: at most one unit meets it. */
  lemma ClosestIsUnique(ds: seq<int>, range: Range, k1: nat, k2: nat)
    requires IsClosest(ds, range, k1) && IsClosest(ds, range, k2)
    ensures k1 == k2
  {
  }
}
