/**
 * The game loop's logic with the canvas, labels, message boxes and timers
 * removed: tower placement, one tower's shot, a pass of all towers, one
 * unit move, and the wave scheduler. Every timer callback becomes one event
 * of `Step`, and the clock is the explicit `now` of a combat tick.
 */
module Game {
  import opened Options
  import opened Geometry
  import opened Grid
  import opened Economy
  import opened Units
  import opened Towers

  /** Money and score credited for a kill, health lost for a breach. */
  const KillReward: int := 20
  const KillScore: int := 100
  const BreachDamage: int := 20

  /** Units spawned by waves 1 to 5 (`num_circles_per_wave`). */
  const WaveSizes: seq<nat> := [5, 8, 12, 16, 20]

  /** The fixed level: the map generator's grid and path cells, and the route. */
  datatype Level = Level(terrain: MapData, route: seq<Point>)

  /**
   * `circles` is `units`, `towers` with their cells stands for `towers` and
   * `tower_coordinates`, `wave` is `current_wave`, `inProgress` is
   * `game_in_progress`, and `nextId` is the identity the next unit gets.
   */
  datatype State = State(
    player: Player,
    units: seq<Unit>,
    towers: seq<Tower>,
    wave: nat,
    nextId: nat,
    inProgress: bool)

  function NewGame(): State {
    State(NewPlayer(), [], [], 0, 0, false)
  }

  // ---------------------------------------------------------------- placement

  /** The tower type chosen with the side buttons, if any. */
  datatype Selection = NothingSelected | Selected(kind: Archetype)

  /** What a click on a cell achieved. */
  datatype Placement = Placed | OnPath | Occupied | NoSelection | CannotAfford

  predicate TowerAt(towers: seq<Tower>, c: Point) {
    exists j | 0 <= j < |towers| :: towers[j].cell == c
  }

  /** `tower_placement_valid`: not a road cell, not a path cell, no tower anchored there. */
  predicate PlacementValid(level: Level, s: State, x: int, y: int)
    requires InGrid(level.terrain, x, y)
  {
    !IsPathCell(level.terrain, x, y) && !TowerAt(s.towers, Point(x, y))
  }

  /** `can_afford_tower`: charges the cost when the money suffices. */
  function CanAffordTower(p: Player, cost: int): (r: Option<Player>)
    ensures r.Some? <==> p.money >= cost
    ensures r.Some? ==> r.value.money == p.money - cost && r.value.(money := p.money) == p
  {
    if p.money >= cost then Some(DeductMoney(p, cost)) else None
  }

  /**
   * A click on grid cell (x, y). The cell is checked before the selection,
   * and the money last; every rejection leaves the state untouched, and an
   * accepted placement charges exactly the archetype's cost and appends
   * exactly one tower at (x, y).
   */
  function PlaceTower(level: Level, s: State, x: int, y: int, sel: Selection): (r: (State, Placement))
    requires InGrid(level.terrain, x, y)
    ensures r.1 == OnPath <==> IsPathCell(level.terrain, x, y)
    ensures r.1 == Occupied <==> !IsPathCell(level.terrain, x, y) && TowerAt(s.towers, Point(x, y))
    ensures r.1 == NoSelection <==> PlacementValid(level, s, x, y) && sel.NothingSelected?
    ensures r.1 == CannotAfford <==>
              PlacementValid(level, s, x, y) && sel.Selected? && s.player.money < StatsOf(sel.kind).cost
    ensures r.1 != Placed ==> r.0 == s
    ensures r.1 == Placed ==>
              && sel.Selected?
              && r.0.player.money == s.player.money - StatsOf(sel.kind).cost
              && r.0.player.(money := s.player.money) == s.player
              && r.0.towers == s.towers + [NewTower(sel.kind, Point(x, y))]
              && r.0.(player := s.player, towers := s.towers) == s
  {
    if !PlacementValid(level, s, x, y) then
      (s, if IsPathCell(level.terrain, x, y) then OnPath else Occupied)
    else
      match sel
      case NothingSelected => (s, NoSelection)
      case Selected(kind) =>
        match CanAffordTower(s.player, StatsOf(kind).cost)
        case None => (s, CannotAfford)
        case Some(paid) =>
          (s.(player := paid, towers := s.towers + [NewTower(kind, Point(x, y))]), Placed)
  }

  // ---------------------------------------------------------------- combat

  /** Every unit is still short of the end of the route. */
  predicate OnRoute(route: seq<Point>, units: seq<Unit>) {
    forall u | u in units :: u.pathIndex < |route|
  }

  /** What holds of every active unit: on the route, alive, identity handed out. */
  predicate UnitsOk(route: seq<Point>, nextId: nat, units: seq<Unit>) {
    forall u | u in units :: u.pathIndex < |route| && u.health > 0 && u.id < nextId
  }

  function Positions(route: seq<Point>, units: seq<Unit>): (ps: seq<Point>)
    requires OnRoute(route, units)
    ensures |ps| == |units|
    ensures forall k | 0 <= k < |units| :: ps[k] == Position(route, units[k])
  {
    seq(|units|, k requires 0 <= k < |units| => Position(route, units[k]))
  }

  /**
   * `shoot` of tower i at unit k: the cooldown restarts, the unit loses
   * exactly the tower's damage, and when that kills it the unit leaves the
   * active list and the player gets exactly one kill reward; otherwise the
   * player is untouched.
   */
  function Shoot(route: seq<Point>, s: State, i: nat, k: nat, now: int): (r: State)
    requires i < |s.towers| && k < |s.units|
    ensures r.towers == s.towers[i := Fired(s.towers[i], now)]
    ensures r.(player := s.player, units := s.units, towers := s.towers) == s
    ensures var h := s.units[k].health - StatsOf(s.towers[i].kind).damage;
            && (h <= 0 ==>
                  && |r.units| == |s.units| - 1
                  && r.player.money == s.player.money + KillReward
                  && r.player.score == s.player.score + KillScore
                  && r.player.health == s.player.health
                  && (DistinctIds(s.units) ==> Ids(r.units) == Ids(s.units) - {s.units[k].id})
                  && (DistinctIds(s.units) ==> r.units == s.units[..k] + s.units[k + 1..]))
            && (h > 0 ==>
                  && r.units == s.units[k := s.units[k].(health := h)]
                  && r.player == s.player)
    ensures HurtSubsequence(r.units, s.units)
    ensures Ids(r.units) <= Ids(s.units)
    ensures DistinctIds(s.units) ==> DistinctIds(r.units)
    ensures OnRoute(route, s.units) ==> OnRoute(route, r.units)
    ensures UnitsOk(route, s.nextId, s.units) ==> UnitsOk(route, s.nextId, r.units)
  {
    var t := s.towers[i];
    var hit := DecreaseHealth(s.units[k], StatsOf(t.kind).damage);
    var towers := s.towers[i := Fired(t, now)];
    assert s.units[k] in s.units;
    UpdateKeepsIds(s.units, k, hit);
    if Killed(hit) then
      HurtSubsequenceOfRemove(s.units, hit.id);
      assert DistinctIds(s.units) ==> RemoveById(s.units, hit.id) == s.units[..k] + s.units[k + 1..] by {
        if DistinctIds(s.units) { RemoveAtPosition(s.units, k); }
      }
      s.(towers := towers,
         units := RemoveById(s.units, hit.id),
         player := IncreaseScore(AddMoney(s.player, KillReward), KillScore))
    else
      HurtSubsequenceOfUpdate(s.units, k, hit.health);
      s.(towers := towers, units := s.units[k := hit])
  }

  /**
   * The unit tower i aims at: `find_closest_circle` over the active list,
   * which is the nearest unit strictly within range (the first on ties), or
   * None exactly when no unit is within range.
   */
  function Target(route: seq<Point>, s: State, i: nat): (r: Option<nat>)
    requires i < |s.towers| && OnRoute(route, s.units)
    ensures var t := s.towers[i];
            var ds := Distances(Positions(route, s.units), Anchor(t));
            && (r.None? <==> NoneInRange(ds, StatsOf(t.kind).range))
            && (r.Some? ==> r.value < |s.units| && IsClosest(ds, StatsOf(t.kind).range, r.value))
  {
    var t := s.towers[i];
    var ds := Distances(Positions(route, s.units), Anchor(t));
    FindClosestCorrect(ds, StatsOf(t.kind).range);
    FindClosest(ds, StatsOf(t.kind).range)
  }

  /**
   * One iteration of `update_towers`: tower i shoots when the cooldown is
   * over and some unit is strictly within range, and then at the unit the
   * reference description of the nearest target picks; otherwise nothing
   * changes.
   */
  function TowerTurn(route: seq<Point>, s: State, i: nat, now: int): (r: State)
    requires i < |s.towers| && OnRoute(route, s.units)
    ensures var t := s.towers[i];
            var ds := Distances(Positions(route, s.units), Anchor(t));
            && (!CanShoot(t, now) || NoneInRange(ds, StatsOf(t.kind).range) ==> r == s)
            && (CanShoot(t, now) && !NoneInRange(ds, StatsOf(t.kind).range) ==>
                  exists k | 0 <= k < |s.units| ::
                    IsClosest(ds, StatsOf(t.kind).range, k) && r == Shoot(route, s, i, k, now))
    ensures |r.towers| == |s.towers| && OnRoute(route, r.units)
  {
    var target := Target(route, s, i);
    if target.Some? && CanShoot(s.towers[i], now) then Shoot(route, s, i, target.value, now)
    else s
  }

  /** Towers differ at most by having fired at `now`. */
  predicate OnlyCooldowns(before: seq<Tower>, after: seq<Tower>, now: int) {
    && |after| == |before|
    && forall j | 0 <= j < |before| :: after[j] == before[j] || after[j] == Fired(before[j], now)
  }

  /**
   * `update_towers` from tower i on, in placement order. Over the pass, money
   * rises by exactly the kill reward and score by exactly the kill score for
   * every unit that left the active list, health is untouched, no unit
   * appears, and towers change only in their last shot time. Towers before
   * i are left alone, and no more units leave than towers from i on fired:
   * each tower shoots at most once, and only a shot removes a unit.
   */
  function CombatPass(route: seq<Point>, s: State, now: int, i: nat): (r: State)
    requires i <= |s.towers| && OnRoute(route, s.units)
    ensures OnlyCooldowns(s.towers, r.towers, now)
    ensures |r.units| <= |s.units|
    ensures r.player.money == s.player.money + KillReward * (|s.units| - |r.units|)
    ensures r.player.score == s.player.score + KillScore * (|s.units| - |r.units|)
    ensures r.player.health == s.player.health
    ensures r.wave == s.wave && r.nextId == s.nextId && r.inProgress == s.inProgress
    ensures OnRoute(route, r.units)
    ensures Ids(r.units) <= Ids(s.units)
    ensures DistinctIds(s.units) ==> DistinctIds(r.units)
    ensures UnitsOk(route, s.nextId, s.units) ==> UnitsOk(route, s.nextId, r.units)
    ensures forall j | 0 <= j < i :: r.towers[j] == s.towers[j]
    ensures |s.units| - |r.units| <= ShotsFrom(s.towers, r.towers, i)
    decreases |s.towers| - i
  {
    if i == |s.towers| then s
    else
      var rest := CombatPass(route, TowerTurn(route, s, i, now), now, i + 1);
      TurnThenRest(route, s, i, now, rest);
      rest
  }

  /** One step of the pass: tower i takes its turn, then the pass goes on from i + 1. */
  lemma CombatPassUnfold(route: seq<Point>, s: State, now: int, i: nat)
    requires i < |s.towers| && OnRoute(route, s.units)
    ensures CombatPass(route, s, now, i) == CombatPass(route, TowerTurn(route, s, i, now), now, i + 1)
  {
  }

  /** How many towers from position i on changed over a pass, that is, fired. */
  function ShotsFrom(before: seq<Tower>, after: seq<Tower>, i: nat): nat
    requires |before| == |after| && i <= |before|
  {
    |set j | i <= j < |before| && after[j] != before[j]|
  }

  /** The count from i is tower i's change plus the count from i + 1. */
  lemma ShotsFromSplit(before: seq<Tower>, after: seq<Tower>, i: nat)
    requires |before| == |after| && i < |before|
    ensures ShotsFrom(before, after, i)
         == (if after[i] != before[i] then 1 else 0) + ShotsFrom(before, after, i + 1)
  {
    var rest := set j | i + 1 <= j < |before| && after[j] != before[j];
    if after[i] != before[i] {
      assert (set j | i <= j < |before| && after[j] != before[j]) == rest + {i};
    } else {
      assert (set j | i <= j < |before| && after[j] != before[j]) == rest;
    }
  }

  /** The count only looks at towers from position i on. */
  lemma ShotsFromFrame(b1: seq<Tower>, b2: seq<Tower>, a: seq<Tower>, i: nat)
    requires |b1| == |b2| == |a| && i <= |a|
    requires forall j | i <= j < |a| :: b1[j] == b2[j]
    ensures ShotsFrom(b1, a, i) == ShotsFrom(b2, a, i)
  {
    assert (set j | i <= j < |a| && a[j] != b1[j]) == (set j | i <= j < |a| && a[j] != b2[j]);
  }

  /** One tower's turn changes at most that tower, and removes a unit only when it fired. */
  lemma TowerTurnShotCost(route: seq<Point>, s: State, i: nat, now: int)
    requires i < |s.towers| && OnRoute(route, s.units)
    ensures var mid := TowerTurn(route, s, i, now);
            && |mid.towers| == |s.towers|
            && (forall j | 0 <= j < |s.towers| && j != i :: mid.towers[j] == s.towers[j])
            && |s.units| - |mid.units| <= (if mid.towers[i] != s.towers[i] then 1 else 0)
  {
    var mid := TowerTurn(route, s, i, now);
    if mid != s {
      var t := s.towers[i];
      assert mid.towers[i] == Fired(t, now);
      assert CanShoot(t, now);
    }
  }

  /**
   * Tower i's turn followed by a rest of the pass `r` that leaves towers up
   * to i alone and removes at most one unit per tower it fires: then the
   * whole leaves the towers before i alone and obeys the same bound.
   */
  lemma TurnThenRest(route: seq<Point>, s: State, i: nat, now: int, r: State)
    requires i < |s.towers| && OnRoute(route, s.units)
    requires var mid := TowerTurn(route, s, i, now);
             && |r.towers| == |mid.towers|
             && (forall j | 0 <= j <= i :: r.towers[j] == mid.towers[j])
             && |mid.units| - |r.units| <= ShotsFrom(mid.towers, r.towers, i + 1)
    ensures forall j | 0 <= j < i :: r.towers[j] == s.towers[j]
    ensures |s.units| - |r.units| <= ShotsFrom(s.towers, r.towers, i)
  {
    var mid := TowerTurn(route, s, i, now);
    TowerTurnShotCost(route, s, i, now);
    ShotsFromFrame(mid.towers, s.towers, r.towers, i + 1);
    ShotsFromSplit(s.towers, r.towers, i);
  }

  /**
   * Over a pass the units still active are units that were active before,
   * in the same relative order, on the same waypoint and with no more
   * health: towers only hurt and remove units, never move or reorder them.
   */
  lemma {:induction false} CombatPassKeepsSurvivors(route: seq<Point>, s: State, now: int, i: nat)
    requires i <= |s.towers| && OnRoute(route, s.units)
    ensures HurtSubsequence(CombatPass(route, s, now, i).units, s.units)
    decreases |s.towers| - i
  {
    if i == |s.towers| {
      HurtSubsequenceRefl(s.units);
    } else {
      var mid := TowerTurn(route, s, i, now);
      CombatPassUnfold(route, s, now, i);
      CombatPassKeepsSurvivors(route, mid, now, i + 1);
      SurvivorsThenRest(route, s, i, now, CombatPass(route, mid, now, i + 1).units);
    }
  }

  /** Tower i's turn keeps the survivor relation, so it chains with the rest of the pass. */
  lemma SurvivorsThenRest(route: seq<Point>, s: State, i: nat, now: int, rest: seq<Unit>)
    requires i < |s.towers| && OnRoute(route, s.units)
    requires HurtSubsequence(rest, TowerTurn(route, s, i, now).units)
    ensures HurtSubsequence(rest, s.units)
  {
    var mid := TowerTurn(route, s, i, now);
    if mid == s {
      HurtSubsequenceRefl(s.units);
    }
    HurtSubsequenceTrans(rest, mid.units, s.units);
  }

  /**
   * A whole `update_towers` pass: towers change only in their last shot
   * time, and each kill pays exactly one reward and one kill score. The units
   * still active are units that were active before, in the same order, on the
   * same waypoint and with no more health; no unit appears, and no more units
   * leave than towers fired. The wave, the identity counter and the
   * in-progress flag are untouched.
   */
  function Combat(route: seq<Point>, s: State, now: int): (r: State)
    requires OnRoute(route, s.units)
    ensures OnlyCooldowns(s.towers, r.towers, now)
    ensures HurtSubsequence(r.units, s.units)
    ensures r.player.money == s.player.money + KillReward * (|s.units| - |r.units|)
    ensures r.player.score == s.player.score + KillScore * (|s.units| - |r.units|)
    ensures r.player.health == s.player.health
    ensures r.wave == s.wave && r.nextId == s.nextId && r.inProgress == s.inProgress
    ensures |s.units| - |r.units| <= ShotsFrom(s.towers, r.towers, 0)
  {
    CombatPassKeepsSurvivors(route, s, now, 0);
    CombatPass(route, s, now, 0)
  }

  /**
   * With distinct identities, the money a combat tick earns is exactly one
   * kill reward per distinct unit it took off the board: no unit is paid
   * for twice, and none that is still active is paid for at all.
   */
  lemma CombatPaysEachKillOnce(route: seq<Point>, s: State, now: int)
    requires OnRoute(route, s.units) && DistinctIds(s.units)
    ensures var r := Combat(route, s, now);
            && r.player.money == s.player.money + KillReward * |Ids(s.units) - Ids(r.units)|
            && r.player.score == s.player.score + KillScore * |Ids(s.units) - Ids(r.units)|
  {
    var r := Combat(route, s, now);
    DistinctIdsCount(s.units);
    DistinctIdsCount(r.units);
    assert Ids(r.units) <= Ids(s.units);
    assert |Ids(s.units) - Ids(r.units)| == |Ids(s.units)| - |Ids(r.units)|;
  }

  /**
   * A tower acting twice at the same instant acts once: after a shot its
   * cooldown blocks a second one, and when it did not shoot nothing changed.
   */
  lemma TowerTurnIsIdempotent(route: seq<Point>, s: State, i: nat, now: int)
    requires i < |s.towers| && OnRoute(route, s.units)
    ensures var r := TowerTurn(route, s, i, now);
            OnRoute(route, r.units) && i < |r.towers| && TowerTurn(route, r, i, now) == r
  {
    var r := TowerTurn(route, s, i, now);
    if r != s {
      assert r.towers[i] == Fired(s.towers[i], now);
      CooldownAfterShot(s.towers[i], now, now);
    }
  }

  // ---------------------------------------------------------------- movement

  /**
   * `move_circle` for the unit at list position k. Before the last waypoint
   * exactly its path index grows by one; on reaching it the player loses
   * exactly the breach damage and the unit leaves the list; a unit at or past
   * the end is left alone.
   */
  function MoveUnit(route: seq<Point>, s: State, k: nat): (r: State)
    requires k < |s.units|
    ensures r.(player := s.player, units := s.units) == s
    ensures var u := s.units[k];
            && (u.pathIndex + 1 < |route| ==>
                  r == s.(units := s.units[k := u.(pathIndex := u.pathIndex + 1)]))
            && (u.pathIndex + 1 == |route| ==>
                  && r.player.health == s.player.health - BreachDamage
                  && r.player.(health := s.player.health) == s.player
                  && |r.units| == |s.units| - 1
                  && (DistinctIds(s.units) ==> Ids(r.units) == Ids(s.units) - {u.id})
                  && (DistinctIds(s.units) ==> r.units == s.units[..k] + s.units[k + 1..]))
            && (u.pathIndex >= |route| ==> r == s)
    ensures Ids(r.units) <= Ids(s.units)
    ensures DistinctIds(s.units) ==> DistinctIds(r.units)
    ensures UnitsOk(route, s.nextId, s.units) ==> UnitsOk(route, s.nextId, r.units)
  {
    var u := s.units[k];
    assert u in s.units;
    match Advance(route, u)
    case Idle => s
    case Stepped(next) =>
      UpdateKeepsIds(s.units, k, next);
      s.(units := s.units[k := next])
    case Breached(_) =>
      assert DistinctIds(s.units) ==> RemoveById(s.units, u.id) == s.units[..k] + s.units[k + 1..] by {
        if DistinctIds(s.units) { RemoveAtPosition(s.units, k); }
      }
      s.(player := TakeDamage(s.player, BreachDamage), units := RemoveById(s.units, u.id))
  }

  /**
   * One step of `update_circles`: move the unit, then stop the game when the
   * player's health is gone.
   */
  function SweepMove(route: seq<Point>, s: State, k: nat): (r: State)
    requires k < |s.units|
    ensures r.inProgress == (s.inProgress && !IsGameOver(MoveUnit(route, s, k).player))
    ensures r.(inProgress := s.inProgress) == MoveUnit(route, s, k)
  {
    var moved := MoveUnit(route, s, k);
    if IsGameOver(moved.player) then moved.(inProgress := false) else moved
  }

  // ---------------------------------------------------------------- waves

  function SpawnWave(firstId: nat, n: nat): (us: seq<Unit>)
    ensures |us| == n
    ensures forall j | 0 <= j < n :: us[j] == Spawned(firstId + j)
  {
    seq(n, j requires 0 <= j < n => Spawned(firstId + j))
  }

  /**
   * `new_wave`: nothing once the game is over; otherwise the wave number
   * grows by exactly one and exactly that wave's number of fresh units, at
   * full health before the first waypoint, join the end of the list.
   */
  function NewWave(s: State): (r: State)
    requires IsGameOver(s.player) || s.wave < |WaveSizes|
    ensures IsGameOver(s.player) ==> r == s
    ensures !IsGameOver(s.player) ==>
              && r.wave == s.wave + 1
              && |r.units| == |s.units| + WaveSizes[s.wave]
              && r.units[..|s.units|] == s.units
              && (forall j | |s.units| <= j < |r.units| ::
                    r.units[j].pathIndex == 0 && r.units[j].health == UnitHealth
                    && s.nextId <= r.units[j].id < r.nextId)
              && r.(units := s.units, wave := s.wave, nextId := s.nextId) == s
  {
    if IsGameOver(s.player) then s
    else
      var n := WaveSizes[s.wave];
      s.(wave := s.wave + 1, units := s.units + SpawnWave(s.nextId, n), nextId := s.nextId + n)
  }

  /** Fresh identities keep all identities distinct and below the new counter. */
  lemma SpawnKeepsIdsDistinct(us: seq<Unit>, firstId: nat, n: nat)
    requires DistinctIds(us) && forall u | u in us :: u.id < firstId
    ensures DistinctIds(us + SpawnWave(firstId, n))
    ensures forall u | u in us + SpawnWave(firstId, n) :: u.id < firstId + n
  {
    var all := us + SpawnWave(firstId, n);
    forall i, j | 0 <= i < j < |all| ensures all[i].id != all[j].id {
      if j >= |us| {
        assert all[j].id == firstId + (j - |us|);
        if i < |us| { assert all[i] in us; }
        else { assert all[i].id == firstId + (i - |us|); }
      }
    }
    forall u | u in all ensures u.id < firstId + n {
      var j :| 0 <= j < |all| && all[j] == u;
      if j >= |us| { assert all[j].id == firstId + (j - |us|); } else { assert all[j] in us; }
    }
  }

  datatype WaveStatus = Pending | Over | NextWave

  /**
   * One poll of `check_wave_completion` with the delayed `new_wave` call it
   * schedules: while units remain nothing happens; once the list is empty the
   * game ends if health is gone, and otherwise the next wave starts.
   */
  function CheckWaveCompletion(s: State): (r: (State, WaveStatus))
    requires |s.units| > 0 || IsGameOver(s.player) || s.wave < |WaveSizes|
    ensures r.1 == Pending <==> |s.units| > 0
    ensures r.1 == Over <==> |s.units| == 0 && IsGameOver(s.player)
    ensures r.1 == Pending ==> r.0 == s
    ensures r.1 == Over ==> r.0 == s.(inProgress := false)
    ensures r.1 == NextWave ==> r.0 == NewWave(s)
    ensures r.0.wave != s.wave ==> |s.units| == 0 && r.0.wave == s.wave + 1
  {
    if |s.units| > 0 then (s, Pending)
    else if IsGameOver(s.player) then (s.(inProgress := false), Over)
    else (NewWave(s), NextWave)
  }

  /** `start_game`: starts (or resumes) with a new wave unless already running. */
  function StartGame(s: State): (r: State)
    requires s.inProgress || IsGameOver(s.player) || s.wave < |WaveSizes|
    ensures r.inProgress
    ensures s.inProgress ==> r == s
    ensures !s.inProgress ==> r == NewWave(s.(inProgress := true))
  {
    if s.inProgress then s else NewWave(s.(inProgress := true))
  }

  // ---------------------------------------------------------------- simulation

  /**
   * The callbacks that drive the game. Each is treated as atomic: the event
   * processing that runs nested inside a callback in the game is not modelled.
   */
  datatype Event =
    | Click(x: int, y: int, sel: Selection)  // left click on a grid cell
    | PressStart                             // the Start Game button
    | Sweep(k: nat)                          // `update_circles` reaching list position k
    | SelfMove(k: nat)                       // a unit's own re-armed `move_circle`
    | TowerTick(now: int)                    // `update_towers` at clock `now`
    | WaveTick                               // `check_wave_completion` poll

  /** Grid cells that hold a tower are buildable and held by one tower only. */
  predicate TowersOk(level: Level, towers: seq<Tower>) {
    && (forall j | 0 <= j < |towers| ::
          InGrid(level.terrain, towers[j].cell.x, towers[j].cell.y)
          && !IsPathCell(level.terrain, towers[j].cell.x, towers[j].cell.y))
    && (forall i, j | 0 <= i < j < |towers| :: towers[i].cell != towers[j].cell)
  }

  /** The invariant every reachable state keeps. */
  predicate Valid(level: Level, s: State) {
    && |level.route| >= 1
    && s.player.money >= 0
    && s.wave <= |WaveSizes|
    && UnitsOk(level.route, s.nextId, s.units)
    && DistinctIds(s.units)
    && TowersOk(level, s.towers)
    && (!s.inProgress ==> |s.units| == 0 || IsGameOver(s.player))
  }

  /**
   * When each callback can run: clicks land on the grid, list positions
   * exist, the wave poll runs only after a wave was started, and the wave
   * counter stays within the five configured waves.
   */
  predicate Enabled(level: Level, s: State, e: Event) {
    match e
    case Click(x, y, _) => InGrid(level.terrain, x, y)
    case PressStart => s.inProgress || IsGameOver(s.player) || s.wave < |WaveSizes|
    case Sweep(k) => k < |s.units|
    case SelfMove(k) => k < |s.units|
    case TowerTick(_) => true
    case WaveTick =>
      && (s.inProgress || IsGameOver(s.player))
      && (|s.units| > 0 || IsGameOver(s.player) || s.wave < |WaveSizes|)
  }

  function Step(level: Level, s: State, e: Event): State
    requires Valid(level, s) && Enabled(level, s, e)
  {
    match e
    case Click(x, y, sel) => PlaceTower(level, s, x, y, sel).0
    case PressStart => StartGame(s)
    case Sweep(k) => SweepMove(level.route, s, k)
    case SelfMove(k) => MoveUnit(level.route, s, k)
    case TowerTick(now) => Combat(level.route, s, now)
    case WaveTick => CheckWaveCompletion(s).0
  }

  lemma NewGameIsValid(level: Level)
    requires |level.route| >= 1
    ensures Valid(level, NewGame())
  {
  }

  lemma NewWaveKeepsValid(level: Level, s: State)
    requires Valid(level, s) && (IsGameOver(s.player) || s.wave < |WaveSizes|)
    requires s.inProgress || IsGameOver(s.player)
    ensures Valid(level, NewWave(s))
  {
    if !IsGameOver(s.player) {
      SpawnKeepsIdsDistinct(s.units, s.nextId, WaveSizes[s.wave]);
      var r := NewWave(s);
      assert r.units == s.units + SpawnWave(s.nextId, WaveSizes[s.wave]);
    }
  }

  lemma ClickKeepsValid(level: Level, s: State, x: int, y: int, sel: Selection)
    requires Valid(level, s) && InGrid(level.terrain, x, y)
    ensures Valid(level, PlaceTower(level, s, x, y, sel).0)
  {
    var r := PlaceTower(level, s, x, y, sel);
    if r.1 == Placed {
      var ts := r.0.towers;
      assert ts[|s.towers|].cell == Point(x, y);
      assert forall j | 0 <= j < |s.towers| :: ts[j] == s.towers[j];
      assert !TowerAt(s.towers, Point(x, y));
    }
  }

  lemma MoveKeepsValid(level: Level, s: State, k: nat)
    requires Valid(level, s) && k < |s.units|
    ensures Valid(level, MoveUnit(level.route, s, k))
    ensures Valid(level, SweepMove(level.route, s, k))
  {
  }

  lemma CombatKeepsValid(level: Level, s: State, now: int)
    requires Valid(level, s)
    ensures Valid(level, Combat(level.route, s, now))
  {
    var r := CombatPass(level.route, s, now, 0);
    assert r == Combat(level.route, s, now);
    assert r.player.money >= s.player.money;
    assert UnitsOk(level.route, r.nextId, r.units) && DistinctIds(r.units);
    assert TowersOk(level, r.towers) by {
      assert forall j | 0 <= j < |s.towers| :: r.towers[j].cell == s.towers[j].cell;
    }
  }

  /** Every callback keeps the invariant. */
  lemma {:induction false} StepKeepsValid(level: Level, s: State, e: Event)
    requires Valid(level, s) && Enabled(level, s, e)
    ensures Valid(level, Step(level, s, e))
  {
    match e
    case Click(x, y, sel) => ClickKeepsValid(level, s, x, y, sel);
    case PressStart =>
      if !s.inProgress {
        NewWaveKeepsValid(level, s.(inProgress := true));
      }
    case Sweep(k) => MoveKeepsValid(level, s, k);
    case SelfMove(k) => MoveKeepsValid(level, s, k);
    case TowerTick(now) => CombatKeepsValid(level, s, now);
    case WaveTick =>
      if |s.units| == 0 && !IsGameOver(s.player) {
        NewWaveKeepsValid(level, s);
      }
  }

  /**
   * Across any callback the wave number only ever grows by one, and only
   * when the active list was empty, with exactly that wave's units added;
   * the score never falls and health never rises.
   */
  lemma {:induction false} StepProgress(level: Level, s: State, e: Event)
    requires Valid(level, s) && Enabled(level, s, e)
    ensures var r := Step(level, s, e);
            && (r.wave == s.wave || r.wave == s.wave + 1)
            && (r.wave != s.wave ==> |s.units| == 0 && |r.units| == WaveSizes[s.wave])
            && r.player.score >= s.player.score
            && r.player.health <= s.player.health
            && (IsGameOver(s.player) ==> IsGameOver(r.player))
  {
    match e
    case Click(x, y, sel) =>
    case PressStart =>
    case Sweep(k) =>
    case SelfMove(k) =>
    case TowerTick(now) =>
    case WaveTick =>
  }

  /**
   * Where the money goes across any callback: a click either places exactly
   * one tower and pays exactly its archetype's cost, or changes nothing; a
   * combat tick earns exactly the kill reward for each unit it takes off the
   * list; every other callback leaves the money alone (a breach costs health,
   * not money, and a new wave is free).
   */
  lemma {:induction false} StepMoneyAccounting(level: Level, s: State, e: Event)
    requires Valid(level, s) && Enabled(level, s, e)
    ensures var r := Step(level, s, e);
            match e
            case Click(_, _, sel) =>
              || (r.towers == s.towers && r.player.money == s.player.money)
              || (&& sel.Selected?
                  && |r.towers| == |s.towers| + 1
                  && r.towers[..|s.towers|] == s.towers
                  && r.player.money == s.player.money - StatsOf(sel.kind).cost)
            case TowerTick(_) =>
              r.player.money == s.player.money + KillReward * (|s.units| - |r.units|)
            case _ => r.player.money == s.player.money
  {
    match e
    case Click(x, y, sel) =>
      var r := PlaceTower(level, s, x, y, sel);
      if r.1 == Placed {
        assert r.0.towers[|s.towers|] == NewTower(sel.kind, Point(x, y));
      }
    case PressStart =>
    case Sweep(k) =>
    case SelfMove(k) =>
    case TowerTick(now) =>
    case WaveTick =>
  }
}
