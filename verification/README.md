# Tower defense game logic in Dafny

This project models the game logic of a single-player tkinter tower-defense
game (`game_solution.py`). Hostile circles ("units") walk a fixed route of
waypoints. The player spends money to place towers on grid cells off the path.
Towers shoot the nearest unit in range under a fire-rate cooldown. A kill pays
20 money and 100 score. A unit that reaches the end of the route costs the
player 20 health. Waves of 5, 8, 12, 16 and 20 units are spawned one after
another, each only once the previous one has been cleared. At game over the
player's score goes into a leaderboard that is kept sorted by score.

Everything the game draws, schedules or reads from disk is stripped away. What
remains is a set of pure functions over immutable values:

- `Economy`: the `Player` record (money, health, score) and its mutators.
- `Units`: a unit (identity, path index, health), its one-waypoint move, its
  health colour, and removal from the active list by identity.
- `Towers`: the archetype catalog, the cooldown, and the nearest-target search.
- `Grid`: the map generator's cell matrix and path list, and path marking.
- `Game`: tower placement, a single shot, a pass of all towers, a unit move,
  the wave scheduler, and `Step`, which applies any one of the game's
  callbacks. `Valid` is the invariant every callback keeps.
- `Leaderboard`: `add_score`, which appends and then stably sorts by score.
- `Options`, `Geometry`: `Option`, points and squared distances.

Modelling choices:

- Wall-clock time (`time.time() * 1000`) is the explicit integer `now` of a
  combat tick, in milliseconds. The game reads the clock afresh for each tower
  in `can_shoot` (game_solution.py:297) and again in `shoot`
  (game_solution.py:311); the model uses one `now` for the whole pass and for
  both reads.
- `hypot` distances are compared as squared integer distances. A range of
  `'inf'` is `Unlimited`. The nearest-target search runs over the list of
  squared distances from the tower to each unit (`Towers.Distances`), which is
  what the game's loop computes for each unit in turn.
- Python object identity of a unit is a numeric `id`. The game state hands out
  fresh ids from `nextId`.
- A tower sits at the top-left corner of its rectangle, which is its cell times
  20 pixels. A unit is drawn at (-100, -100) until its first move. After that it
  sits at the waypoint it last moved to. So the unlimited-range sniper can
  shoot units that have not entered the screen yet, as in the game.
- The occupancy check compares only the anchor cell of each tower, as the game
  does. Towers are drawn three cells wide, so their drawings may overlap.
- In the game, `Tower.shoot` credits the kill and then fails on
  `self.circles.remove`; that exception is caught in `update_towers`. By then
  the unit has already left the active list through `decrease_health`. The model
  gives that intended outcome: the unit is removed once and paid for once.
- Every callback is one `Game.Event`: a click, the Start button, one
  `update_circles` step, one re-armed `move_circle`, one `update_towers` pass,
  and one `check_wave_completion` poll together with the `new_wave` it
  schedules. Each event is atomic; the nested event processing inside a
  callback in the game is left out (see below).
- Game over is checked in three places: `new_wave` returns early,
  `check_wave_completion` calls `game_over` once the list is empty, and
  `update_circles` calls `game_over` and stops re-arming itself after the move
  that finds health gone. Each unit's own `move_circle` chain and
  `update_towers` keep running after game over, so the model does not treat
  game over as a state where nothing happens.

## Model

| member | source | states |
|---|---|---|
| `Economy.DeductMoney` | game_solution.py:256-257 | money falls by exactly the amount; health and score are unchanged |
| `Economy.AddMoney` | game_solution.py:259-260 | money rises by exactly the amount; health and score are unchanged |
| `Economy.AddHealth` | game_solution.py:262-263 | health rises by exactly the amount; money and score are unchanged |
| `Economy.TakeDamage` | game_solution.py:265-267 | health falls by exactly the amount; money and score are unchanged |
| `Economy.IncreaseScore` | game_solution.py:269-270 | score rises by exactly the amount; money and health are unchanged |
| `Economy.IsGameOver` | game_solution.py:272-273 | game over exactly when health is at or below zero (the definition; `Game.StepProgress` states that no callback leaves it) |
| `Towers.StatsOf` | game_solution.py:736-771 | the archetype catalog the placement handler builds towers from, with the constructor defaults of game_solution.py:278-281: basic costs 170, has range 200, fire rate 1000 ms and damage 10 (the constructor's default); sniper costs 200, has unlimited range (the constructor's default `'inf'`), fire rate 2000 ms and damage 30; machine gun costs 250, has range 100, fire rate 200 ms and damage 5. Every fire rate and damage is positive, and only the sniper has no range limit |
| `Towers.Anchor` | game_solution.py:334-343 | the point `find_closest_circle` measures from: the top-left corner of the tower's rectangle, its cell times 20 pixels, so it lies on the cell grid and gives the cell back when divided by 20 |
| `Towers.CanShoot` | game_solution.py:295-301 | the cooldown test: a tower may fire when at least its fire rate in milliseconds has passed since its last shot (the definition; its consequences are in `Towers.CooldownAfterShot`) |
| `Towers.Fired` | game_solution.py:311 | a shot sets the last shot time to `now`, so the tower cannot fire again at the same instant; archetype and cell stay |
| `Towers.CooldownAfterShot` | game_solution.py:295-311 | after a shot at `now` the tower can fire again exactly once a full fire-rate interval has passed, and never at `now` itself |
| `Towers.ClosestFromCorrect` | game_solution.py:345-359 | from any point of the scan that satisfies the loop invariant, the result is the nearest unit strictly within range (the earliest one on ties), or None exactly when no unit is within range |
| `Towers.FindClosest` | game_solution.py:342-361 | `find_closest_circle` as the left-to-right scan with a shrinking strict bound that starts at the range (the definition; its meaning is `Towers.FindClosestCorrect`) |
| `Towers.FindClosestCorrect` | game_solution.py:342-361 | `find_closest_circle` returns None exactly when no unit is strictly within range. Otherwise it returns a unit strictly within range that no unit is nearer than, and every earlier unit is strictly farther |
| `Towers.ClosestIsUnique` | game_solution.py:357-359 | at most one unit meets that description, so it defines the target completely |
| `Units.Position` | game_solution.py:366-391 | where a unit is drawn: (-100, -100) until its first move, then the waypoint `route[pathIndex - 1]` it last moved to (the definition; `Units.MoveDrawsAtWaypoint` ties it to a move) |
| `Units.MoveDrawsAtWaypoint` | game_solution.py:382-391 | a move that steps or breaches leaves the unit drawn at exactly the waypoint its index named before the move |
| `Units.Advance` | game_solution.py:380-400 | below the end of the route a move raises the path index by exactly one. The move onto the last waypoint is a breach. A unit at or past the end does not move |
| `Units.WalkBreachesAtEnd` | game_solution.py:380-400 | a unit at path index i moves exactly one waypoint per move and breaches on exactly the (len(route) - i)-th move |
| `Units.DecreaseHealth` | game_solution.py:425-427 | health falls by exactly the damage; identity and path index stay; the unit is dead (health at or below zero) exactly when the damage reaches its remaining health |
| `Units.HealthColour` | game_solution.py:402-411 | green exactly above 75 health, yellow exactly above 50 up to 75, orange exactly above 25 up to 50, red exactly at 25 or below |
| `Units.ColourWorsensWithDamage` | game_solution.py:402-411 | less health never gives a healthier-looking colour |
| `Units.FirstIndex` | game_solution.py:423 | the position `list.remove` acts on: the first unit with the identity, or the length of the list exactly when no unit has it |
| `Units.RemoveById` | game_solution.py:417-423 | a unit that is not in the list leaves it unchanged. Otherwise the list loses exactly one entry, and with distinct identities exactly that identity disappears. Nothing new appears |
| `Units.RemoveByIdCutsFirst` | game_solution.py:417-423 | the removal cuts out exactly the first unit with the identity; every other unit stays as it was, in its original order |
| `Units.RemoveAtPosition` | game_solution.py:417-430 | with distinct identities, removing the unit found at position k cuts out exactly position k |
| `Units.RemoveIsIdempotent` | game_solution.py:417-423 | removing the same unit twice equals removing it once |
| `Grid.NewMap` | game_solution.py:443-445 | a new map has the requested dimensions, no road cell and no path |
| `Grid.MarkCell` | game_solution.py:471 | the marked cell becomes road (1), every other cell keeps its value, and the grid keeps its shape |
| `Grid.MarkPath` | game_solution.py:469-472 | the path list gains the coordinates in order. A cell is road afterwards exactly when it is one of the coordinates or was road before; the grid's shape stays |
| `Grid.LoadedPathIsExactlyBlocked` | game_solution.py:469-472 | on a fresh map with the path loaded, a cell counts as a path cell for placement exactly when it is a path coordinate |
| `Game.PlacementValid` | game_solution.py:779-799 | a cell takes a tower exactly when it is neither road nor in the path list and no tower is anchored on it (the definition; `Game.PlaceTower` and `Grid.LoadedPathIsExactlyBlocked` state its consequences) |
| `Game.CanAffordTower` | game_solution.py:801-810 | the purchase succeeds exactly when money >= cost, and then only the money changes, down by exactly the cost |
| `Game.PlaceTower` | game_solution.py:724-799 | a click on a road or path cell is rejected with OnPath, and a click on a cell anchoring a tower with Occupied. With no tower selected it is NoSelection, and with too little money CannotAfford. A rejection changes nothing. An accepted placement lowers money by exactly the archetype's cost (170, 200 or 250), appends exactly one tower at (x, y) and changes nothing else |
| `Game.Shoot` | game_solution.py:303-321 | the tower's cooldown restarts at `now` and the target loses exactly the tower's damage. If that leaves it at 0 health or less, it leaves the active list and money and score rise by exactly 20 and 100; with distinct identities exactly its position is cut out and every other unit stays as it was, in order. Otherwise the unit's health is updated in place and the player is unchanged. Either way the remaining units are the old ones, in order, with the same path index and no more health |
| `Game.Target` | game_solution.py:816 | the unit a tower aims at is the nearest one strictly within range (the first on ties), and there is none exactly when no unit is within range |
| `Game.TowerTurn` | game_solution.py:815-822 | a tower whose cooldown is running, or that has no unit within range, changes nothing; otherwise it shoots the unit the reference description of the nearest target picks |
| `Game.CombatPass` | game_solution.py:812-824 | over a pass of the towers in placement order, money rises by exactly 20 and score by exactly 100 per unit that left the active list. Health and wave are untouched, no unit appears, and towers change only in their last shot time. Towers before the starting position are untouched, and at most one unit leaves per tower that fired in the pass |
| `Game.CombatPassKeepsSurvivors` | game_solution.py:812-824 | over a pass the remaining units are units of the old list, in the same relative order, on the same waypoint and with no more health |
| `Game.Combat` | game_solution.py:812-824 | a whole `update_towers` pass: towers change only in their last shot time, money and score rise by exactly 20 and 100 per unit removed, health is untouched, and the remaining units are old units in order, on the same waypoint, with no more health. The wave number, the identity counter and the in-progress flag are untouched, and no more units leave than towers fired |
| `Game.CombatPaysEachKillOnce` | game_solution.py:315-321 | with distinct identities, a combat tick pays exactly one kill reward and kill score per distinct unit it removed: none twice, and none still active |
| `Game.TowerTurnIsIdempotent` | game_solution.py:815-822 | a tower acting twice at the same instant acts once: after a shot the cooldown blocks a second one |
| `Game.MoveUnit` | game_solution.py:380-400 | before the last waypoint only the unit's path index grows, by exactly one. On reaching it the player loses exactly 20 health and that unit leaves the active list; with distinct identities exactly its position is cut out and every other unit stays as it was, in order. A unit at or past the end changes nothing |
| `Game.SweepMove` | game_solution.py:693-701 | an `update_circles` step is a unit move that also stops the game exactly when the player's health is then gone |
| `Game.SpawnWave` | game_solution.py:688-691 | a wave of n units has n units, each at full health before the first waypoint, with consecutive fresh identities |
| `Game.NewWave` | game_solution.py:657-670 | after game over nothing changes. Otherwise the wave number grows by exactly one, and exactly `[5, 8, 12, 16, 20][wave - 1]` fresh full-health units are added at the end of the list. The old units and everything else stay |
| `Game.SpawnKeepsIdsDistinct` | game_solution.py:688-691 | units of a new wave never share an identity with each other or with units already on the board |
| `Game.CheckWaveCompletion` | game_solution.py:647-655 | while units remain, nothing happens. Once the list is empty the game ends if health <= 0; otherwise the next wave starts. The wave number only changes, by one, when the list was empty |
| `Game.StartGame` | game_solution.py:829-843 | Start does nothing while a game is in progress. Otherwise it marks the game in progress and calls `new_wave` |
| `Game.NewGameIsValid` | game_solution.py:480-506 | a new game (650 money, 100 health, no units, no towers, wave 0) satisfies the invariant |
| `Game.NewWaveKeepsValid` | game_solution.py:657-670 | `new_wave` keeps the invariant |
| `Game.Step` | game_solution.py:647-843 | which function each callback runs: a click, the Start button, an `update_circles` step, a re-armed `move_circle`, an `update_towers` pass, a wave poll (the definition; `Game.StepKeepsValid`, `Game.StepProgress` and `Game.StepMoneyAccounting` state its properties) |
| `Game.StepKeepsValid` | game_solution.py:647-843 | every callback keeps the invariant. Money never goes negative and the wave index stays within the five configured waves. Every active unit is on the route, alive, and holds a unique identity. Every tower sits on a distinct buildable cell. A game not in progress has no units or is over |
| `Game.StepProgress` | game_solution.py:647-670 | across any callback the wave index stays or grows by exactly one, and it grows only when the active list was empty, which then receives exactly that wave's units. Score never falls, health never rises, and game over (`is_game_over`, health at or below zero) once reached is never left |
| `Game.StepMoneyAccounting` | game_solution.py:256-260 | where money goes across any callback: a click either places exactly one tower and pays exactly its archetype's cost or changes nothing, a combat tick earns exactly 20 per unit it removes, and every other callback leaves the money alone |
| `Leaderboard.InsertCorrect` | game_solution.py:64 | inserting adds exactly the one entry and keeps a board ordered by score ordered |
| `Leaderboard.SortByScore` | game_solution.py:64 | `sort(key=score, reverse=True)` as a stable insertion sort (the definition; its meaning is `Leaderboard.SortByScoreCorrect`) |
| `Leaderboard.SortByScoreCorrect` | game_solution.py:64 | the sort permutes its input into non-increasing score order |
| `Leaderboard.AddScore` | game_solution.py:62-65 | the board gets exactly one more entry, holds exactly the old entries plus the new one, and is ordered by non-increasing score |
| `Leaderboard.AddScoreInsertsAfterEqualScores` | game_solution.py:62-65 | on an ordered board the new entry lands right after every entry scoring at least as much. Equal scores keep their older entries first, and the other entries keep their order |

## Left out

- The tkinter interface is not modelled: menus, settings and key-rebinding
  dialogs, labels, buttons, canvas drawing, colour flashes and message boxes.
  None of it affects the game state beyond what is modelled, apart from the
  nested event processing listed below.
- The timer scheduling itself (`root.after`, `canvas.after`) is not modelled.
  Each callback is one `Game.Event`, and any interleaving of events is allowed.
  Delays, the 400 ms gap between units in `update_circles` and the position it
  skips after a removal are left out, as is the growing number of re-armed
  `move_circle` chains.
- A removed unit's own `move_circle` chain keeps running but never changes the
  game: the canvas check at game_solution.py:395 blocks the breach damage. `Game.SelfMove`
  therefore moves only units still in the active list.
- File input and output are not modelled. This covers `read_coordinates` (the
  route is a parameter of `Game.Level`) and the `eval` parsing in
  `draw_map_from_file` (`Grid.MarkPath` takes the parsed coordinates). It also
  covers the JSON `save_game` / `load_game` and
  `Leaderboard.load_leaderboard` / `save_leaderboard`.
- Floating point is not modelled: route coordinates and distances are integers,
  and distances are compared squared.
- The cheat keys (`cheat_handler`, lines 591-603) are not modelled. They are
  the only way to raise health, so `Game.StepProgress` can say that health
  never rises.
- `Game.Enabled`: allows `Sweep` events after game over, which goes beyond the
  program. `update_circles` stops re-arming itself on the step that finds
  health gone, so at most one more step can follow. Each extra step still keeps
  the invariant and the properties above.
- The game-over screen and leaderboard display are not modelled. Game over only
  clears `inProgress` here. `submit_score` hands the final score to
  `Leaderboard.AddScore`.
- The `event.num == 1` test in `place_tower` is not modelled: the canvas binds
  only the left button.
- `Game.NewWave`: requires the wave counter to be below 5 unless the game is
  over. Starting a sixth wave raises `IndexError` in the game
  (game_solution.py:665), after `current_wave` has already been raised to 6.
  The bound on the wave in `Game.Valid` holds only because the model never
  makes that sixth call.
- `Game.PlaceTower`: requires the clicked cell to lie inside the grid. The
  canvas is exactly 50 x 36 cells, so every click lands on one.
- `Grid.MarkPath`: requires every coordinate to lie inside the grid. Python
  would wrap negative indices to the other end of a row and fail on indices
  that are too large; a path file that does either is treated as malformed.
- `Game.StepKeepsValid`: assumes a route with at least one waypoint. The
  invariant says every active unit has a path index below the route's length,
  and a freshly spawned unit (index 0) cannot meet that on an empty route.
  With an empty route units would stay at (-100, -100), where snipers can
  still shoot them; that case is not covered.
- Resuming a saved game is left out together with `load_game`.
- Nested event processing is not modelled: the model treats each callback as
  atomic. In the game, `canvas.update()` in `move_circle` (game_solution.py:390,
  after the unit is drawn at `route[i]` and before its index becomes i + 1) and
  in `remove_circle` (game_solution.py:419, between deleting the drawing and
  leaving the list), and the message boxes of `new_wave`, `game_over` and
  `start_game` (game_solution.py:662, 675, 833-838) run due timers nested inside
  the callback. One outcome the model therefore cannot reach: a nested
  `update_towers` kills a unit drawn at the last waypoint (20 money, 100 score),
  and the canvas check at game_solution.py:395 then skips the breach damage. In
  the model a unit waits at the second-to-last waypoint until it breaches, so a
  tower that reaches only the last waypoint never kills it there.
