# SpaceCells: the cell-grid bodies and the world bookkeeping

This project models and proves the discrete, integer-valued core of the
SpaceCells space battle simulation, in Dafny.

**`spaceship.py`: cell-grid bodies.** Every object's body is a rectangular
grid of cell codes:

- 0 empty
- 1 hull
- 2 armour
- 3 turret
- 4 cannon

From the grid each object derives its counters:

- cells: the number of non-empty cells.
- hull: present for ships; one point per three structural cells.
- turrets: a map from each turret cell to its cooldown.
- cannons: the list of cannon cells in row-major order.

`handel_damage` changes one cell in place and keeps the counters in step
with the grid. There are two damage models: the corvette's and the
asteroid's. The collision loop hits the other body with tier 2 and, when
that hit lands, hits the striker back. A corvette's turrets and its cannon
broadside count down and fire bullets. A bullet has a lifetime of 250 or
500 ticks.

**`game_map.py`: the world.** The map keeps four lists:

- space objects
- all ships
- player ships
- selected ships

It also keeps the bullets and a retarget countdown of 5 ticks. One frame of
`update` does four things in order:

1. Ticks the countdown. Every fifth tick it reruns the targeting pass over
   all pairs of ships.
2. Expires bullets.
3. Disables ships whose hull is exactly 0.
4. Deletes neutral objects with no cells left.

`create_space_object` and `unselect` maintain the lists.

**Modules.**

- `Cells` (cells.dfy): grids as sequences of rows, counting, cell listings,
  and Python's `list.remove` as `RemoveFirst`.
- `Optional` (option.dfy): Python's `Optional`.
- `Weapons` (weapons.dfy): the turret, cannon and bullet countdowns.
- `Damage` (damage.dfy): the damage model on values, and the invariant that
  ties the counters to the grid.
- `Collision` (collision.dfy): the collision loop on values.
- `Spaceship` (spaceship.dfy): the `SpaceObject` class over an `array2<int>`
  body, and the `Bullet` class. Their methods change the fields in place
  and are proved against the functions above.
- `GameMaps` (game_map.dfy): the `GameMap` class, whose methods update
  sequence-valued roster fields and the objects in them.

Python's class hierarchy (SpaceObject, StarShip, Corvette, Asteroid) is one
class with a constant `kind`. Floating-point geometry becomes parameters:

- `inRange` for the targeting distance test.
- `bearing` for the angle between two ships.
- `toOther` for the collision's cell-to-cell transform.
- `aligned` for the cannon's firing window.

Random turret phases are a nondeterministic choice in [0, 160].

**Where the code departs from its own names and docstrings, the model
follows the code:**

- A ship is disabled when its hull is exactly 0 (game_map.py:181), not when
  it is at most 0.
- Targeting writes the one `targets` list, with a `turret_range` that
  game_map.py imports at line 4 and uses at line 168, but that spaceship.py
  does not define. The `close_targets`
  and `medium_targets` lists that the `StarShip` docstring describes
  (spaceship.py:124-127) are never written by the map.
- A disabled ship only turns neutral (game_map.py:187). There is no neutral
  roster.
- The `Asteroid` docstring calls it mineable (spaceship.py:346), but no code
  mines, repairs or collects resources.
- The map builds plain `StarShip` objects (game_map.py:134-141), not
  `Corvette` objects.

## Model

| member | source | states |
|---|---|---|
| `Spaceship.CountCells` | spaceship.py:58-62 | the loop's total is the number of non-empty cells of the body |
| `Spaceship.DeriveRow` | spaceship.py:163-171 | one row adds its structural cells to the running total, a random cooldown in [0, 160] for each turret cell and each cannon cell at the end of the list |
| `Spaceship.DeriveShipCounters` | spaceship.py:162-173 | hull is the structural cell count divided by 3; the turret keys are exactly the turret cells, each cooldown in [0, 160]; the cannon list is exactly the cannon cells in row-major order |
| `Spaceship.SpaceObject.InitShip` | spaceship.py:146-173 | a new ship's cells, hull, turrets and cannons are derived from its grid, the cannon cooldown is 160, its target lists are empty, and the whole object is consistent |
| `Spaceship.SpaceObject.InitAsteroid` | spaceship.py:348-349 | an asteroid counts its cells and has no hull, turrets or cannons |
| `Damage.Struck` | spaceship.py:309-341 | a corvette cell changes exactly when it is structural (armour only on tier 1 or 2) and then empties, except armour under tier 1, which becomes hull; an asteroid cell changes exactly when it is hull or armour |
| `Damage.AfterHit` | spaceship.py:309-342 | a hit removes at most one cell, never adds or drops the hull, and either leaves the turrets alone or removes exactly the struck turret cell's key, so every other turret keeps its cooldown |
| `Damage.StrikeConsistent` | spaceship.py:308-342 | any hit at any tier, on either kind, keeps cells, hull, turret keys and cannon list consistent with the grid |
| `Damage.ConsistentCellsBound` | spaceship.py:34-35 | a consistent cell count is never negative, and it is 0 only when the grid is empty |
| `Damage.StruckTwiceTier2` | spaceship.py:318-327 | a second tier-2 hit on a cell changes nothing |
| `Spaceship.SpaceObject.HandleDamage` | spaceship.py:308-373 | outside the grid nothing changes and the result is false; inside it the cell takes its struck code, the counters lose what the emptied cell held, the result says whether the cell changed, no other cell moves, the object stays consistent, hull presence is kept, and every surviving turret keeps its cooldown |
| `Spaceship.SpaceObject.CorvetteDamage` | spaceship.py:308-342 | the corvette case analysis on cell codes and tiers, with its out-of-range and unchanged results false |
| `Spaceship.SpaceObject.AsteroidDamage` | spaceship.py:367-373 | hull and armour cells clear and the cell count drops whatever the tier; everything else is false with no change; hull is never touched |
| `Spaceship.SpaceObject.UpdateTurrets` | spaceship.py:259-269 | with no close targets nothing changes; otherwise every turret steps its cooldown, and exactly the turrets that run out each append one tier-1 bullet of the ship's faction with lifetime 250; earlier bullets stay |
| `Spaceship.SpaceObject.StepTurrets` | spaceship.py:260-269 | the loop over the turrets in order, with the corrected step `TurretStep`: every cooldown steps once, keys stay, one bullet per firing turret is appended |
| `Spaceship.SpaceObject.StepTurret` | spaceship.py:261-269 | one turret takes the corrected step `TurretStep` and appends a bullet exactly when it fires |
| `Spaceship.SpaceObject.UpdateCannons` | spaceship.py:272-293 | the cooldown decreases only while positive; when it is 0 and some medium-range bearing is in the window, every cannon appends one tier-2 bullet with lifetime 500 and the cooldown resets to 160; otherwise nothing is fired |
| `Spaceship.SpaceObject.FireCannons` | spaceship.py:285-292 | exactly one tier-2 bullet per cannon is appended after the existing ones |
| `Spaceship.FindAligned` | spaceship.py:274-283 | the scan reports true exactly when some bearing lies in the firing window |
| `Spaceship.SpaceObject.HandleCollision` | spaceship.py:86-103 | both grids end as the row-major collision `Collide` computes; both objects stay consistent, keep whether they have a hull, and have only lost turrets, every surviving turret keeping its cooldown |
| `Spaceship.SpaceObject.CollideRows` | spaceship.py:95-103 | all rows of the striker in order: both grids go from the grids at the start to `Collide` over every row, both objects stay consistent, and hull presence and surviving cooldowns stay as at the start (`CollidedTo`) |
| `Spaceship.SpaceObject.CollideRow` | spaceship.py:96-103 | one row of the striker: both grids advance from `Collide` at the row's start to the next row's; both objects stay consistent, and hull presence and surviving cooldowns stay as at the start (`CollidedTo`) |
| `Spaceship.SpaceObject.CollideCell` | spaceship.py:97-103 | one striker cell: the other object is hit with tier 2, and the striker's cell only if that hit landed (`StrikeStep`); both objects stay consistent, keep whether they have a hull, and every turret either object still has keeps its cooldown |
| `Collision.StrikeStep` | spaceship.py:97-103 | the striker's cell changes only when it is non-empty and its tier-2 hit on the other object landed; the other grid changes exactly when such a hit lands |
| `Collision.CollideShape` | spaceship.py:95-103 | the collision keeps both grids' shapes |
| `Collision.CollideStrikerCell` | spaceship.py:95-103 | an unvisited striker cell is unchanged, and a visited one is unchanged or took one tier-2 hit, only if it was non-empty |
| `Collision.CollideOtherCell` | spaceship.py:95-103 | each cell of the other object ends unchanged or with exactly one tier-2 hit |
| `Collision.CollideNeverFills` | spaceship.py:95-103 | a collision never adds a cell to either object |
| `Spaceship.Bullet.constructor` | spaceship.py:396-405 | a bullet keeps its faction and damage, and its lifetime is 250 for tier 1 and 500 for tier 2 |
| `Spaceship.Bullet.Update` | spaceship.py:407-409 | one tick takes exactly 1 off the lifetime |
| `Weapons.Lifetime` | spaceship.py:402-405 | 250 ticks for damage 1, 500 for damage 2 |
| `Weapons.TurretStepAsWritten` | spaceship.py:261-262 | as written: a turret fires exactly when its counter was 1, and then resets to 160; any other counter, 0 and below included, just decrements |
| `Weapons.TurretStep` | spaceship.py:261-269 | the corrected step: a turret fires exactly when its counter is 1 or below, then resets to 160; otherwise it decrements; a counter in [0, 160] stays in [1, 160] |
| `Weapons.TurretStepsAgree` | spaceship.py:261-262 | the corrected and the as-written step agree exactly on counters of 1 and above |
| `Weapons.CannonStep` | spaceship.py:272-293 | the cannon fires exactly when the decremented cooldown is 0 and a bearing is aligned, then resets to 160; the cooldown never drops below 0 |
| `Weapons.ZeroPhaseNeverFires` | spaceship.py:261-262 | as written, a turret whose counter is 0 or below never fires and counts down without end |
| `Weapons.ZeroPhaseCounterexample` | spaceship.py:167 | as written, phase 0 fires no shot in a full 160-tick period |
| `Weapons.TurretFiresAfterPhase` | spaceship.py:261-269 | with the corrected step, a turret with any phase c in [0, 160] fires its first shot on tick max(c, 1), and its counter is then back at 160 |
| `Weapons.TurretPeriod` | spaceship.py:259-269 | from 160 a turret fires exactly k times in k periods of 160 ticks |
| `Weapons.CannonFiresAfterCooldown` | spaceship.py:272-293 | with a target aligned throughout, cooldown c in [1, 160] gives one broadside in c ticks and ends at 160 |
| `Weapons.CannonPeriod` | spaceship.py:272-293 | from the constructor's 160, an aligned ship fires exactly k broadsides in k periods of 160 ticks |
| `Cells.RemoveFirst` | spaceship.py:336 | Python's `list.remove` of a present element: its first occurrence goes and the list is one shorter (the absent case is under Left out) |
| `Cells.RemoveFirstElements` | game_map.py:183-196 | on a list without repeats, `remove(x)` keeps no repeats and removes exactly x |
| `GameMaps.TimerStep` | game_map.py:157-172 | the countdown fires exactly when it was 1, resets to 5 then and otherwise decrements; it stays in [1, 5] |
| `GameMaps.TimerFiresAfter` | game_map.py:157-172 | from t in [1, 5] the first retarget happens at tick t, with the countdown back at 5 |
| `GameMaps.RetargetEveryFifthTick` | game_map.py:157-172 | from the constructor's 5, exactly k retargeting passes run in 5k ticks |
| `GameMaps.PartnersSound` | game_map.py:161-170 | every bearing a ship records comes from a partner of a different, non-neutral faction that is in range |
| `GameMaps.PartnersComplete` | game_map.py:161-170 | every qualifying partner's bearing is recorded |
| `GameMaps.NeutralHasNoTargets` | game_map.py:165 | a neutral ship records no targets |
| `GameMaps.PassIsMutual` | game_map.py:165-170 | each qualifying pair appends the bearing to the other ship in both ships' lists |
| `GameMaps.GameMap.RetargetPair` | game_map.py:163-170 | one pair appends to exactly the two ships' lists, and only when they qualify |
| `GameMaps.GameMap.ClearTargets` | game_map.py:159-160 | every ship's target list is emptied; the frame is the ships' `targets` field, so nothing else about any ship changes |
| `GameMaps.GameMap.RetargetRow` | game_map.py:162-170 | the inner loop for ship i visits every later ship; only `targets` fields change |
| `GameMaps.GameMap.RetargetRows` | game_map.py:161-170 | the outer loop visits every ship i in order; only `targets` fields change |
| `GameMaps.GameMap.Retarget` | game_map.py:159-170 | after the pass each ship holds exactly its qualifying partners' bearings, in index order; the frame is the ships' `targets` field, so no other field of any ship changes |
| `GameMaps.GameMap.RetargetMap` | game_map.py:159-170 | the pass on the map: the rosters stay consistent, every status and the sets of wrecks and disabled objects stay, and every ship that was consistent stays consistent |
| `GameMaps.GameMap.RetargetIf` | game_map.py:158-172 | the pass runs exactly when the countdown fired; otherwise no target list changes |
| `GameMaps.GameMap.UpdateTargets` | game_map.py:157-172 | the countdown steps; the pass runs exactly on the tick it fires; only the countdown and the ships' `targets` change, so rosters, bullets and every status stay |
| `GameMaps.StepAll` | game_map.py:173-196 | the intended loop: nothing dropped remains, the step of every element that is not dropped remains, and every remaining element is the step of some element; never longer than the input |
| `GameMaps.LiveUpdate` | game_map.py:173-196 | the loop as Python runs it while removing: never longer than the list, and the list itself once the index is past its end |
| `GameMaps.LiveUpdateKeepsVisited` | game_map.py:173-196 | the elements the iterator has already passed stay where they are |
| `GameMaps.LiveSweepSkips` | game_map.py:193-196 | as written, of two adjacent wrecks the second survives the frame; as intended both go |
| `GameMaps.LiveRemovalSkips` | game_map.py:173-176 | as written, two bullets expiring together leave one behind, unticked; as intended both go |
| `GameMaps.LiveRemovalHalves` | game_map.py:173-176 | as written, four bullets expiring together leave two |
| `GameMaps.TickAt` | game_map.py:173-176 | one step of the bullet loop: the bullet ticks, and is kept exactly when its lifetime was not 1 |
| `GameMaps.TickBullets` | game_map.py:173-176 | every bullet ticks exactly once and the kept list is the old one, in order, less those at lifetime 0 |
| `GameMaps.GameMap.ExpireBullets` | game_map.py:173-176 | the bullet phase done safely: no remaining bullet has lifetime 0, nothing else on the map changes, and the map stays valid |
| `GameMaps.NewCorvette` | game_map.py:134-141 | a fresh plain StarShip with the corvette body, the given faction, unselected, with no targets and no destination |
| `GameMaps.GameMap.CreateSpaceObject` | game_map.py:132-154 | 'corvette' appends a new 'player' ship to player ships, all ships and objects; 'enemy_corvette' appends an 'enemy' ship to all ships and objects only; the new ship is a consistent plain StarShip with the corvette body, unselected, with no targets and no destination |
| `GameMaps.GameMap.Register` | game_map.py:141-154 | the roster appends keep the map valid |
| `GameMaps.GameMap.constructor` | game_map.py:49-74 | the map starts valid, with 12 objects that are all ships, 3 'player' then 9 'enemy', nothing selected, no bullets, and the countdown at 5 |
| `GameMaps.GameMap.Unselect` | game_map.py:122-125 | every previously selected ship is deselected and the list is empty; the frame is those ships' `selected` field, so no other field changes and each consistent ship stays consistent |
| `GameMaps.GameMap.DisableOne` | game_map.py:181-190 | a hull of exactly 0 neutralises the object, clears its hull, destination and targets, and takes a player ship off the player list and, if selected, off the selected list; any other hull changes nothing. Only the faction, targets, destination, hull and selected fields are in the frame, and a consistent object stays consistent |
| `GameMaps.GameMap.RemoveIfWreck` | game_map.py:193-196 | a neutral object with no cells is removed from the objects and, if it is a ship, from all ships; nothing else is removed |
| `GameMaps.GameMap.SweepOne` | game_map.py:181-196 | the disable step, then the removal step, for one object; only its faction, targets, destination, hull and selected fields can change, and a consistent object stays consistent |
| `GameMaps.RosterStep` | game_map.py:181-196 | one object's `remove` calls turn the lists less the earlier picks into the lists less the picks up to it |
| `GameMaps.SweptValsStep` | game_map.py:177-196 | one pass over an object extends the loop's invariant by one object |
| `GameMaps.GameMap.SweepStep` | game_map.py:177-196 | one pass over a snapshot object extends the loop's invariant; only the five disable-step fields of the snapshot's objects are in the frame |
| `GameMaps.GameMap.SweepKeepsValid` | game_map.py:177-196 | after the loop the rosters are again consistent |
| `GameMaps.GameMap.Sweep` | game_map.py:177-196 | over a snapshot, exactly the wrecks leave the objects and ships, and exactly the disabled objects leave the player and selected lists, the rest keeping their order; each object's fields follow the disable step; the map stays valid |
| `GameMaps.GameMap.Update` | game_map.py:156-196 | one frame keeps the map valid, steps the countdown, and leaves exactly the wrecks out of the objects and ships and the disabled objects out of the player and selected lists |

## Left out

- Floating-point geometry and motion: positions, rotation, velocity, `move_to`, `rotate_towards`, `decelerate`, `update_position`, the screen transforms and `hit_check_range`. They enter only as the parameters `inRange`, `bearing`, `toOther` and `aligned`.
- Randomness: a turret's phase is an arbitrary choice in [0, 160]. The random bearing and position of a fired bullet are not modelled; a `Bullet` holds only its faction, damage and lifetime.
- The per-object `space_object.update(self.bullets)` call in `update`. The map builds plain StarShip objects, whose `update` only moves them. The fields the disable and removal steps read (faction, hull, cells) are those the damage model leaves.
- `check_damage_from_bullets`: its hit test is floating point, and it removes bullets while iterating the list, as the bullet loop does.
- `StarShip.handel_damage` and `SpaceObject.handel_damage` raise; the damage methods require a corvette or asteroid kind.
- The camera and input methods of game_map.py, including `check_selection_click` and `check_selection_box`. `GameMap.Valid` assumes the selected list has no repeats, which these methods do not guarantee.
- enemy_ai.py, main.py and the visualisers: AI, event loop and rendering.
- GameMaps.GameMap.Update: it does not restate the target, status and bullet effects; `UpdateTargets`, `ExpireBullets` and `Sweep` state them for their phases.
- GameMaps.GameMap.Update: the bullet and object loops are modelled over a snapshot, so none of their elements is skipped. The object loop removes from `space_objects` while iterating it, just as the bullet loop does (see Findings).
- Spaceship.SpaceObject.UpdateTurrets: it uses the corrected turret step, so a turret with phase 0 fires on its first active tick (see Findings).
- Weapons.TurretStep: this is the corrected step. It fires at a counter of 0 as well, where the code (spaceship.py:261-262) counts down to -1 and never fires; `TurretStepAsWritten` is the step as written.
- Spaceship.SpaceObject.StepTurrets: it steps every turret with the corrected `TurretStep`, not the step as written (see Findings).
- Spaceship.SpaceObject.StepTurret: it uses the corrected `TurretStep`, not the step as written (see Findings).
- Cells.RemoveFirst: Python's `list.remove` raises ValueError on an absent element, while the model returns the list unchanged. Every caller in the model removes an element that is present, so no reachable behaviour differs.
- Spaceship.SpaceObject.CorvetteDamage: `del self.turrets[(y, x)]` (spaceship.py:329) raises KeyError on a missing key, while the model's map subtraction does nothing. Under `Valid()`, which `HandleDamage` requires, every turret cell has its key, so this case cannot arise.
- Spaceship.SpaceObject.InitAsteroid: the random initial rotation of an asteroid is floating point.
- GameMaps.GameMap.CreateSpaceObject: a name other than the two recognised ones raises in Python, because the local is unbound. It is excluded by a precondition.

## Findings

| source | as written | input that shows it | evidently intended | confidence | as-written member | corrected member |
|---|---|---|---|---|---|---|
| spaceship.py:167 | a turret's phase is drawn from [0, 160], and it fires only when the decremented counter equals 0; phase 0 goes to -1 and never fires again | phase 0: no shot in 160 ticks, counter at -160 | a phase-0 turret fires and resets like any other | medium, not executed | `Weapons.ZeroPhaseCounterexample` | `Weapons.TurretFiresAfterPhase` |
| game_map.py:194-196 | wrecks are removed from `space_objects` while the `for` loop iterates it, so the object after a removed wreck is skipped: it is not disabled and not removed on this frame | two adjacent neutral objects with no cells: the second stays | every object is visited once and every wreck is removed | high, not executed | `GameMaps.LiveSweepSkips` | `GameMaps.GameMap.Sweep` |
| game_map.py:173-176 | bullets are removed from the list the `for` loop is iterating, so the bullet after a removed one is skipped: it is not ticked and not removed on this frame | two bullets of lifetime 1: one stays, with lifetime 1 | every bullet ticks once and every expired one is removed | high, not executed | `GameMaps.LiveRemovalSkips` | `GameMaps.TickBullets` |
