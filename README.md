# Ant colony prototype: pheromone rules, tile bookkeeping and spawn arithmetic in Dafny

This project models the simulation core of a small ant-colony game prototype written in Rust
on the Bevy engine, and proves properties of that model.

- **Pheromone rules** (`behavior_rules.dfy`, module `BehaviorRules`): which pheromone an ant drops
  (`pher_to_drop`) and which it follows (`ant_should_follow`). Also the wrap-aware vision test
  `angle_within_bounds`, with `TAU` set to the exact single-precision value of 2π.
- **Components** (`components.dfy`, module `Components`): the `Ant` and `Pheromone` records and
  `Ant::default`.
- **Per-tick systems** (`behavior.dfy`, module `Behavior`):
  - `decay_pheromones`, `spawn_pheromones` and `update_ant_movement` are methods of a `Colony`
    object. Its two sequence fields hold the ant entities and the pheromone entities, and the
    methods update them in place.
  - `ant_desired_direction` is a method with the original filter-and-accumulate loop.
  - Each method is proved equal to a specification function, and lemmas state what those
    functions guarantee.
- **Tile bookkeeping** (`world_map.dfy`, module `WorldMap`): the world-to-tile conversion with
  Rust's saturating float-to-`u32` cast. `mouse_button_input` and `reset_hovered_tiles` are
  methods of a `TileWorld` object. It holds the tile entities, kept at one record per tile
  position, and the tilemap's displayed cells as a map.
- **Random draws** (`util.dfy`, module `Util`): `rand_uniform_f32`, computed exactly over the reals.
- **Spawning** (`game.dfy`, module `Game`): the ant-spawning loop of `setup`. It uses two's
  complement `as i32` and Rust's truncating `%`. The random generator is an object that hands
  out an arbitrary stream of `u32` draws.
- **Engine values** (`math.dfy`, module `Math`): vectors, quaternions, transforms and word types.
  - Single-precision floats are `real`.
  - `atan2`, `normalize`, the quaternion-to-Euler heading, `rotation * X` and `looking_at` are
    left abstract. They are fields of a `Geometry` record passed to the operations that need
    them. Everything proved therefore holds for any implementation of them.

The main consequence proved is about the vision interval. `ant_desired_direction` computes it
as lower = facing + arc/2 and upper = facing − arc/2. That interval is inverted for every
positive arc, so no pheromone is ever in view. On every tick the ant therefore chooses its
normalised current facing as its direction (`Behavior.PositiveArcKeepsFacing`,
`Behavior.DefaultAntKeepsFacing` for a default ant with arc 2.0), and it moves along that
direction on that tick (`Behavior.PositiveArcWalksStraight`). The path over several ticks is
not stated, because the new rotation comes from the `looking_at` parameter.

Further facts about this version of the code that the model keeps:
- `ant_desired_direction` computes lower = facing + arc/2 and upper = facing − arc/2
  (src/behavior.rs:71-72), so the interval it tests is inverted.
- There is no merge of a new pheromone into an existing one, no time-to-live pruning of weak
  pheromones, no food/home state transition, no random wander and no bounce at the map edge.
  The state change and the wander are TODOs (src/behavior.rs:101, 118-119).
- Out-of-range positions are not rejected: `world_pos_to_two_d_index` saturates negative
  coordinates to 0 and nothing clips an index to `MAP_SIZE`.

## Model

| member | source | states |
|---|---|---|
| `BehaviorRules.PherToDrop` | src/behavior.rs:19-24 | a wandering ant drops HomeThisWay and an ant with food drops FoodThisWay (both directions of each) |
| `BehaviorRules.AntShouldFollow` | src/behavior.rs:55-62 | an ant follows a kind exactly when it is not the kind the ant drops |
| `BehaviorRules.FollowIsComplementOfDrop` | src/behavior.rs:55-62 | an ant never follows its own kind, always follows the other, and follows what ants in the other state drop |
| `BehaviorRules.AngleWithinBounds` | src/behavior.rs:49-53 | an angle inside [lower, upper] is accepted; anything accepted has lower <= upper and lies within a full turn of the interval |
| `BehaviorRules.InvertedBoundsAcceptNothing` | src/behavior.rs:49-53 | when lower > upper no angle is within bounds, shifted by a full turn or not |
| `BehaviorRules.AngleWithinBoundsWraps` | src/behavior.rs:49-53 | for a proper interval an angle in it is accepted, and so is that angle plus or minus TAU |
| `BehaviorRules.AngleFarOutsideRejected` | src/behavior.rs:49-53 | an angle more than TAU above the upper bound or below the lower bound is rejected |
| `Components.DefaultAnt` | src/components.rs:18-29 | a default ant drops HomeThisWay and follows FoodThisWay, starts with a positive deposit timer, and has positive speed, vision range and vision arc |
| `Components.DefaultAntDropsHomeTrail` | src/components.rs:21 | a default ant is Wandering, so its first deposit is a HomeThisWay pheromone and it follows FoodThisWay |
| `Components.DefaultAntParameters` | src/components.rs:18-29 | a default ant has speed 50, vision range 1, vision arc 2 > 0, a timer equal to ANT_POOP_INTERVAL and a zero wander vector |
| `Behavior.DecayLowersEveryIntensity` | src/behavior.rs:39-45 | decay lowers every intensity by exactly dt (factor 1), keeps kind, transform and count, and removes nothing even below zero |
| `Behavior.DecayAdditive` | src/behavior.rs:41-45 | two decay steps of dt1 and dt2 equal one step of dt1 + dt2 |
| `Behavior.Colony.DecayPheromones` | src/behavior.rs:41-45 | the in-place loop leaves the pheromones equal to their one-step decay and the ants unchanged |
| `Behavior.TimerStep` | src/behavior.rs:131-143 | one ant's step changes only its timer: a due ant is reset to 0.5 and is not due afterwards, and a running timer never grows for non-negative dt and speed |
| `Behavior.Deposits` | src/behavior.rs:130-144 | a pass spawns no more pheromones than there are ants, each of intensity 10 and each the deposit of some due ant |
| `Behavior.DepositsCount` | src/behavior.rs:130-144 | one pass spawns exactly as many pheromones as there are ants whose timer is not positive |
| `Behavior.DepositsExact` | src/behavior.rs:130-144 | every spawned pheromone comes from a due ant, and every due ant spawns one |
| `Behavior.DepositsMultiplicity` | src/behavior.rs:130-144 | as a multiset the pass spawns exactly the due ants' deposits: each pheromone occurs once per due ant that drops it |
| `Behavior.DepositShape` | src/behavior.rs:134-140 | a spawned pheromone has the kind its ant drops, intensity 10 and the ant's transform |
| `Behavior.TimersAdvancedRules` | src/behavior.rs:131-143 | only the timer changes: a positive timer drops by dt * speed, any other is reset to 0.5; state and transform are untouched |
| `Behavior.NoDepositsOnConsecutiveTicks` | src/behavior.rs:131-142 | an ant that deposits on one tick is not due on the next |
| `Behavior.Colony.SpawnPheromones` | src/behavior.rs:125-145 | the loop leaves every ant at its timer step and appends exactly the pass's deposits to the pheromones |
| `Behavior.Contribution` | src/behavior.rs:75-93 | a pheromone of a kind the ant does not follow, or farther than vision range, adds nothing; anything added is in view |
| `Behavior.Attraction` | src/behavior.rs:74-94 | for any positive vision arc nothing is accumulated over any pheromones; `Behavior.AttractionAppend`, `Behavior.NothingInViewNoAttraction` and `Behavior.AttractionIgnoresOwnKind` state the rest |
| `Behavior.DesiredDirection` | src/behavior.rs:95-102 | for any positive vision arc the chosen direction is the normalised current facing |
| `Behavior.Followed` | src/behavior.rs:76-78 | the kind filter keeps exactly the pheromones whose kind the ant follows |
| `Behavior.AntDesiredDirection` | src/behavior.rs:64-103 | the loop returns the normalised intensity-weighted sum over the pheromones in view, or the normalised facing when that sum is zero |
| `Behavior.AttractionAppend` | src/behavior.rs:74-94 | the accumulated direction over two concatenated batches is the sum of the two accumulations |
| `Behavior.NothingInViewNoAttraction` | src/behavior.rs:74-94 | when no pheromone is in view the accumulated direction is zero |
| `Behavior.AttractionIgnoresOwnKind` | src/behavior.rs:74-94 | the accumulated direction equals the one over only the pheromones of the followed kind |
| `Behavior.PositiveArcSeesNothing` | src/behavior.rs:71-90 | for any positive arc the computed lower bound exceeds the upper bound and no pheromone is in view |
| `Behavior.PositiveArcKeepsFacing` | src/behavior.rs:71-99 | for any positive arc nothing is accumulated and the chosen direction is the normalised current facing |
| `Behavior.DefaultAntKeepsFacing` | src/components.rs:24 | a default ant (arc 2.0) always chooses its normalised current facing |
| `Behavior.MovementKeepsAntAndDepth` | src/behavior.rs:110-117 | movement keeps the Ant component, depth, scale and count, and displaces x and y by direction * speed * dt |
| `Behavior.PositiveArcWalksStraight` | src/behavior.rs:111-116 | on one tick an ant with a positive arc moves by its normalised facing * speed * dt |
| `Behavior.Colony.UpdateAntMovement` | src/behavior.rs:105-121 | the loop moves every ant by its desired direction and leaves the pheromones unchanged |
| `WorldMap.CastU32` | src/world_map.rs:98 | the cast saturates to 0 at or below zero and to the maximum above the range; in range it is the floor |
| `WorldMap.ColorsDistinct` | src/world_map.rs:23-28 | the building, hover and normal colours have pairwise distinct RGBA values |
| `WorldMap.WorldPosToTwoDIndex` | src/world_map.rs:97-99 | on each axis a coordinate at or below 0 gives index 0, and a non-negative coordinate in range gives the floor of the coordinate over 16 |
| `WorldMap.TileIndexIsFloor` | src/world_map.rs:97-99 | for non-negative coordinates each tile index is the floor of the coordinate over 16 |
| `WorldMap.NegativeCoordinatesSaturate` | src/world_map.rs:89-99 | a negative x or y coordinate maps to index 0 on that axis, and the default cursor (-1000, -1000) maps to tile (0, 0) |
| `WorldMap.IndexNotClippedToMap` | src/world_map.rs:97-99 | an x or y coordinate of 1600 or more gives an index of MAP_SIZE (100) or more on that axis: nothing clips to the map |
| `WorldMap.MouseTiles` | src/world_map.rs:174-213 | the table grows by at most one record, positions never move, any added record is at the cursor, and afterwards a record at the cursor exists; `WorldMap.MouseKeepsInvariants` and `WorldMap.MouseTouchesOnlyCursor` state the rest |
| `WorldMap.ResetDisplay` | src/world_map.rs:127-135 | the reset keeps every displayed cell, shows a cell at every hovered record, and adds cells only at hovered records; `WorldMap.ResetRestoresHovered` and `WorldMap.ResetKeepsOtherCells` state their contents |
| `WorldMap.IndexOf` | src/world_map.rs:175-193 | the search returns the first record at the position, or none when no record is there |
| `WorldMap.MouseKeepsInvariants` | src/world_map.rs:174-213 | at most one record per position, every built tile storing the building colour and index, and a record at the cursor afterwards |
| `WorldMap.MouseTouchesOnlyCursor` | src/world_map.rs:175-213 | records away from the cursor are unchanged, positions never move, and at most one record is added, at the cursor |
| `WorldMap.MouseAtExistingRecord` | src/world_map.rs:175-192 | at an existing record nothing is created; a press builds a tunnel with the building colour and index; a hover marks it and keeps colour, index and building |
| `WorldMap.MouseAtNewTile` | src/world_map.rs:195-213 | with no record at the cursor exactly one is appended there: a tunnel in the building colour on a press, else a hovered record in the normal colour and index |
| `WorldMap.CursorCellIndexIsOne` | src/world_map.rs:150-172 | the cursor cell always shows index 1, in the building colour on a press and the hover colour otherwise |
| `WorldMap.BuildingNeverRemoved` | src/world_map.rs:175-189 | a built record stays built through both systems |
| `WorldMap.ResetRestoresHovered` | src/world_map.rs:127-135 | every hovered record's cell shows its stored index and colour after the reset |
| `WorldMap.ResetKeepsOtherCells` | src/world_map.rs:119-136 | cells without a hovered record are left exactly as they were |
| `WorldMap.UnhoveredKeepsInvariants` | src/world_map.rs:134 | removing the markers keeps one record per position and built tiles painted, and leaves no record hovered |
| `WorldMap.HoverThenResetShowsBuilding` | src/world_map.rs:128-134 | hovering a built tile and then resetting shows it in the building colour again |
| `WorldMap.HoverThenResetShowsNormal` | src/world_map.rs:207-212 | hovering a tile with no record and then resetting shows it in the normal colour and index |
| `WorldMap.TileWorld.MouseButtonInput` | src/world_map.rs:138-216 | the system paints the cursor cell, updates or appends the cursor's record, and keeps the table invariant |
| `WorldMap.TileWorld.ResetHoveredTiles` | src/world_map.rs:119-136 | the system writes back every hovered record's cell, clears every marker, and keeps the table invariant |
| `Util.LowBits` | src/util.rs:7 | the mask gives the unique value below 2^32 that is congruent to the word modulo 2^32, its low 32 bits; a word already below 2^32 is unchanged |
| `Util.RandUniform` | src/util.rs:7 | before the cast to f32, the result is at least -1, exactly -1 only for low bits 0, and at most 1 for low bits up to 0xfffffffe (the cast also rounds low bits up to about 64 to -1) |
| `Util.RandUniformIgnoresHighBits` | src/util.rs:7 | replacing the high 32 bits of the draw never changes the result |
| `Util.RandUniformLandmarks` | src/util.rs:4-7 | low bits 0 give -1, 0x7fffffff give 0, 0xfffffffe give 1, and 0xffffffff give 1 + 1/(2^31 - 1) before the cast to f32, which rounds it to 1.0 |
| `Util.RandUniformMonotone` | src/util.rs:7 | the result is monotone non-decreasing in the low 32 bits |
| `Game.AsI32` | src/main.rs:53 | the signed reading lies in the i32 range, agrees with the word modulo 2^32, and is non-negative exactly below 2^31 |
| `Game.TruncRem` | src/main.rs:53 | the truncating remainder is smaller than the modulus in magnitude, takes the dividend's sign, and differs from it by a multiple of the modulus |
| `Game.Mass` | src/main.rs:53 | the mass lies in [-184, 214]: in [15, 214] for draws below 2^31 and in [-184, 15] otherwise |
| `Game.MassCanBeNegative` | src/main.rs:53 | the draw 0xffffff39 reads as -199 and gives mass -184 |
| `Game.SpawnCoord` | src/main.rs:55-56 | a spawn coordinate lies in [-4999, 4999], non-negative for draws below 2^31 and non-positive otherwise |
| `Game.SpawnedTransformShape` | src/main.rs:54-57 | a spawned ant is at depth 1, within 4999 on x and y, with equal x and y scales equal to its mass and zero z scale |
| `Game.Rng.NextU32` | src/main.rs:53 | a draw returns the next value of the stream and advances it by one |
| `Game.Setup` | src/main.rs:51-57 | setup spawns exactly 10 ants, consuming three draws each, in the order mass, x, y |

## Left out

- Floating point: every f32 and f64 quantity is a real number. Rounding, NaN and infinities are not modelled.
- Behavior.AntDesiredDirection: `atan2`, `normalize`, the Euler heading, `rotation * X` and `looking_at` are parameters of the model. It does not prove unit length or NaN-freedom, and it does not model that normalising the zero vector gives NaN.
- Behavior.Colony.UpdateAntMovement: the new rotation is whatever the `looking_at` parameter returns. Its relation to the direction of travel is not stated, so nothing is proved about the direction an ant chooses on the following tick.
- Util.RandUniform: the result is exact real arithmetic. The rounding of the f64 division and of the cast to f32 is not modelled, so the exact statements about -1 and about 0xffffffff hold before the cast only.
- WorldMap.CastU32: a NaN coordinate, which the cast maps to 0, is not modelled.
- Engine scheduling: each system runs on its own. The Startup, First and Update ordering between systems is not modelled. Commands are applied when the system returns.
- The tilemap's `set` is a write to the display map at any position. What the tilemap library does with a position outside the 100×100 map is not modelled.
- The world map's `setup` (asset loading, tilemap builder) and `update_cursor_pos` (camera projection) are left out. The cursor position is a parameter of `MouseButtonInput`.
- `setup` in src/main.rs: only the ant loop is modelled. The camera and player spawns, meshes and materials are left out, as are `move_player`, `camera_chase`, `scroll_events` and `main`.
- The ChaCha8 generator's internals: draws are an arbitrary stream of words.
- src/world_ui.rs and src/camera.rs (UI widgets and camera follow) are not part of this model.
- `secret_desire` is carried by the `Ant` record, but no system in these files reads it.
- Behaviour the code leaves as TODO (food/home state transitions, random wander) is not modelled.
