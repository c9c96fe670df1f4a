# MushMush ecosystem, verified model

MushMush is a canvas toy. Clicking plants a mushroom. Each mushroom grows a
network of glowing root segments, ages, draws fainter and dies. Mushrooms
whose distance lies inside a band pull each other's roots together.

This project models the discrete bookkeeping under the animation:

- the capped, ordered array of mushrooms of `MushMushEcosystem`;
- one tick of `update`: every mushroom updated, then the pairwise merge
  scan `checkForMerge`, then the order-preserving filter of the living;
- the age counter and `isAlive` of `Mushroom`;
- the five initial root segments, and one tick of `RootNetwork.update`:
  every segment aged, then at most one branch while below 150 segments;
- the influence factor and the velocity nudges of `mergeNetworks`;
- the two fade factors used when drawing.

The objects the source mutates are Dafny classes with the same fields:

- `MushMush.MushMushEcosystem`;
- `Mushrooms.Mushroom`;
- `Roots.RootNetwork`;
- `Roots.RootSegment`.

Arrays become `seq` fields that the methods reassign. Each class has a ghost
`Model()` (or `View()`) onto value datatypes: `Organism` for a mushroom and
`Segment` for a segment. Every method is proved to have exactly the effect of
a value-level function. For example, `MushMushEcosystem.Update` ensures
`Model() == EcoStep(old(Model()), draws, hypot)`. The properties the program
relies on are then proved about those functions.

Modules:

- `Fading` (`fading.dfy`): `Math.max(0, ·)` and the age fade.
- `Roots` (`roots.dfy`): segments and root networks.
- `Mushrooms` (`mushrooms.dfy`): mushrooms.
- `EcosystemSpec` (`ecosystem_spec.dfy`): clicks, the merge scan, the
  filter and a whole tick, on values.
- `MushMush` (`ecosystem.dfy`): the `MushMushEcosystem` class and the
  loops of `mergeNetworks`.

Inputs the program takes from the platform become parameters:

- Every `Math.random()` of a tick is a field of `Draws`. Those of creating a
  mushroom are fields of `Spawn` and `Seed`. Each carries a precondition
  stating the range the source's expression produces.
- `Math.hypot` is a function parameter `hypot`.
- `cos`/`sin` of a heading become a unit vector `(dirX, dirY)`.

## Model

| member | source | states |
|---|---|---|
| Fading.AgeFadeMonotone | script.js:40 | the fade `max(0, 1 - (age / maxAge) * rate)` never increases as the age grows |
| Mushrooms.MushroomAlpha | script.js:40 | a mushroom's alpha is never negative, at most 1 for a non-negative age, and above 0.5 while the mushroom is alive (age below 300) |
| Roots.SegmentAlpha | script.js:148 | a segment's alpha is never negative, at most 1, and is 0 exactly from age 286 on |
| EcosystemSpec.MergeInfluence | script.js:216 | `max(0, 1 - d/300)` is never negative, at most 1 for a distance, 0 from distance 300 on, and strictly between 0 and 5/6 for a selected pair (50 < d < 300) |
| Roots.RootSegment.constructor | script.js:125-135 | a new segment is at the given position and heading, age 0, moving along its unit heading, with the given parent |
| Roots.SegmentStep | script.js:137-145 | one update of a segment makes it exactly one tick older and keeps its heading and length; the move by the old velocity, the fall of 0.1 and the sideways jitter follow script.js:138-144 |
| Roots.RootSegment.Update | script.js:137-145 | moves by its velocity, ages by one, gains 0.1 of downward velocity and the sideways jitter |
| Roots.RootNetwork.constructor | script.js:86-98 | a new network is valid and holds exactly five distinct segments at the network's origin, all age 0, all with a null parent |
| Roots.AgeAll | script.js:101-103 | every segment is updated once, position for position, so the network keeps its number of segments; what each becomes is `SegmentStep` |
| Roots.Sprout | script.js:106-109 | a branch starts at its parent's position at age 0, with the parent's heading plus the spread |
| Roots.NetworkStep | script.js:100-110 | one tick adds one segment exactly when the network branched below the 150 cap and none otherwise, so the count never decreases and never exceeds 150; every existing segment is one tick older with heading and length unchanged; a new segment is last, at its parent's post-update position, age 0 |
| Roots.RootNetwork.Update | script.js:100-111 | the network's new state is `NetworkStep` of its old state; it stays valid (count within 5..150, parents null) |
| Roots.RootNetwork.AgeSegments | script.js:101-103 | every segment is updated once, in place, and the array itself is unchanged |
| Roots.RootNetwork.AddSegment | script.js:109 | `push` appends exactly the new segment at the end and keeps the network valid |
| Roots.SeedlingsTrack | script.js:95-97 | the five initial segments are as old as their new mushroom (age 0) |
| Roots.NetworkStepTracks | script.js:34-37 | a mushroom tick keeps the root ages in step: the first five segments are as old as the mushroom, every segment is between 0 and the mushroom's age, later segments are never older |
| Mushrooms.Newborn | script.js:13-21 | a new mushroom has age 0, is alive, has five roots at its own position with age 0, and a colour from the palette |
| Mushrooms.Mushroom.constructor | script.js:13-21 | the new object is valid and its view is `Newborn` |
| Mushrooms.OrganismStep | script.js:34-37 | a tick keeps a mushroom's position, size and colour, makes it one tick older (so it is still alive exactly when its old age was below 299), and adds at most one root segment |
| Mushrooms.Mushroom.Update | script.js:34-37 | the age goes up by one and the network takes one tick; the age bookkeeping of the roots stays in step |
| Mushrooms.Mushroom.IsAlive | script.js:76-78 | `isAlive` holds exactly when the age is below 300 |
| EcosystemSpec.AddStep | script.js:177-181 | a click appends exactly one new mushroom (age 0, at the click) when fewer than 20 exist and otherwise changes nothing; the earlier mushrooms are kept in order; the cap of 20 is preserved |
| EcosystemSpec.AddAllSaturates | script.js:172-181 | any burst of clicks leaves `min(n + clicks, 20)` mushrooms |
| MushMush.MushMushEcosystem.constructor | script.js:170-175 | a new ecosystem is valid and empty |
| MushMush.MushMushEcosystem.AddMushroom | script.js:177-181 | the new state is `AddStep` of the old one; the ecosystem stays valid, so the cap of 20 holds after any sequence of calls |
| EcosystemSpec.BandBySquares | script.js:207 | for a non-negative distance the band test `50 < d < 300` is the test `2500 < d² < 90000` |
| EcosystemSpec.SelectedBySquares | script.js:204-207 | when `hypot` is the Euclidean length, a pair is selected exactly when its squared distance is strictly between 2500 and 90000 |
| EcosystemSpec.RowOrdered | script.js:200-210 | the pairs of row i are (i, j) in increasing j |
| EcosystemSpec.RowMembers | script.js:200-210 | row i holds exactly the pairs (i, j), i < j, that pass the band test |
| EcosystemSpec.RowsOrdered | script.js:199-211 | the rows before row lo list their pairs in scan order, all with first index below lo |
| EcosystemSpec.RowsMembers | script.js:199-211 | the rows before row lo hold exactly the selected pairs whose first index is below lo |
| EcosystemSpec.PairsExactly | script.js:197-211 | `checkForMerge` merges a pair i < j exactly when `50 < distance < 300`, and visits the pairs row by row, column by column |
| EcosystemSpec.FewerThanTwoSelectNone | script.js:197 | with fewer than two mushrooms no pair is merged |
| EcosystemSpec.Pull | script.js:219-225 | nudging a segment changes nothing but its velocity; the direction of the nudge is stated by `PullTowardTarget` |
| EcosystemSpec.PullTowardTarget | script.js:218-225 | a segment away from the target has its velocity nudged along the direction to the target by a positive factor; a segment on the target is left alone; nothing but the velocity changes |
| EcosystemSpec.PullAll | script.js:218-226 | every segment of a network is pulled; none is added or removed |
| EcosystemSpec.PullAllShape | script.js:218-226 | pulling a network changes only the segments' velocities |
| EcosystemSpec.MergePair | script.js:214-237 | merging a pair keeps the array's length; what changes is stated by `MergePairShape` and `MergePairSteps` |
| EcosystemSpec.MergePairShape | script.js:214-237 | merging a pair changes nothing but root velocities, and nothing at all outside the pair |
| EcosystemSpec.MergePairSteps | script.js:214-237 | the merge of a pair is the two loops in order: i's roots pulled toward j, then j's roots toward i, with one influence |
| EcosystemSpec.ApplyMergesShape | script.js:196-212 | however many merges a scan applies, no mushroom moves, ages or changes its root count |
| EcosystemSpec.SelectedAfterMerges | script.js:204-207 | merges earlier in the scan do not change whether a later pair is selected |
| EcosystemSpec.ScanAdvance | script.js:200-209 | one pass of the inner loop, on the current array, extends the merges so far by exactly the pair (i, j) when it is selected |
| EcosystemSpec.MergeScan | script.js:196-212 | the merge scan keeps the array's length; which pairs it merges, and in what order, is stated by `PairsExactly` |
| EcosystemSpec.OutOfBandUntouched | script.js:196-212 | a mushroom in no selected pair leaves the scan exactly as it entered |
| EcosystemSpec.KeepAlive | script.js:193 | the filter never grows the array and keeps only living mushrooms |
| EcosystemSpec.SurvivorsIncrease | script.js:193 | the positions the filter keeps strictly increase, so the relative order is preserved |
| EcosystemSpec.SurvivorsAlive | script.js:193 | the filter keeps a position exactly when the mushroom there is alive |
| EcosystemSpec.KeepAliveAt | script.js:193 | the filter's t-th survivor is the mushroom at the t-th kept position |
| EcosystemSpec.KeepAliveIs | script.js:193 | any sequence picking, in order, the mushrooms at the kept positions is the filter's result |
| EcosystemSpec.Grow | script.js:185-187 | every mushroom is ticked once, position for position, and the array keeps its length; the loop `UpdateAll` is proved equal to it |
| EcosystemSpec.EcoStep | script.js:183-194 | after a tick no more mushrooms exist than before, and every one of them is alive |
| EcosystemSpec.KeepAliveAges | script.js:193 | after every age went up by one, the filter keeps exactly the ages below 300, in order |
| EcosystemSpec.EcoStepAges | script.js:183-194 | a tick raises every age by one and drops exactly those that reach 300, whatever the draws and the merges |
| EcosystemSpec.NewbornLifespan | script.js:13-17 | a mushroom of age 0 alone in the ecosystem survives 299 ticks (age n after n of them) and is gone after the 300th |
| EcosystemSpec.AgeStepConcat | script.js:183-194 | the age bookkeeping of a tick acts on every mushroom separately: a tick of a + b is a tick of a followed by a tick of b |
| EcosystemSpec.AgesAfterConcat | script.js:183-194 | over any number of ticks, the ages of a + b evolve as those of a followed by those of b |
| EcosystemSpec.AddStepAges | script.js:177-181 | a click below the cap appends age 0 after the ages already there |
| EcosystemSpec.NewcomerLifespan | script.js:177-194 | a mushroom appended after others, as a click does, has age n after n ticks while n < 300 and is gone from the 300th on, and the mushrooms before it age exactly as they would without it |
| MushMush.MushMushEcosystem.Update | script.js:183-194 | the new state is `EcoStep` of the old: grow, merge scan, filter; the ecosystem stays valid, which includes every mushroom being alive |
| MushMush.MushMushEcosystem.UpdateAll | script.js:185-187 | every mushroom is updated once, in place, in array order; the array is unchanged |
| MushMush.MushMushEcosystem.UpdateOne | script.js:186 | `mushroom.update()` changes that mushroom alone |
| MushMush.MushMushEcosystem.CheckForMerge | script.js:196-212 | the new state is the merges of exactly the selected pairs, applied in scan order; no mushroom is added, removed or reordered |
| MushMush.MushMushEcosystem.ScanRow | script.js:199-211 | one pass of the outer loop applies the selected pairs of row i, in order |
| MushMush.MushMushEcosystem.ScanStep | script.js:200-209 | one pass of the inner loop merges (i, j) exactly when its distance is in the band |
| MushMush.MushMushEcosystem.MergeNetworks | script.js:214-237 | the pair's networks are pulled toward each other with influence `max(0, 1 - d/300)`; every other mushroom is unchanged |
| MushMush.MushMushEcosystem.PullOne | script.js:218-226 | one loop of `mergeNetworks` changes only that mushroom's root velocities |
| MushMush.PullNetwork | script.js:218-226 | the loop nudges every segment of a network, and the network stays valid with the same segments |
| MushMush.PullSegment | script.js:219-225 | the loop body nudges one segment's velocity toward the target when it is not on the target |
| MushMush.PullRoots | script.js:218-226 | pulling a mushroom's own network keeps the mushroom valid and changes only its roots |
| MushMush.MushMushEcosystem.RemoveDead | script.js:193 | `filter(m => m.isAlive())` replaces the array by `KeepAlive` of the old view; afterwards every mushroom is alive |
| MushMush.MushMushEcosystem.Survivors | script.js:193 | the living mushrooms in array order, one for each position the filter keeps |

## Segment age

A segment's `maxAge = 200` (script.js:132) bounds nothing. It is read only
by the fade (script.js:148), and `RootSegment.update` adds one to the age on
every tick (script.js:140). A segment's age can therefore pass 200, and its
alpha is 0 from age 286 on. What bounds a segment's age is its mushroom's:
no segment is older than its mushroom (`Roots.NetworkStepTracks`), and a
mushroom's age stays below 300 between ticks.

## Left out

- Page setup, the click and touch handlers, the resize handler and the
  animation loop (script.js:1-10, 246-283): platform glue. A click is
  `AddMushroom` at the click's coordinates.
- All drawing (script.js:39-74, 113-117, 147-166, 239-243), except the two
  alpha expressions.
- `Mushroom.getPosition` and `RootNetwork.getAllSegments` (script.js:80-82,
  119-121): getters the core never calls.
- The `mushroom` back-reference of `RootNetwork` (script.js:89): stored,
  never read.
- Floating point: positions, velocities and factors are exact reals. IEEE
  rounding is not modelled, and nothing is claimed about float-accurate
  results.
- `Math.hypot`: a parameter. The model does not assume it is the Euclidean
  length, except where `SelectedBySquares` states that as a precondition.
- `cos`/`sin`: the initial velocity is a caller-supplied unit vector. Its
  link to the stored angle is not modelled.
- `Math.random`: every draw is a caller-supplied value in the source's range.
  The branch test `Math.random() < 0.02` becomes the boolean `Draws.branch`,
  so the probability of branching is not modelled. The colour choice becomes
  an index into the palette.
- `RootSegment.parent`: the network always passes none (script.js:96, 109).
  The field exists, and every segment of a network is proved to hold null.
