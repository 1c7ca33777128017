# Collision pipeline and atlas blit of raylib-game, in Dafny

This project models the 2D collision pipeline of the raylib-game engine and
the pixel arithmetic of its texture-atlas packer, and proves properties of
the model.

- **Spatial hash grid** (`grid.dfy`, module `SpatialGrid`). A point lies in
  cell `(floor(x / size), floor(y / size))`. Registering appends an entity to
  its own cell's list. A neighbourhood query concatenates the lists of the
  3x3 block around a point's cell, in the source's loop order.
- **Strict AABB test and pair keys** (`narrow_phase.dfy`, module
  `NarrowPhase`). Both detectors use the same test and store pairs as
  `(min, max)` of the two ids.
- **What a detection pass reports** (`broad_phase.dfy`, module
  `BroadPhase`). Two distinct view entities are reported when they sit in the
  same or neighbouring cells and their boxes collide. The module also defines
  the pairs recorded while walking candidate lists.
- **The hash-grid detector** (`collision_detection.dfy`, module
  `CollisionDetection`, class `CollisionDetectionSystem`). Each tick it clears
  and fills the grid and resets collision state. It then checks every
  occupied cell into one accumulator and merges the pairs back into the
  `isColliding` flags and partner sets.
- **The earlier detector** (`collider_system.dfy`, module
  `ColliderSystemModel`, class `ColliderSystem`). It tests each key once, and
  its set of outlined pairs is proved equal to the pairs the hash-grid
  detector reports.
- **Overlap correction** (`overlap_correction.dfy`, module
  `OverlapCorrection`, class `OverlapCorrectionSystem`). For every flagged
  body, each unordered partner pair is handled once per tick. If the boxes
  still penetrate, one movable body is pushed along the axis of lesser depth
  and its velocity on that axis is zeroed. As written, the push always uses
  the overlap seen from A, also when B is the body moved (see Findings).
- **Atlas blit** (`texture_packer.dfy`, module `TexturePacking`). Steps 2, 4
  and 5 of `TexturePacker::packer`:
  - the padded rectangles;
  - the zero-filled 2048x2048 RGBA byte buffer (an `array<bv8>`);
  - the pixel-by-pixel copy at placement plus margin;
  - the metadata frames.

Positions and sizes are Dafny `real`s and entities are `nat` ids. The entt
registry is a class with one map per component type (`Components.Registry`).
Iteration over views, sets and grid cells is modelled by arbitrary choice,
so the contracts hold for every iteration order.

## Model

| member | source | states |
|---|---|---|
| SpatialGrid.SlabIndex | src/systems/collision_detection_system.cpp:19-20 | floor(v / size) is the k with size*k <= v < size*(k+1) |
| SpatialGrid.HashGridCell | src/systems/collision_detection_system.cpp:17-22 | the cell's two indices are the slabs holding x and y |
| SpatialGrid.HashGridCellUnique | src/systems/collision_detection_system.cpp:17-22 | every point lies in exactly one cell |
| SpatialGrid.CloseValuesAdjacentSlabs | src/systems/collision_detection_system.cpp:17-22 | two coordinates less than one cell width apart fall in the same or adjacent slabs |
| SpatialGrid.HashGrid.Clear | src/systems/collision_detection_system.cpp:100 | the grid is empty afterwards |
| SpatialGrid.HashGrid.Register | src/systems/collision_detection_system.cpp:24-27 | the entity is appended to its own cell's list; every other cell is unchanged |
| SpatialGrid.HashGrid.GetNearbyEntities | src/systems/collision_detection_system.cpp:29-46 | the result is the concatenation of the lists of the nine cells, dx outer and dy inner; absent cells contribute nothing |
| SpatialGrid.NearbyMembership | src/systems/collision_detection_system.cpp:29-46 | an entity is nearby iff some cell of the 3x3 block lists it |
| NarrowPhase.MinMax | src/systems/collision_detection_system.cpp:69-72 | the key is ordered (first <= second) and holds the two ids in some order |
| NarrowPhase.MinMaxSymmetric | src/systems/collision_detection_system.cpp:69-72 | (a, b) and (b, a) get the same key |
| NarrowPhase.MinMaxEqual | src/systems/collision_detection_system.cpp:69-74 | two keys are equal iff they name the same unordered pair |
| NarrowPhase.Collides | src/systems/collision_detection_system.cpp:80-89 | the strict AABB test of the two boxes from their minimum corners; it can hold only when the two sizes add up to a positive extent on both axes |
| NarrowPhase.CollidesSymmetric | src/systems/collision_detection_system.cpp:80-89 | the strict AABB test gives the same answer with a and b swapped |
| NarrowPhase.CollidesIffCentresClose | src/systems/collision_detection_system.cpp:80-89 | boxes collide iff on both axes the centres are closer than the sum of the half sizes |
| NarrowPhase.TouchingEdgesDoNotCollide | src/systems/collision_detection_system.cpp:85-89 | boxes that only share an edge, on either side of either axis, do not collide |
| NarrowPhase.ZeroWidthBoxCanCollide | src/systems/collision_detection_system.cpp:85-89 | a zero-width box strictly inside another box collides with it |
| BroadPhase.ExpectedPartnersArePairs | src/systems/collision_detection_system.cpp:126-143 | o is a partner of e iff the key (min, max) of e and o is a reported pair |
| BroadPhase.ExpectedPartnersSymmetric | src/systems/collision_detection_system.cpp:137-140 | b is a partner of a iff a is a partner of b, and no body is its own partner |
| BroadPhase.DetectionComplete | src/systems/collision_detection_system.cpp:29-46 | when no box is larger than a cell, the partners are exactly the other view entities whose boxes collide, so the 3x3 search misses nothing |
| BroadPhase.NearbyInGrid | src/systems/collision_detection_system.cpp:29-46 | with the grid filled from the view, an entity is nearby iff it is in the view and its cell is adjacent |
| BroadPhase.FoundFromMembership | src/systems/collision_detection_system.cpp:66-93 | walking candidates records p iff some candidate other than a collides with a and p is their key |
| BroadPhase.FoundPairsMembership | src/systems/collision_detection_system.cpp:59-96 | the pairs recorded for a cell's list are the union of those recorded for each of its entities |
| BroadPhase.CellFoundPairsSound | src/systems/collision_detection_system.cpp:114-123 | every pair checked in for a cell is a reported pair with an endpoint in that cell |
| BroadPhase.CellFoundPairsComplete | src/systems/collision_detection_system.cpp:114-123 | every reported pair with an endpoint in a cell is checked in for that cell |
| BroadPhase.RegisterKeepsGridHolds | src/systems/collision_detection_system.cpp:48-57 | registering e into a grid that holds a set of entities gives a grid that holds that set plus e |
| CollisionDetection.Reset | src/systems/collision_detection_system.cpp:54-55 | the flag is false and the partner set empty; size, trigger and static flags are kept |
| CollisionDetection.PartnersOfExpected | src/systems/collision_detection_system.cpp:126-143 | merging exactly the reported pairs gives each body exactly its expected partners |
| CollisionDetection.MergeStep | src/systems/collision_detection_system.cpp:137-140 | flagging both ends of one more pair extends the merged state by that pair |
| CollisionDetection.GeometryUnchanged | src/systems/collision_detection_system.cpp:54-55 | resetting collision state does not change which pairs are reported |
| CollisionDetection.CollisionDetectionSystem.PopulateHashGridCells | src/systems/collision_detection_system.cpp:48-57 | every view entity is listed in its own cell and nothing else is listed; view colliders are reset, nothing else changes |
| CollisionDetection.CollisionDetectionSystem.CheckCollision | src/systems/collision_detection_system.cpp:59-96 | the accumulator gains exactly the pairs found for the given entities against their 3x3 blocks |
| CollisionDetection.CollisionDetectionSystem.CheckAgainst | src/systems/collision_detection_system.cpp:66-94 | the accumulator gains exactly the keys of the colliding candidates other than a; skipping known keys changes nothing |
| CollisionDetection.CollisionDetectionSystem.CollectPairs | src/systems/collision_detection_system.cpp:104-123 | checking every occupied cell in any order collects exactly the reported pairs |
| CollisionDetection.CollisionDetectionSystem.MarkPair | src/systems/collision_detection_system.cpp:134-140 | both colliders are flagged and each gains the other as partner; nothing else changes |
| CollisionDetection.CollisionDetectionSystem.MergePairs | src/systems/collision_detection_system.cpp:125-143 | after the merge every view body carries exactly the partners the pairs give it, flagged iff it has any |
| CollisionDetection.CollisionDetectionSystem.Run | src/systems/collision_detection_system.cpp:99-146 | the grid is empty at the end; each view body carries exactly its expected partners, flagged iff it has any; transforms, movement data and non-view colliders are unchanged |
| ColliderSystemModel.ColliderSystem.constructor | src/systems/collider_system.cpp:11-12 | the system starts with an empty grid of the given cell width |
| ColliderSystemModel.ColliderSystem.FillGrid | src/systems/collider_system.cpp:50-52 | every view entity is listed in its own cell, and nothing else is listed |
| ColliderSystemModel.ColliderSystem.TestCandidate | src/systems/collider_system.cpp:59-82 | self and already-checked keys are skipped; otherwise the key is recorded, logged as tested (so the log never holds a key twice) and outlined iff the boxes collide |
| ColliderSystemModel.ColliderSystem.TestNearby | src/systems/collider_system.cpp:56-83 | every candidate key of entity1 becomes checked, none tested twice; a checked key is outlined iff it is a reported pair |
| ColliderSystemModel.NearbyPairs | src/systems/collider_system.cpp:56-61 | the keys of entity1 with its 3x3 block are exactly its candidate keys |
| ColliderSystemModel.ColliderSystem.TestAllPairs | src/systems/collider_system.cpp:55-84 | visiting every view entity in any order tests every candidate key exactly once and outlines exactly the reported pairs |
| ColliderSystemModel.ColliderSystem.Run | src/systems/collider_system.cpp:43-85 | every candidate key is tested exactly once, and the outlined pairs are exactly the pairs the hash-grid detector reports for the same scene and cell width |
| OverlapCorrection.PairEqualIffSameKey | src/systems/overlap_correction_system.cpp:8-21 | two pairs are equal iff their (min, max) keys are equal, so hash and equality ignore order |
| OverlapCorrection.PairEqualIsEquivalence | src/systems/overlap_correction_system.cpp:16-21 | the pair equality is reflexive, symmetric and transitive |
| OverlapCorrection.SkipAfterDetection | src/systems/overlap_correction_system.cpp:31-33 | after detection a body is skipped iff it is a trigger or has no partners |
| OverlapCorrection.CalculateOverlap | src/systems/overlap_correction_system.cpp:42-57 | delta A - B and per-axis depth; a depth never exceeds the sum of the half sizes and equals it exactly when the centres are aligned on that axis |
| OverlapCorrection.OverlapSwap | src/systems/overlap_correction_system.cpp:42-57 | swapping A and B negates the delta and keeps both depths |
| OverlapCorrection.PenetrationIffCollides | src/systems/overlap_correction_system.cpp:42-57 | positive depth on both axes is exactly the detector's strict AABB test |
| OverlapCorrection.OverlapExample | src/systems/overlap_correction_system.cpp:42-57 | 10x10 boxes at (0,0) and (5,0) give delta (-5,0), depth 5 on x and 10 on y |
| OverlapCorrection.ResolvingAClosesAxis | src/systems/overlap_correction_system.cpp:59-71 | pushing A brings the depth on the resolved axis to zero, keeps the other axis, and ends the collision |
| OverlapCorrection.BetweenPreservesSum | src/systems/overlap_correction_system.cpp:90-109 | the two half pushes keep the sum of the two positions on both axes |
| OverlapCorrection.BetweenClosesAxis | src/systems/overlap_correction_system.cpp:90-109 | the two half pushes together bring the depth on the resolved axis to zero |
| OverlapCorrection.BetweenExample | src/systems/overlap_correction_system.cpp:94-100 | for the example overlap the bodies move to (-2.5,0) and (7.5,0) |
| OverlapCorrection.ChooseMovable | src/systems/overlap_correction_system.cpp:73-88 | the chosen body is A or B, non-static and with movement data; B only when A fails that test; nothing iff both fail |
| OverlapCorrection.PairStepAsWritten | src/systems/overlap_correction_system.cpp:133-145 | the pair step as written (the chosen body, A or B, moved with the overlap seen from A) changes only motion of movable bodies; without penetration or with both static it changes nothing; no third body moves |
| OverlapCorrection.PairStep | src/systems/overlap_correction_system.cpp:133-145 | the corrected pair step (the chosen body pushed away from the other) keeps the same frame |
| OverlapCorrection.ReplayAppend | src/systems/overlap_correction_system.cpp:126-146 | replaying the pair steps of a tick in two parts gives the same motion as replaying them whole |
| OverlapCorrection.ReplayMotionOnly | src/systems/overlap_correction_system.cpp:126-146 | any sequence of pair steps as written changes only motion of movable bodies |
| OverlapCorrection.ReplayResolved | src/systems/overlap_correction_system.cpp:139-140 | pair steps between flagged partners leave a scene without penetration exactly as it was |
| OverlapCorrection.PushAwayClosesAxis | src/systems/overlap_correction_system.cpp:81-85 | pushing B away from A brings the depth on the resolved axis to zero and ends the collision |
| OverlapCorrection.PairStepSeparates | src/systems/overlap_correction_system.cpp:139-145 | whenever a body is moved, the pair no longer collides afterwards |
| OverlapCorrection.AsWrittenMovesB | src/systems/overlap_correction_system.cpp:140-145 | as written, with A static, B is moved by resolve_overlap with the overlap seen from A |
| OverlapCorrection.AsWrittenMovesBTowardA | src/systems/overlap_correction_system.cpp:62-68 | the as-written push moves B towards A on the resolved axis |
| OverlapCorrection.MovingBAsWrittenDeepens | src/systems/overlap_correction_system.cpp:62-64 | for the example, the as-written push puts B on A's centre, where the depth on x is 10 instead of 5 |
| OverlapCorrection.OverlapCorrectionSystem.HasAlreadyProcessed | src/systems/overlap_correction_system.cpp:35-40 | reports whether the (min, max) key was recorded and records it |
| OverlapCorrection.OverlapCorrectionSystem.ResolveOverlap | src/systems/overlap_correction_system.cpp:59-71 | only the body's position on the smaller-depth axis (Y on ties) moves, by the depth signed by the delta, and that velocity component becomes zero |
| OverlapCorrection.OverlapCorrectionSystem.ResolveOverlapBetween | src/systems/overlap_correction_system.cpp:90-109 | A and B take half the depth each in opposite directions and both lose that velocity component; when A and B are the same body its position does not change |
| OverlapCorrection.OverlapCorrectionSystem.CorrectPair | src/systems/overlap_correction_system.cpp:133-145 | the registry's motion becomes the pair step as written applied to the old motion; colliders are unchanged |
| OverlapCorrection.OverlapCorrectionSystem.VisitPartner | src/systems/overlap_correction_system.cpp:130-145 | the key is recorded; an already recorded key changes nothing; a new key applies exactly the pair step as written for (entity, partner) |
| OverlapCorrection.OverlapCorrectionSystem.CorrectPartners | src/systems/overlap_correction_system.cpp:130-146 | the keys of all partners are recorded; the new keys are logged once each with their (entity, partner) steps, and the new motion is those steps replayed on the old one |
| OverlapCorrection.OverlapCorrectionSystem.CorrectBody | src/systems/overlap_correction_system.cpp:128-146 | one body not skipped: its partners' keys join the processed set, and the key and step logs grow by exactly the pairs handled for it |
| OverlapCorrection.OverlapCorrectionSystem.CorrectAll | src/systems/overlap_correction_system.cpp:125-149 | over the whole view in any order, the processed keys are those of the partners of the bodies not skipped, each logged once, and the new motion replays the logged steps |
| OverlapCorrection.OverlapCorrectionSystem.Run | src/systems/overlap_correction_system.cpp:124-151 | the new motion is the pair steps as written replayed in handling order; every key of a non-skipped body and its partner is handled exactly once, each step naming such a body and partner; only motion of movable bodies changes; a scene without penetration is unchanged; the processed set is empty at the end |
| TexturePacking.DecodeIndex | src/utils/texture_packer.cpp:84 | the offset of a pixel channel lies in the buffer and decodes back to its row, column and channel |
| TexturePacking.EncodeIndex | src/utils/texture_packer.cpp:72 | every buffer offset is the offset of exactly one pixel channel |
| TexturePacking.RowSpan | src/utils/texture_packer.cpp:82-86 | the bytes of one row of an image's destination are one contiguous run |
| TexturePacking.PixelIndexBound | src/utils/texture_packer.cpp:83 | source offsets of an image stay inside its width*height*4 bytes |
| TexturePacking.PrepareRects | src/utils/texture_packer.cpp:53-58 | rect i has id i and the image's size plus twice the margin |
| TexturePacking.PixelLands | src/utils/texture_packer.cpp:76-87 | with disjoint placements, pixel (x, y) of image i is at its placement plus the margin plus (x, y) in the final buffer |
| TexturePacking.UncoveredIsZero | src/utils/texture_packer.cpp:72 | a byte that no image's destination covers stays zero |
| TexturePacking.MarginIsZero | src/utils/texture_packer.cpp:56-57 | with disjoint placements, the one-pixel ring around every image stays zero |
| TexturePacking.FramesDomain | src/utils/texture_packer.cpp:90-95 | the metadata has a frame for exactly the names of the images |
| TexturePacking.FramesLastWins | src/utils/texture_packer.cpp:90-95 | a name's frame is the placement plus margin and the size of the last image with that name |
| TexturePacking.FrameLocatesPixels | src/utils/texture_packer.cpp:78-95 | with disjoint placements, reading the buffer at a frame's origin plus (x, y) gives that image's pixel |
| TexturePacking.Packer | src/utils/texture_packer.cpp:47-96 | no images gives no output; a failed pack gives no atlas; otherwise a fresh 2048*2048*4 buffer holds the layered copies and the frames |
| TexturePacking.Blit | src/utils/texture_packer.cpp:72-96 | a zero buffer with every image copied in order, and one frame per name |
| TexturePacking.CopyImage | src/utils/texture_packer.cpp:81-87 | exactly the image's destination rectangle is overwritten with its pixels |
| TexturePacking.CopyRow | src/utils/texture_packer.cpp:82-86 | exactly one run of width*4 bytes is overwritten with row y of the image |
| TexturePacking.CopyPixel | src/utils/texture_packer.cpp:85 | exactly four bytes are copied |

## Left out

- The parallel `std::for_each(par_unseq)` over cells and the per-thread accumulators are left out. Two threads can hash to the same accumulator, which is a data race. The detector is modelled with one sequential accumulator.
- The detector's merge-time `processed_pairs` set is left out, because the single accumulator already holds each key once.
- The bit-mixing hash functions are left out. Pairs live in sets keyed by the canonical (min, max) pair, and the hash's order-independence is stated through `PairKey`.
- `DrawRectangleLines` and `draw_debug` are rendering side effects. `ColliderSystem.Run` returns the set of pairs it would outline instead of drawing them.
- Float rounding is not modelled. Positions, sizes and the 0.5 factors are exact reals, so the results are those of exact arithmetic.
- The `int` overflow of the `floor` casts in `get_hash_grid_cell` is not modelled. Cell indices are unbounded integers.
- SpatialGrid.HashGridCell: the grid functions take the cell width as a parameter. The `CollisionDetectionSystem` uses 250 (`SpatialGrid.DETECTOR_CELL_SIZE`).
- ColliderSystemModel.ColliderSystem.constructor: the cell width is a constructor parameter, because the shown header of `ColliderSystem` declares neither `hash_grid_cell_size` nor `hash_grid_cells`.
- `OverlapResult::has_penetration` is declared outside the modelled files. It is taken as "positive depth on both axes" (`OverlapCorrection.HasPenetration`).
- The overlap header declares a `pairs_checked` set with `UnorderedEntity*` functors, while the .cpp uses `processed_pairs` with `EntityPair*`. The model follows the .cpp.
- `resolve_overlap_between` is never called from `run`. It is modelled and proved on its own.
- OverlapCorrection.OverlapCorrectionSystem.Run: the system performs the push as written, reported under Findings. The corrected step `OverlapCorrection.PairStep` is proved separately and is not used by the system.
- `registry->get` on an entity without the component is a precondition violation in the model, not an error path.
- Loading images from the directory, `stbrp_pack_rects`, `stbi_write_png`, the JSON dump, the output files and the freeing of image memory are foreign calls. The loaded images and the packer's placements (or its failure) are inputs. The JSON object is a map from name to frame.
- TexturePacking.Packer: the packer's promises are preconditions: padded rectangles lie inside the atlas, and for the placement lemmas they are disjoint.
- TexturePacking.PackedImage: the source also stores a channel count. It is always 4, because images are loaded with four channels, so it is the constant `CHANNELS`.

## Findings

| source | as written | input that shows it | evidently intended | confidence | as-written member | corrected member |
|---|---|---|---|---|---|---|
| src/systems/overlap_correction_system.cpp:142-144 | when B is the movable body, `resolve_overlap` is called with the overlap computed from A, so B moves by the depth signed by A - B, towards A | A static at (0,0), B movable at (5,0), both 10x10: the depth is 5 on x, and B is moved to (0,0), where the depth on x is 10 | B is pushed away from A, to (10,0), where the two boxes just touch | not executed | OverlapCorrection.MovingBAsWrittenDeepens | OverlapCorrection.PushAwayClosesAxis |
