# Six game and page cores, modelled in Dafny

This project models the sequential cores of a portfolio repository that bundles several small games and shader demos. Each one is a Dafny module in its own file:

- **Tetris** (`tetris.dfy`): the grid operations of the Java Tetris game loop.
  - Drawing the moving piece over the settled cells.
  - Clearing full rows and packing the rest against the bottom.
  - Re-initialising the grid.
  - One tick of the game: fall, rotation with revert, horizontal move, game over, idle tick, lock and respawn.
- **ForceShield** (`force_shield.dfy`): the ten-slot hit pool of the force-shield controller.
  - Appending a hit, or evicting the first hit with the shortest duration when the pool is full.
  - Expiry by swap-with-last removal.
  - The intensities handed to the renderer.
- **Curve** (`curve_controller.dfy`): the ping-pong progress of the curve bender. It bounces between 0 and 1 and is floored at 0.0001 when handed to the material.
- **Zone** (`sub_zone.dfy`): one node split of the dungeon zone partition.
- **DungeonSets** (`dungeon_set.dfy`): the template lists and object pools of a dungeon set.
- **Loader** (`loader.dfy`): the lazy content loader of the page.
  - The `data-loaded` / `loading` guard and transitions of `loadContent`, with the fetch outcome as an input.
  - The `-banner` to `-details` mapping and `open` toggle of the detail triggers.

The `Option` type that Zone and Loader share is in `wrappers.dfy`.

Each core keeps the source's imperative form:

- Grids are `array2<int>`.
- The hit pool is five arrays and a count in a class.
- The controller, zone node, dungeon set and container element are classes whose methods update their fields.

Each method is tied to a function of the old state: `Overlay`, `Compact`, `Survivors`, `Bounce`, `SplitOutcome`, `StartLoad`/`Settle` and `Toggled`. The source's promises are proved as lemmas about those functions.

Some predicates and functions are plain definitions that other contracts are stated in:

- `Tetris.Proposed` is the candidate after the horizontal step.
- `Tetris.Blocked` is a requested step whose shifted piece collides horizontally.
- `Tetris.Idle` is a piece off row 0 identical to its proposal.
- The `UpdateGridData` row and the tick lemmas say what they mean for a tick.
- `Zone.SubZone.IsLeaf` (no children) is what the constructor and `Split` rows promise about.

Code the cores call but whose bodies are not part of this model is handled as follows:

- The Tetris collision tests, piece transformations and identity test are uninterpreted function-valued fields of `PieceOps`.
- The random draws, `Time.deltaTime`, the new piece and the fetch outcome are parameters.

## Model

| member | source | states |
|---|---|---|
| Tetris.Overlay | assets/java-tetris/data/GameLoop.java:87-93 | the overlaid grid has the dimensions of the grid it is drawn on |
| Tetris.OverlayKeepsUncovered | assets/java-tetris/data/GameLoop.java:89-91 | a cell the piece does not cover with a non-zero value keeps the grid's value |
| Tetris.OverlayPlacesPiece | assets/java-tetris/data/GameLoop.java:87-93 | with the footprint in bounds, every non-zero shape cell (i, j) appears at (y+i, x+j) with its value |
| Tetris.CopyRow | assets/java-tetris/data/GameLoop.java:84 | the target row becomes a copy of the source row, and every other cell is unchanged |
| Tetris.AddMovingPieceToData | assets/java-tetris/data/GameLoop.java:78-95 | returns a fresh grid of the same size equal to the overlay of the piece on `data`; `data` is not modified |
| Tetris.KeptRows | assets/java-tetris/data/GameLoop.java:212-223 | the non-full rows number at most the rows |
| Tetris.KeptRowsStep | assets/java-tetris/data/GameLoop.java:212-223 | the rows kept from row i on are row i (unless full) followed by those kept from i+1 on, matching the bottom-up scan |
| Tetris.KeptRowsWidth | assets/java-tetris/data/GameLoop.java:222 | kept rows keep the grid's width |
| Tetris.KeptRowsNotFull | assets/java-tetris/data/GameLoop.java:221-223 | no kept row is full |
| Tetris.KeptPlusFull | assets/java-tetris/data/GameLoop.java:211-224 | kept rows plus full rows add up to all rows |
| Tetris.KeptRowsAppend | assets/java-tetris/data/GameLoop.java:211-224 | filtering distributes over concatenation, so the kept rows keep their relative order |
| Tetris.KeptRowsOfNoFull | assets/java-tetris/data/GameLoop.java:221-223 | a grid without full rows is kept whole |
| Tetris.ZeroRowsOfFull | assets/java-tetris/data/GameLoop.java:213-223 | rows of width 0 are all full, so none is kept |
| Tetris.Compact | assets/java-tetris/data/GameLoop.java:209-225 | the result has as many rows as the grid; the last ones are the kept rows in order, and every row above them is all zero |
| Tetris.CompactShape | assets/java-tetris/data/GameLoop.java:209-225 | the result has ROWS rows of COLUMNS cells; its top r rows are zero, r being the number of full rows; below them are exactly the kept rows in order |
| Tetris.CompactHasNoFullRow | assets/java-tetris/data/GameLoop.java:213-223 | with at least one column the result has no full row |
| Tetris.CompactIdempotent | assets/java-tetris/data/GameLoop.java:207-226 | clearing full rows twice equals clearing them once (for any column count) |
| Tetris.IsFullRow | assets/java-tetris/data/GameLoop.java:213-220 | the backward scan with early break reports full exactly when every cell of the row is non-zero |
| Tetris.PlaceRow | assets/java-tetris/data/GameLoop.java:222 | copying a row to the write cursor k extends the packed rows below k by that row and keeps the rows above zero |
| Tetris.CompactStep | assets/java-tetris/data/GameLoop.java:212-223 | one iteration keeps the loop invariant: the rows below the cursor are the kept rows from row i on |
| Tetris.PackedIsCompact | assets/java-tetris/data/GameLoop.java:209-224 | at loop exit the clean grid equals the compacted grid |
| Tetris.CompactRows | assets/java-tetris/data/GameLoop.java:209-224 | returns a fresh grid of the same size equal to the compacted grid |
| Tetris.RemoveFullRows | assets/java-tetris/data/GameLoop.java:207-226 | the settled cells become the compacted old cells in a fresh array; the rendered cells, piece and flags are unchanged |
| Tetris.GridData.constructor | assets/java-tetris/data/GameLoop.java:244-245 | a new grid state as `new GridData()` and the first `initNewGridData` leave it, taking `initNewData` to clear both grids and both flags: zero settled and rendered cells, the first piece installed, not dirty, not over |
| Tetris.InitNewGridData | assets/java-tetris/data/GameLoop.java:263-268 | taking `initNewData` to clear both grids and both flags: fresh all-zero settled and rendered grids, not dirty, not over (so the restart after a game over really starts a new game), and the new piece installed |
| Tetris.Candidate | assets/java-tetris/data/GameLoop.java:145-163 | with neither fall nor rotation the piece is the current one; a fall alone is `moveDown` of it; a rotation of the fallen piece that hits floor, wall or settled cells reverts to the current piece, so the fall is dropped too, and one that hits none of them is kept |
| Tetris.TickRotationReverts | assets/java-tetris/data/GameLoop.java:146-168 | after a colliding rotation the proposed piece is the current one moved by the step alone, the step alone decides a block, and without a step the tick is idle off row 0 when `isIdentical` is reflexive |
| Tetris.TickRotationKept | assets/java-tetris/data/GameLoop.java:146-165 | a clear rotation is kept: the proposed piece has the rotated shape and row, moved by the step |
| Tetris.TickWithoutRotation | assets/java-tetris/data/GameLoop.java:146-177 | without a rotation the tick is the fall then the step; with neither fall nor step the current piece is proposed, the tick is never blocked, and it is idle exactly off row 0 for a reflexive `isIdentical` |
| Tetris.ProposeMove | assets/java-tetris/data/GameLoop.java:144-168 | a colliding rotation yields the current piece moved by the step, so the fall is dropped; a clear rotation yields the rotated fallen piece moved by the step; no rotation yields the fallen piece moved by the step; without a step it never collides horizontally; the result is the proposal the `UpdateGridData` contract is stated in |
| Tetris.ShowMovedPiece | assets/java-tetris/data/GameLoop.java:182-187 | the proposed piece becomes current and the rendered grid is its overlay on the settled cells, which stay the same |
| Tetris.LockPiece | assets/java-tetris/data/GameLoop.java:188-196 | the old piece's overlay on the settled cells becomes both the rendered and the settled cells; the new piece is installed |
| Tetris.UpdateGridData | assets/java-tetris/data/GameLoop.java:141-200 | a horizontal collision changes nothing; a vertical collision at the ceiling sets game over; an unchanged piece off row 0 only clears dirty; otherwise dirty is set and the piece moves, or on a vertical collision the old piece is locked and the new one installed |
| ForceShield.Max | assets/shield-shader/data/ForceShieldController.cs:29-30 | the larger of two values |
| ForceShield.Clamp01 | assets/shield-shader/data/ForceShieldController.cs:119 | the result lies in [0, 1] and a value already inside is kept |
| ForceShield.Intensity | assets/shield-shader/data/ForceShieldController.cs:119 | 1 - clamp01(timer / duration) lies in [0, 1] |
| ForceShield.IntensityEnds | assets/shield-shader/data/ForceShieldController.cs:115-121 | a hit at timer 0 shines fully; one at or past its duration not at all |
| ForceShield.IntensityFades | assets/shield-shader/data/ForceShieldController.cs:115-121 | intensity does not increase as the timer grows |
| ForceShield.MinScan | assets/shield-shader/data/ForceShieldController.cs:45-55 | the scan's index lies in the array and its value is at most float.MaxValue |
| ForceShield.MinScanFindsFirstMinimum | assets/shield-shader/data/ForceShieldController.cs:45-55 | the strict-less scan from float.MaxValue returns the first index of a minimal duration and that duration |
| ForceShield.FreeSlot | assets/shield-shader/data/ForceShieldController.cs:36-57 | with room the new hit takes the slot at the count; a full pool takes the slot the minimum scan finds; over ten durations the slot is one of the ten |
| ForceShield.HitsOfUpdate | assets/shield-shader/data/ForceShieldController.cs:27-33 | writing one live slot in every array replaces that one live hit |
| ForceShield.HitsOfAppend | assets/shield-shader/data/ForceShieldController.cs:38-42 | writing the slot at the count and counting it appends that hit |
| ForceShield.HitsOfTimer | assets/shield-shader/data/ForceShieldController.cs:81 | changing one live timer changes only that hit's timer |
| ForceShield.HitsOfShrink | assets/shield-shader/data/ForceShieldController.cs:103 | decrementing the count drops the last live hit |
| ForceShield.Removed | assets/shield-shader/data/ForceShieldController.cs:93-104 | swap-with-last removal leaves one hit fewer |
| ForceShield.RemovedTakesOut | assets/shield-shader/data/ForceShieldController.cs:93-104 | the live hits after removal are the old ones minus exactly the removed hit, as a multiset |
| ForceShield.RemovedSplit | assets/shield-shader/data/ForceShieldController.cs:93-104 | removal leaves the hits before the slot in place, and the rest are the old later hits reordered |
| ForceShield.Survivors | assets/shield-shader/data/ForceShieldController.cs:77-91 | a frame never adds hits |
| ForceShield.SurvivorsInTime | assets/shield-shader/data/ForceShieldController.cs:82 | no survivor of a frame has its timer beyond its duration |
| ForceShield.SurvivorsKeepLive | assets/shield-shader/data/ForceShieldController.cs:79-90 | a frame in which no hit runs past its duration keeps every hit in order, each advanced by dt |
| ForceShield.SurvivorsExtract | assets/shield-shader/data/ForceShieldController.cs:79-90 | up to order, the survivors are those of the other hits plus those of any one hit |
| ForceShield.SurvivorsAppend | assets/shield-shader/data/ForceShieldController.cs:79-90 | survival is decided hit by hit over a concatenation |
| ForceShield.SurvivorsPermutation | assets/shield-shader/data/ForceShieldController.cs:79-90 | reordering the hits reorders the survivors, so the survivors do not depend on slot order |
| ForceShield.ExpireStep | assets/shield-shader/data/ForceShieldController.cs:79-90 | one loop step, swap or advance, keeps the loop's relation between the examined slots and the original hits |
| ForceShield.ExpiryDone | assets/shield-shader/data/ForceShieldController.cs:79-91 | at loop exit the live hits are the survivors of the original hits up to order, and none is expired |
| ForceShield.ForceShieldController.constructor | assets/shield-shader/data/ForceShieldController.cs:13-21 | five arrays of ten zeroed slots and no live hit |
| ForceShield.ForceShieldController.GetFreeHitId | assets/shield-shader/data/ForceShieldController.cs:36-57 | with room, returns the old count and increments it by one; when full, returns the first slot of minimal duration and leaves the count; 0 <= count <= 10 stays |
| ForceShield.ForceShieldController.AddHit | assets/shield-shader/data/ForceShieldController.cs:23-34 | only the chosen slot changes: position, duration max(0.001, d), radius max(0, r), timer 0; the live hits gain the hit, or the evicted slot is replaced |
| ForceShield.ForceShieldController.ClearAllHits | assets/shield-shader/data/ForceShieldController.cs:59-63 | the count is 0 and the renderer receives count 0 with unchanged intensities |
| ForceShield.ForceShieldController.SwapWithLast | assets/shield-shader/data/ForceShieldController.cs:93-104 | the count drops by one; slot id takes the last slot's position, duration, timer and radius, but not its intensity; nothing else changes |
| ForceShield.ForceShieldController.AdvanceTimer | assets/shield-shader/data/ForceShieldController.cs:81 | only slot i's timer grows, by dt |
| ForceShield.ForceShieldController.ExpireSlot | assets/shield-shader/data/ForceShieldController.cs:81-89 | one iteration keeps the loop invariant and shrinks the slots left to examine |
| ForceShield.ForceShieldController.UpdateHitsLifeTime | assets/shield-shader/data/ForceShieldController.cs:77-91 | the live hits are, as a multiset, the old ones advanced by dt whose timer is within their duration; every live timer is at most its duration |
| ForceShield.ForceShieldController.SendHitsToRenderer | assets/shield-shader/data/ForceShieldController.cs:106-125 | each live slot with positive duration gets intensity 1 - clamp01(timer/duration) and the others keep theirs; the renderer receives radii, positions, count and intensities |
| ForceShield.ForceShieldController.Update | assets/shield-shader/data/ForceShieldController.cs:71-75 | one frame is expiry followed by rendering: the live hits are the survivors of the old ones and their count is that number, every live timer is within its duration, live hits with a positive duration get `Intensity(timer, duration)`, every other slot keeps its old intensity, and the block receives the radii, positions, count and intensities |
| Curve.Bounce | assets/bender-shader/data/CurveController.cs:64-73 | progress after the reversal rule lies in [0, 1] and the direction stays +1 or -1 |
| Curve.Emitted | assets/bender-shader/data/CurveController.cs:76 | the emitted value is max(progress, 0.0001): at least both, and equal to one of them |
| Curve.BounceCases | assets/bender-shader/data/CurveController.cs:64-73 | progress >= 1 is pinned to 1 heading -1, progress <= 0 pinned to 0 heading +1, and in between nothing changes |
| Curve.BounceIdempotent | assets/bender-shader/data/CurveController.cs:64-73 | reapplying the reversal rule changes nothing |
| Curve.BounceFacesInward | assets/bender-shader/data/CurveController.cs:64-73 | at either end the direction points back inside |
| Curve.EmittedRange | assets/bender-shader/data/CurveController.cs:76-79 | the value handed to the material lies in [0.0001, 1] |
| Curve.InsideStepIsExact | assets/bender-shader/data/CurveController.cs:55-56 | a step landing strictly inside (0, 1) moves progress by exactly dt/Duration times the direction |
| Curve.CurveController.constructor | assets/bender-shader/data/CurveController.cs:12-18 | duration 5, progress 0, direction +1 |
| Curve.CurveController.Start | assets/bender-shader/data/CurveController.cs:32-40 | without a curve it fails and changes nothing; with one the material receives the bounced, floored progress |
| Curve.Advanced | assets/bender-shader/data/CurveController.cs:55 | a step of non-negative length with a positive duration never moves progress against the direction, and a step of length 0 does not move it |
| Curve.CurveController.UpdateCurveMaterialBlock | assets/bender-shader/data/CurveController.cs:59-80 | with a curve, whose property block it writes: progress and direction follow the reversal rule, and the floored progress is emitted |
| Curve.CurveController.ResetProgress | assets/bender-shader/data/CurveController.cs:43-48 | progress 0 and direction +1 in every case; with a curve 0.0001 is emitted; without one the property block is missing, so the method fails after the reset and nothing is emitted |
| Curve.CurveController.Update | assets/bender-shader/data/CurveController.cs:50-57 | without a curve nothing happens; with one progress moves by dt/Duration times the direction, then bounces and is emitted |
| Zone.RatioAtLeastIsDivision | assets/procedural-dungeon/data/SubZone.cs:25-29 | where the divisor is non-zero, the multiplication form of the ratio test is exactly `a / b >= 1.25` |
| Zone.SplitsHorizontally | assets/procedural-dungeon/data/SubZone.cs:25-36 | a zone at least 1.25 times as wide as it is high is cut across its width, one at least 1.25 times as high as it is wide across its height, and only a near-square zone follows the coin |
| Zone.SplitOrientation | assets/procedural-dungeon/data/SubZone.cs:25-36 | the same three cases written with the divisions the source performs |
| Zone.TooSmall | assets/procedural-dungeon/data/SubZone.cs:38 | a zone is too small exactly when half of its width or half of its height is below the minimum size |
| Zone.Trunc | assets/procedural-dungeon/data/SubZone.cs:41 | the int cast drops the fraction toward zero |
| Zone.SplitOutcome | assets/procedural-dungeon/data/SubZone.cs:19-55 | no children exactly when half the short side is below the minimum size; maxZoneSize takes no part |
| Zone.Children | assets/procedural-dungeon/data/SubZone.cs:43-52 | the first child starts at the parent's corner, the second starts where the first ends along the cut, and the two areas add up to the parent's |
| Zone.ChildrenShareParent | assets/procedural-dungeon/data/SubZone.cs:43-52 | a height cut keeps x and width, starts the second child at y+split, and shares the height; a width cut does the same with the other coordinates |
| Zone.ChildrenTile | assets/procedural-dungeon/data/SubZone.cs:43-52 | for an offset within the side being cut, every point of the parent lies in exactly one child and every child point lies in the parent |
| Zone.SplitBorderKeepsChildrenInside | assets/procedural-dungeon/data/SubZone.cs:40-41 | with the border measured on the side being cut, any draw up to it leaves the truncated offset between 0 and the side and the second child at least the minimum size, so both children stay inside the parent |
| Zone.SplitBorderKeepsFirstChildIntegral | assets/procedural-dungeon/data/SubZone.cs:40-41 | with the corrected border and a whole-number minimum size, the truncated offset, which is the first child's side, is at least the minimum size |
| Zone.TruncatedOffsetShrinksFirstChild | assets/procedural-dungeon/data/SubZone.cs:40-41 | a 10 x 10 zone with minimum 1.5 cut across its height at draw 1.6 passes the size test and the draw range, yet the int cast gives a first child of height 1 |
| Zone.SplitBorderAsWritten | assets/procedural-dungeon/data/SubZone.cs:40 | the border as written is the corrected border measured on the other side |
| Zone.SplitBorderAsWrittenOverflows | assets/procedural-dungeon/data/SubZone.cs:40-47 | with the border as written, a 12 x 10 zone cut across its height can get offset 11: the second child has negative height, and a point outside the parent lies in the first child |
| Zone.SubZone.constructor | assets/procedural-dungeon/data/SubZone.cs:14-17 | a leaf holding the rectangle |
| Zone.SubZone.Split | assets/procedural-dungeon/data/SubZone.cs:19-55 | a non-leaf refuses and keeps its children; a leaf succeeds exactly when not too small; on success it gets two fresh leaf children with the rectangles of the split outcome and is no longer a leaf, so a second split fails |
| DungeonSets.GetTemplateElements | assets/procedural-dungeon/data/DungeonSet.cs:31-42 | a fresh list with the same elements in the same order; the input is not modified |
| DungeonSets.InitTemplatePool | assets/procedural-dungeon/data/DungeonSet.cs:53-61 | every template ID maps to a fresh empty list, overwriting; the keys are the old keys plus the IDs; other keys keep their lists |
| DungeonSets.DungeonSet.constructor | assets/procedural-dungeon/data/DungeonSet.cs:12-21 | empty name and template lists, no working copies |
| DungeonSets.DungeonSet.InitTemplateElements | assets/procedural-dungeon/data/DungeonSet.cs:23-29 | four fresh, pairwise distinct lists: two separate copies of the room templates and a copy of each other list; the spawn templates are not read |
| DungeonSets.DungeonSet.GetElementPools | assets/procedural-dungeon/data/DungeonSet.cs:44-51 | returns the given dictionary, initialised for the room, hallway and closing template IDs (not spawn) |
| Loader.NatToString | scripts/loader-utils.js:22 | the decimal text of a status is one or more digits |
| Loader.ParseNatToString | scripts/loader-utils.js:22 | the decimal text of a number denotes that number |
| Loader.HttpErrorMessageNamesStatus | scripts/loader-utils.js:22 | the HTTP error message is "HTTP error! Status: " followed by text that denotes the status |
| Loader.StartLoad | scripts/loader-utils.js:9-19 | reports a started fetch exactly when the guard passes, and never touches the URL, the loaded mark, the contents or the handler log |
| Loader.StartLoadGuard | scripts/loader-utils.js:9-19 | with no or empty URL, or data-loaded "true", nothing starts and only a warning is logged; otherwise `loading` is added and the URL is fetched, with contents unchanged |
| Loader.Settle | scripts/loader-utils.js:20-47 | the loading class is gone and the URL, fetch log and warnings are kept; a success marks the element loaded, a failure keeps the mark and binds nothing |
| Loader.SettleClearsLoading | scripts/loader-utils.js:45-47 | every completion path removes `loading` and keeps the other classes, the URL and the fetch log |
| Loader.SettleOutcome | scripts/loader-utils.js:20-44 | ok: the body is shown and data-loaded becomes "true"; HTTP error: the failure paragraph with "HTTP error! Status: status"; network error: the failure paragraph with its message; failures leave data-loaded alone and bind nothing |
| Loader.RebindsFor | scripts/loader-utils.js:31-39 | at most two initialisations, and none exactly when the body has no trigger of either kind |
| Loader.RebindsOnlyFound | scripts/loader-utils.js:31-39 | each kind of trigger is initialised exactly when the body has some |
| Loader.LoadedStaysLoaded | scripts/loader-utils.js:12-28 | after a successful load, a further call starts no fetch |
| Loader.FailureAllowsRetry | scripts/loader-utils.js:21-44 | after a failed load the element is fetchable exactly as before |
| Loader.SessionAfterLoad | scripts/loader-utils.js:12-15 | calls on a loaded element never fetch |
| Loader.SessionFetchesUntilOk | scripts/loader-utils.js:8-48 | repeated awaited calls fetch once per call up to the first successful outcome, and never after |
| Loader.ReplaceFirst | scripts/loader-utils.js:54 | the string either keeps its length, or loses the pattern's length and gains the replacement's |
| Loader.ReplaceFirstAt | scripts/loader-utils.js:54 | replacement happens at the first occurrence only |
| Loader.ReplaceFirstAbsent | scripts/loader-utils.js:54 | a string without the pattern is unchanged |
| Loader.DetailsId | scripts/loader-utils.js:54 | the details id is as long as the trigger id or one character longer |
| Loader.DetailsIdCases | scripts/loader-utils.js:54 | the target id is the trigger id with its first "-banner" replaced by "-details"; an id without "-banner" is unchanged |
| Loader.Toggled | scripts/loader-utils.js:55-60 | a click keeps the set of details elements |
| Loader.ToggledTwice | scripts/loader-utils.js:60 | two clicks restore every open flag |
| Loader.Container.LoadContent | scripts/loader-utils.js:9-19 | the element follows the guard and start of loadContent and reports whether a fetch started |
| Loader.Container.FetchSettled | scripts/loader-utils.js:20-47 | the element follows the then, catch and finally handlers for the given outcome |
| Loader.Document.ClickDetailTrigger | scripts/loader-utils.js:52-61 | an existing target has `open` flipped and nothing else changes; a missing one only adds the warning naming the mapped id |

## Left out

- The Tetris `run` loop and its scheduler are concurrency and are left out. So are the `GameLoop` constructor and its UI, and `renderGridData`, a rendering sink. The new piece for a lock or a restart is a parameter.
- Tetris.GridData.constructor / Tetris.InitNewGridData / Tetris.LockPiece / Tetris.UpdateGridData require the spawned piece to lie inside the grid (`Fits`). The spawn position `Config.getInitPosition()` and the tetromino shapes are not part of this model, so the model assumes the spawned piece fits rather than proving it; `addMovingPieceToData` would throw otherwise.
- Collision, Input, PullDelay, MovingPieceData and GridData are not part of this model.
  - The collision tests, `moveDown`, `rotate` and `isIdentical` are uninterpreted functions.
  - Input and the key and pull delays collapse into the tick input: pull ready, rotation requested and not delayed, and the effective horizontal step.
  - Starting the delays and speeding up or slowing down the pull are left out for the same reason.
- Tetris.UpdateGridData requires that a piece which does not collide vertically lies inside the grid (`VerticalCheckBounds`), because the collision code that would guarantee it is not part of this model.
- Tetris.ProposeMove takes the `MovingPieceData` copy constructor to be a deep copy. If it shared the position, the fall, the rotation and the step (GameLoop.java:148-161) would also move the current piece.
- Tetris.GridData.constructor / Tetris.InitNewGridData assume that `GridData.initNewData` clears both grids to zero and clears the dirty and game-over flags. `GridData`'s body is not part of this model; only the game-over reset is implied by the restart in `run`.
- Tetris.Piece carries the rotations, rotation index and colour of `MovingPieceData` without interpreting them. Only `rotate` and the renderer would read them, and their bodies are not part of this model.
- Tetris grids are `ROWS x COLUMNS` arrays of the configured size; the `Config` constants are not fixed to values.
- ForceShield, Curve and Zone use reals for floats (Zone's `Rect` and `minZoneSize`), so IEEE rounding, NaN and infinities are not modelled. Zone's `RatioAtLeast` stands in for the float result of a division by a zero side: +Infinity when the other side is positive, so the test passes, and NaN or -Infinity otherwise, so it fails.
- ForceShield.ForceShieldController.AddHit requires durations no larger than `float.MaxValue`. Every finite C# float meets this; an infinite duration does not, and the model excludes it. The minimum scan relies on it.
- ForceShield.ForceShieldController.AddHit takes the position already in object space; `InverseTransformPoint` is not modelled.
- ForceShield.ForceShieldController.UpdateHitsLifeTime states the new live hits up to order (a multiset), not their slot order, and says nothing of the stale slots at or beyond the new count.
- The renderer, the `MaterialPropertyBlock` and `Awake` are modelled only through the values handed over: the `block` field and the `emitted` log.
- Curve.CurveController.Update requires a non-zero `Duration`; a division by zero on floats is not modelled.
- Curve.CurveController.UpdateCurveMaterialBlock requires a curve. Its `??=` fallback reads the curve's property block, so the model takes a property block to exist exactly when a curve is assigned. The exception `Start` throws, and the one `ResetProgress` meets in it without a curve, are the false results of those methods.
- The gizmo methods of the curve controller are editor drawing and are left out.
- `Random.Range` and its bounds in `SubZone.Split` become parameters: the coin and the drawn offset. Which offsets a draw can produce is stated in the lemmas.
- Zone.SplitBorderKeepsChildrenInside promises the minimum size only for the second child. The first child's side is the offset after the int cast at SubZone.cs:41, which can fall below a fractional minimum even with the corrected border (`Zone.TruncatedOffsetShrinksFirstChild`: 10 x 10, minimum 1.5, draw 1.6, height 1). For a whole-number minimum the first child keeps it too (`Zone.SplitBorderKeepsFirstChildIntegral`).
- The shuffled getters of `DungeonSet` rely on a `Shuffle` extension and `DRandom`, which are not part of this model. A null template ID is not modelled.
- Loader: the model leaves out several behaviours of the real page.
  - It does not model the Promise scheduling of `fetch`, HTML parsing of `innerHTML`, or `querySelectorAll`. A successful body carries the triggers the page would find in it.
  - `initializeLightboxTriggers` lives in a file that is not part of this model, so only the fact that triggers are initialised is recorded.
  - `console.error` is not recorded.
  - An exception thrown by a trigger initialiser after a successful insertion would reach the catch handler; this is not modelled.
- The other page scripts, the Unity editor, curve-mesh, particle, zone-item and generation-condition files are not part of this model.

## Findings

| source | as written | input that shows it | evidently intended | confidence | as-written member | corrected member |
|---|---|---|---|---|---|---|
| assets/procedural-dungeon/data/SubZone.cs:40 | the upper end of the offset draw is `width - minZoneSize` for a cut across the height and `height - minZoneSize` for a cut across the width | rect 12 x 10 at the origin, minZoneSize 1, coin 0.75 (near-square, so cut across the height), drawn offset 11: the second child gets height -1 and the first child reaches below the parent | the end of the draw measured on the side being cut, so both children stay inside the parent and the second keeps the minimum size | not executed | Zone.SplitBorderAsWrittenOverflows | Zone.SplitBorderKeepsChildrenInside |
