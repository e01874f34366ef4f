# Terrain generation of GamePitTokyo, in Dafny

This project models the procedural map of the game: the `MapManager` component that
fills a `width` x `height` grid of tiles (`Air`, `Solid`, `Cave`, with `y` growing
upwards) and the `TileBaseEX` block that picks its sprite. The declarations of
`System.cs` (the `ExposedDir` flags, the `CornerType` enum and the `SpawnRange` struct)
come first.

- `wrappers.dfy` — `Option`, for "assigned a value or not".
- `tiles.dfy` (module `Tiles`) — `ExposedDir` as a 32-bit flags value with the four
  direction bits, read as a set of directions; `CornerType` with its enum ordinals;
  `SpawnRange`.
- `tile_visual.dfy` (module `TileVisual`) — the thirteen sprite slots, `ApplyCorner`
  and `ApplyVisual`.
- `map_manager.dfy` (module `MapGen`) — the class `MapManager` over an
  `array2<TileType>` (`grid`; `map` is a Dafny keyword). Its mutators are methods with
  loops that state the whole new grid ("these cells become Solid or Cave, every other
  cell keeps its old value"). For the cave walks, the cells that become Cave are those
  the walks dig (`DugAt`, `DugBefore`, `WalkDigs`, `DugByWalks`), and `GenerateCaves`
  also returns, as ghost results, each walk's surface row and start cell. Its queries
  are functions. The `GetSurfaceY` scan and the
  `BuildBlocks` loop are methods proved against functions (`SurfaceY`,
  `BlocksLeftOf`). The spawn loops are methods that count tries and placements.
  `Generate` runs the whole pipeline on a fresh grid. It proves the final terrain:
  bedrock and side walls are Solid, nothing above a column's surface line is Solid
  except those strips, and nothing at or under it is Air.

Inputs the game computes with floats or `System.Random` are parameters:
- the rounded surface height of each column;
- each cave walk's start-column draw, its integer moves, and whether a room is rolled
  at each step, with the room's radius draw and shape test;
- each spawn loop's stream of raw draws, a sequence read in the loop's order (x, y, then
  the prefab index on acceptance). `Draw` reads a position past the end as 0. A try uses
  at most three draws, so a stream of `3 * 5000` draws covers every run.

`Next(lo, hi, raw)` stands for `Random.Next(lo, hi)`: it returns `lo` when the range is
empty and `lo + raw % (hi - lo)` otherwise. `NextCoversRange` shows that every value
in the range is reachable.

`MapManager.cs` has no cellular-automaton cave pass and no flood-fill pass that refills
unreachable caves: caves come only from random walks, and the model claims no
connectivity. `FillBelowSurface` (MapManager.cs:104-112) finds each column's surface by
the `GetSurfaceY` scan rather than remembering the height it wrote, and the model does
the same.

## Model

| member | source | states |
|---|---|---|
| `Tiles.Flag` | GamePitTokyo_2025/Assets/Scripts/H_Folder/System.cs:3-11 | each direction flag is a single non-zero bit within the low four bits |
| `Tiles.FlagsDisjoint` | GamePitTokyo_2025/Assets/Scripts/H_Folder/System.cs:6-10 | the four flags are pairwise disjoint bits, equal only for the same direction |
| `Tiles.IncludeIsUnion` | GamePitTokyo_2025/Assets/Scripts/H_Folder/MapManager.cs:237-241 | the directions `HasFlag` (the test of TileBaseEX.cs:44-64) finds in `Include(m, Flag(d))` (the or-assignment of MapManager.cs:238-241) are exactly those of m plus d |
| `Tiles.UnionOfMasks` | GamePitTokyo_2025/Assets/Scripts/H_Folder/System.cs:3-11 | or-ing two masks takes the union of their direction sets |
| `Tiles.MaskOf` | GamePitTokyo_2025/Assets/Scripts/H_Folder/System.cs:3-11 | the mask built from a set of directions uses no bit outside the four flags |
| `Tiles.MaskOfRoundTrip` | GamePitTokyo_2025/Assets/Scripts/H_Folder/System.cs:3-11 | reading back the directions of the mask built from a set gives that set |
| `Tiles.DirsOfRoundTrip` | GamePitTokyo_2025/Assets/Scripts/H_Folder/System.cs:3-11 | every mask within the four flags is the mask of its own direction set, so masks and direction sets are in one-to-one correspondence |
| `Tiles.NoExposureIsEmpty` | GamePitTokyo_2025/Assets/Scripts/H_Folder/System.cs:6 | `ExposedDir.None` (0) is exactly the mask with no direction |
| `Tiles.Ordinal` | GamePitTokyo_2025/Assets/Scripts/H_Folder/System.cs:12-27 | the enum values are 0 to 8: 0 is None, 1-4 the outer corners, 5-8 the inner corners |
| `Tiles.OrdinalBijection` | GamePitTokyo_2025/Assets/Scripts/H_Folder/System.cs:12-27 | the nine cases and the values 0-8 correspond one to one |
| `Tiles.CornerGeometry` | GamePitTokyo_2025/Assets/Scripts/H_Folder/System.cs:16-26 | each real corner is outer or inner but not both, and is identified by that kind plus its horizontal and vertical side |
| `TileVisual.CornerDrawnBy` | GamePitTokyo_2025/Assets/Scripts/H_Folder/TileBaseEX.cs:17-26 | exactly the eight corner sprites draw a corner |
| `TileVisual.ApplyCorner` | GamePitTokyo_2025/Assets/Scripts/H_Folder/TileBaseEX.cs:75-100 | returns no sprite exactly when the corner is None, otherwise the corner sprite drawing that very corner |
| `TileVisual.ApplyVisual` | GamePitTokyo_2025/Assets/Scripts/H_Folder/TileBaseEX.cs:37-72 | with a corner, the sprite draws that corner; without one, top iff Up is exposed, bottom iff Down but not Up, left iff Left but neither Up nor Down, right iff only Right, solid iff nothing is exposed |
| `TileVisual.CornerTakesPrecedence` | GamePitTokyo_2025/Assets/Scripts/H_Folder/TileBaseEX.cs:39-41 | with a corner, the exposure mask does not affect the sprite |
| `TileVisual.CornerSpritesDistinct` | GamePitTokyo_2025/Assets/Scripts/H_Folder/TileBaseEX.cs:77-97 | a corner sprite is determined by the corner it draws |
| `TileVisual.UpDominates` | GamePitTokyo_2025/Assets/Scripts/H_Folder/TileBaseEX.cs:44-48 | without a corner, any mask with Up gives top, whatever the other bits |
| `TileVisual.SideSpriteUsesDirections` | GamePitTokyo_2025/Assets/Scripts/H_Folder/TileBaseEX.cs:44-71 | without a corner, two masks with the same directions give the same sprite |
| `TileVisual.EverySpriteReachable` | GamePitTokyo_2025/Assets/Scripts/H_Folder/TileBaseEX.cs:37-100 | each of the thirteen sprites is chosen for some corner and mask |
| `MapGen.Clamp` | GamePitTokyo_2025/Assets/Scripts/H_Folder/MapManager.cs:99 | with ordered bounds the result lies within them; a value within them is returned unchanged; a value below `lo` gives `lo`, and a value at least `lo` and above `hi` gives `hi` |
| `MapGen.Next` | GamePitTokyo_2025/Assets/Scripts/H_Folder/MapManager.cs:121 | a draw lies in `[lo, hi)`, or is `lo` when the range is empty |
| `MapGen.NextCoversRange` | GamePitTokyo_2025/Assets/Scripts/H_Folder/MapManager.cs:121 | every value of `[lo, hi)` is produced by some raw draw |
| `MapGen.BrushIsDisc` | GamePitTokyo_2025/Assets/Scripts/H_Folder/MapManager.cs:164-167 | for r >= 0 the loop square cuts nothing off: an offset is carved iff `dx²+dy² <= r²` |
| `MapGen.RadiusTwoOffset` | GamePitTokyo_2025/Assets/Scripts/H_Folder/MapManager.cs:164-167 | within the radius-2 square, `dx²+dy² <= 4` holds exactly for the 13 disc offsets |
| `MapGen.RadiusTwoBrush` | GamePitTokyo_2025/Assets/Scripts/H_Folder/MapManager.cs:162-175 | the default radius-2 brush is exactly the 13-cell discrete disc |
| `MapGen.StepPos` | GamePitTokyo_2025/Assets/Scripts/H_Folder/MapManager.cs:155-158 | after a step the position lies in the clamp box; per coordinate, a move that stays inside the box is not altered, one below the low bound lands on it, and one above the high bound lands on it |
| `MapGen.Walk` | GamePitTokyo_2025/Assets/Scripts/H_Folder/MapManager.cs:139-158 | a walk carves at one position per step, starting at its start cell |
| `MapGen.WalkFollowsSteps` | GamePitTokyo_2025/Assets/Scripts/H_Folder/MapManager.cs:155-158 | each position is the clamped step from the position before it |
| `MapGen.WalkStaysInside` | GamePitTokyo_2025/Assets/Scripts/H_Folder/MapManager.cs:157-158 | every position after the start lies in `[2, width-3] x [bedrockHeight+2, height-3]` when that box is non-empty |
| `MapGen.InSpawnRangeInclusive` | GamePitTokyo_2025/Assets/Scripts/H_Folder/MapManager.cs:350-357 | `InSpawnRange`: all four range bounds are inclusive and the cells just past them are outside |
| `MapGen.MapManager.constructor` | GamePitTokyo_2025/Assets/Scripts/H_Folder/MapManager.cs:74 | a new `width` x `height` grid is all Air, the enum value 0 |
| `MapGen.MapManager.IsOpen` | GamePitTokyo_2025/Assets/Scripts/H_Folder/MapManager.cs:271-280 | every cell off the grid (outside `InRange`, MapManager.cs:277-280) is open; on the grid, a cell is open iff it is not Solid |
| `MapGen.MapManager.TopSolidBelow` | GamePitTokyo_2025/Assets/Scripts/H_Folder/MapManager.cs:282-288 | the result is the highest Solid row below n, or -1 when there is none |
| `MapGen.MapManager.SurfaceY` | GamePitTokyo_2025/Assets/Scripts/H_Folder/MapManager.cs:282-288 | the surface row is Solid, with no Solid cell above it; -1 means the column has no Solid cell |
| `MapGen.MapManager.GetSurfaceY` | GamePitTokyo_2025/Assets/Scripts/H_Folder/MapManager.cs:282-288 | the downward scan returns the highest Solid row of the column, or -1 |
| `MapGen.MapManager.LoneSolidIsSurface` | GamePitTokyo_2025/Assets/Scripts/H_Folder/MapManager.cs:91-112 | in a column that is Air except one Solid cell, the surface is that cell, so the fill starts at the row the surface pass wrote |
| `MapGen.MapManager.GetExposedDir` | GamePitTokyo_2025/Assets/Scripts/H_Folder/MapManager.cs:235-243 | the mask uses only the four flags and holds Up, Down, Left and Right exactly when that neighbour is open |
| `MapGen.MapManager.GetCornerType` | GamePitTokyo_2025/Assets/Scripts/H_Folder/MapManager.cs:245-268 | a returned corner matches its pattern (outer: both sides open, diagonal closed; inner: both closed, diagonal open); no corner earlier in enum order matches; None means no corner matches |
| `MapGen.MapManager.CornerAgreesWithExposure` | GamePitTokyo_2025/Assets/Scripts/H_Folder/MapManager.cs:235-268 | an outer corner has both of its sides in the exposure mask and an inner corner has neither |
| `MapGen.MapManager.BuriedBlock` | GamePitTokyo_2025/Assets/Scripts/H_Folder/MapManager.cs:229-268 | a block with all eight neighbours closed has no exposure and no corner, and shows the solid sprite |
| `MapGen.MapManager.BlockAt` | GamePitTokyo_2025/Assets/Scripts/H_Folder/MapManager.cs:224-231 | a block carries its cell's mask, corner and sprite; the collider is on iff some side is open, and `isHit` iff the top is open |
| `MapGen.MapManager.ColumnBlocksDescribe` | GamePitTokyo_2025/Assets/Scripts/H_Folder/MapManager.cs:217-231 | every block built for a column describes a Solid cell |
| `MapGen.MapManager.ColumnBlocksOrdered` | GamePitTokyo_2025/Assets/Scripts/H_Folder/MapManager.cs:217-219 | a column's blocks lie in that column, in strictly increasing rows |
| `MapGen.MapManager.ColumnBlocksCover` | GamePitTokyo_2025/Assets/Scripts/H_Folder/MapManager.cs:217-219 | every Solid cell of the column gets a block |
| `MapGen.MapManager.BlocksLeftOfDescribe` | GamePitTokyo_2025/Assets/Scripts/H_Folder/MapManager.cs:216-231 | every block describes a Solid cell |
| `MapGen.MapManager.BlocksLeftOfOrdered` | GamePitTokyo_2025/Assets/Scripts/H_Folder/MapManager.cs:216-219 | blocks come in strict x-major order, so no cell gets two blocks |
| `MapGen.MapManager.BlocksLeftOfCover` | GamePitTokyo_2025/Assets/Scripts/H_Folder/MapManager.cs:216-219 | every Solid cell gets a block |
| `MapGen.MapManager.BuildBlocks` | GamePitTokyo_2025/Assets/Scripts/H_Folder/MapManager.cs:212-233 | one block per Solid cell, each with its classification, in x-major order, and no other blocks |
| `MapGen.MapManager.GenerateSurface` | GamePitTokyo_2025/Assets/Scripts/H_Folder/MapManager.cs:91-102 | exactly one cell per column becomes Solid, at the height clamped into `[0, height-1]`; nothing else changes |
| `MapGen.MapManager.FillBelowSurface` | GamePitTokyo_2025/Assets/Scripts/H_Folder/MapManager.cs:104-112 | every cell under its column's surface row becomes Solid; the rest is unchanged |
| `MapGen.MapManager.CarveCircle` | GamePitTokyo_2025/Assets/Scripts/H_Folder/MapManager.cs:162-175 | exactly the on-grid brush cells at or above the bedrock become Cave; nothing else changes |
| `MapGen.MapManager.CarveRoom` | GamePitTokyo_2025/Assets/Scripts/H_Folder/MapManager.cs:187-202 | exactly the on-grid cells of the radius-r square that pass the room test, at or above the bedrock, become Cave; nothing else changes |
| `MapGen.MapManager.RoomRadius` | GamePitTokyo_2025/Assets/Scripts/H_Folder/MapManager.cs:145 | a room's radius lies in `[caveRoomMinRadius, caveRoomMaxRadius]` |
| `MapGen.MapManager.DugBeforeIsSomeStep` | GamePitTokyo_2025/Assets/Scripts/H_Folder/MapManager.cs:139-147 | a cell is dug by the first n steps iff some step before n digs it: in the brush around that step's position, or in the kept square of a room carved at that step |
| `MapGen.MapManager.WalkDigsEveryBrush` | GamePitTokyo_2025/Assets/Scripts/H_Folder/MapManager.cs:141 | the walk digs every on-grid cell at or above the bedrock in the brush around each of its positions |
| `MapGen.MapManager.DugAboveBedrock` | GamePitTokyo_2025/Assets/Scripts/H_Folder/MapManager.cs:162-202 | a cell a walk digs is on the grid and at or above the bedrock |
| `MapGen.MapManager.DigStep` | GamePitTokyo_2025/Assets/Scripts/H_Folder/MapManager.cs:141-147 | one step: exactly the cells in the brush, plus the kept room cells when a room is allowed and rolled, become Cave; nothing else changes |
| `MapGen.MapManager.DigCave` | GamePitTokyo_2025/Assets/Scripts/H_Folder/MapManager.cs:129-160 | exactly the cells the walk digs become Cave and every other cell keeps its value; only cells at or above the bedrock change; the brush around every walk position is Cave afterwards |
| `MapGen.MapManager.DugByWalksSnoc` | GamePitTokyo_2025/Assets/Scripts/H_Folder/MapManager.cs:119-126 | one more walk adds exactly the cells it digs when it was started, and nothing when it was skipped |
| `MapGen.MapManager.WalkColumn` | GamePitTokyo_2025/Assets/Scripts/H_Folder/MapManager.cs:121 | a walk's column lies in `[5, width-5)` (or is 5 when `width` is 10) |
| `MapGen.MapManager.WalkStart` | GamePitTokyo_2025/Assets/Scripts/H_Folder/MapManager.cs:122-123 | a walk starts one row under the surface, and is skipped exactly when that row is 0 or below |
| `MapGen.MapManager.CaveWalkFrom` | GamePitTokyo_2025/Assets/Scripts/H_Folder/MapManager.cs:121-125 | one walk: its surface row is read on the grid the earlier walks left, it starts under it unless skipped, and exactly the cells it digs become Cave |
| `MapGen.MapManager.GenerateCaves` | GamePitTokyo_2025/Assets/Scripts/H_Folder/MapManager.cs:115-127 | walk i's surface row is the highest Solid row of its column on the grid the walks before it left; the walk is skipped exactly when the row under that is 0 or below, and otherwise starts there; exactly the cells the started walks dig become Cave, only at or above the bedrock, and every other cell keeps its value |
| `MapGen.MapManager.ForceBedrock` | GamePitTokyo_2025/Assets/Scripts/H_Folder/MapManager.cs:204-209 | every cell below `bedrockHeight` becomes Solid; nothing else changes |
| `MapGen.MapManager.ForceSideWalls` | GamePitTokyo_2025/Assets/Scripts/H_Folder/MapManager.cs:177-186 | every cell with `x < sideWallWidth` or `x >= width - sideWallWidth` becomes Solid; nothing else changes |
| `MapGen.MapManager.SpawnTry` | GamePitTokyo_2025/Assets/Scripts/H_Folder/MapManager.cs:298-318 | one try keeps the placements made before it and adds at most one, at the end; an added placement is in the range, passes its loop's test and, when there are prefabs, has a prefab index below their count |
| `MapGen.MapManager.SpawnTries` | GamePitTokyo_2025/Assets/Scripts/H_Folder/MapManager.cs:296-319 | n tries place at most n cells |
| `MapGen.MapManager.SpawnTryKeepsPlaceable` | GamePitTokyo_2025/Assets/Scripts/H_Folder/MapManager.cs:298-318 | a try preserves "every placement so far is placeable" |
| `MapGen.MapManager.SpawnTriesSound` | GamePitTokyo_2025/Assets/Scripts/H_Folder/MapManager.cs:296-319 | every placement made by the first n tries is in the range, passes its loop's test and has a valid prefab index |
| `MapGen.MapManager.SpawnedWithinCount` | GamePitTokyo_2025/Assets/Scripts/H_Folder/MapManager.cs:296 | a loop that stops by its rule (`SpawnedBy`: after 5000 tries, or as soon as `count` cells are placed) places at most `count` cells and none for a count of 0 or less, at most one per try, and fewer than `count` only after all 5000 tries; every placement is in the range and passes its test |
| `MapGen.MapManager.PassesTests` | GamePitTokyo_2025/Assets/Scripts/H_Folder/MapManager.cs:301-306 | the `continue` tests, in the source's order, let a cell through exactly when it is in the range and passes its loop's test |
| `MapGen.MapManager.TryOnce` | GamePitTokyo_2025/Assets/Scripts/H_Folder/MapManager.cs:298-318 | one pass of the loop body, resumed where `tries` tries left off, leaves exactly what `tries + 1` tries leave: the same placements and the same next draw |
| `MapGen.MapManager.Spawn` | GamePitTokyo_2025/Assets/Scripts/H_Folder/MapManager.cs:290-387 | for a count of 0 or less nothing is placed and no try is made, whatever the range, as the guard `spawned < count` fails first (MapManager.cs:296, 327, 365); otherwise the loop's result is exactly the placements of its first `tries` tries, where it stops after 5000 tries or as soon as `count` cells are placed and not before (`SpawnedBy`); at most `count` placements and one per try, fewer only when the budget is spent; every placement is in the range, passes its loop's test and has a valid prefab index |
| `MapGen.MapManager.SpawnGroundEnemies` | GamePitTokyo_2025/Assets/Scripts/H_Folder/MapManager.cs:290-320 | the placements are exactly those the ground loop's tries make on its draws (`SpawnedBy`); at most the requested count; each placement is in range, Solid, with the three cells above it open |
| `MapGen.MapManager.SpawnAirEnemies` | GamePitTokyo_2025/Assets/Scripts/H_Folder/MapManager.cs:321-347 | the placements are exactly those the air loop's tries make on its draws; at most the requested count; each placement is in range and open |
| `MapGen.MapManager.GimmickEnemies` | GamePitTokyo_2025/Assets/Scripts/H_Folder/MapManager.cs:359-387 | the placements are exactly those the gimmick loop's tries make on its draws; at most the requested count; each placement is in range, Solid, with exactly Cave directly above |
| `MapGen.MapManager.ShapedIsTerrain` | GamePitTokyo_2025/Assets/Scripts/H_Folder/MapManager.cs:76-80 | the exact terrain (`Shaped`: bedrock and side walls Solid, else Cave where a walk digs, else Solid at or under the surface line and Air above) has the layering of `Terrain` |
| `MapGen.MapManager.DugIsCaveBrushes` | GamePitTokyo_2025/Assets/Scripts/H_Folder/MapManager.cs:141 | once every cell a walk digs is Cave, the brush around each of its positions is Cave |
| `MapGen.MapManager.ShapeTerrain` | GamePitTokyo_2025/Assets/Scripts/H_Folder/MapManager.cs:76-80 | from an all-Air grid: every cell is exactly as `Shaped` says, for the walk starts it returns; walk i's surface row and start are read on the filled grid as the walks before it left it; and the terrain has the layering of `Terrain` |
| `MapGen.MapManager.SpawnAll` | GamePitTokyo_2025/Assets/Scripts/H_Folder/MapManager.cs:84-86 | each spawner's placements are exactly those its loop makes on its own draw stream, at most its requested count, each satisfying its own loop's test |
| `MapGen.MapManager.Generate` | GamePitTokyo_2025/Assets/Scripts/H_Folder/MapManager.cs:72-87 | on a fresh grid: the exact shaped terrain and the walks' surface rows and starts as `ShapeTerrain` states them, blocks exactly as `BuildBlocks` builds them, and the three spawners' placements exactly as their loops make them, with the count bounds and per-placement tests |

## Left out

- Floating-point surface shaping: `Mathf.Lerp`, `Mathf.PerlinNoise` and `Mathf.RoundToInt` in `GenerateSurface` are not modelled. The rounded height of each column is an input. So the division by `width - 1` never happens in the model, and a one-column map needs no special case.
- The noisy room-radius test of `CarveRoom` is an input predicate (`Room.keep`). The loop square, the bounds test and the bedrock test around it are modelled.
- The float direction vector of `DigCave` (random start, turns, down bias, normalisation) is not modelled. Each step's move is an integer input. The float position and its truncation to a cell are not modelled either: positions are integer cells, clamped into the interior box after every step.
- The walk length `rand.Next(40, 90)` is the number of steps given. The room roll `NextDouble() < caveRoomChance` is whether a step carries a room. Only a step past `caveRoomStartStep` uses it, as in the source.
- The `System.Random` algorithm and its seeding are not modelled. Draws are raw numbers mapped by `Next`. Each spawn loop reads its stream in the source's order: x, y, then the prefab index on acceptance.
- Engine objects are not modelled: `Instantiate`, the `MapRoot` object, world positions from `mapStart` and the one-row offset of ground and gimmick spawns, `GetComponent` and the `SpriteRenderer`. `BuildBlocks` returns the block records. The spawners return the accepted cells and prefab indices.
- The constructor allocates the all-Air grid. The source leaves `map` null until `Generate`, which allocates it again, as the model's `Generate` does.
- Exceptions are preconditions, not modelled behaviour: negative array sizes, `Random.Next` with its lower bound above its upper bound, grid indexing off the array in the spawn loops, an empty prefab array, and a zero `height` with a non-empty `width`.
- `MapGen.MapManager.ForceBedrock`: requires `bedrockHeight <= height`. The source indexes every row under `bedrockHeight` (MapManager.cs:207-208), which is off the array otherwise.
- `MapGen.MapManager.ForceSideWalls`: requires `sideWallWidth <= width`. The source indexes every column of both strips (MapManager.cs:179-185), which is off the array otherwise.
- `MapGen.MapManager.Spawn`: for a positive count, requires the drawing bounds to be ordered and, for the ground and gimmick loops, every drawable cell to lie on the grid, because those loops index the grid without a check. The air loop reads the grid only through `IsOpen`, so any ordered range is accepted for it, including the all-zero unset range, which draws (0, 0) every time. With a positive count, an unset ground or gimmick range makes the source's `Random.Next` throw (its y bounds become 0 and -3, or 0 and -1). With a count of 0 or less the loop never draws, and any range is accepted, as in the source.
- `MapGen.MapManager.DigCave`, and with it `DigStep`, `CaveWalkFrom`, `GenerateCaves`, `ShapeTerrain` and `Generate`: requires `caveRoomMinRadius <= caveRoomMaxRadius + 1` even for walks in which no step past `caveRoomStartStep` rolls a room. The source draws the room radius only inside that roll (MapManager.cs:143-145), so it runs disordered radius bounds as long as no room is rolled; the model does not cover that case.
- C# `int` is 32 bits and its arithmetic wraps; the model's integers are unbounded. The squares `dx * dx + dy * dy` and `r * r` of the brush test (MapManager.cs:167) the bounds `right + 1` and `top + 1` of the spawn draws (MapManager.cs:298, 329-330, 367), and the y bounds `top - 3` and `top - 1` (MapManager.cs:299, 368) wrap only for a radius of 32768 or more (the sum of two squares passes 2^31 - 1), for a `right` or `top` bound of `int.MaxValue`, and for a `top` within 3 (ground) or 1 (gimmick) of `int.MinValue`; the model does not reproduce that overflow.
- Cave connectivity is not claimed: `MapManager.cs` has no flood-fill or cellular-automaton pass.
- The size of the radius-2 brush is shown by listing its 13 offsets (`RadiusTwoBrush`), not by a cardinality lemma.
- Enemy AI, player, bullets, camera, cards, UI and scene loading are not part of this model.
