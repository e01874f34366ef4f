/**
 * The terrain generator of MapManager.cs: a `width` x `height` grid of tiles (Air, Solid,
 * Cave), indexed `grid[x, y]` with y growing upwards, that `Generate` fills in a fixed order
 * (surface line, fill below it, random-walk caves, bedrock rows, side walls), then
 * classifies block by block and samples spawn cells from.
 *
 * Floating-point inputs are taken as integers: the surface height of each column (the
 * rounded lerp-plus-noise value), the integer move of each cave-walk step, and the
 * noise-shaped membership of each cave room. Every `System.Random` draw is a raw natural
 * number that `Next` maps into the requested range.
 */
module MapGen {
  import opened Tiles
  import TileVisual
  import Wrappers

  /** The three kinds of grid cell; a new C# array holds `Air`, the value 0. */
  datatype TileType = Air | Solid | Cave

  // ---------------------------------------------------------------------------
  // Helpers shared by the generator

  /** `Mathf.Clamp`: the lower bound is compared first, then the upper one. */
  function Clamp(v: int, lo: int, hi: int): (r: int)
    ensures lo <= hi ==> lo <= r <= hi
    ensures lo <= v <= hi ==> r == v
    ensures v < lo ==> r == lo
    ensures lo <= v && v > hi ==> r == hi
  {
    if v < lo then lo else if v > hi then hi else v
  }

  /**
   * The i-th raw draw of a random stream given as the sequence of its draws. A spawn loop
   * uses at most three draws per try, so a stream of `3 * TryLimit` draws stands for any
   * generator state; draws past the end read as 0.
   */
  function Draw(draws: seq<nat>, i: nat): nat
  {
    if i < |draws| then draws[i] else 0
  }

  /**
   * `System.Random.Next(lo, hi)`: a value in `[lo, hi)`, or `lo` when the range is empty.
   * The generator's own sequence is not modelled: `raw` is an arbitrary draw.
   */
  function Next(lo: int, hi: int, raw: nat): (r: int)
    requires lo <= hi
    ensures lo < hi ==> lo <= r < hi
    ensures lo == hi ==> r == lo
  {
    if lo == hi then lo else lo + raw % (hi - lo)
  }

  /** Every value the real generator can return is returned for some raw draw, so no outcome is lost. */
  lemma NextCoversRange(lo: int, hi: int, v: int)
    requires lo <= v < hi
    ensures Next(lo, hi, (v - lo) as nat) == v
  {
  }

  // ---------------------------------------------------------------------------
  // The circular brush of CarveCircle

  /** The offsets `CarveCircle` writes: inside the loops' square and within distance r of the centre. */
  predicate InBrush(r: int, dx: int, dy: int) {
    -r <= dx <= r && -r <= dy <= r && dx * dx + dy * dy <= r * r
  }

  lemma SquareGrows(a: int, b: int)
    requires 0 <= a < b
    ensures a * a < b * b
  {
  }

  /** For a radius of at least 0 the square loop bounds cut nothing off the disc. */
  lemma {:induction false} BrushIsDisc(r: int, dx: int, dy: int)
    requires r >= 0
    ensures InBrush(r, dx, dy) <==> dx * dx + dy * dy <= r * r
  {
    if dx * dx + dy * dy <= r * r {
      assert dx * dx <= r * r && dy * dy <= r * r;
      if dx > r { SquareGrows(r, dx); }
      if -dx > r { SquareGrows(r, -dx); }
      if dy > r { SquareGrows(r, dy); }
      if -dy > r { SquareGrows(r, -dy); }
    }
  }

  /** The brush as a set of offsets. */
  function BrushOffsets(r: int): set<(int, int)> {
    set dx, dy | -r <= dx <= r && -r <= dy <= r && dx * dx + dy * dy <= r * r :: (dx, dy)
  }

  /** The 13 offsets of the discrete disc of radius 2. */
  const RadiusTwoDisc: set<(int, int)> := {
    (0, -2),
    (-1, -1), (0, -1), (1, -1),
    (-2, 0), (-1, 0), (0, 0), (1, 0), (2, 0),
    (-1, 1), (0, 1), (1, 1),
    (0, 2)}

  /** An offset of the radius-2 square is in the brush exactly when it is one of the 13 disc offsets. */
  lemma {:induction false} RadiusTwoOffset(dx: int, dy: int)
    requires -2 <= dx <= 2 && -2 <= dy <= 2
    ensures dx * dx + dy * dy <= 4 <==> (dx, dy) in RadiusTwoDisc
  {
    if dx == -2 || dx == 2 {
    } else if dx == -1 || dx == 1 {
    } else {
      assert dx == 0;
    }
  }

  /** The default radius 2 brush is the 13-cell discrete disc. */
  lemma {:induction false} RadiusTwoBrush()
    ensures BrushOffsets(2) == RadiusTwoDisc
  {
    forall p | p in BrushOffsets(2) ensures p in RadiusTwoDisc {
      RadiusTwoOffset(p.0, p.1);
    }
    forall p | p in RadiusTwoDisc ensures p in BrushOffsets(2) {
      RadiusTwoOffset(p.0, p.1);
    }
  }

  // ---------------------------------------------------------------------------
  // The cave walk

  /** A rectangle of cells, bounds inclusive. */
  datatype Box = Box(left: int, right: int, bottom: int, top: int)

  predicate InBox(p: (int, int), b: Box) {
    b.left <= p.0 <= b.right && b.bottom <= p.1 <= b.top
  }

  /** The room that may be carved at a step: the raw draw of its radius and the noise-shaped test of an offset. */
  datatype Room = Room(radiusDraw: nat, keep: (int, int) -> bool)

  /**
   * One step of a cave walk: the integer move the float direction makes, and whether the
   * room roll succeeds at this step (`Some`) or not.
   */
  datatype WalkStep = WalkStep(dx: int, dy: int, room: Wrappers.Option<Room>)

  /** One cave: the raw draw of its start column and its steps (their number is the walk length). */
  datatype CaveWalk = CaveWalk(columnDraw: nat, steps: seq<WalkStep>)

  /** The walk position after a step: moved, then clamped into `b`. */
  function StepPos(p: (int, int), s: WalkStep, b: Box): (q: (int, int))
    ensures b.left <= b.right && b.bottom <= b.top ==> InBox(q, b)
    ensures b.left <= p.0 + s.dx <= b.right ==> q.0 == p.0 + s.dx
    ensures b.bottom <= p.1 + s.dy <= b.top ==> q.1 == p.1 + s.dy
    ensures p.0 + s.dx < b.left ==> q.0 == b.left
    ensures b.left <= p.0 + s.dx && p.0 + s.dx > b.right ==> q.0 == b.right
    ensures p.1 + s.dy < b.bottom ==> q.1 == b.bottom
    ensures b.bottom <= p.1 + s.dy && p.1 + s.dy > b.top ==> q.1 == b.top
  {
    (Clamp(p.0 + s.dx, b.left, b.right), Clamp(p.1 + s.dy, b.bottom, b.top))
  }

  /** The positions at which a walk carves, one per step, starting at `start`. */
  function Walk(start: (int, int), steps: seq<WalkStep>, b: Box): (path: seq<(int, int)>)
    ensures |path| == |steps|
    ensures |steps| > 0 ==> path[0] == start
    decreases |steps|
  {
    if steps == [] then [] else [start] + Walk(StepPos(start, steps[0], b), steps[1..], b)
  }

  /** Each position follows from the one before it by one clamped step. */
  lemma {:induction false} WalkFollowsSteps(start: (int, int), steps: seq<WalkStep>, b: Box, i: nat)
    requires i + 1 < |steps|
    ensures Walk(start, steps, b)[i + 1] == StepPos(Walk(start, steps, b)[i], steps[i], b)
    decreases |steps|
  {
    if i > 0 {
      WalkFollowsSteps(StepPos(start, steps[0], b), steps[1..], b, i - 1);
    }
  }

  /** Every position after the start lies in the box, so the walk never leaves the carve-able interior. */
  lemma {:induction false} WalkStaysInside(start: (int, int), steps: seq<WalkStep>, b: Box)
    requires b.left <= b.right && b.bottom <= b.top
    ensures forall i :: 1 <= i < |steps| ==> InBox(Walk(start, steps, b)[i], b)
    decreases |steps|
  {
    if |steps| > 1 {
      var next := StepPos(start, steps[0], b);
      WalkStaysInside(next, steps[1..], b);
      forall i | 1 <= i < |steps| ensures InBox(Walk(start, steps, b)[i], b) {
        assert Walk(start, steps, b)[i] == Walk(next, steps[1..], b)[i - 1];
      }
    }
  }

  // ---------------------------------------------------------------------------
  // Spawning

  /** The three spawn loops: ground enemies, air enemies and gimmicks. */
  datatype SpawnKind = GroundEnemy | AirEnemy | GimmickObject

  /** One accepted spawn: the grid cell that passed the test and the prefab index drawn for it. */
  datatype Placement = Placement(x: int, y: int, prefab: nat)

  /** Where a spawn loop stands between tries: the placements so far and the index of the next raw draw. */
  datatype SpawnProgress = SpawnProgress(placed: seq<Placement>, next: nat)

  /** The attempt budget of every spawn loop. */
  const TryLimit: nat := 5000

  /** `InSpawnRange`: all four bounds are inclusive. */
  predicate InSpawnRange(x: int, y: int, r: SpawnRange) {
    x >= r.left && x <= r.right && y >= r.bottom && y <= r.top
  }

  /** The four corners of a non-empty range are inside it, and the cells just past each bound are not. */
  lemma InSpawnRangeInclusive(r: SpawnRange, x: int, y: int)
    requires r.left <= x <= r.right && r.bottom <= y <= r.top
    ensures InSpawnRange(r.left, y, r) && InSpawnRange(r.right, y, r)
    ensures InSpawnRange(x, r.bottom, r) && InSpawnRange(x, r.top, r)
    ensures !InSpawnRange(r.left - 1, y, r) && !InSpawnRange(r.right + 1, y, r)
    ensures !InSpawnRange(x, r.bottom - 1, r) && !InSpawnRange(x, r.top + 1, r)
  {
  }

  /** The exclusive upper bound each loop passes to `Next` for y: `top - 3`, `top + 1` and `top - 1`. */
  function DrawTop(kind: SpawnKind, r: SpawnRange): int {
    match kind
    case GroundEnemy => r.top - 3
    case AirEnemy => r.top + 1
    case GimmickObject => r.top - 1
  }

  /** The largest y a loop can draw. */
  function LastDrawnY(kind: SpawnKind, r: SpawnRange): int {
    if DrawTop(kind, r) > r.bottom then DrawTop(kind, r) - 1 else r.bottom
  }

  // ---------------------------------------------------------------------------
  // Block metadata handed to the renderer

  /** What `BuildBlocks` sets on the block it creates for a Solid cell. */
  datatype Tile = Tile(
    x: int, y: int,
    exposed: ExposedDir, corner: CornerType, sprite: TileVisual.Sprite,
    colliderEnabled: bool, isHit: bool)

  /** Strict x-major order, the order `BuildBlocks` visits cells in. */
  predicate Before(x1: int, y1: int, x2: int, y2: int) {
    x1 < x2 || (x1 == x2 && y1 < y2)
  }

  // ---------------------------------------------------------------------------
  // Configuration

  /** The inspector settings the generator reads (defaults in the source: 200, 120, 3, 2, 2, 4, 7, 18, 10, 8, 4). */
  datatype Config = Config(
    width: int, height: int,
    bedrockHeight: int, sideWallWidth: int,
    caveRadius: int, caveRoomMinRadius: int, caveRoomMaxRadius: int, caveRoomStartStep: int,
    groundEnemyCount: int, airEnemyCount: int, gimmickCount: int,
    groundEnemyRange: SpawnRange, airEnemyRange: SpawnRange, gimmickRange: SpawnRange,
    groundPrefabs: nat, airPrefabs: nat, gimmickPrefabs: nat)

  class MapManager {
    const width: int
    const height: int
    const bedrockHeight: int
    const sideWallWidth: int
    const caveRadius: int
    const caveRoomMinRadius: int
    const caveRoomMaxRadius: int
    const caveRoomStartStep: int
    const groundEnemyCount: int
    const airEnemyCount: int
    const gimmickCount: int
    const groundEnemyRange: SpawnRange
    const airEnemyRange: SpawnRange
    const gimmickRange: SpawnRange
    /** The lengths of the three prefab arrays. */
    const groundPrefabs: nat
    const airPrefabs: nat
    const gimmickPrefabs: nat

    /** The `map` field (a keyword here). */
    var grid: array2<TileType>

    ghost predicate Valid()
      reads this
    {
      grid.Length0 == width && grid.Length1 == height
    }

    constructor (cfg: Config)
      requires cfg.width >= 0 && cfg.height >= 0
      ensures Valid() && fresh(grid)
      ensures width == cfg.width && height == cfg.height
      ensures bedrockHeight == cfg.bedrockHeight && sideWallWidth == cfg.sideWallWidth
      ensures caveRadius == cfg.caveRadius && caveRoomStartStep == cfg.caveRoomStartStep
      ensures caveRoomMinRadius == cfg.caveRoomMinRadius && caveRoomMaxRadius == cfg.caveRoomMaxRadius
      ensures groundEnemyCount == cfg.groundEnemyCount && airEnemyCount == cfg.airEnemyCount
      ensures gimmickCount == cfg.gimmickCount
      ensures groundEnemyRange == cfg.groundEnemyRange && airEnemyRange == cfg.airEnemyRange
      ensures gimmickRange == cfg.gimmickRange
      ensures groundPrefabs == cfg.groundPrefabs && airPrefabs == cfg.airPrefabs
      ensures gimmickPrefabs == cfg.gimmickPrefabs
      ensures forall x, y :: 0 <= x < width && 0 <= y < height ==> grid[x, y] == Air
    {
      width, height := cfg.width, cfg.height;
      bedrockHeight, sideWallWidth := cfg.bedrockHeight, cfg.sideWallWidth;
      caveRadius, caveRoomStartStep := cfg.caveRadius, cfg.caveRoomStartStep;
      caveRoomMinRadius, caveRoomMaxRadius := cfg.caveRoomMinRadius, cfg.caveRoomMaxRadius;
      groundEnemyCount, airEnemyCount, gimmickCount := cfg.groundEnemyCount, cfg.airEnemyCount, cfg.gimmickCount;
      groundEnemyRange, airEnemyRange, gimmickRange := cfg.groundEnemyRange, cfg.airEnemyRange, cfg.gimmickRange;
      groundPrefabs, airPrefabs, gimmickPrefabs := cfg.groundPrefabs, cfg.airPrefabs, cfg.gimmickPrefabs;
      grid := new TileType[cfg.width, cfg.height]((x, y) => Air);
    }

    // =========================================================================
    // Queries

    /** `InRange`: the half-open bounds test. */
    predicate InRange(x: int, y: int) {
      0 <= x < width && 0 <= y < height
    }

    /** `IsOpen`: every cell off the grid is open; on the grid, a cell is open exactly when it is not Solid. */
    function IsOpen(x: int, y: int): (open: bool)
      reads this, grid
      requires Valid()
      ensures !InRange(x, y) ==> open
      ensures InRange(x, y) ==> (open <==> grid[x, y] != Solid)
    {
      if !InRange(x, y) then true else grid[x, y] == Air || grid[x, y] == Cave
    }

    /** The highest Solid row of column x below row n, or -1 if there is none. */
    function TopSolidBelow(x: int, n: int): (r: int)
      reads this, grid
      requires Valid() && 0 <= x < width && 0 <= n <= height
      ensures -1 <= r < n
      ensures r >= 0 ==> grid[x, r] == Solid
      ensures forall y :: r < y < n ==> grid[x, y] != Solid
      decreases n
    {
      if n == 0 then -1 else if grid[x, n - 1] == Solid then n - 1 else TopSolidBelow(x, n - 1)
    }

    /** The surface row of column x: its highest Solid cell, or -1 for a column with none. */
    function SurfaceY(x: int): (r: int)
      reads this, grid
      requires Valid() && 0 <= x < width
      ensures -1 <= r < height
      ensures r >= 0 ==> grid[x, r] == Solid
      ensures forall y :: r < y < height ==> grid[x, y] != Solid
    {
      TopSolidBelow(x, height)
    }

    /** `GetSurfaceY`: the downward scan that stops at the first Solid cell. */
    method GetSurfaceY(x: int) returns (r: int)
      requires Valid() && 0 <= x < width
      ensures r == SurfaceY(x)
    {
      var y := height - 1;
      while y >= 0
        invariant -1 <= y < height
        invariant forall y' :: y < y' < height ==> grid[x, y'] != Solid
      {
        if grid[x, y] == Solid {
          return y;
        }
        y := y - 1;
      }
      return -1;
    }

    /** A column that is Air except for one Solid cell has that cell as its surface. */
    lemma {:induction false} LoneSolidIsSurface(x: int, h: int)
      requires Valid() && 0 <= x < width && 0 <= h < height
      requires forall y :: 0 <= y < height ==> grid[x, y] == (if y == h then Solid else Air)
      ensures SurfaceY(x) == h
    {
      var s := SurfaceY(x);
      assert grid[x, h] == Solid;
      assert s >= h;
      assert s >= 0 ==> grid[x, s] == Solid;
    }

    // =========================================================================
    // Classification

    /** `GetExposedDir`: one flag for each cardinal neighbour that is open (y + 1 is up). */
    function GetExposedDir(x: int, y: int): (d: ExposedDir)
      reads this, grid
      requires Valid()
      ensures IsMask(d)
      ensures Up in DirsOf(d) <==> IsOpen(x, y + 1)
      ensures Down in DirsOf(d) <==> IsOpen(x, y - 1)
      ensures Left in DirsOf(d) <==> IsOpen(x - 1, y)
      ensures Right in DirsOf(d) <==> IsOpen(x + 1, y)
    {
      var d0 := NoExposure;
      var d1 := if IsOpen(x, y + 1) then Include(d0, Flag(Up)) else d0;
      var d2 := if IsOpen(x, y - 1) then Include(d1, Flag(Down)) else d1;
      var d3 := if IsOpen(x - 1, y) then Include(d2, Flag(Left)) else d2;
      if IsOpen(x + 1, y) then Include(d3, Flag(Right)) else d3
    }

    /**
     * The pattern of corner c at (x, y): for an outer corner, the two sides next to the
     * corner are open and the diagonal between them is closed; for an inner corner, the
     * two sides are closed and the diagonal is open.
     */
    predicate CornerPattern(c: CornerType, x: int, y: int)
      reads this, grid
      requires Valid() && c != None
    {
      var vertical := IsOpen(x, y + c.DY());
      var horizontal := IsOpen(x + c.DX(), y);
      var diagonal := IsOpen(x + c.DX(), y + c.DY());
      if c.IsOuter() then vertical && horizontal && !diagonal
      else !vertical && !horizontal && diagonal
    }

    /**
     * `GetCornerType`: the first corner, in declaration order (outer before inner, then
     * up-left, up-right, down-left, down-right), whose pattern matches; None when none does.
     */
    function GetCornerType(x: int, y: int): (c: CornerType)
      reads this, grid
      requires Valid()
      ensures c != None ==> CornerPattern(c, x, y)
      ensures forall e: CornerType :: e != None && (c == None || Ordinal(e) < Ordinal(c)) ==> !CornerPattern(e, x, y)
    {
      var up := IsOpen(x, y + 1);
      var down := IsOpen(x, y - 1);
      var left := IsOpen(x - 1, y);
      var right := IsOpen(x + 1, y);
      var ul := IsOpen(x - 1, y + 1);
      var ur := IsOpen(x + 1, y + 1);
      var dl := IsOpen(x - 1, y - 1);
      var dr := IsOpen(x + 1, y - 1);
      if up && left && !ul then OuterUpLeft
      else if up && right && !ur then OuterUpRight
      else if down && left && !dl then OuterDownLeft
      else if down && right && !dr then OuterDownRight
      else if !up && !left && ul then InnerUpLeft
      else if !up && !right && ur then InnerUpRight
      else if !down && !left && dl then InnerDownLeft
      else if !down && !right && dr then InnerDownRight
      else None
    }

    /** An outer corner is exposed on both of its sides; an inner corner on neither. */
    lemma {:induction false} CornerAgreesWithExposure(x: int, y: int)
      requires Valid()
      ensures var c := GetCornerType(x, y);
        var sides := DirsOf(GetExposedDir(x, y));
        c != None ==>
          ((if c.DY() == 1 then Up else Down) in sides <==> c.IsOuter()) &&
          ((if c.DX() == -1 then Left else Right) in sides <==> c.IsOuter())
    {
      var c := GetCornerType(x, y);
      if c != None {
        assert CornerPattern(c, x, y);
      }
    }

    /** A block whose eight neighbours are all closed has no exposure, no corner, the Solid sprite and no collider. */
    lemma {:induction false} BuriedBlock(x: int, y: int)
      requires Valid()
      requires !IsOpen(x, y + 1) && !IsOpen(x, y - 1) && !IsOpen(x - 1, y) && !IsOpen(x + 1, y)
      requires !IsOpen(x - 1, y + 1) && !IsOpen(x + 1, y + 1) && !IsOpen(x - 1, y - 1) && !IsOpen(x + 1, y - 1)
      ensures GetExposedDir(x, y) == NoExposure
      ensures GetCornerType(x, y) == None
      ensures TileVisual.ApplyVisual(GetCornerType(x, y), GetExposedDir(x, y)) == TileVisual.SolidSprite
    {
      var d := GetExposedDir(x, y);
      assert DirsOf(d) == {} by {
        forall e | e in AllDirs ensures e !in DirsOf(d) {
          match e
          case Up =>
          case Down =>
          case Left =>
          case Right =>
        }
      }
      NoExposureIsEmpty(d);
    }

    /** What `BuildBlocks` must set on the block of cell (t.x, t.y). */
    ghost predicate DescribesBlock(t: Tile)
      reads this, grid
      requires Valid()
    {
      InRange(t.x, t.y) && grid[t.x, t.y] == Solid &&
      t.exposed == GetExposedDir(t.x, t.y) &&
      t.corner == GetCornerType(t.x, t.y) &&
      t.sprite == TileVisual.ApplyVisual(t.corner, t.exposed) &&
      (t.colliderEnabled <==> IsOpen(t.x, t.y + 1) || IsOpen(t.x, t.y - 1) || IsOpen(t.x - 1, t.y) || IsOpen(t.x + 1, t.y)) &&
      (t.isHit <==> IsOpen(t.x, t.y + 1))
    }

    /** The block of one Solid cell: the collider is on iff some side is exposed, `isHit` iff the top is. */
    function BlockAt(x: int, y: int): (t: Tile)
      reads this, grid
      requires Valid() && InRange(x, y) && grid[x, y] == Solid
      ensures t.x == x && t.y == y && DescribesBlock(t)
    {
      var exposed := GetExposedDir(x, y);
      var corner := GetCornerType(x, y);
      NoExposureIsEmpty(exposed);
      Tile(x, y, exposed, corner, TileVisual.ApplyVisual(corner, exposed),
           exposed != NoExposure, HasFlag(exposed, Flag(Up)))
    }

    /** The blocks of the Solid cells of column x below row n, bottom to top. */
    function ColumnBlocks(x: int, n: int): (s: seq<Tile>)
      reads this, grid
      requires Valid() && 0 <= x < width && 0 <= n <= height
      decreases n
    {
      if n == 0 then []
      else ColumnBlocks(x, n - 1) + (if grid[x, n - 1] == Solid then [BlockAt(x, n - 1)] else [])
    }

    /** The blocks of the Solid cells of the columns left of m, column by column. */
    function BlocksLeftOf(m: int): (s: seq<Tile>)
      reads this, grid
      requires Valid() && 0 <= m <= width
      decreases m
    {
      if m == 0 then [] else BlocksLeftOf(m - 1) + ColumnBlocks(m - 1, height)
    }

    /** Every block of a column describes a Solid cell of that column. */
    lemma {:induction false} ColumnBlocksDescribe(x: int, n: int)
      requires Valid() && 0 <= x < width && 0 <= n <= height
      ensures forall i :: 0 <= i < |ColumnBlocks(x, n)| ==> DescribesBlock(ColumnBlocks(x, n)[i])
      decreases n
    {
      if n > 0 {
        ColumnBlocksDescribe(x, n - 1);
        var prev := ColumnBlocks(x, n - 1);
        var s := ColumnBlocks(x, n);
        forall i | 0 <= i < |s| ensures DescribesBlock(s[i]) {
          if i < |prev| { assert s[i] == prev[i]; } else { assert s[i] == BlockAt(x, n - 1); }
        }
      }
    }

    /** The blocks of a column lie in that column below row n, in strictly increasing rows. */
    lemma {:induction false} ColumnBlocksOrdered(x: int, n: int)
      requires Valid() && 0 <= x < width && 0 <= n <= height
      ensures forall i :: 0 <= i < |ColumnBlocks(x, n)| ==> ColumnBlocks(x, n)[i].x == x && 0 <= ColumnBlocks(x, n)[i].y < n
      ensures forall i, j :: 0 <= i < j < |ColumnBlocks(x, n)| ==> ColumnBlocks(x, n)[i].y < ColumnBlocks(x, n)[j].y
      decreases n
    {
      if n > 0 {
        ColumnBlocksOrdered(x, n - 1);
        var prev := ColumnBlocks(x, n - 1);
        var s := ColumnBlocks(x, n);
        forall i | 0 <= i < |s| ensures s[i].x == x && 0 <= s[i].y < n {
          if i < |prev| { assert s[i] == prev[i]; } else { assert s[i] == BlockAt(x, n - 1); }
        }
        forall i, j | 0 <= i < j < |s| ensures s[i].y < s[j].y {
          if j < |prev| { assert s[i] == prev[i] && s[j] == prev[j]; } else { assert s[i] == prev[i]; }
        }
      }
    }

    /** A column's blocks cover every Solid cell of the column below row n: i is the block of row y. */
    lemma {:induction false} ColumnBlocksCover(x: int, n: int, y: int) returns (i: nat)
      requires Valid() && 0 <= x < width && 0 <= n <= height
      requires 0 <= y < n && grid[x, y] == Solid
      ensures i < |ColumnBlocks(x, n)| && ColumnBlocks(x, n)[i].x == x && ColumnBlocks(x, n)[i].y == y
      decreases n
    {
      var prev := ColumnBlocks(x, n - 1);
      if y == n - 1 {
        i := |prev|;
      } else {
        i := ColumnBlocksCover(x, n - 1, y);
        assert ColumnBlocks(x, n)[i] == prev[i];
      }
    }

    /** Every block left of column m describes a Solid cell. */
    lemma {:induction false} BlocksLeftOfDescribe(m: int)
      requires Valid() && 0 <= m <= width
      ensures forall i :: 0 <= i < |BlocksLeftOf(m)| ==> DescribesBlock(BlocksLeftOf(m)[i])
      decreases m
    {
      if m > 0 {
        BlocksLeftOfDescribe(m - 1);
        ColumnBlocksDescribe(m - 1, height);
        var prev := BlocksLeftOf(m - 1);
        var col := ColumnBlocks(m - 1, height);
        var s := BlocksLeftOf(m);
        forall i | 0 <= i < |s| ensures DescribesBlock(s[i]) {
          if i < |prev| { assert s[i] == prev[i]; } else { assert s[i] == col[i - |prev|]; }
        }
      }
    }

    /** The blocks left of column m lie left of m, in strict x-major order. */
    lemma {:induction false} BlocksLeftOfOrdered(m: int)
      requires Valid() && 0 <= m <= width
      ensures forall i :: 0 <= i < |BlocksLeftOf(m)| ==> BlocksLeftOf(m)[i].x < m
      ensures forall i, j :: 0 <= i < j < |BlocksLeftOf(m)| ==>
        Before(BlocksLeftOf(m)[i].x, BlocksLeftOf(m)[i].y, BlocksLeftOf(m)[j].x, BlocksLeftOf(m)[j].y)
      decreases m
    {
      if m > 0 {
        BlocksLeftOfOrdered(m - 1);
        ColumnBlocksOrdered(m - 1, height);
        var prev := BlocksLeftOf(m - 1);
        var col := ColumnBlocks(m - 1, height);
        var s := BlocksLeftOf(m);
        forall i | 0 <= i < |s| ensures s[i].x < m {
          if i < |prev| { assert s[i] == prev[i]; } else { assert s[i] == col[i - |prev|]; }
        }
        forall i, j | 0 <= i < j < |s| ensures Before(s[i].x, s[i].y, s[j].x, s[j].y) {
          if j < |prev| {
            assert s[i] == prev[i] && s[j] == prev[j];
          } else if i < |prev| {
            assert s[i] == prev[i] && s[j] == col[j - |prev|];
          } else {
            assert s[i] == col[i - |prev|] && s[j] == col[j - |prev|];
          }
        }
      }
    }

    /** The blocks left of column m cover every Solid cell left of m: i is the block of (x, y). */
    lemma {:induction false} BlocksLeftOfCover(m: int, x: int, y: int) returns (i: nat)
      requires Valid() && 0 <= m <= width
      requires 0 <= x < m && 0 <= y < height && grid[x, y] == Solid
      ensures i < |BlocksLeftOf(m)| && BlocksLeftOf(m)[i].x == x && BlocksLeftOf(m)[i].y == y
      decreases m
    {
      var prev := BlocksLeftOf(m - 1);
      if x == m - 1 {
        var k := ColumnBlocksCover(x, height, y);
        i := |prev| + k;
        assert BlocksLeftOf(m)[i] == ColumnBlocks(x, height)[k];
      } else {
        i := BlocksLeftOfCover(m - 1, x, y);
        assert BlocksLeftOf(m)[i] == prev[i];
      }
    }

    /** `BuildBlocks`: one block per Solid cell, in x-major order, each carrying its classification. */
    method BuildBlocks() returns (tiles: seq<Tile>)
      requires Valid()
      ensures tiles == BlocksLeftOf(width)
      ensures forall i :: 0 <= i < |tiles| ==> DescribesBlock(tiles[i])
      ensures forall i, j :: 0 <= i < j < |tiles| ==> Before(tiles[i].x, tiles[i].y, tiles[j].x, tiles[j].y)
      ensures forall x, y :: InRange(x, y) && grid[x, y] == Solid ==>
        exists i :: 0 <= i < |tiles| && tiles[i].x == x && tiles[i].y == y
    {
      tiles := [];
      for x := 0 to width
        invariant tiles == BlocksLeftOf(x)
      {
        for y := 0 to height
          invariant tiles == BlocksLeftOf(x) + ColumnBlocks(x, y)
        {
          if grid[x, y] == Solid {
            tiles := tiles + [BlockAt(x, y)];
          }
        }
      }
      BlocksLeftOfDescribe(width);
      BlocksLeftOfOrdered(width);
      forall x, y | InRange(x, y) && grid[x, y] == Solid
        ensures exists i :: 0 <= i < |tiles| && tiles[i].x == x && tiles[i].y == y
      {
        var i := BlocksLeftOfCover(width, x, y);
      }
    }

    // =========================================================================
    // Grid mutators

    /** The surface row of column x for the given rounded heights, clamped into the grid. */
    function SurfaceLine(heights: seq<int>, x: int): int
      requires 0 <= x < |heights|
    {
      Clamp(heights[x], 0, height - 1)
    }

    /** `GenerateSurface`: one Solid cell per column, at the clamped height; nothing else changes. */
    method GenerateSurface(heights: seq<int>)
      requires Valid() && |heights| == width && (width == 0 || height > 0)
      modifies grid
      ensures forall x, y :: 0 <= x < width && 0 <= y < height ==>
        grid[x, y] == if y == SurfaceLine(heights, x) then Solid else old(grid[x, y])
    {
      for x := 0 to width
        invariant forall x', y :: 0 <= x' < width && 0 <= y < height ==>
          grid[x', y] == if x' < x && y == SurfaceLine(heights, x') then Solid else old(grid[x', y])
      {
        var y := Clamp(heights[x], 0, height - 1);
        grid[x, y] := Solid;
      }
    }

    /** `FillBelowSurface`: every cell under each column's surface becomes Solid; the rest is unchanged. */
    method FillBelowSurface()
      requires Valid()
      modifies grid
      ensures forall x, y :: 0 <= x < width && 0 <= y < height ==>
        grid[x, y] == if y < old(SurfaceY(x)) then Solid else old(grid[x, y])
    {
      for x := 0 to width
        invariant forall x', y :: 0 <= x' < width && 0 <= y < height ==>
          grid[x', y] == if x' < x && y < old(SurfaceY(x')) then Solid else old(grid[x', y])
      {
        var top := GetSurfaceY(x);
        assert top == old(SurfaceY(x));
        var y := top - 1;
        while y >= 0
          invariant -2 <= y < top
          invariant forall x', y' :: 0 <= x' < width && 0 <= y' < height ==>
            grid[x', y'] == if (x' < x && y' < old(SurfaceY(x'))) || (x' == x && y < y' < top) then Solid else old(grid[x', y'])
        {
          grid[x, y] := Solid;
          y := y - 1;
        }
      }
    }

    /** `CarveCircle`: exactly the in-grid brush cells at or above the bedrock become Cave. */
    method CarveCircle(cx: int, cy: int, r: int)
      requires Valid()
      modifies grid
      ensures forall x, y :: 0 <= x < width && 0 <= y < height ==>
        grid[x, y] == if y >= bedrockHeight && InBrush(r, x - cx, y - cy) then Cave else old(grid[x, y])
    {
      var dx := -r;
      while dx <= r
        invariant r >= 0 ==> -r <= dx <= r + 1
        invariant forall x, y :: 0 <= x < width && 0 <= y < height ==>
          grid[x, y] == if y >= bedrockHeight && InBrush(r, x - cx, y - cy) && x - cx < dx then Cave else old(grid[x, y])
      {
        var dy := -r;
        while dy <= r
          invariant -r <= dy <= r + 1
          invariant forall x, y :: 0 <= x < width && 0 <= y < height ==>
            grid[x, y] == if y >= bedrockHeight && InBrush(r, x - cx, y - cy) && (x - cx < dx || (x - cx == dx && y - cy < dy))
                         then Cave else old(grid[x, y])
        {
          if dx * dx + dy * dy <= r * r {
            var nx, ny := cx + dx, cy + dy;
            if InRange(nx, ny) && ny >= bedrockHeight {
              grid[nx, ny] := Cave;
            }
          }
          dy := dy + 1;
        }
        dx := dx + 1;
      }
    }

    /** `CarveRoom`: the in-grid cells of the square of radius r that the noise test keeps, at or above the bedrock, become Cave. */
    method CarveRoom(cx: int, cy: int, r: int, keep: (int, int) -> bool)
      requires Valid()
      modifies grid
      ensures forall x, y :: 0 <= x < width && 0 <= y < height ==>
        grid[x, y] == if y >= bedrockHeight && -r <= x - cx <= r && -r <= y - cy <= r && keep(x - cx, y - cy)
                     then Cave else old(grid[x, y])
    {
      var dx := -r;
      while dx <= r
        invariant r >= 0 ==> -r <= dx <= r + 1
        invariant forall x, y :: 0 <= x < width && 0 <= y < height ==>
          grid[x, y] == if y >= bedrockHeight && -r <= x - cx < dx && -r <= y - cy <= r && keep(x - cx, y - cy)
                       then Cave else old(grid[x, y])
      {
        var dy := -r;
        while dy <= r
          invariant -r <= dy <= r + 1
          invariant forall x, y :: 0 <= x < width && 0 <= y < height ==>
            grid[x, y] == if y >= bedrockHeight && -r <= x - cx <= r && -r <= y - cy <= r && keep(x - cx, y - cy) &&
                            (x - cx < dx || (x - cx == dx && y - cy < dy))
                         then Cave else old(grid[x, y])
        {
          if keep(dx, dy) {
            var nx, ny := cx + dx, cy + dy;
            if InRange(nx, ny) && ny >= bedrockHeight {
              grid[nx, ny] := Cave;
            }
          }
          dy := dy + 1;
        }
        dx := dx + 1;
      }
    }

    /** The box a cave walk is clamped into after every step. */
    function CaveInterior(): Box {
      Box(2, width - 3, bedrockHeight + 2, height - 3)
    }

    /** Between two grid states: every cell is unchanged or became Cave, and nothing under the bedrock changed. */
    twostate predicate OnlyCarved(a: array2<TileType>)
      reads a
    {
      forall x, y :: 0 <= x < a.Length0 && 0 <= y < a.Length1 ==>
        a[x, y] == old(a[x, y]) || (a[x, y] == Cave && y >= bedrockHeight)
    }

    /** The radius of a room: `Next(caveRoomMinRadius, caveRoomMaxRadius + 1)` on the room's draw. */
    function RoomRadius(room: Room): (r: int)
      requires caveRoomMinRadius <= caveRoomMaxRadius + 1
      ensures caveRoomMinRadius <= caveRoomMaxRadius ==> caveRoomMinRadius <= r <= caveRoomMaxRadius
    {
      Next(caveRoomMinRadius, caveRoomMaxRadius + 1, room.radiusDraw)
    }

    /**
     * One step of a cave walk at `pos` digs cell (x, y): the cell is on the grid, at or above
     * the bedrock, and in the brush around `pos` or, when rooms are allowed at this step and
     * one is rolled, in the room's square and kept by its shape test.
     */
    predicate StepDigs(pos: (int, int), step: WalkStep, roomAllowed: bool, x: int, y: int)
      requires caveRoomMinRadius <= caveRoomMaxRadius + 1
    {
      InRange(x, y) && y >= bedrockHeight &&
      (InBrush(caveRadius, x - pos.0, y - pos.1) ||
       (roomAllowed && step.room.Some? &&
        (var r := RoomRadius(step.room.value);
         -r <= x - pos.0 <= r && -r <= y - pos.1 <= r && step.room.value.keep(x - pos.0, y - pos.1))))
    }

    /** Step j of a walk through `path` digs cell (x, y); rooms are allowed past step `caveRoomStartStep`. */
    predicate DugAt(path: seq<(int, int)>, steps: seq<WalkStep>, j: int, x: int, y: int)
      requires caveRoomMinRadius <= caveRoomMaxRadius + 1
      requires |path| == |steps| && 0 <= j < |steps|
    {
      StepDigs(path[j], steps[j], j > caveRoomStartStep, x, y)
    }

    /** One of the first n steps of the walk digs cell (x, y). */
    predicate DugBefore(path: seq<(int, int)>, steps: seq<WalkStep>, n: int, x: int, y: int)
      requires caveRoomMinRadius <= caveRoomMaxRadius + 1
      requires |path| == |steps| && 0 <= n <= |steps|
      decreases n
    {
      n > 0 && (DugBefore(path, steps, n - 1, x, y) || DugAt(path, steps, n - 1, x, y))
    }

    /** `DugBefore` is "some step before n digs the cell". */
    lemma {:induction false} DugBeforeIsSomeStep(path: seq<(int, int)>, steps: seq<WalkStep>, n: int, x: int, y: int)
      requires caveRoomMinRadius <= caveRoomMaxRadius + 1
      requires |path| == |steps| && 0 <= n <= |steps|
      ensures DugBefore(path, steps, n, x, y) <==> exists j :: 0 <= j < n && DugAt(path, steps, j, x, y)
      decreases n
    {
      if n > 0 {
        DugBeforeIsSomeStep(path, steps, n - 1, x, y);
        if DugAt(path, steps, n - 1, x, y) {
          assert DugBefore(path, steps, n, x, y);
        }
      }
    }

    /** A walk digs every on-grid brush cell at or above the bedrock around each of its positions. */
    lemma {:induction false} WalkDigsEveryBrush(path: seq<(int, int)>, steps: seq<WalkStep>)
      requires caveRoomMinRadius <= caveRoomMaxRadius + 1
      requires |path| == |steps|
      ensures forall j, x, y ::
        (0 <= j < |steps| && InRange(x, y) && y >= bedrockHeight && InBrush(caveRadius, x - path[j].0, y - path[j].1)) ==>
        DugBefore(path, steps, |steps|, x, y)
    {
      forall j, x, y | 0 <= j < |steps| && InRange(x, y) && y >= bedrockHeight && InBrush(caveRadius, x - path[j].0, y - path[j].1)
        ensures DugBefore(path, steps, |steps|, x, y)
      {
        assert DugAt(path, steps, j, x, y);
        DugBeforeIsSomeStep(path, steps, |steps|, x, y);
      }
    }

    /** A cell a walk digs is on the grid and at or above the bedrock. */
    lemma {:induction false} DugAboveBedrock(path: seq<(int, int)>, steps: seq<WalkStep>, n: int, x: int, y: int)
      requires caveRoomMinRadius <= caveRoomMaxRadius + 1
      requires |path| == |steps| && 0 <= n <= |steps|
      requires DugBefore(path, steps, n, x, y)
      ensures InRange(x, y) && y >= bedrockHeight
      decreases n
    {
      if !DugAt(path, steps, n - 1, x, y) {
        DugAboveBedrock(path, steps, n - 1, x, y);
      }
    }

    /** The cells the cave walk from `start` digs over all its steps. */
    predicate WalkDigs(start: (int, int), steps: seq<WalkStep>, x: int, y: int)
      requires caveRoomMinRadius <= caveRoomMaxRadius + 1
    {
      DugBefore(Walk(start, steps, CaveInterior()), steps, |steps|, x, y)
    }

    /** The carving of one walk step: the brush, then the room when one is allowed and rolled. */
    method DigStep(pos: (int, int), step: WalkStep, roomAllowed: bool)
      requires Valid() && caveRoomMinRadius <= caveRoomMaxRadius + 1
      modifies grid
      ensures forall x, y :: 0 <= x < width && 0 <= y < height ==>
        grid[x, y] == if StepDigs(pos, step, roomAllowed, x, y) then Cave else old(grid[x, y])
    {
      CarveCircle(pos.0, pos.1, caveRadius);
      match step.room {
        case Some(room) =>
          if roomAllowed {
            var r := Next(caveRoomMinRadius, caveRoomMaxRadius + 1, room.radiusDraw);
            CarveRoom(pos.0, pos.1, r, room.keep);
          }
        case None =>
      }
    }

    /** Every on-grid cell at or above the bedrock in the brush around a position of `path` is Cave. */
    predicate BrushesAreCave(path: seq<(int, int)>)
      reads this, grid
      requires Valid()
    {
      forall i, x, y ::
        (0 <= i < |path| && 0 <= x < width && 0 <= y < height && y >= bedrockHeight &&
         InBrush(caveRadius, x - path[i].0, y - path[i].1)) ==> grid[x, y] == Cave
    }

    /** When every cell a walk digs is Cave, so is every brush around its positions. */
    lemma DugIsCaveBrushes(path: seq<(int, int)>, steps: seq<WalkStep>)
      requires Valid() && caveRoomMinRadius <= caveRoomMaxRadius + 1 && |path| == |steps|
      requires forall x, y :: 0 <= x < width && 0 <= y < height && DugBefore(path, steps, |steps|, x, y) ==>
        grid[x, y] == Cave
      ensures BrushesAreCave(path)
    {
      WalkDigsEveryBrush(path, steps);
    }

    /**
     * `DigCave`: a walk of |steps| steps from (x, y). Each step carves the brush around the
     * current position, past step `caveRoomStartStep` possibly a room, then moves and clamps.
     * Exactly the cells the walk digs become Cave.
     */
    method DigCave(x: int, y: int, steps: seq<WalkStep>)
      requires Valid() && caveRoomMinRadius <= caveRoomMaxRadius + 1
      modifies grid
      ensures OnlyCarved(grid)
      ensures forall x', y' :: 0 <= x' < width && 0 <= y' < height ==>
        grid[x', y'] == if WalkDigs((x, y), steps, x', y') then Cave else old(grid[x', y'])
      ensures BrushesAreCave(Walk((x, y), steps, CaveInterior()))
    {
      ghost var path := Walk((x, y), steps, CaveInterior());
      var pos := (x, y);
      for i := 0 to |steps|
        invariant i < |steps| ==> pos == path[i]
        invariant OnlyCarved(grid)
        invariant forall x', y' :: 0 <= x' < width && 0 <= y' < height ==>
          grid[x', y'] == if DugBefore(path, steps, i, x', y') then Cave else old(grid[x', y'])
      {
        DigStep(pos, steps[i], i > caveRoomStartStep);
        if i + 1 < |steps| {
          WalkFollowsSteps((x, y), steps, CaveInterior(), i);
        }
        pos := StepPos(pos, steps[i], CaveInterior());
      }
      DugIsCaveBrushes(path, steps);
    }

    /** The cells the walks with the given starts dig; `None` marks a skipped walk. */
    predicate DugByWalks(starts: seq<Wrappers.Option<(int, int)>>, walks: seq<CaveWalk>, x: int, y: int)
      requires caveRoomMinRadius <= caveRoomMaxRadius + 1
      requires |starts| <= |walks|
      decreases |starts|
    {
      var n := |starts|;
      n > 0 &&
      (DugByWalks(starts[..n - 1], walks, x, y) ||
       (starts[n - 1].Some? && WalkDigs(starts[n - 1].value, walks[n - 1].steps, x, y)))
    }

    /** Appending one more walk adds what that walk digs, if it was started. */
    lemma DugByWalksSnoc(starts: seq<Wrappers.Option<(int, int)>>, s: Wrappers.Option<(int, int)>, walks: seq<CaveWalk>, x: int, y: int)
      requires caveRoomMinRadius <= caveRoomMaxRadius + 1
      requires |starts| < |walks|
      ensures DugByWalks(starts + [s], walks, x, y) <==>
        DugByWalks(starts, walks, x, y) || (s.Some? && WalkDigs(s.value, walks[|starts|].steps, x, y))
    {
      assert (starts + [s])[..|starts|] == starts;
    }

    /** The column walk w starts in: `Next(5, width - 5)` on its draw. */
    function WalkColumn(w: CaveWalk): (x: int)
      requires width >= 10
      ensures 5 <= x < width - 5 || (width == 10 && x == 5)
    {
      Next(5, width - 5, w.columnDraw)
    }

    /** The grid's cells as a value, column by column. */
    ghost function Cells(): (g: seq<seq<TileType>>)
      reads this, grid
      requires Valid()
      ensures IsGrid(g)
      ensures forall x, y :: 0 <= x < width && 0 <= y < height ==> g[x][y] == grid[x, y]
    {
      var a := grid;
      seq(a.Length0, x requires 0 <= x < a.Length0 reads a => seq(a.Length1, y requires 0 <= y < a.Length1 reads a => a[x, y]))
    }

    /** g has the grid's shape. */
    ghost predicate IsGrid(g: seq<seq<TileType>>)
    {
      |g| == width && forall x :: 0 <= x < width ==> |g[x]| == height
    }

    /** Starting from the cells g0, the cells the started walks dig are Cave and every other cell kept its value. */
    ghost predicate CarvedFrom(g0: seq<seq<TileType>>, starts: seq<Wrappers.Option<(int, int)>>, walks: seq<CaveWalk>)
      reads this, grid
      requires Valid() && IsGrid(g0) && caveRoomMinRadius <= caveRoomMaxRadius + 1 && |starts| <= |walks|
    {
      forall x, y :: 0 <= x < width && 0 <= y < height ==>
        grid[x, y] == if DugByWalks(starts, walks, x, y) then Cave else g0[x][y]
    }

    /**
     * Row `top` is the surface of column x on the grid the walks in `starts` leave behind,
     * stated on the cells g0 they started from: it was Solid and not dug, and every row above
     * it either was not Solid or was dug; -1 when no row qualifies.
     */
    ghost predicate SurfaceAfter(g0: seq<seq<TileType>>, starts: seq<Wrappers.Option<(int, int)>>, walks: seq<CaveWalk>, x: int, top: int)
      requires IsGrid(g0) && caveRoomMinRadius <= caveRoomMaxRadius + 1 && |starts| <= |walks|
    {
      0 <= x < width && -1 <= top < height &&
      (top >= 0 ==> g0[x][top] == Solid && !DugByWalks(starts, walks, x, top)) &&
      (forall y :: top < y < height ==> g0[x][y] != Solid || DugByWalks(starts, walks, x, y))
    }

    /** Where a walk starts: one row under the surface `top` of its column, or nowhere when that row is 0 or below. */
    function WalkStart(x: int, top: int): (s: Wrappers.Option<(int, int)>)
      ensures s.Some? <==> top - 1 > 0
      ensures s.Some? ==> s.value == (x, top - 1)
    {
      if top - 1 <= 0 then Wrappers.None else Wrappers.Some((x, top - 1))
    }

    /** Walk number |starts| of `GenerateCaves`: find its column's surface, then dig from under it unless skipped. */
    method CaveWalkFrom(ghost g0: seq<seq<TileType>>, walks: seq<CaveWalk>, i: nat, ghost starts: seq<Wrappers.Option<(int, int)>>)
      returns (ghost start: Wrappers.Option<(int, int)>, ghost top: int)
      requires Valid() && width >= 10 && caveRoomMinRadius <= caveRoomMaxRadius + 1
      requires IsGrid(g0) && i == |starts| < |walks| && CarvedFrom(g0, starts, walks)
      modifies grid
      ensures OnlyCarved(grid)
      ensures CarvedFrom(g0, starts + [start], walks)
      ensures SurfaceAfter(g0, starts, walks, WalkColumn(walks[|starts|]), top)
      ensures start == WalkStart(WalkColumn(walks[|starts|]), top)
    {
      var x := Next(5, width - 5, walks[i].columnDraw);
      var surface := GetSurfaceY(x);
      top := surface;
      assert SurfaceAfter(g0, starts, walks, x, top);
      var y := surface - 1;
      start := WalkStart(x, top);
      if y > 0 {
        DigCave(x, y, walks[i].steps);
      }
      forall x', y' | 0 <= x' < width && 0 <= y' < height
        ensures grid[x', y'] == if DugByWalks(starts + [start], walks, x', y') then Cave else g0[x'][y']
      {
        DugByWalksSnoc(starts, start, walks, x', y');
      }
    }

    /**
     * `GenerateCaves`: walk i reads the surface row `tops[i]` of its drawn column on the grid
     * the walks before it left, is skipped when the row under it is 0 or below, and otherwise
     * starts there. Exactly the cells the started walks dig become Cave.
     */
    method GenerateCaves(walks: seq<CaveWalk>) returns (ghost starts: seq<Wrappers.Option<(int, int)>>, ghost tops: seq<int>)
      requires Valid() && (|walks| > 0 ==> width >= 10) && caveRoomMinRadius <= caveRoomMaxRadius + 1
      modifies grid
      ensures OnlyCarved(grid)
      ensures |starts| == |walks| && |tops| == |walks|
      ensures CarvedFrom(old(Cells()), starts, walks)
      ensures forall i :: 0 <= i < |walks| ==>
        SurfaceAfter(old(Cells()), starts[..i], walks, WalkColumn(walks[i]), tops[i]) &&
        starts[i] == WalkStart(WalkColumn(walks[i]), tops[i])
    {
      ghost var g0 := Cells();
      starts, tops := [], [];
      for i := 0 to |walks|
        invariant OnlyCarved(grid)
        invariant |starts| == i && |tops| == i
        invariant CarvedFrom(g0, starts, walks)
        invariant forall j :: 0 <= j < i ==>
          SurfaceAfter(g0, starts[..j], walks, WalkColumn(walks[j]), tops[j]) &&
          starts[j] == WalkStart(WalkColumn(walks[j]), tops[j])
      {
        var start, top := CaveWalkFrom(g0, walks, i, starts);
        ghost var before := starts;
        starts := starts + [start];
        tops := tops + [top];
        assert starts[..i] == before;
        forall j | 0 <= j < i ensures starts[..j] == before[..j] { }
      }
    }

    /** `ForceBedrock`: the rows under `bedrockHeight` become Solid; nothing else changes. */
    method ForceBedrock()
      requires Valid() && bedrockHeight <= height
      modifies grid
      ensures forall x, y :: 0 <= x < width && 0 <= y < height ==>
        grid[x, y] == if y < bedrockHeight then Solid else old(grid[x, y])
    {
      for x := 0 to width
        invariant forall x', y :: 0 <= x' < width && 0 <= y < height ==>
          grid[x', y] == if x' < x && y < bedrockHeight then Solid else old(grid[x', y])
      {
        var y := 0;
        while y < bedrockHeight
          invariant 0 <= y <= (if bedrockHeight > 0 then bedrockHeight else 0)
          invariant forall x', y' :: 0 <= x' < width && 0 <= y' < height ==>
            grid[x', y'] == if (x' < x && y' < bedrockHeight) || (x' == x && y' < y) then Solid else old(grid[x', y'])
        {
          grid[x, y] := Solid;
          y := y + 1;
        }
      }
    }

    /** A cell of one of the two side-wall strips. */
    predicate InSideWall(x: int) {
      x < sideWallWidth || x >= width - sideWallWidth
    }

    /** `ForceSideWalls`: the full-height strips at both edges become Solid; nothing else changes. */
    method ForceSideWalls()
      requires Valid() && sideWallWidth <= width
      modifies grid
      ensures forall x, y :: 0 <= x < width && 0 <= y < height ==>
        grid[x, y] == if InSideWall(x) then Solid else old(grid[x, y])
    {
      var x := 0;
      while x < sideWallWidth
        invariant 0 <= x <= (if sideWallWidth > 0 then sideWallWidth else 0)
        invariant forall x', y :: 0 <= x' < width && 0 <= y < height ==>
          grid[x', y] == if x' < x then Solid else old(grid[x', y])
      {
        for y := 0 to height
          invariant forall x', y' :: 0 <= x' < width && 0 <= y' < height ==>
            grid[x', y'] == if x' < x || (x' == x && y' < y) then Solid else old(grid[x', y'])
        {
          grid[x, y] := Solid;
        }
        x := x + 1;
      }
      x := width - sideWallWidth;
      while x < width
        invariant width - sideWallWidth <= x && (sideWallWidth >= 0 ==> x <= width)
        invariant forall x', y :: 0 <= x' < width && 0 <= y < height ==>
          grid[x', y] == if x' < sideWallWidth || (width - sideWallWidth <= x' < x) then Solid else old(grid[x', y])
      {
        for y := 0 to height
          invariant forall x', y' :: 0 <= x' < width && 0 <= y' < height ==>
            grid[x', y'] == if x' < sideWallWidth || (width - sideWallWidth <= x' < x) || (x' == x && y' < y)
                           then Solid else old(grid[x', y'])
        {
          grid[x, y] := Solid;
        }
        x := x + 1;
      }
    }

    /**
     * The terrain `Generate` leaves behind: bedrock rows and side-wall strips are Solid;
     * elsewhere a cell at or under its column's surface line is Solid or dug out (never
     * Air), and a cell above it is Air or dug out (never Solid).
     */
    ghost predicate Terrain(heights: seq<int>)
      reads this, grid
      requires Valid() && |heights| == width
    {
      forall x, y :: 0 <= x < width && 0 <= y < height ==> TerrainCell(heights, x, y)
    }

    /** The layering of `Terrain` at one cell. */
    ghost predicate TerrainCell(heights: seq<int>, x: int, y: int)
      reads this, grid
      requires Valid() && |heights| == width && 0 <= x < width && 0 <= y < height
    {
      (y < bedrockHeight || InSideWall(x) ==> grid[x, y] == Solid) &&
      (grid[x, y] == Cave ==> y >= bedrockHeight) &&
      (y <= SurfaceLine(heights, x) && grid[x, y] != Solid ==> grid[x, y] == Cave) &&
      (y > SurfaceLine(heights, x) && grid[x, y] == Solid ==> y < bedrockHeight || InSideWall(x))
    }

    // =========================================================================
    // Spawning

    /** The test a loop applies to a drawn cell after `InSpawnRange`. */
    predicate Accepts(kind: SpawnKind, x: int, y: int)
      reads this, grid
      requires Valid()
    {
      match kind
      case GroundEnemy =>
        InRange(x, y) && grid[x, y] == Solid && IsOpen(x, y + 1) && IsOpen(x, y + 2) && IsOpen(x, y + 3)
      case AirEnemy =>
        IsOpen(x, y)
      case GimmickObject =>
        InRange(x, y) && InRange(x, y + 1) && grid[x, y] == Solid && grid[x, y + 1] == Cave
    }

    /**
     * What a range must satisfy for a loop to run without an exception: `Next` needs its
     * lower bound at most its upper bound, and the ground and gimmick loops index the grid
     * without a bounds check, so every cell they can reach must lie on the grid.
     */
    predicate SpawnRangeUsable(kind: SpawnKind, r: SpawnRange) {
      r.left <= r.right + 1 && r.bottom <= DrawTop(kind, r) &&
      (kind != AirEnemy && r.left <= r.right ==>
        0 <= r.left && r.right < width && 0 <= r.bottom &&
        LastDrawnY(kind, r) + (if kind == GimmickObject then 1 else 0) < height)
    }

    /** A placement a spawn loop may make: in the range, passing the loop's test, with a valid prefab index. */
    predicate Placeable(kind: SpawnKind, range: SpawnRange, prefabs: nat, p: Placement)
      reads this, grid
      requires Valid()
    {
      InSpawnRange(p.x, p.y, range) && Accepts(kind, p.x, p.y) && (prefabs > 0 ==> p.prefab < prefabs)
    }

    /**
     * One try of a spawn loop, as a value: the placements so far and the index of the next
     * raw draw. It draws x from `Draw(rng, k)` and y from `Draw(rng, k + 1)`; a cell that is in the range
     * and passes the loop's test is placed with the prefab drawn from `Draw(rng, k + 2)`.
     */
    function SpawnTry(kind: SpawnKind, range: SpawnRange, prefabs: nat, rng: seq<nat>, placed: seq<Placement>, k: nat)
      : (r: SpawnProgress)
      reads this, grid
      requires Valid() && SpawnRangeUsable(kind, range)
      ensures |placed| <= |r.placed| <= |placed| + 1 && r.placed[..|placed|] == placed
      ensures |r.placed| == |placed| + 1 ==>
        Placeable(kind, range, prefabs, r.placed[|placed|])
    {
      var x := Next(range.left, range.right + 1, Draw(rng, k));
      var y := Next(range.bottom, DrawTop(kind, range), Draw(rng, k + 1));
      if InSpawnRange(x, y, range) && Accepts(kind, x, y) then
        SpawnProgress(placed + [Placement(x, y, Next(0, prefabs, Draw(rng, k + 2)))], k + 3)
      else
        SpawnProgress(placed, k + 2)
    }

    /** The placements and the next draw index after n tries, stopping for nothing. */
    function SpawnTries(kind: SpawnKind, range: SpawnRange, prefabs: nat, rng: seq<nat>, n: nat): (r: SpawnProgress)
      reads this, grid
      requires Valid() && SpawnRangeUsable(kind, range)
      ensures |r.placed| <= n
      decreases n, 1
    {
      if n == 0 then SpawnProgress([], 0) else NthTry(kind, range, prefabs, rng, n)
    }

    /** The n-th try, made where the first n - 1 tries left off. */
    function NthTry(kind: SpawnKind, range: SpawnRange, prefabs: nat, rng: seq<nat>, n: nat): (r: SpawnProgress)
      reads this, grid
      requires Valid() && SpawnRangeUsable(kind, range) && n > 0
      ensures |r.placed| <= n
      decreases n, 0
    {
      var before := SpawnTries(kind, range, prefabs, rng, n - 1);
      SpawnTry(kind, range, prefabs, rng, before.placed, before.next)
    }

    /** A try keeps the placements before it and adds at most one, which is placeable. */
    lemma SpawnTryKeepsPlaceable(kind: SpawnKind, range: SpawnRange, prefabs: nat, rng: seq<nat>, placed: seq<Placement>, k: nat)
      requires Valid() && SpawnRangeUsable(kind, range)
      requires forall i :: 0 <= i < |placed| ==> Placeable(kind, range, prefabs, placed[i])
      ensures forall i :: 0 <= i < |SpawnTry(kind, range, prefabs, rng, placed, k).placed| ==>
        Placeable(kind, range, prefabs, SpawnTry(kind, range, prefabs, rng, placed, k).placed[i])
    {
      var r := SpawnTry(kind, range, prefabs, rng, placed, k);
      forall i | 0 <= i < |r.placed| ensures Placeable(kind, range, prefabs, r.placed[i]) {
        if i < |placed| {
          assert r.placed[i] == r.placed[..|placed|][i];
        }
      }
    }

    /** Every placement of the first n tries is in the range, passes the loop's test and has a valid prefab index. */
    lemma {:induction false} SpawnTriesSound(kind: SpawnKind, range: SpawnRange, prefabs: nat, rng: seq<nat>, n: nat)
      requires Valid() && SpawnRangeUsable(kind, range)
      ensures forall i :: 0 <= i < |SpawnTries(kind, range, prefabs, rng, n).placed| ==>
        Placeable(kind, range, prefabs, SpawnTries(kind, range, prefabs, rng, n).placed[i])
      decreases n
    {
      if n > 0 {
        SpawnTriesSound(kind, range, prefabs, rng, n - 1);
        var before := SpawnTries(kind, range, prefabs, rng, n - 1);
        assert SpawnTries(kind, range, prefabs, rng, n) == NthTry(kind, range, prefabs, rng, n)
          == SpawnTry(kind, range, prefabs, rng, before.placed, before.next);
        SpawnTryKeepsPlaceable(kind, range, prefabs, rng, before.placed, before.next);
      }
    }

    /** Before each of the first n tries fewer than `count` cells were placed, so the loop had not stopped. */
    ghost predicate BelowCountBefore(kind: SpawnKind, range: SpawnRange, count: int, prefabs: nat, rng: seq<nat>, n: nat)
      reads this, grid
      requires Valid() && SpawnRangeUsable(kind, range)
      decreases n
    {
      n == 0 ||
      (BelowCountBefore(kind, range, count, prefabs, rng, n - 1) &&
       |SpawnTries(kind, range, prefabs, rng, n - 1).placed| < count)
    }

    /**
     * `placed` and `tries` are what a spawn loop ends with. For a count of 0 or less the
     * loop's guard fails before any draw: nothing is placed and no try is made. Otherwise
     * they are the placements of its first `tries` tries, where it stops at `TryLimit` tries
     * or once `count` cells are placed, and not before.
     */
    ghost predicate SpawnedBy(kind: SpawnKind, range: SpawnRange, count: int, prefabs: nat, rng: seq<nat>,
                              placed: seq<Placement>, tries: nat)
      reads this, grid
      requires Valid() && (count > 0 ==> SpawnRangeUsable(kind, range))
    {
      if count <= 0 then placed == [] && tries == 0
      else
        tries <= TryLimit &&
        placed == SpawnTries(kind, range, prefabs, rng, tries).placed &&
        (tries == TryLimit || |placed| >= count) &&
        BelowCountBefore(kind, range, count, prefabs, rng, tries)
    }

    /** A spawn loop places at most `count` cells (none for a count of 0 or less), each of them placeable. */
    lemma SpawnedWithinCount(kind: SpawnKind, range: SpawnRange, count: int, prefabs: nat, rng: seq<nat>,
                             placed: seq<Placement>, tries: nat)
      requires Valid() && (count > 0 ==> SpawnRangeUsable(kind, range) && prefabs > 0)
      requires SpawnedBy(kind, range, count, prefabs, rng, placed, tries)
      ensures |placed| <= if count > 0 then count else 0
      ensures |placed| <= tries && (|placed| < count ==> tries == TryLimit)
      ensures forall i :: 0 <= i < |placed| ==> Placeable(kind, range, prefabs, placed[i])
      ensures forall i :: 0 <= i < |placed| ==>
        InSpawnRange(placed[i].x, placed[i].y, range) && Accepts(kind, placed[i].x, placed[i].y) &&
        placed[i].prefab < prefabs
    {
      if count > 0 {
        SpawnTriesSound(kind, range, prefabs, rng, tries);
        if tries > 0 {
          var before := SpawnTries(kind, range, prefabs, rng, tries - 1);
          assert |before.placed| < count;
          assert SpawnTries(kind, range, prefabs, rng, tries) == NthTry(kind, range, prefabs, rng, tries)
            == SpawnTry(kind, range, prefabs, rng, before.placed, before.next);
        }
        forall i | 0 <= i < |placed|
          ensures InSpawnRange(placed[i].x, placed[i].y, range) && Accepts(kind, placed[i].x, placed[i].y) &&
            placed[i].prefab < prefabs
        {
          assert Placeable(kind, range, prefabs, placed[i]);
        }
      }
    }

    /** The state of a spawn loop after `tries` passes: their placements, the next draw `k`, and no early stop. */
    ghost predicate SpawnLoopState(kind: SpawnKind, range: SpawnRange, count: int, prefabs: nat, rng: seq<nat>,
                                   placed: seq<Placement>, k: nat, tries: nat)
      reads this, grid
    {
      Valid() && SpawnRangeUsable(kind, range) && tries <= TryLimit &&
      SpawnTries(kind, range, prefabs, rng, tries) == SpawnProgress(placed, k) &&
      BelowCountBefore(kind, range, count, prefabs, rng, tries)
    }

    /** The `continue` tests of one try, in the source's order: the range, then the loop's own test. */
    method PassesTests(kind: SpawnKind, range: SpawnRange, x: int, y: int) returns (ok: bool)
      requires Valid() && SpawnRangeUsable(kind, range) && y <= LastDrawnY(kind, range)
      ensures ok <==> InSpawnRange(x, y, range) && Accepts(kind, x, y)
    {
      if !InSpawnRange(x, y, range) {
        return false;
      }
      match kind {
        case GroundEnemy =>
          if grid[x, y] != Solid { return false; }
          if !IsOpen(x, y + 1) { return false; }
          if !IsOpen(x, y + 2) { return false; }
          if !IsOpen(x, y + 3) { return false; }
        case AirEnemy =>
          if !IsOpen(x, y) { return false; }
        case GimmickObject =>
          if grid[x, y] != Solid { return false; }
          if grid[x, y + 1] != Cave { return false; }
      }
      return true;
    }

    /**
     * One pass of a spawn loop's body: draw x and y, apply the tests, and on acceptance draw the
     * prefab and place. Resumed after `tries` tries, it leaves what `tries + 1` tries leave.
     */
    method TryOnce(kind: SpawnKind, range: SpawnRange, prefabs: nat, rng: seq<nat>, placed: seq<Placement>, k: nat,
                   ghost tries: nat)
      returns (placed': seq<Placement>, k': nat)
      requires Valid() && SpawnRangeUsable(kind, range)
      requires SpawnTries(kind, range, prefabs, rng, tries) == SpawnProgress(placed, k)
      ensures SpawnTries(kind, range, prefabs, rng, tries + 1) == SpawnProgress(placed', k')
    {
      assert SpawnTries(kind, range, prefabs, rng, tries + 1) == NthTry(kind, range, prefabs, rng, tries + 1)
        == SpawnTry(kind, range, prefabs, rng, placed, k);
      var x := Next(range.left, range.right + 1, Draw(rng, k));
      var y := Next(range.bottom, DrawTop(kind, range), Draw(rng, k + 1));
      k' := k + 2;
      var ok := PassesTests(kind, range, x, y);
      if !ok {
        return placed, k';
      }
      var prefab := Next(0, prefabs, Draw(rng, k'));
      k' := k' + 1;
      placed' := placed + [Placement(x, y, prefab)];
    }

    /**
     * The rejection-sampling loop shared by the three spawners: at most `TryLimit` attempts,
     * each drawing x then y from `rng` and, on acceptance, a prefab index. It stops early
     * only once `count` cells are placed.
     */
    method Spawn(kind: SpawnKind, range: SpawnRange, count: int, prefabs: nat, rng: seq<nat>)
      returns (placed: seq<Placement>, tries: nat)
      requires Valid() && (count > 0 ==> SpawnRangeUsable(kind, range) && prefabs > 0)
      ensures SpawnedBy(kind, range, count, prefabs, rng, placed, tries)
      ensures tries <= TryLimit && |placed| <= tries
      ensures count <= 0 ==> placed == []
      ensures count > 0 ==> |placed| <= count
      ensures |placed| < count ==> tries == TryLimit
      ensures forall i :: 0 <= i < |placed| ==> Placeable(kind, range, prefabs, placed[i])
    {
      placed, tries := [], 0;
      if count <= 0 {
        // The guard `spawned < count` fails before the first draw.
        return;
      }
      var k: nat := 0;
      while |placed| < count && tries < TryLimit
        invariant SpawnLoopState(kind, range, count, prefabs, rng, placed, k, tries)
        decreases TryLimit - tries
      {
        placed, k := TryOnce(kind, range, prefabs, rng, placed, k, tries);
        tries := tries + 1;
      }
      SpawnedWithinCount(kind, range, count, prefabs, rng, placed, tries);
    }

    /** `SpawnGroundEnemies`: Solid cells with three open cells above them; the enemy stands one row up. */
    method SpawnGroundEnemies(rng: seq<nat>) returns (placed: seq<Placement>, ghost tries: nat)
      requires Valid() && (groundEnemyCount > 0 ==> SpawnRangeUsable(GroundEnemy, groundEnemyRange) && groundPrefabs > 0)
      ensures SpawnedBy(GroundEnemy, groundEnemyRange, groundEnemyCount, groundPrefabs, rng, placed, tries)
      ensures |placed| <= if groundEnemyCount > 0 then groundEnemyCount else 0
      ensures forall p :: p in placed ==>
        InSpawnRange(p.x, p.y, groundEnemyRange) && InRange(p.x, p.y) && grid[p.x, p.y] == Solid &&
        IsOpen(p.x, p.y + 1) && IsOpen(p.x, p.y + 2) && IsOpen(p.x, p.y + 3)
    {
      var n;
      placed, n := Spawn(GroundEnemy, groundEnemyRange, groundEnemyCount, groundPrefabs, rng);
      tries := n;
      forall p | p in placed
        ensures InSpawnRange(p.x, p.y, groundEnemyRange) && InRange(p.x, p.y) && grid[p.x, p.y] == Solid &&
          IsOpen(p.x, p.y + 1) && IsOpen(p.x, p.y + 2) && IsOpen(p.x, p.y + 3)
      {
        var i :| 0 <= i < |placed| && placed[i] == p;
        assert Accepts(GroundEnemy, p.x, p.y);
      }
    }

    /** `SpawnAirEnemies`: any open cell of the range. */
    method SpawnAirEnemies(rng: seq<nat>) returns (placed: seq<Placement>, ghost tries: nat)
      requires Valid() && (airEnemyCount > 0 ==> SpawnRangeUsable(AirEnemy, airEnemyRange) && airPrefabs > 0)
      ensures SpawnedBy(AirEnemy, airEnemyRange, airEnemyCount, airPrefabs, rng, placed, tries)
      ensures |placed| <= if airEnemyCount > 0 then airEnemyCount else 0
      ensures forall p :: p in placed ==> InSpawnRange(p.x, p.y, airEnemyRange) && IsOpen(p.x, p.y)
    {
      var n;
      placed, n := Spawn(AirEnemy, airEnemyRange, airEnemyCount, airPrefabs, rng);
      tries := n;
    }

    /** `GimmickEnemies`: Solid cells whose upper neighbour is exactly Cave, so pickups sit inside caves. */
    method GimmickEnemies(rng: seq<nat>) returns (placed: seq<Placement>, ghost tries: nat)
      requires Valid() && (gimmickCount > 0 ==> SpawnRangeUsable(GimmickObject, gimmickRange) && gimmickPrefabs > 0)
      ensures SpawnedBy(GimmickObject, gimmickRange, gimmickCount, gimmickPrefabs, rng, placed, tries)
      ensures |placed| <= if gimmickCount > 0 then gimmickCount else 0
      ensures forall p :: p in placed ==>
        InSpawnRange(p.x, p.y, gimmickRange) && InRange(p.x, p.y + 1) &&
        grid[p.x, p.y] == Solid && grid[p.x, p.y + 1] == Cave
    {
      var n;
      placed, n := Spawn(GimmickObject, gimmickRange, gimmickCount, gimmickPrefabs, rng);
      tries := n;
    }

    // =========================================================================
    // The whole pipeline

    /** The grid after the surface and fill passes: Solid at or under each column's surface line, Air above. */
    ghost function Filled(heights: seq<int>): (g: seq<seq<TileType>>)
      requires |heights| == width && height >= 0
      ensures IsGrid(g)
      ensures forall x, y :: 0 <= x < width && 0 <= y < height ==>
        g[x][y] == if y <= SurfaceLine(heights, x) then Solid else Air
    {
      seq(width, x requires 0 <= x < width => seq(height, y => if y <= SurfaceLine(heights, x) then Solid else Air))
    }

    /**
     * The shaped terrain, cell by cell: bedrock rows and side-wall strips are Solid; elsewhere
     * a cell the cave walks dig is Cave, and any other cell is Solid at or under its column's
     * surface line and Air above it.
     */
    ghost predicate Shaped(heights: seq<int>, walks: seq<CaveWalk>, starts: seq<Wrappers.Option<(int, int)>>)
      reads this, grid
      requires Valid() && |heights| == width && caveRoomMinRadius <= caveRoomMaxRadius + 1 && |starts| <= |walks|
    {
      forall x, y :: 0 <= x < width && 0 <= y < height ==> ShapedCell(heights, walks, starts, x, y)
    }

    /** The shaped terrain at one cell. */
    ghost predicate ShapedCell(heights: seq<int>, walks: seq<CaveWalk>, starts: seq<Wrappers.Option<(int, int)>>, x: int, y: int)
      reads this, grid
      requires Valid() && |heights| == width && caveRoomMinRadius <= caveRoomMaxRadius + 1 && |starts| <= |walks|
      requires 0 <= x < width && 0 <= y < height
    {
      grid[x, y] ==
        if y < bedrockHeight || InSideWall(x) then Solid
        else if DugByWalks(starts, walks, x, y) then Cave
        else if y <= SurfaceLine(heights, x) then Solid
        else Air
    }

    /**
     * The cave walks' surface rows and starts, read on the filled grid as the walks before
     * each one left it (see `GenerateCaves`).
     */
    ghost predicate WalksOnFilled(heights: seq<int>, walks: seq<CaveWalk>, starts: seq<Wrappers.Option<(int, int)>>, tops: seq<int>)
      requires |heights| == width && height >= 0 && caveRoomMinRadius <= caveRoomMaxRadius + 1
    {
      |starts| == |walks| && |tops| == |walks| &&
      forall i :: 0 <= i < |walks| ==>
        width >= 10 &&
        SurfaceAfter(Filled(heights), starts[..i], walks, WalkColumn(walks[i]), tops[i]) &&
        starts[i] == WalkStart(WalkColumn(walks[i]), tops[i])
    }

    /** The shaped terrain has the layering of `Terrain`. */
    lemma ShapedIsTerrain(heights: seq<int>, walks: seq<CaveWalk>, starts: seq<Wrappers.Option<(int, int)>>)
      requires Valid() && |heights| == width && caveRoomMinRadius <= caveRoomMaxRadius + 1 && |starts| <= |walks|
      requires Shaped(heights, walks, starts)
      ensures Terrain(heights)
    {
      forall x, y | 0 <= x < width && 0 <= y < height ensures TerrainCell(heights, x, y) {
        assert ShapedCell(heights, walks, starts, x, y);
      }
    }

    /**
     * The grid-shaping half of `Generate`, run on its freshly allocated all-Air grid:
     * surface, fill, caves, bedrock and side walls.
     */
    method ShapeTerrain(heights: seq<int>, walks: seq<CaveWalk>) returns (ghost starts: seq<Wrappers.Option<(int, int)>>, ghost tops: seq<int>)
      requires Valid() && |heights| == width && (width == 0 || height > 0)
      requires forall x, y :: 0 <= x < width && 0 <= y < height ==> grid[x, y] == Air
      requires |walks| > 0 ==> width >= 10
      requires caveRoomMinRadius <= caveRoomMaxRadius + 1
      requires bedrockHeight <= height && sideWallWidth <= width
      modifies grid
      ensures |starts| == |walks|
      ensures Shaped(heights, walks, starts)
      ensures WalksOnFilled(heights, walks, starts, tops)
      ensures Terrain(heights)
    {
      GenerateSurface(heights);
      forall x | 0 <= x < width ensures SurfaceY(x) == SurfaceLine(heights, x) {
        LoneSolidIsSurface(x, SurfaceLine(heights, x));
      }
      FillBelowSurface();
      ghost var g := Cells();
      assert g == Filled(heights) by {
        forall x | 0 <= x < width ensures g[x] == Filled(heights)[x] { }
      }
      starts, tops := GenerateCaves(walks);
      assert forall x, y :: 0 <= x < width && 0 <= y < height ==>
        grid[x, y] == if DugByWalks(starts, walks, x, y) then Cave else if y <= SurfaceLine(heights, x) then Solid else Air;
      ForceBedrock();
      ForceSideWalls();
      ShapedIsTerrain(heights, walks, starts);
    }

    /**
     * `Generate`: a fresh all-Air grid, then surface, fill, caves, bedrock, side walls,
     * blocks, and the three spawners, in that order. The float surface heights, the cave
     * walks and the three random streams are the inputs.
     */
    method Generate(heights: seq<int>, walks: seq<CaveWalk>, groundRng: seq<nat>, airRng: seq<nat>, gimmickRng: seq<nat>)
      returns (tiles: seq<Tile>, ground: seq<Placement>, air: seq<Placement>, gimmicks: seq<Placement>,
               ghost starts: seq<Wrappers.Option<(int, int)>>, ghost tops: seq<int>,
               ghost groundTries: nat, ghost airTries: nat, ghost gimmickTries: nat)
      requires width >= 0 && height >= 0 && |heights| == width && (width == 0 || height > 0)
      requires |walks| > 0 ==> width >= 10
      requires caveRoomMinRadius <= caveRoomMaxRadius + 1
      requires bedrockHeight <= height && sideWallWidth <= width
      requires groundEnemyCount > 0 ==> SpawnRangeUsable(GroundEnemy, groundEnemyRange) && groundPrefabs > 0
      requires airEnemyCount > 0 ==> SpawnRangeUsable(AirEnemy, airEnemyRange) && airPrefabs > 0
      requires gimmickCount > 0 ==> SpawnRangeUsable(GimmickObject, gimmickRange) && gimmickPrefabs > 0
      modifies this
      ensures Valid() && fresh(grid)
      ensures |starts| == |walks|
      ensures Shaped(heights, walks, starts) && WalksOnFilled(heights, walks, starts, tops)
      ensures Terrain(heights)
      ensures tiles == BlocksLeftOf(width)
      ensures SpawnedBy(GroundEnemy, groundEnemyRange, groundEnemyCount, groundPrefabs, groundRng, ground, groundTries)
      ensures SpawnedBy(AirEnemy, airEnemyRange, airEnemyCount, airPrefabs, airRng, air, airTries)
      ensures SpawnedBy(GimmickObject, gimmickRange, gimmickCount, gimmickPrefabs, gimmickRng, gimmicks, gimmickTries)
      ensures |ground| <= (if groundEnemyCount > 0 then groundEnemyCount else 0)
      ensures |air| <= (if airEnemyCount > 0 then airEnemyCount else 0)
      ensures |gimmicks| <= (if gimmickCount > 0 then gimmickCount else 0)
      ensures forall p :: p in ground ==>
        InSpawnRange(p.x, p.y, groundEnemyRange) && Accepts(GroundEnemy, p.x, p.y)
      ensures forall p :: p in air ==> InSpawnRange(p.x, p.y, airEnemyRange) && IsOpen(p.x, p.y)
      ensures forall p :: p in gimmicks ==>
        InSpawnRange(p.x, p.y, gimmickRange) && Accepts(GimmickObject, p.x, p.y)
    {
      grid := new TileType[width, height]((x, y) => Air);
      starts, tops := ShapeTerrain(heights, walks);
      tiles := BuildBlocks();
      ground, air, gimmicks, groundTries, airTries, gimmickTries := SpawnAll(groundRng, airRng, gimmickRng);
    }

    /** The three spawners of `Generate`, in its order. */
    method SpawnAll(groundRng: seq<nat>, airRng: seq<nat>, gimmickRng: seq<nat>)
      returns (ground: seq<Placement>, air: seq<Placement>, gimmicks: seq<Placement>,
               ghost groundTries: nat, ghost airTries: nat, ghost gimmickTries: nat)
      requires Valid()
      requires groundEnemyCount > 0 ==> SpawnRangeUsable(GroundEnemy, groundEnemyRange) && groundPrefabs > 0
      requires airEnemyCount > 0 ==> SpawnRangeUsable(AirEnemy, airEnemyRange) && airPrefabs > 0
      requires gimmickCount > 0 ==> SpawnRangeUsable(GimmickObject, gimmickRange) && gimmickPrefabs > 0
      ensures SpawnedBy(GroundEnemy, groundEnemyRange, groundEnemyCount, groundPrefabs, groundRng, ground, groundTries)
      ensures SpawnedBy(AirEnemy, airEnemyRange, airEnemyCount, airPrefabs, airRng, air, airTries)
      ensures SpawnedBy(GimmickObject, gimmickRange, gimmickCount, gimmickPrefabs, gimmickRng, gimmicks, gimmickTries)
      ensures |ground| <= (if groundEnemyCount > 0 then groundEnemyCount else 0)
      ensures |air| <= (if airEnemyCount > 0 then airEnemyCount else 0)
      ensures |gimmicks| <= (if gimmickCount > 0 then gimmickCount else 0)
      ensures forall p :: p in ground ==>
        InSpawnRange(p.x, p.y, groundEnemyRange) && Accepts(GroundEnemy, p.x, p.y)
      ensures forall p :: p in air ==> InSpawnRange(p.x, p.y, airEnemyRange) && IsOpen(p.x, p.y)
      ensures forall p :: p in gimmicks ==>
        InSpawnRange(p.x, p.y, gimmickRange) && Accepts(GimmickObject, p.x, p.y)
    {
      ground, groundTries := SpawnGroundEnemies(groundRng);
      air, airTries := SpawnAirEnemies(airRng);
      gimmicks, gimmickTries := GimmickEnemies(gimmickRng);
    }
  }
}
