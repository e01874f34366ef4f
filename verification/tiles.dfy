/**
 * The shared declarations of System.cs: the `ExposedDir` flags enum (which sides of a
 * block face open space), the `CornerType` enum (the nine corner shapes) and the
 * `SpawnRange` struct (a rectangle of grid cells where one kind of entity may appear).
 */
module Tiles {

  // ---------------------------------------------------------------------------
  // ExposedDir: a [Flags] enum over a 32-bit int

  /** The four cardinal directions that `ExposedDir` has one flag each for. */
  datatype Dir = Up | Down | Left | Right

  const AllDirs: set<Dir> := {Up, Down, Left, Right}

  /** The underlying value of an `ExposedDir`: a C# enum is a 32-bit integer. */
  type ExposedDir = bv32

  /** `ExposedDir.None`. */
  const NoExposure: ExposedDir := 0

  /** `ExposedDir.Up`, `.Down`, `.Left`, `.Right`: the bits `1 << 0` to `1 << 3`. */
  function Flag(d: Dir): (f: ExposedDir)
    ensures f != NoExposure && f & (f - 1) == 0
    ensures f & 0xF == f
  {
    match d
    case Up => 1 << 0
    case Down => 1 << 1
    case Left => 1 << 2
    case Right => 1 << 3
  }

  /** `Enum.HasFlag`: every bit of `f` is set in `m`. */
  predicate HasFlag(m: ExposedDir, f: ExposedDir) {
    m & f == f
  }

  /** `m |= f`. */
  function Include(m: ExposedDir, f: ExposedDir): ExposedDir {
    m | f
  }

  /** A mask that uses no bit outside the four declared flags. */
  predicate IsMask(m: ExposedDir) {
    m & 0xF == m
  }

  /** The directions a mask holds, read through `HasFlag`. */
  function DirsOf(m: ExposedDir): set<Dir> {
    set d | d in AllDirs && HasFlag(m, Flag(d))
  }

  /** The mask that holds exactly the directions of `s`. */
  function MaskOf(s: set<Dir>): (m: ExposedDir)
    ensures IsMask(m)
  {
    (if Up in s then Flag(Up) else NoExposure) |
    (if Down in s then Flag(Down) else NoExposure) |
    (if Left in s then Flag(Left) else NoExposure) |
    (if Right in s then Flag(Right) else NoExposure)
  }

  /** The four flags are pairwise distinct bits. */
  lemma FlagsDisjoint(d: Dir, e: Dir)
    ensures d != e ==> Flag(d) & Flag(e) == NoExposure
    ensures Flag(d) == Flag(e) <==> d == e
  {
  }

  /** `|=` adds exactly one direction: it is set union with a singleton. */
  lemma {:induction false} IncludeIsUnion(m: ExposedDir, d: Dir)
    ensures DirsOf(Include(m, Flag(d))) == DirsOf(m) + {d}
  {
    forall e | e in AllDirs
      ensures e in DirsOf(Include(m, Flag(d))) <==> e in DirsOf(m) + {d}
    {
      FlagsDisjoint(d, e);
    }
  }

  /** Reading the directions of a combined mask is union of the parts. */
  lemma {:induction false} UnionOfMasks(a: ExposedDir, b: ExposedDir)
    requires IsMask(a) && IsMask(b)
    ensures DirsOf(a | b) == DirsOf(a) + DirsOf(b)
  {
    forall e | e in AllDirs
      ensures e in DirsOf(a | b) <==> e in DirsOf(a) + DirsOf(b)
    {
      assert HasFlag(a | b, Flag(e)) <==> HasFlag(a, Flag(e)) || HasFlag(b, Flag(e));
    }
  }

  /** A set of directions survives the trip through the flags. */
  lemma {:induction false} MaskOfRoundTrip(s: set<Dir>)
    ensures DirsOf(MaskOf(s)) == s
  {
    forall e | e in AllDirs
      ensures e in DirsOf(MaskOf(s)) <==> e in s
    {
      match e
      case Up =>
      case Down =>
      case Left =>
      case Right =>
    }
    assert s <= AllDirs by {
      forall e | e in s ensures e in AllDirs {
        match e
        case Up =>
        case Down =>
        case Left =>
        case Right =>
      }
    }
  }

  /** Every mask within the four flags is a set of directions: nothing else is encoded. */
  lemma {:induction false} DirsOfRoundTrip(m: ExposedDir)
    requires IsMask(m)
    ensures MaskOf(DirsOf(m)) == m
  {
    var s := DirsOf(m);
    assert Up in s <==> m & 1 == 1;
    assert Down in s <==> m & 2 == 2;
    assert Left in s <==> m & 4 == 4;
    assert Right in s <==> m & 8 == 8;
  }

  /** `ExposedDir.None` is the mask with no direction. */
  lemma {:induction false} NoExposureIsEmpty(m: ExposedDir)
    requires IsMask(m)
    ensures m == NoExposure <==> DirsOf(m) == {}
  {
    DirsOfRoundTrip(m);
    if DirsOf(m) == {} {
      assert MaskOf({}) == NoExposure;
    }
    if m == NoExposure {
      forall e | e in AllDirs ensures e !in DirsOf(m) { }
    }
  }

  // ---------------------------------------------------------------------------
  // CornerType: nine cases, outer (convex) corners before inner (concave) ones

  datatype CornerType =
    | None
    | OuterUpLeft | OuterUpRight | OuterDownLeft | OuterDownRight
    | InnerUpLeft | InnerUpRight | InnerDownLeft | InnerDownRight
  {
    predicate IsOuter() {
      OuterUpLeft? || OuterUpRight? || OuterDownLeft? || OuterDownRight?
    }

    predicate IsInner() {
      InnerUpLeft? || InnerUpRight? || InnerDownLeft? || InnerDownRight?
    }

    /** The column offset of the corner's side neighbour: -1 for a left corner, +1 for a right one. */
    function DX(): int
      requires !None?
    {
      if OuterUpLeft? || OuterDownLeft? || InnerUpLeft? || InnerDownLeft? then -1 else 1
    }

    /** The row offset of the corner's top or bottom neighbour: +1 for an upper corner (y grows upwards), -1 for a lower one. */
    function DY(): int
      requires !None?
    {
      if OuterUpLeft? || OuterUpRight? || InnerUpLeft? || InnerUpRight? then 1 else -1
    }
  }

  /** The C# enum value: the declaration index. */
  function Ordinal(c: CornerType): (n: nat)
    ensures n < 9
    ensures n == 0 <==> c == None
    ensures 1 <= n <= 4 <==> c.IsOuter()
    ensures 5 <= n <= 8 <==> c.IsInner()
  {
    match c
    case None => 0
    case OuterUpLeft => 1
    case OuterUpRight => 2
    case OuterDownLeft => 3
    case OuterDownRight => 4
    case InnerUpLeft => 5
    case InnerUpRight => 6
    case InnerDownLeft => 7
    case InnerDownRight => 8
  }

  /** The corner whose enum value is `n`. */
  function CornerOfOrdinal(n: nat): (c: CornerType)
    requires n < 9
  {
    [None, OuterUpLeft, OuterUpRight, OuterDownLeft, OuterDownRight,
     InnerUpLeft, InnerUpRight, InnerDownLeft, InnerDownRight][n]
  }

  /** The enum has exactly nine cases, numbered 0 to 8 without gaps or repeats. */
  lemma {:induction false} OrdinalBijection(c: CornerType, n: nat)
    requires n < 9
    ensures CornerOfOrdinal(Ordinal(c)) == c
    ensures Ordinal(CornerOfOrdinal(n)) == n
  {
    match c
    case None =>
    case OuterUpLeft =>
    case OuterUpRight =>
    case OuterDownLeft =>
    case OuterDownRight =>
    case InnerUpLeft =>
    case InnerUpRight =>
    case InnerDownLeft =>
    case InnerDownRight =>
  }

  /** Every corner but `None` is exactly one of outer or inner, and its two offsets name its quadrant uniquely. */
  lemma {:induction false} CornerGeometry(c: CornerType, d: CornerType)
    requires c != None && d != None
    ensures c.IsOuter() != c.IsInner()
    ensures c == d <==> c.IsOuter() == d.IsOuter() && c.DX() == d.DX() && c.DY() == d.DY()
  {
  }

  // ---------------------------------------------------------------------------
  // SpawnRange

  /** Four grid bounds, all inclusive. */
  datatype SpawnRange = SpawnRange(left: int, right: int, top: int, bottom: int)

}
