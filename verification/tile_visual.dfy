/**
 * The sprite choice of a terrain block (TileBaseEX.cs). A block has thirteen sprite slots;
 * `ApplyVisual` picks one from the block's corner kind and exposure mask with a fixed
 * priority: a corner first, then Up, Down, Left, Right, and the buried sprite last.
 * The renderer itself is not modelled: the chosen slot is the result.
 */
module TileVisual {
  import opened Tiles
  import Wrappers

  /** The sprite slots of a block, named as its serialized fields. */
  datatype Sprite =
    | SolidSprite | TopSprite | BottomSprite | LeftSprite | RightSprite
    | OuterUpLeftSprite | OuterUpRightSprite | OuterDownLeftSprite | OuterDownRightSprite
    | InnerUpLeftSprite | InnerUpRightSprite | InnerDownLeftSprite | InnerDownRightSprite
  {
    predicate IsCornerSprite() {
      !(SolidSprite? || TopSprite? || BottomSprite? || LeftSprite? || RightSprite?)
    }
  }

  /** The corner a corner sprite draws, and `None` for the five side sprites. */
  function CornerDrawnBy(s: Sprite): (c: CornerType)
    ensures c == None <==> !s.IsCornerSprite()
  {
    match s
    case OuterUpLeftSprite => OuterUpLeft
    case OuterUpRightSprite => OuterUpRight
    case OuterDownLeftSprite => OuterDownLeft
    case OuterDownRightSprite => OuterDownRight
    case InnerUpLeftSprite => InnerUpLeft
    case InnerUpRightSprite => InnerUpRight
    case InnerDownLeftSprite => InnerDownLeft
    case InnerDownRightSprite => InnerDownRight
    case _ => None
  }

  /**
   * `ApplyCorner`: returns true and assigns the matching corner sprite, or returns false and
   * assigns nothing. `Some(s)` stands for "returned true after assigning s".
   */
  function ApplyCorner(corner: CornerType): (r: Wrappers.Option<Sprite>)
    ensures r.None? <==> corner == None
    ensures r.Some? ==> r.value.IsCornerSprite() && CornerDrawnBy(r.value) == corner
  {
    match corner
    case OuterUpLeft => Wrappers.Some(OuterUpLeftSprite)
    case OuterUpRight => Wrappers.Some(OuterUpRightSprite)
    case OuterDownLeft => Wrappers.Some(OuterDownLeftSprite)
    case OuterDownRight => Wrappers.Some(OuterDownRightSprite)
    case InnerUpLeft => Wrappers.Some(InnerUpLeftSprite)
    case InnerUpRight => Wrappers.Some(InnerUpRightSprite)
    case InnerDownLeft => Wrappers.Some(InnerDownLeftSprite)
    case InnerDownRight => Wrappers.Some(InnerDownRightSprite)
    case None => Wrappers.None
  }

  /**
   * `ApplyVisual`: the one sprite a block shows. Stated by what each sprite means: a corner
   * sprite draws the block's corner; without a corner, the side sprite is the first exposed
   * side in the order Up, Down, Left, Right, and `Solid` means no side is exposed.
   */
  function ApplyVisual(corner: CornerType, exposed: ExposedDir): (r: Sprite)
    ensures corner != None ==> r.IsCornerSprite() && CornerDrawnBy(r) == corner
    ensures corner == None ==> !r.IsCornerSprite()
    ensures corner == None ==>
      (r == TopSprite <==> Up in DirsOf(exposed)) &&
      (r == BottomSprite <==> Up !in DirsOf(exposed) && Down in DirsOf(exposed)) &&
      (r == LeftSprite <==> Up !in DirsOf(exposed) && Down !in DirsOf(exposed) && Left in DirsOf(exposed)) &&
      (r == RightSprite <==>
         Up !in DirsOf(exposed) && Down !in DirsOf(exposed) && Left !in DirsOf(exposed) && Right in DirsOf(exposed)) &&
      (r == SolidSprite <==> DirsOf(exposed) == {})
  {
    match ApplyCorner(corner)
    case Some(s) => s
    case None =>
      if HasFlag(exposed, Flag(Up)) then TopSprite
      else if HasFlag(exposed, Flag(Down)) then BottomSprite
      else if HasFlag(exposed, Flag(Left)) then LeftSprite
      else if HasFlag(exposed, Flag(Right)) then RightSprite
      else SolidSprite
  }

  /** A corner decides the sprite on its own: the exposure mask is not consulted. */
  lemma {:induction false} CornerTakesPrecedence(corner: CornerType, m1: ExposedDir, m2: ExposedDir)
    requires corner != None
    ensures ApplyVisual(corner, m1) == ApplyVisual(corner, m2)
  {
    CornerSpritesDistinct(CornerDrawnBy(ApplyVisual(corner, m1)), ApplyVisual(corner, m1), ApplyVisual(corner, m2));
  }

  /** Distinct corners draw distinct sprites, and a corner sprite is determined by its corner. */
  lemma {:induction false} CornerSpritesDistinct(c: CornerType, s1: Sprite, s2: Sprite)
    requires s1.IsCornerSprite() && s2.IsCornerSprite()
    requires CornerDrawnBy(s1) == c && CornerDrawnBy(s2) == c
    ensures s1 == s2
  {
    match s1
    case OuterUpLeftSprite =>
    case OuterUpRightSprite =>
    case OuterDownLeftSprite =>
    case OuterDownRightSprite =>
    case InnerUpLeftSprite =>
    case InnerUpRightSprite =>
    case InnerDownLeftSprite =>
    case InnerDownRightSprite =>
  }

  /** Without a corner, an Up flag selects `Top` whatever else the mask holds. */
  lemma {:induction false} UpDominates(others: ExposedDir)
    ensures ApplyVisual(None, Include(others, Flag(Up))) == TopSprite
  {
    IncludeIsUnion(others, Up);
  }

  /** Without a corner, the sprite depends only on the four direction bits of the mask. */
  lemma {:induction false} SideSpriteUsesDirections(m: ExposedDir, n: ExposedDir)
    requires DirsOf(m) == DirsOf(n)
    ensures ApplyVisual(None, m) == ApplyVisual(None, n)
  {
  }

  /** Every one of the thirteen sprites is chosen by some (corner, mask) pair. */
  lemma {:induction false} EverySpriteReachable(s: Sprite)
    ensures exists c: CornerType, m: ExposedDir :: ApplyVisual(c, m) == s
  {
    if s.IsCornerSprite() {
      var c := CornerDrawnBy(s);
      CornerSpritesDistinct(c, ApplyVisual(c, NoExposure), s);
      assert ApplyVisual(c, NoExposure) == s;
    } else {
      var m := match s
        case TopSprite => MaskOf({Up})
        case BottomSprite => MaskOf({Down})
        case LeftSprite => MaskOf({Left})
        case RightSprite => MaskOf({Right})
        case _ => MaskOf({});
      MaskOfRoundTrip({Up});
      MaskOfRoundTrip({Down});
      MaskOfRoundTrip({Left});
      MaskOfRoundTrip({Right});
      MaskOfRoundTrip({});
      assert ApplyVisual(None, m) == s;
    }
  }
}
