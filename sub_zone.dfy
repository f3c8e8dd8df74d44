/**
 * One node of the binary space partition that lays out a dungeon zone: a
 * rectangle that can be cut once, either across its height (`splitH`, the
 * children are stacked) or across its width (the children sit side by
 * side). Long rectangles are always cut across their long side; near-square
 * ones follow a coin. The two random draws of a split, the coin and the cut
 * offset, are parameters.
 */
module Zone {

  import opened Wrappers

  /** An aspect ratio from which the cut direction is forced. */
  const ZoneSizeRatio: real := 1.25

  /** The coin threshold and the fraction of the short side a child needs. */
  const ZoneSplitValue: real := 0.5

  /** A rectangle: its corner and its size. */
  datatype Rect = Rect(x: real, y: real, width: real, height: real)


  /** The point lies in the rectangle, minimum edges included and maximum
      edges excluded. */
  predicate Contains(r: Rect, px: real, py: real) {
    r.x <= px < r.x + r.width && r.y <= py < r.y + r.height
  }

  /** `a / b >= k` on single-precision values, for k > 0: a zero divisor
      gives an infinity of a's sign, or no number at all when a is 0 too, so
      the test holds exactly when a is positive. */
  predicate RatioAtLeast(a: real, b: real, k: real) {
    if b > 0.0 then a >= k * b
    else if b < 0.0 then a <= k * b
    else a > 0.0
  }

  /** The ratio test agrees with the division wherever the division exists. */
  lemma RatioAtLeastIsDivision(a: real, b: real, k: real)
    requires b != 0.0
    ensures RatioAtLeast(a, b, k) <==> a / b >= k
  {
    if b > 0.0 {
      assert a == (a / b) * b;
      if a / b >= k {
        assert (a / b) * b >= k * b;
      }
    } else {
      assert a == (a / b) * b;
      if a / b >= k {
        assert (a / b) * b <= k * b;
      }
    }
  }

  /** The cut direction: a wide rectangle is cut across its width, a tall one
      across its height, and the coin decides the rest. */
  function SplitsHorizontally(r: Rect, coin: real): (h: bool)
    ensures r.height > 0.0 && r.width >= ZoneSizeRatio * r.height ==> !h
    ensures r.width > 0.0 && r.height >= ZoneSizeRatio * r.width ==> h
    ensures r.width > 0.0 && r.height > 0.0 && r.width < ZoneSizeRatio * r.height && r.height < ZoneSizeRatio * r.width ==>
      (h <==> coin > ZoneSplitValue)
  {
    if RatioAtLeast(r.width, r.height, ZoneSizeRatio) then false
    else if RatioAtLeast(r.height, r.width, ZoneSizeRatio) then true
    else coin > ZoneSplitValue
  }

  /** The cut direction in terms of the divisions the source performs: a
      width-to-height ratio of at least 1.25 forces a cut across the width,
      otherwise a height-to-width ratio of at least 1.25 forces a cut across
      the height, and only a near-square zone follows the coin. */
  lemma SplitOrientation(r: Rect, coin: real)
    requires r.width != 0.0 && r.height != 0.0
    ensures r.width / r.height >= ZoneSizeRatio ==> !SplitsHorizontally(r, coin)
    ensures r.width / r.height < ZoneSizeRatio && r.height / r.width >= ZoneSizeRatio ==> SplitsHorizontally(r, coin)
    ensures r.width / r.height < ZoneSizeRatio && r.height / r.width < ZoneSizeRatio ==>
      (SplitsHorizontally(r, coin) <==> coin > ZoneSplitValue)
  {
    RatioAtLeastIsDivision(r.width, r.height, ZoneSizeRatio);
    RatioAtLeastIsDivision(r.height, r.width, ZoneSizeRatio);
  }

  /** Half of the short side is below the minimum zone size. */
  predicate TooSmall(r: Rect, minZoneSize: real): (t: bool)
    ensures t <==> r.width * ZoneSplitValue < minZoneSize || r.height * ZoneSplitValue < minZoneSize
  {
    (if r.height < r.width then r.height else r.width) * ZoneSplitValue < minZoneSize
  }

  /** A cast of a real to int: the fraction is dropped, toward zero. */
  function Trunc(v: real): (n: int)
    ensures v >= 0.0 ==> n >= 0 && n as real <= v < n as real + 1.0
    ensures v < 0.0 ==> n <= 0 && n as real - 1.0 < v <= n as real
  {
    if v >= 0.0 then v.Floor else -((-v).Floor)
  }

  /** The two children of a cut at offset `split`. */
  function Children(r: Rect, splitH: bool, split: int): (c: (Rect, Rect))
    ensures c.0.x == r.x && c.0.y == r.y
    ensures splitH ==> c.1.y == c.0.y + c.0.height
    ensures !splitH ==> c.1.x == c.0.x + c.0.width
    ensures c.0.width * c.0.height + c.1.width * c.1.height == r.width * r.height
  {
    var s := split as real;
    if splitH then
      (Rect(r.x, r.y, r.width, s), Rect(r.x, r.y + s, r.width, r.height - s))
    else
      (Rect(r.x, r.y, s, r.height), Rect(r.x + s, r.y, r.width - s, r.height))
  }

  /** The upper end of the cut-offset draw, measured on the side the cut
      crosses. */
  function SplitBorder(r: Rect, splitH: bool, minZoneSize: real): real {
    if splitH then r.height - minZoneSize else r.width - minZoneSize
  }

  /** The upper end of the cut-offset draw as the source computes it: the
      side is the other one. */
  function SplitBorderAsWritten(r: Rect, splitH: bool, minZoneSize: real): (b: real)
    ensures b == SplitBorder(r, !splitH, minZoneSize)
  {
    if splitH then r.width - minZoneSize else r.height - minZoneSize
  }

  /** A uniform draw between two ends, in either order. */
  predicate Between(v: real, a: real, b: real) {
    (a <= v <= b) || (b <= v <= a)
  }

  /** Split on a leaf: nothing when the zone is too small, otherwise the two
      children for the coin and the drawn offset. The node's maximum zone
      size takes no part. */
  function SplitOutcome(r: Rect, minZoneSize: real, coin: real, draw: real): (o: Option<(Rect, Rect)>)
    ensures o.None? <==> TooSmall(r, minZoneSize)
  {
    if TooSmall(r, minZoneSize) then None
    else Some(Children(r, SplitsHorizontally(r, coin), Trunc(draw)))
  }

  /** A cut across the height keeps x and the width, stacks the children at
      the offset and shares the height between them; a cut across the width
      does the same with the other coordinates. */
  lemma ChildrenShareParent(r: Rect, splitH: bool, split: int)
    ensures var (a, b) := Children(r, splitH, split);
      if splitH then
        && a.x == r.x && b.x == r.x && a.width == r.width && b.width == r.width
        && a.y == r.y && b.y == r.y + split as real && a.height + b.height == r.height
      else
        && a.y == r.y && b.y == r.y && a.height == r.height && b.height == r.height
        && a.x == r.x && b.x == r.x + split as real && a.width + b.width == r.width
  {
  }

  /** An offset within the side being cut makes the children tile the
      parent: every point of the parent is in exactly one child, and every
      point of a child is in the parent. */
  lemma ChildrenTile(r: Rect, splitH: bool, split: int, px: real, py: real)
    requires 0.0 <= split as real <= (if splitH then r.height else r.width)
    ensures var (a, b) := Children(r, splitH, split);
      && (Contains(r, px, py) <==> Contains(a, px, py) || Contains(b, px, py))
      && !(Contains(a, px, py) && Contains(b, px, py))
  {
  }

  /** With the border measured on the side being cut, a zone that is not too
      small and any draw up to the border give an offset that leaves the
      second child at least the minimum size, so the children tile the
      parent. */
  lemma SplitBorderKeepsChildrenInside(r: Rect, splitH: bool, minZoneSize: real, draw: real)
    requires minZoneSize >= 0.0 && !TooSmall(r, minZoneSize)
    requires Between(draw, minZoneSize, SplitBorder(r, splitH, minZoneSize))
    ensures var side := if splitH then r.height else r.width;
      0 <= Trunc(draw) && side - Trunc(draw) as real >= minZoneSize
    ensures 0.0 <= Trunc(draw) as real <= (if splitH then r.height else r.width)
  {
    var side := if splitH then r.height else r.width;
    assert side >= 2.0 * minZoneSize;
    assert SplitBorder(r, splitH, minZoneSize) == side - minZoneSize;
    assert 0.0 <= draw <= side - minZoneSize;
  }

  /** With the corrected border and a whole-number minimum size, the first
      child, whose side is the truncated offset, keeps the minimum size too. */
  lemma SplitBorderKeepsFirstChildIntegral(r: Rect, splitH: bool, minZoneSize: real, draw: real)
    requires minZoneSize >= 0.0 && minZoneSize == minZoneSize.Floor as real && !TooSmall(r, minZoneSize)
    requires Between(draw, minZoneSize, SplitBorder(r, splitH, minZoneSize))
    ensures Trunc(draw) as real >= minZoneSize
  {
    var side := if splitH then r.height else r.width;
    assert side >= 2.0 * minZoneSize;
    assert minZoneSize <= draw;
    assert minZoneSize.Floor <= draw.Floor;
  }

  /** The int cast of the offset can take the first child below a fractional
      minimum size even with the corrected border: a 10 x 10 zone with
      minimum 1.5 cut across its height at draw 1.6 gets a first child of
      height 1. */
  lemma TruncatedOffsetShrinksFirstChild()
    ensures var r := Rect(0.0, 0.0, 10.0, 10.0);
      && !TooSmall(r, 1.5) && Between(1.6, 1.5, SplitBorder(r, true, 1.5))
      && Children(r, true, Trunc(1.6)).0.height == 1.0 && 1.0 < 1.5
  {
    assert Trunc(1.6) == 1;
  }

  /** With the border as written, a near-square zone cut across its height
      can get an offset beyond its height: here the second child's height is
      negative and a point below the parent lies in the first child. */
  lemma SplitBorderAsWrittenOverflows()
    ensures var r := Rect(0.0, 0.0, 12.0, 10.0);
      && !TooSmall(r, 1.0) && SplitsHorizontally(r, 0.75)
      && Between(11.0, 1.0, SplitBorderAsWritten(r, true, 1.0))
      && SplitOutcome(r, 1.0, 0.75, 11.0) == Some(Children(r, true, 11))
      && Children(r, true, 11).1.height < 0.0
      && Contains(Children(r, true, 11).0, 0.0, 10.5) && !Contains(r, 0.0, 10.5)
  {
    var r := Rect(0.0, 0.0, 12.0, 10.0);
    assert !RatioAtLeast(r.width, r.height, ZoneSizeRatio);
    assert !RatioAtLeast(r.height, r.width, ZoneSizeRatio);
    assert Trunc(11.0) == 11;
  }

  /** A node of the partition. */
  class SubZone {
    var left: SubZone?
    var right: SubZone?
    var rect: Rect

    constructor (mRect: Rect)
      ensures rect == mRect && left == null && right == null && IsLeaf()
    {
      rect := mRect;
      left := null;
      right := null;
    }

    /** A node is a leaf exactly when it has neither child. */
    predicate IsLeaf()
      reads this
    {
      left == null && right == null
    }

    /** Split: a node that is not a leaf, or that is too small, refuses and
        keeps its children; otherwise it gets two fresh leaf children and
        stops being a leaf. `coin` is the draw of the coin (used only for a
        near-square zone) and `draw` the drawn cut offset. */
    method Split(minZoneSize: real, maxZoneSize: real, coin: real, draw: real) returns (ok: bool)
      modifies this
      ensures rect == old(rect)
      ensures !old(IsLeaf()) ==> !ok
      ensures old(IsLeaf()) ==> (ok <==> SplitOutcome(rect, minZoneSize, coin, draw).Some?)
      ensures !ok ==> left == old(left) && right == old(right)
      ensures ok ==>
        && left != null && right != null && fresh(left) && fresh(right) && left != right
        && (left.rect, right.rect) == SplitOutcome(rect, minZoneSize, coin, draw).value
        && left.IsLeaf() && right.IsLeaf() && !IsLeaf()
    {
      if !IsLeaf() {
        return false;
      }
      var splitH: bool;
      if RatioAtLeast(rect.width, rect.height, ZoneSizeRatio) {
        splitH := false;
      } else if RatioAtLeast(rect.height, rect.width, ZoneSizeRatio) {
        splitH := true;
      } else {
        splitH := coin > ZoneSplitValue;
      }
      var shortSide := if rect.height < rect.width then rect.height else rect.width;
      if shortSide * ZoneSplitValue < minZoneSize {
        return false;
      }
      var split := Trunc(draw);
      var s := split as real;
      if splitH {
        left := new SubZone(Rect(rect.x, rect.y, rect.width, s));
        right := new SubZone(Rect(rect.x, rect.y + s, rect.width, rect.height - s));
      } else {
        left := new SubZone(Rect(rect.x, rect.y, s, rect.height));
        right := new SubZone(Rect(rect.x + s, rect.y, rect.width - s, rect.height));
      }
      return true;
    }
  }
}
