/**
 * Content fitting for the CreateJS player: the scale/translate transform that
 * places the animation's canvas into the player's target frame (`_resize`),
 * and the clip rectangle used when the player clips to its bounds (`_updateMask`).
 *
 * Sizes are exact reals. The only division whose divisor the player does not
 * control is the target frame's aspect ratio, so that quotient is a JavaScript
 * number (finite, an infinity or NaN) and the comparisons against it follow
 * JavaScript's rules; a default 0x0 frame is therefore modelled, not excluded.
 */
module Geometry {
  import opened Optional

  /** How the content is fitted into the target frame; any other mode string is `Other`. */
  datatype ContentMode = Fill | AspectFit | AspectFill | Other

  datatype Size = Size(width: real, height: real)

  datatype Rect = Rect(x: real, y: real, width: real, height: real)

  /** The affine matrix `{a: scaleX, b: 0, c: 0, d: scaleY, tx, ty}`. */
  datatype Transform = Transform(scaleX: real, scaleY: real, tx: real, ty: real)

  /** The result of a JavaScript division of two finite numbers (rounding aside). */
  datatype JsNumber = Finite(value: real) | PositiveInfinity | NegativeInfinity | NaN

  predicate Positive(s: Size) {
    s.width > 0.0 && s.height > 0.0
  }

  function Divide(a: real, b: real): (q: JsNumber)
    ensures b != 0.0 ==> q == Finite(a / b)
    ensures b == 0.0 ==> (q.NaN? <==> a == 0.0)
    ensures b == 0.0 && a > 0.0 ==> q == PositiveInfinity
    ensures b == 0.0 && a < 0.0 ==> q == NegativeInfinity
  {
    if b != 0.0 then Finite(a / b)
    else if a > 0.0 then PositiveInfinity
    else if a < 0.0 then NegativeInfinity
    else NaN
  }

  // The four relational operators of JavaScript with a finite left operand.

  predicate AtLeast(r: real, v: JsNumber) {
    match v
    case Finite(w) => r >= w
    case PositiveInfinity => false
    case NegativeInfinity => true
    case NaN => false
  }

  predicate AtMost(r: real, v: JsNumber) {
    match v
    case Finite(w) => r <= w
    case PositiveInfinity => true
    case NegativeInfinity => false
    case NaN => false
  }

  predicate Below(r: real, v: JsNumber) {
    match v
    case Finite(w) => r < w
    case PositiveInfinity => true
    case NegativeInfinity => false
    case NaN => false
  }

  predicate Above(r: real, v: JsNumber) {
    match v
    case Finite(w) => r > w
    case PositiveInfinity => false
    case NegativeInfinity => true
    case NaN => false
  }

  /** Uniform scale by the width ratio, centred vertically. */
  function WidthFit(image: Size, target: Rect): (t: Transform)
    requires Positive(image)
    ensures t.scaleX == t.scaleY && image.width * t.scaleX == target.width && t.tx == target.x
    ensures t.ty - target.y == (target.y + target.height) - (t.ty + image.height * t.scaleY)
  {
    var s := target.width / image.width;
    Transform(s, s, target.x, target.y + (target.height - image.height * s) / 2.0)
  }

  /** Uniform scale by the height ratio, centred horizontally. */
  function HeightFit(image: Size, target: Rect): (t: Transform)
    requires Positive(image)
    ensures t.scaleX == t.scaleY && image.height * t.scaleY == target.height && t.ty == target.y
    ensures t.tx - target.x == (target.x + target.width) - (t.tx + image.width * t.scaleX)
  {
    var s := target.height / image.height;
    Transform(s, s, target.x + (target.width - image.width * s) / 2.0, target.y)
  }

  /** `_resize`: the transform that fits content of size `image` into `target` under `mode`. */
  function Resize(image: Size, target: Rect, mode: ContentMode): (t: Transform)
    requires Positive(image)
    ensures mode == Fill ==>
      t.scaleX * image.width == target.width && t.scaleY * image.height == target.height &&
      t.tx == target.x && t.ty == target.y
    ensures mode == Other ==> t == Transform(1.0, 1.0, target.x, target.y)
    ensures mode != Fill ==> t.scaleX == t.scaleY
  {
    if mode == Fill then
      Transform(target.width / image.width, target.height / image.height, target.x, target.y)
    else if mode == AspectFit || mode == AspectFill then
      var imageRatio := image.width / image.height;
      var viewRatio := Divide(target.width, target.height);
      if (AtLeast(imageRatio, viewRatio) && mode == AspectFit) || (AtMost(imageRatio, viewRatio) && mode == AspectFill) then
        WidthFit(image, target)
      else if (Below(imageRatio, viewRatio) && mode == AspectFit) || (Above(imageRatio, viewRatio) && mode == AspectFill) then
        HeightFit(image, target)
      else
        Transform(1.0, 1.0, target.x, target.y)
    else
      Transform(1.0, 1.0, target.x, target.y)
  }

  /** The content rectangle `image` occupies after `t` is applied. */
  function Placed(image: Size, t: Transform): Rect {
    Rect(t.tx, t.ty, image.width * t.scaleX, image.height * t.scaleY)
  }

  predicate Inside(inner: Rect, outer: Rect) {
    outer.x <= inner.x && inner.x + inner.width <= outer.x + outer.width &&
    outer.y <= inner.y && inner.y + inner.height <= outer.y + outer.height
  }

  /** The placed content has equal margins on the left and right, and on the top and bottom. */
  predicate Centred(inner: Rect, outer: Rect) {
    inner.x - outer.x == (outer.x + outer.width) - (inner.x + inner.width) &&
    inner.y - outer.y == (outer.y + outer.height) - (inner.y + inner.height)
  }

  /** One axis of the placed content is exactly the target's. */
  predicate TouchesOneAxis(inner: Rect, outer: Rect) {
    inner.width == outer.width || inner.height == outer.height
  }

  /** AspectFit: the scaled content lies inside the target, centred, and fills it along one axis. */
  lemma AspectFitContains(image: Size, target: Rect)
    requires Positive(image) && target.width > 0.0 && target.height > 0.0
    ensures var placed := Placed(image, Resize(image, target, AspectFit));
      Inside(placed, target) && Centred(placed, target) && TouchesOneAxis(placed, target)
  {
  }

  /** AspectFill: the scaled content covers the target, centred, and matches it along one axis. */
  lemma AspectFillCovers(image: Size, target: Rect)
    requires Positive(image) && target.width > 0.0 && target.height > 0.0
    ensures var placed := Placed(image, Resize(image, target, AspectFill));
      Inside(target, placed) && Centred(placed, target) && TouchesOneAxis(placed, target)
  {
    var imageRatio, viewRatio := image.width / image.height, target.width / target.height;
    if imageRatio <= viewRatio {
      var s := target.width / image.width;
      assert image.height * s >= target.height by {
        assert image.width * target.height <= target.width * image.height;
      }
    } else {
      var s := target.height / image.height;
      assert image.width * s > target.width by {
        assert image.width * target.height > target.width * image.height;
      }
    }
  }

  /**
   * When the two aspect ratios are equal both aspect modes take the width
   * branch, and the height branch would have given the same transform.
   */
  lemma TieTakesWidthBranch(image: Size, target: Rect)
    requires Positive(image) && target.width > 0.0 && target.height > 0.0
    requires image.width / image.height == target.width / target.height
    ensures Resize(image, target, AspectFit) == WidthFit(image, target)
    ensures Resize(image, target, AspectFill) == WidthFit(image, target)
    ensures WidthFit(image, target) == HeightFit(image, target) == Transform(target.width / image.width, target.width / image.width, target.x, target.y)
  {
  }

  /** A 0x0 target makes the view ratio NaN, so neither aspect branch runs and the scale stays 1. */
  lemma EmptyFrameKeepsIdentity(image: Size, x: real, y: real, mode: ContentMode)
    requires Positive(image) && (mode == AspectFit || mode == AspectFill)
    ensures Resize(image, Rect(x, y, 0.0, 0.0), mode) == Transform(1.0, 1.0, x, y)
  {
  }

  /** 100x100 content in a 200x100 frame at the origin under AspectFit: scale 1, moved 50 right. */
  lemma AspectFitExample()
    ensures Resize(Size(100.0, 100.0), Rect(0.0, 0.0, 200.0, 100.0), AspectFit) == Transform(1.0, 1.0, 50.0, 0.0)
  {
  }

  /** `_updateMask`: a rectangle of the frame's size at the content's own origin, or no mask. */
  function MaskFor(clipsToBounds: bool, frame: Rect): (mask: Option<Rect>)
    ensures mask.Some? <==> clipsToBounds
    ensures mask.Some? ==> mask.value.x == 0.0 && mask.value.y == 0.0 &&
                           mask.value.width == frame.width && mask.value.height == frame.height
  {
    if clipsToBounds then Some(Rect(0.0, 0.0, frame.width, frame.height)) else None
  }
}
