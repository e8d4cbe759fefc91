/**
 * The star list of the constellation canvas and the coordinate systems it is
 * seen in: normalised star coordinates, canvas-local CSS pixels and the
 * viewport coordinates a click arrives in.
 */
module Starfield {

  /** A star: normalised position in the unit square and its drawn radius. */
  datatype Star = Star(x: real, y: real, r: real)

  /** A point in canvas-local CSS pixels. */
  datatype Point = Point(x: real, y: real)

  /** The canvas bounding rectangle, as measured in the viewport. */
  datatype Rect = Rect(left: real, top: real, width: real, height: real)

  /** The three uniform draws in [0, 1) that generate one star. */
  datatype Sample = Sample(ux: real, uy: real, ur: real)

  /** Range the star radius is drawn from. */
  const MinRadius: real := 0.3
  const MaxRadius: real := 1.6

  /** Vertical compression that keeps stars above the horizon band. */
  const VerticalScale: real := 0.8

  /** What a uniform draw promises: a value in [0, 1). */
  predicate IsUniform(u: real) {
    0.0 <= u < 1.0
  }

  predicate ValidSample(d: Sample) {
    IsUniform(d.ux) && IsUniform(d.uy) && IsUniform(d.ur)
  }

  /** A star as the generator produces it. */
  predicate ValidStar(s: Star) {
    IsUniform(s.x) && IsUniform(s.y) && MinRadius <= s.r < MaxRadius
  }

  /** Scales a uniform draw `u` onto the half-open range from `min` to `max`. */
  function RandomRange(min: real, max: real, u: real): (r: real)
    requires IsUniform(u)
    ensures min < max ==> min <= r < max
    ensures min == max ==> r == min
    ensures max < min ==> max < r <= min
  {
    ScaleBounds(u, max - min);
    Product(u, max - min) + min
  }

  /**
   * The product of two reals. Squares are written through it so that the
   * sign and order facts below can be stated once.
   */
  function Product(a: real, b: real): real {
    a * b
  }

  /** For u in [0, 1), u * w lies between 0 and w, and strictly short of w. */
  lemma ScaleBounds(u: real, w: real)
    requires IsUniform(u)
    ensures w > 0.0 ==> 0.0 <= Product(u, w) < w
    ensures w < 0.0 ==> w < Product(u, w) <= 0.0
    ensures w == 0.0 ==> Product(u, w) == 0.0
  {
    if w < 0.0 {
      var v := -w;
      assert (1.0 - u) * v > 0.0;
      assert u * v >= 0.0;
      assert u * w == -(u * v);
      assert u * w - w == (1.0 - u) * v;
    }
  }

  /** One star from its three draws: position taken directly, radius scaled. */
  function MakeStar(d: Sample): (s: Star)
    requires ValidSample(d)
    ensures ValidStar(s)
    ensures s.x == d.ux && s.y == d.uy
  {
    Star(d.ux, d.uy, RandomRange(MinRadius, MaxRadius, d.ur))
  }

  /** The star list the hook builds once per mount: one star per sample. */
  function UseStarfield(samples: seq<Sample>): (stars: seq<Star>)
    requires forall i :: 0 <= i < |samples| ==> ValidSample(samples[i])
    ensures |stars| == |samples|
    ensures forall i :: 0 <= i < |stars| ==> ValidStar(stars[i])
    ensures forall i :: 0 <= i < |stars| ==> stars[i].x == samples[i].ux && stars[i].y == samples[i].uy
  {
    seq(|samples|, i requires 0 <= i < |samples| => MakeStar(samples[i]))
  }

  /** Where a star is drawn and snapped to on a canvas of the given size. */
  function ScreenPos(s: Star, width: real, height: real): Point {
    Point(Product(s.x, width), Product(s.y, height) * VerticalScale)
  }

  /** A generated star is drawn inside the canvas width and above 0.8 of its height. */
  lemma ScreenPosInBand(s: Star, width: real, height: real)
    requires ValidStar(s) && width > 0.0 && height > 0.0
    ensures 0.0 <= ScreenPos(s, width, height).x < width
    ensures 0.0 <= ScreenPos(s, width, height).y < height * VerticalScale
  {
    ScaleBounds(s.x, width);
    ScaleBounds(s.y, height);
  }

  /** Converts viewport click coordinates to canvas-local coordinates. */
  function ToLocal(rect: Rect, clientX: real, clientY: real): Point {
    Point(clientX - rect.left, clientY - rect.top)
  }

  /** A product of two same-signed factors is positive; a zero factor gives zero. */
  lemma ProductSign(a: real, b: real)
    ensures (a > 0.0 && b > 0.0) || (a < 0.0 && b < 0.0) ==> Product(a, b) > 0.0
    ensures a == 0.0 || b == 0.0 ==> Product(a, b) == 0.0
  {
  }

  /** Growing both non-negative factors strictly grows the product. */
  lemma ProductMonotone(a: real, b: real, c: real, d: real)
    requires 0.0 <= a < b && 0.0 <= c < d
    ensures Product(a, c) < Product(b, d)
  {
    assert a * c <= b * c;
    assert b * c < b * d;
  }

  /**
   * Squared Euclidean distance. It is zero exactly for equal points and, on
   * non-negative distances, orders points as the distance does
   * (SquaresPreserveOrder), so it stands in for a hypotenuse.
   */
  function Dist2(p: Point, q: Point): (d: real)
    ensures d >= 0.0
    ensures d == 0.0 <==> p == q
  {
    var dx, dy := p.x - q.x, p.y - q.y;
    ProductSign(dx, dx);
    ProductSign(dy, dy);
    Product(dx, dx) + Product(dy, dy)
  }

  /** On non-negative reals, comparing squares is comparing the values. */
  lemma SquaresPreserveOrder(a: real, b: real)
    requires a >= 0.0 && b >= 0.0
    ensures a < b <==> Product(a, a) < Product(b, b)
  {
    if a < b {
      ProductMonotone(a, b, a, b);
    } else if b < a {
      ProductMonotone(b, a, b, a);
    }
  }
}
