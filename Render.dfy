/**
 * One frame of the canvas as a display list: a disc per star, the polyline
 * through the selected points, and the translucent horizon band at the
 * bottom. The background gradient and the colours are not part of it.
 */
module Render {
  import opened Starfield

  /** The horizon band starts at this fraction of the canvas height. */
  const HorizonFraction: real := 0.82

  /** A filled circle. */
  datatype Disc = Disc(center: Point, radius: real)

  /** One stroked line of the selection path. */
  datatype Segment = Segment(from: Point, to: Point)

  /** What one frame draws, in drawing order. */
  datatype Frame = Frame(discs: seq<Disc>, path: seq<Segment>, horizon: Rect)

  /**
   * The selection path: moved to the first point, a line to each later one.
   * Nothing is stroked for fewer than two points.
   */
  function Path(points: seq<Point>): (segs: seq<Segment>)
    ensures |segs| == if |points| <= 1 then 0 else |points| - 1
    ensures forall i :: 0 <= i < |segs| ==> segs[i] == Segment(points[i], points[i + 1])
  {
    if |points| <= 1 then []
    else [Segment(points[0], points[1])] + Path(points[1..])
  }

  /** Appending a point to a non-empty selection adds exactly one segment, from the old last point. */
  lemma {:induction false} PathExtends(points: seq<Point>, p: Point)
    requires |points| >= 1
    ensures Path(points + [p]) == Path(points) + [Segment(points[|points| - 1], p)]
  {
    if |points| > 1 {
      assert (points + [p])[1..] == points[1..] + [p];
      PathExtends(points[1..], p);
    }
  }

  /** The horizon band: full width, from 0.82 of the height down to the bottom. */
  function HorizonBand(width: real, height: real): (band: Rect)
    ensures band.left == 0.0 && band.width == width
    ensures band.top + band.height == height
    ensures band.height == (1.0 - HorizonFraction) * height
  {
    var horizonY := height * HorizonFraction;
    Rect(0.0, horizonY, width, height - horizonY)
  }

  /** The disc drawn for one star. */
  function StarDisc(s: Star, width: real, height: real): Disc {
    Disc(ScreenPos(s, width, height), s.r)
  }

  /** The frame drawn for the given stars and selection on a canvas of the given size. */
  function RenderFrame(stars: seq<Star>, selected: seq<Point>, width: real, height: real): (f: Frame)
    ensures |f.discs| == |stars|
    ensures forall i :: 0 <= i < |stars| ==> f.discs[i] == StarDisc(stars[i], width, height)
    ensures f.path == Path(selected)
    ensures f.path == [] <==> |selected| <= 1
    ensures f.horizon == HorizonBand(width, height)
  {
    Frame(seq(|stars|, i requires 0 <= i < |stars| => StarDisc(stars[i], width, height)),
          Path(selected),
          HorizonBand(width, height))
  }

  /** On a non-empty canvas, every generated star's centre lies within the width and above the horizon band. */
  lemma StarsAboveHorizon(stars: seq<Star>, selected: seq<Point>, width: real, height: real)
    requires width > 0.0 && height > 0.0
    requires forall i :: 0 <= i < |stars| ==> ValidStar(stars[i])
    ensures var f := RenderFrame(stars, selected, width, height);
      forall i :: 0 <= i < |f.discs| ==>
        0.0 <= f.discs[i].center.x < width && 0.0 <= f.discs[i].center.y < f.horizon.top
  {
    var f := RenderFrame(stars, selected, width, height);
    forall i | 0 <= i < |f.discs|
      ensures 0.0 <= f.discs[i].center.x < width && 0.0 <= f.discs[i].center.y < f.horizon.top
    {
      ScreenPosInBand(stars[i], width, height);
    }
  }
}
