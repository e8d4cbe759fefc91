/**
 * The hit-test of a click: a linear scan over the star list for the star
 * whose rendered position is nearest to the click, in canvas-local pixels.
 * Distances are compared squared; the scan keeps the first star of least
 * distance because it replaces its candidate only on a strict improvement.
 */
module NearestStar {
  import opened Wrappers
  import opened Starfield

  /** Rendered position of star `i` on a canvas of the given size. */
  function StarPoint(stars: seq<Star>, i: nat, width: real, height: real): Point
    requires i < |stars|
  {
    ScreenPos(stars[i], width, height)
  }

  /** Squared distance from star `i`'s rendered position to the point `c`. */
  function DistTo(stars: seq<Star>, i: nat, width: real, height: real, c: Point): real
    requires i < |stars|
  {
    Dist2(StarPoint(stars, i, width, height), c)
  }

  /**
   * Index the scan holds after visiting the first `n` stars: none before the
   * first star, afterwards the candidate replaced only by a strictly closer star.
   */
  function NearestAmong(stars: seq<Star>, n: nat, width: real, height: real, c: Point): (k: Option<nat>)
    requires n <= |stars|
    ensures k.None? <==> n == 0
    ensures k.Some? ==> k.value < n
    decreases n
  {
    if n == 0 then None
    else
      match NearestAmong(stars, n - 1, width, height, c)
      case None => Some(n - 1)
      case Some(j) =>
        if DistTo(stars, n - 1, width, height, c) < DistTo(stars, j, width, height, c) then Some(n - 1)
        else Some(j)
  }

  /** The index the whole scan ends with. */
  function Nearest(stars: seq<Star>, width: real, height: real, c: Point): (k: Option<nat>)
    ensures k.None? <==> stars == []
    ensures k.Some? ==> k.value < |stars|
  {
    NearestAmong(stars, |stars|, width, height, c)
  }

  /**
   * `k` is the first star, among the first `n`, whose distance to `c` is
   * least: no star is closer, and every earlier star is strictly farther.
   */
  ghost predicate IsFirstNearest(stars: seq<Star>, n: nat, width: real, height: real, c: Point, k: nat)
    requires n <= |stars|
  {
    k < n &&
    (forall j :: 0 <= j < n ==> DistTo(stars, k, width, height, c) <= DistTo(stars, j, width, height, c)) &&
    (forall j :: 0 <= j < k ==> DistTo(stars, k, width, height, c) < DistTo(stars, j, width, height, c))
  }

  /** The scan's candidate after `n` stars is the first nearest of them. */
  lemma {:induction false} NearestAmongIsFirstNearest(stars: seq<Star>, n: nat, width: real, height: real, c: Point)
    requires 0 < n <= |stars|
    ensures NearestAmong(stars, n, width, height, c).Some?
    ensures IsFirstNearest(stars, n, width, height, c, NearestAmong(stars, n, width, height, c).value)
  {
    if n > 1 {
      NearestAmongIsFirstNearest(stars, n - 1, width, height, c);
    }
  }

  /** There is at most one first nearest star. */
  lemma FirstNearestUnique(stars: seq<Star>, n: nat, width: real, height: real, c: Point, k1: nat, k2: nat)
    requires n <= |stars|
    requires IsFirstNearest(stars, n, width, height, c, k1)
    requires IsFirstNearest(stars, n, width, height, c, k2)
    ensures k1 == k2
  {
    // Both are nearest, so they are equally far; an earlier one would be strictly closer.
    assert DistTo(stars, k1, width, height, c) == DistTo(stars, k2, width, height, c);
  }

  /** The scan over the whole list finds a star exactly when there is one, and it is the first nearest. */
  lemma NearestCharacterized(stars: seq<Star>, width: real, height: real, c: Point, k: nat)
    ensures Nearest(stars, width, height, c).None? <==> stars == []
    ensures Nearest(stars, width, height, c) == Some(k) <==> IsFirstNearest(stars, |stars|, width, height, c, k)
  {
    if stars != [] {
      NearestAmongIsFirstNearest(stars, |stars|, width, height, c);
      var found := Nearest(stars, width, height, c).value;
      if IsFirstNearest(stars, |stars|, width, height, c, k) {
        FirstNearestUnique(stars, |stars|, width, height, c, found, k);
      }
    }
  }

  /** Rendered position of the star an optional index names. */
  function PointAt(stars: seq<Star>, k: Option<nat>, width: real, height: real): Option<Point>
    requires k.Some? ==> k.value < |stars|
  {
    match k
    case None => None
    case Some(i) => Some(StarPoint(stars, i, width, height))
  }

  /** Point the scan ends with, if any. */
  function NearestPoint(stars: seq<Star>, width: real, height: real, c: Point): Option<Point> {
    PointAt(stars, Nearest(stars, width, height, c), width, height)
  }

  /**
   * The loop of the click handler: keeps the rendered position of the best
   * star so far and its squared distance, and replaces them only when a star
   * is strictly closer. The first star always replaces the empty candidate,
   * as any finite distance is below the initial infinite minimum.
   */
  method FindNearest(stars: seq<Star>, width: real, height: real, c: Point) returns (nearest: Option<Point>, minD: real)
    ensures nearest == NearestPoint(stars, width, height, c)
    ensures nearest.None? <==> stars == []
    ensures nearest.Some? ==> minD == Dist2(nearest.value, c)
  {
    nearest, minD := None, 0.0;
    ghost var best: Option<nat> := None;
    for i := 0 to |stars|
      invariant best == NearestAmong(stars, i, width, height, c)
      invariant nearest == PointAt(stars, best, width, height)
      invariant best.Some? ==> minD == DistTo(stars, best.value, width, height, c)
    {
      var s := stars[i];
      var sx := Product(s.x, width);
      var sy := Product(s.y, height) * VerticalScale;
      var d := Dist2(Point(sx, sy), c);
      if nearest.None? || d < minD {
        minD := d;
        nearest := Some(Point(sx, sy));
        best := Some(i);
      }
    }
  }
}
