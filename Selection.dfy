/**
 * The interaction state of the constellation canvas: the ordered points the
 * user has connected and whether the constellation is complete. A click
 * snaps to the nearest star within the snap radius and appends its rendered
 * position; reset clears everything.
 */
module Selection {
  import opened Wrappers
  import opened Starfield
  import opened NearestStar

  /** A click snaps only to a star closer than this many CSS pixels. */
  const SnapRadius: real := 40.0

  /** The snap radius squared, against which squared distances are compared. */
  const SnapRadiusSquared: real := Product(SnapRadius, SnapRadius)

  /** Number of points after which the constellation counts as complete. */
  const CompletionThreshold: nat := 6

  /** The component state: the selected points, in click order, and the completion flag. */
  datatype State = State(selected: seq<Point>, complete: bool)

  /** The state on mount. */
  const Initial: State := State([], false)

  /** The relation between the flag and the selection that every reachable state keeps. */
  predicate Consistent(s: State) {
    s.complete == (|s.selected| >= CompletionThreshold)
  }

  /**
   * The point a click at viewport coordinates (clientX, clientY) appends, if
   * any: the rendered position of the nearest star, when it is within the
   * snap radius. `d < 40` is compared as `d * d < 40 * 40`.
   */
  function SnapTarget(stars: seq<Star>, rect: Rect, clientX: real, clientY: real): (target: Option<Point>)
    ensures target.Some? ==> Dist2(target.value, ToLocal(rect, clientX, clientY)) < SnapRadiusSquared
    ensures target.Some? ==> exists k :: 0 <= k < |stars| && target.value == ScreenPos(stars[k], rect.width, rect.height)
  {
    var c := ToLocal(rect, clientX, clientY);
    match Nearest(stars, rect.width, rect.height, c)
    case None => None
    case Some(k) =>
      if DistTo(stars, k, rect.width, rect.height, c) < SnapRadiusSquared
      then Some(StarPoint(stars, k, rect.width, rect.height))
      else None
  }

  /**
   * For a Euclidean distance `h` whose square is `d2`, the snap test on the
   * square agrees with the test `h < 40` on the distance itself.
   */
  lemma SnapTestMatchesDistance(h: real, d2: real)
    requires h >= 0.0 && Product(h, h) == d2
    ensures h < SnapRadius <==> d2 < SnapRadiusSquared
  {
    SquaresPreserveOrder(h, SnapRadius);
  }

  /** The new state after a click. */
  function ClickStep(s: State, stars: seq<Star>, rect: Rect, clientX: real, clientY: real): (t: State)
    ensures t == s || (|t.selected| == |s.selected| + 1 && t.selected[..|s.selected|] == s.selected)
    ensures s.complete ==> t.complete
  {
    match SnapTarget(stars, rect, clientX, clientY)
    case None => s
    case Some(p) =>
      var next := s.selected + [p];
      State(next, if |next| >= CompletionThreshold then true else s.complete)
  }

  /** The new state after the reset button. */
  function ResetStep(s: State): (r: State)
    ensures r.selected == [] && !r.complete
  {
    Initial
  }

  /** The user inputs the component reacts to. */
  datatype Event = Click(rect: Rect, clientX: real, clientY: real) | Reset

  function Apply(s: State, stars: seq<Star>, e: Event): State {
    match e
    case Click(rect, clientX, clientY) => ClickStep(s, stars, rect, clientX, clientY)
    case Reset => ResetStep(s)
  }

  /** The state after a sequence of events, starting from mount. */
  function Run(stars: seq<Star>, events: seq<Event>): State
    decreases |events|
  {
    if events == [] then Initial
    else Apply(Run(stars, events[..|events| - 1]), stars, events[|events| - 1])
  }

  /**
   * A click appends the position of the first nearest star when that star is
   * within the snap radius, setting the flag once six points are reached;
   * otherwise it changes nothing.
   */
  lemma ClickAppendsFirstNearest(s: State, stars: seq<Star>, rect: Rect, clientX: real, clientY: real, k: nat)
    requires IsFirstNearest(stars, |stars|, rect.width, rect.height, ToLocal(rect, clientX, clientY), k)
    ensures var c := ToLocal(rect, clientX, clientY);
      ClickStep(s, stars, rect, clientX, clientY) ==
        if DistTo(stars, k, rect.width, rect.height, c) < SnapRadiusSquared
        then State(s.selected + [ScreenPos(stars[k], rect.width, rect.height)],
                   s.complete || |s.selected| + 1 >= CompletionThreshold)
        else s
  {
    NearestCharacterized(stars, rect.width, rect.height, ToLocal(rect, clientX, clientY), k);
  }

  /** A click appends exactly when some star lies within the snap radius of it. */
  lemma ClickAppendsIff(s: State, stars: seq<Star>, rect: Rect, clientX: real, clientY: real)
    ensures var c := ToLocal(rect, clientX, clientY);
      var t := ClickStep(s, stars, rect, clientX, clientY);
      (|t.selected| == |s.selected| + 1 && t.selected[..|s.selected|] == s.selected) <==>
        exists j :: 0 <= j < |stars| && DistTo(stars, j, rect.width, rect.height, c) < SnapRadiusSquared
    ensures var c := ToLocal(rect, clientX, clientY);
      (forall j :: 0 <= j < |stars| ==> DistTo(stars, j, rect.width, rect.height, c) >= SnapRadiusSquared) ==>
        ClickStep(s, stars, rect, clientX, clientY) == s
  {
    var c := ToLocal(rect, clientX, clientY);
    if stars != [] {
      NearestAmongIsFirstNearest(stars, |stars|, rect.width, rect.height, c);
      var k := Nearest(stars, rect.width, rect.height, c).value;
      var t := ClickStep(s, stars, rect, clientX, clientY);
      if DistTo(stars, k, rect.width, rect.height, c) < SnapRadiusSquared {
        assert t.selected[..|s.selected|] == s.selected;
      }
    }
  }

  /** With no stars there is nothing to snap to: a click is a no-op. */
  lemma ClickWithoutStars(s: State, rect: Rect, clientX: real, clientY: real)
    ensures ClickStep(s, [], rect, clientX, clientY) == s
  {
  }

  /** A click exactly on a star's rendered position appends that position. */
  lemma ClickOnStar(s: State, stars: seq<Star>, rect: Rect, clientX: real, clientY: real, j: nat)
    requires j < |stars|
    requires ToLocal(rect, clientX, clientY) == ScreenPos(stars[j], rect.width, rect.height)
    ensures ClickStep(s, stars, rect, clientX, clientY).selected == s.selected + [ScreenPos(stars[j], rect.width, rect.height)]
  {
    var c := ToLocal(rect, clientX, clientY);
    NearestAmongIsFirstNearest(stars, |stars|, rect.width, rect.height, c);
    var k := Nearest(stars, rect.width, rect.height, c).value;
    assert DistTo(stars, j, rect.width, rect.height, c) == 0.0;
    assert DistTo(stars, k, rect.width, rect.height, c) == 0.0;
  }

  /**
   * A click never clears the completion flag, and it sets it exactly when it
   * appends a point that brings the selection to six or more.
   */
  lemma ClickCompletion(s: State, stars: seq<Star>, rect: Rect, clientX: real, clientY: real)
    ensures var t := ClickStep(s, stars, rect, clientX, clientY);
      t.complete == (s.complete || (|t.selected| > |s.selected| && |t.selected| >= CompletionThreshold))
  {
  }

  /** A click keeps the flag in step with the selection length. */
  lemma ClickPreservesConsistent(s: State, stars: seq<Star>, rect: Rect, clientX: real, clientY: real)
    requires Consistent(s)
    ensures Consistent(ClickStep(s, stars, rect, clientX, clientY))
  {
  }

  /** Reset from any state gives the mount state, so resetting twice is resetting once. */
  lemma ResetIdempotent(s: State)
    ensures ResetStep(s) == Initial
    ensures ResetStep(ResetStep(s)) == ResetStep(s)
    ensures Consistent(ResetStep(s))
  {
  }

  /** From mount, after any clicks and resets, the flag holds exactly when six or more points are selected. */
  lemma {:induction false} RunConsistent(stars: seq<Star>, events: seq<Event>)
    ensures Consistent(Run(stars, events))
    decreases |events|
  {
    if events != [] {
      var before := events[..|events| - 1];
      RunConsistent(stars, before);
      match events[|events| - 1]
      case Click(rect, clientX, clientY) =>
        ClickPreservesConsistent(Run(stars, before), stars, rect, clientX, clientY);
      case Reset =>
    }
  }

  /**
   * `p` is the rendered position of some star lying within the snap radius
   * of the click `e`.
   */
  ghost predicate SnappedBy(p: Point, stars: seq<Star>, e: Event) {
    e.Click? &&
    (exists k :: 0 <= k < |stars| && p == ScreenPos(stars[k], e.rect.width, e.rect.height)) &&
    Dist2(p, ToLocal(e.rect, e.clientX, e.clientY)) < SnapRadiusSquared
  }

  /** Whatever a click appends is a star's position within the snap radius of that click. */
  lemma ClickAppendsSnapped(s: State, stars: seq<Star>, rect: Rect, clientX: real, clientY: real)
    ensures var t := ClickStep(s, stars, rect, clientX, clientY);
      t.selected == s.selected ||
      (|t.selected| == |s.selected| + 1 && t.selected[..|s.selected|] == s.selected &&
       SnappedBy(t.selected[|s.selected|], stars, Click(rect, clientX, clientY)))
  {
    var c := ToLocal(rect, clientX, clientY);
    var t := ClickStep(s, stars, rect, clientX, clientY);
    if t.selected != s.selected {
      var k := Nearest(stars, rect.width, rect.height, c).value;
      assert t.selected[|s.selected|] == ScreenPos(stars[k], rect.width, rect.height);
      assert t.selected[..|s.selected|] == s.selected;
    }
  }

  /** `p` was snapped to by one of the clicks among `events`. */
  ghost predicate SnappedByOneOf(p: Point, stars: seq<Star>, events: seq<Event>) {
    exists j :: 0 <= j < |events| && SnappedBy(p, stars, events[j])
  }

  /**
   * From mount, every selected point is the position of a star that lay within
   * the snap radius of one of the clicks so far.
   */
  lemma {:induction false} RunSelectsSnappedStars(stars: seq<Star>, events: seq<Event>)
    ensures forall i :: 0 <= i < |Run(stars, events).selected| ==>
      SnappedByOneOf(Run(stars, events).selected[i], stars, events)
    decreases |events|
  {
    if events != [] {
      var n := |events| - 1;
      var before := events[..n];
      RunSelectsSnappedStars(stars, before);
      var oldSel, sel := Run(stars, before).selected, Run(stars, events).selected;
      match events[n]
      case Click(rect, clientX, clientY) =>
        ClickAppendsSnapped(Run(stars, before), stars, rect, clientX, clientY);
        forall i | 0 <= i < |sel|
          ensures SnappedByOneOf(sel[i], stars, events)
        {
          if i < |oldSel| {
            assert sel[i] == oldSel[i];
            assert SnappedByOneOf(oldSel[i], stars, before);
            var j :| 0 <= j < |before| && SnappedBy(oldSel[i], stars, before[j]);
            assert events[j] == before[j];
          } else {
            assert SnappedBy(sel[i], stars, events[n]);
          }
        }
      case Reset =>
    }
  }

  /**
   * The mutable component state. The star list is fixed at mount; the
   * selection and flag are replaced by the click handler and by reset.
   */
  class Constellation {
    const stars: seq<Star>
    var selected: seq<Point>
    var complete: bool

    /** The state as a value. */
    function Snapshot(): State
      reads this
    {
      State(selected, complete)
    }

    ghost predicate Valid()
      reads this
    {
      Consistent(Snapshot())
    }

    constructor (stars: seq<Star>)
      ensures this.stars == stars
      ensures Snapshot() == Initial && Valid()
    {
      this.stars := stars;
      selected := [];
      complete := false;
    }

    /** The click handler on the canvas whose bounding rectangle is `rect`. */
    method HandleClick(rect: Rect, clientX: real, clientY: real)
      modifies this
      ensures Snapshot() == ClickStep(old(Snapshot()), stars, rect, clientX, clientY)
      ensures old(Valid()) ==> Valid()
    {
      var c := ToLocal(rect, clientX, clientY);
      var nearest, minD := FindNearest(stars, rect.width, rect.height, c);
      if nearest.Some? && minD < SnapRadiusSquared {
        var next := selected + [nearest.value];
        selected := next;
        if |next| >= CompletionThreshold {
          complete := true;
        }
      }
      if old(Valid()) {
        ClickPreservesConsistent(old(Snapshot()), stars, rect, clientX, clientY);
      }
    }

    /** The reset button. */
    method Reset()
      modifies this
      ensures Snapshot() == ResetStep(old(Snapshot()))
      ensures Valid()
    {
      selected := [];
      complete := false;
    }
  }
}
