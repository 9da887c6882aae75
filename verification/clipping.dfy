/** Viewport clipping (`_clipPoints`): the projected envelope points are
    cut into runs of consecutive points that the viewport shows. Leaflet's
    `L.LineUtil.clipSegment` is a parameter: for the segment from a to b
    (and the loop index, which it uses as its `useLastCode` flag) it gives
    the visible sub-segment, or None. */
module Clipping {
  import opened Types

  type ClipFn = (Point, Point, nat) -> Option<(Point, Point)>

  /** What `clipSegment` gives for pair i. */
  function Seg(points: seq<Point>, clip: ClipFn, i: nat): Option<(Point, Point)>
    requires i + 1 < |points|
  {
    clip(points[i], points[i + 1], i)
  }

  /** What Leaflet's `clipSegment` guarantees against a viewport whose
      (closed) interior is `inside`: a pair that starts inside is visible,
      and a visible sub-segment ends inside. */
  predicate ClipsTo(points: seq<Point>, clip: ClipFn, inside: Point -> bool) {
    forall i :: 0 <= i < |points| - 1 ==>
      (inside(points[i]) ==> Seg(points, clip, i).Some?) &&
      (Seg(points, clip, i).Some? ==> inside(Seg(points, clip, i).value.1))
  }

  /** The runs built so far: the closed ones, and the one still being
      built (`this._parts[k]`), empty when no run is open. */
  datatype Runs = Runs(closed: seq<seq<Point>>, open: seq<Point>)

  /** `this._parts` for a state of the loop: `parts[k]` exists only once
      something has been pushed onto it. */
  function Parts(s: Runs): seq<seq<Point>> {
    s.closed + (if s.open == [] then [] else [s.open])
  }

  /** Whether the visible sub-segment `seg` of pair i ends run k: it leaves
      the viewport before `points[i + 1]`, or it is the last pair. */
  predicate EndsRun(points: seq<Point>, i: nat, seg: (Point, Point))
    requires i + 1 < |points|
  {
    seg.1 != points[i + 1] || i == |points| - 2
  }

  /** One turn of the loop for pair i, whose clipped form is `seg`: a
      visible pair pushes its clipped start onto run k, and when it ends the
      run also pushes its clipped end and closes the run. */
  function Step(s: Runs, points: seq<Point>, i: nat, seg: Option<(Point, Point)>): (r: Runs)
    requires i + 1 < |points|
    ensures |s.closed| <= |r.closed| <= |s.closed| + 1
  {
    match seg
    case None => s
    case Some(sg) =>
      var run := s.open + [sg.0];
      if EndsRun(points, i, sg) then Runs(s.closed + [run + [sg.1]], [])
      else Runs(s.closed, run)
  }

  /** `parts[k] = parts[k] || []; parts[k].push(p)` with k the number of
      closed runs: the point joins the open run. */
  lemma PushStart(s: Runs, p: Point)
    ensures var ps, k := Parts(s), |s.closed|;
            var grown := if k == |ps| then ps + [[]] else ps;
            k < |grown| && grown[k := grown[k] + [p]] == Parts(Runs(s.closed, s.open + [p]))
  {
  }

  /** `parts[k].push(q); k++` on a non-empty open run: the run is closed
      with q as its last point. */
  lemma PushEnd(closed: seq<seq<Point>>, run: seq<Point>, q: Point)
    requires run != []
    ensures var ps := Parts(Runs(closed, run));
            |closed| < |ps| && ps[|closed| := ps[|closed|] + [q]] == Parts(Runs(closed + [run + [q]], []))
  {
  }

  /** The body of `_clipPoints`' loop for a visible pair i, on `parts` and
      the run index k: `parts[k] = parts[k] || []`, push the clipped start
      and, when the run ends there, push the clipped end and move on to the
      next run. On the array of a loop state it gives the array of the next
      state. */
  method PushSegment(parts: seq<seq<Point>>, k: nat, points: seq<Point>, i: nat,
                     segment: (Point, Point), ghost s: Runs)
    returns (parts': seq<seq<Point>>, k': nat)
    requires i + 1 < |points|
    requires parts == Parts(s) && k == |s.closed|
    ensures parts' == Parts(Step(s, points, i, Some(segment)))
    ensures k' == |Step(s, points, i, Some(segment)).closed|
  {
    ghost var started := Runs(s.closed, s.open + [segment.0]);
    PushStart(s, segment.0);
    parts' := parts;
    if k == |parts'| {
      parts' := parts' + [[]];
    }
    parts' := parts'[k := parts'[k] + [segment.0]];
    k' := k;
    if segment.1 != points[i + 1] || i == |points| - 2 {
      PushEnd(started.closed, started.open, segment.1);
      parts' := parts'[k := parts'[k] + [segment.1]];
      k' := k + 1;
    }
  }

  /** The runs after the loop has handled the pairs 0 .. n-1: each handled
      pair opens at most one run. */
  function ClipUpTo(points: seq<Point>, clip: ClipFn, n: nat): (r: Runs)
    requires n < |points|
    ensures |Parts(r)| <= n
  {
    if n == 0 then Runs([], [])
    else Step(ClipUpTo(points, clip, n - 1), points, n - 1, Seg(points, clip, n - 1))
  }

  /** `this._parts` after `_clipPoints` without `noClip`: a path of fewer
      than two points has no pair, hence no run; otherwise there are at most
      as many runs as pairs. */
  function Clip(points: seq<Point>, clip: ClipFn): (r: seq<seq<Point>>)
    ensures |points| < 2 ==> r == []
    ensures |points| >= 1 ==> |r| <= |points| - 1
  {
    if points == [] then [] else Parts(ClipUpTo(points, clip, |points| - 1))
  }

  /** The points in a list of runs, run after run. */
  function Concat(runs: seq<seq<Point>>): seq<Point> {
    if runs == [] then [] else Concat(runs[..|runs| - 1]) + runs[|runs| - 1]
  }

  /** The points of a loop state, closed runs first, then the open run. */
  function Flat(s: Runs): seq<Point> {
    Concat(s.closed) + s.open
  }

  lemma ConcatSnoc(runs: seq<seq<Point>>, run: seq<Point>)
    ensures Concat(runs + [run]) == Concat(runs) + run
  {
    assert (runs + [run])[..|runs|] == runs;
  }

  /** The points a pair contributes, independently of how they are
      grouped: nothing when it is not visible, its clipped start, and its
      clipped end when it ends a run. */
  function Contribution(points: seq<Point>, i: nat, seg: Option<(Point, Point)>): seq<Point>
    requires i + 1 < |points|
  {
    match seg
    case None => []
    case Some(sg) => [sg.0] + (if EndsRun(points, i, sg) then [sg.1] else [])
  }

  /** The contributions of pairs 0 .. n-1, in path order. */
  function Emitted(points: seq<Point>, clip: ClipFn, n: nat): seq<Point>
    requires n < |points|
  {
    if n == 0 then []
    else Emitted(points, clip, n - 1) + Contribution(points, n - 1, Seg(points, clip, n - 1))
  }

  // ---------------------------------------------------------------------
  // What every prefix of the loop keeps
  // ---------------------------------------------------------------------

  /** Closed runs hold at least two points. */
  lemma {:induction false} ClosedRunsUpTo(points: seq<Point>, clip: ClipFn, n: nat)
    requires n < |points|
    ensures forall k :: 0 <= k < |ClipUpTo(points, clip, n).closed| ==>
              |ClipUpTo(points, clip, n).closed[k]| >= 2
  {
    if n > 0 {
      ClosedRunsUpTo(points, clip, n - 1);
    }
  }

  /** One turn of the loop appends the pair's contribution to the points
      read run after run. */
  lemma StepFollowsPath(s: Runs, points: seq<Point>, i: nat, seg: Option<(Point, Point)>)
    requires i + 1 < |points|
    ensures Flat(Step(s, points, i, seg)) == Flat(s) + Contribution(points, i, seg)
  {
    if seg.Some? && EndsRun(points, i, seg.value) {
      ConcatSnoc(s.closed, s.open + [seg.value.0] + [seg.value.1]);
    }
  }

  /** Handling pair n-1 takes both the runs and the contributions one step
      further. */
  lemma NextPair(points: seq<Point>, clip: ClipFn, n: nat)
    requires 0 < n < |points|
    ensures ClipUpTo(points, clip, n) ==
            Step(ClipUpTo(points, clip, n - 1), points, n - 1, Seg(points, clip, n - 1))
    ensures Emitted(points, clip, n) ==
            Emitted(points, clip, n - 1) + Contribution(points, n - 1, Seg(points, clip, n - 1))
  {
  }

  /** StepFollowsPath for a state already known to be the next one. */
  lemma StepExtends(prev: Runs, next: Runs, points: seq<Point>, i: nat, seg: Option<(Point, Point)>,
                    before: seq<Point>, after: seq<Point>)
    requires i + 1 < |points|
    requires next == Step(prev, points, i, seg) && after == before + Contribution(points, i, seg)
    requires Flat(prev) == before
    ensures Flat(next) == after
  {
    StepFollowsPath(prev, points, i, seg);
  }

  /** Reading the runs in order gives the contributions in path order. */
  lemma {:induction false} RunsFollowPathUpTo(points: seq<Point>, clip: ClipFn, n: nat)
    requires n < |points|
    ensures Flat(ClipUpTo(points, clip, n)) == Emitted(points, clip, n)
  {
    if n > 0 {
      RunsFollowPathUpTo(points, clip, n - 1);
      NextPair(points, clip, n);
      StepExtends(ClipUpTo(points, clip, n - 1), ClipUpTo(points, clip, n), points, n - 1,
                  Seg(points, clip, n - 1),
                  Emitted(points, clip, n - 1), Emitted(points, clip, n));
    }
  }

  // ---------------------------------------------------------------------
  // Properties of the finished clipping
  // ---------------------------------------------------------------------

  /** The runs hold, in order, exactly the clipped points the pairs
      contribute: no point is lost, repeated or reordered. */
  lemma ClipFollowsPath(points: seq<Point>, clip: ClipFn)
    requires points != []
    ensures Concat(Clip(points, clip)) == Emitted(points, clip, |points| - 1)
  {
    var s := ClipUpTo(points, clip, |points| - 1);
    RunsFollowPathUpTo(points, clip, |points| - 1);
    if s.open != [] {
      ConcatSnoc(s.closed, s.open);
    } else {
      assert s.closed + [] == s.closed;
    }
  }

  /** Every run is non-empty, and every run but the last has at least two
      points. When the last pair is visible it closes the last run, so then
      every run has at least two points. */
  lemma ClipRunShape(points: seq<Point>, clip: ClipFn)
    ensures forall k :: 0 <= k < |Clip(points, clip)| ==> Clip(points, clip)[k] != []
    ensures forall k :: 0 <= k < |Clip(points, clip)| - 1 ==> |Clip(points, clip)[k]| >= 2
    ensures |points| >= 2 && Seg(points, clip, |points| - 2).Some? ==>
              forall k :: 0 <= k < |Clip(points, clip)| ==> |Clip(points, clip)[k]| >= 2
  {
    if points != [] {
      ClosedRunsUpTo(points, clip, |points| - 1);
    }
  }

  /** When no pair is visible, no run is produced. */
  lemma {:induction false} NothingVisible(points: seq<Point>, clip: ClipFn)
    requires forall i :: 0 <= i < |points| - 1 ==> Seg(points, clip, i).None?
    ensures Clip(points, clip) == []
  {
    if points != [] {
      NothingVisibleUpTo(points, clip, |points| - 1);
    }
  }

  lemma {:induction false} NothingVisibleUpTo(points: seq<Point>, clip: ClipFn, n: nat)
    requires n < |points|
    requires forall i :: 0 <= i < |points| - 1 ==> Seg(points, clip, i).None?
    ensures ClipUpTo(points, clip, n) == Runs([], [])
  {
    if n > 0 {
      NothingVisibleUpTo(points, clip, n - 1);
    }
  }

  /** When every pair lies wholly inside the viewport, clipping keeps the
      whole path as one run: the same parts as with `noClip`. */
  lemma AllVisible(points: seq<Point>, clip: ClipFn)
    requires |points| >= 2
    requires forall i :: 0 <= i < |points| - 1 ==>
               Seg(points, clip, i) == Some((points[i], points[i + 1]))
    ensures Clip(points, clip) == [points]
  {
    AllVisibleUpTo(points, clip, |points| - 1);
  }

  lemma {:induction false} AllVisibleUpTo(points: seq<Point>, clip: ClipFn, n: nat)
    requires 2 <= |points| && n < |points|
    requires forall i :: 0 <= i < |points| - 1 ==>
               Seg(points, clip, i) == Some((points[i], points[i + 1]))
    ensures n < |points| - 1 ==> ClipUpTo(points, clip, n) == Runs([], points[..n])
    ensures n == |points| - 1 ==> ClipUpTo(points, clip, n) == Runs([points], [])
  {
    if n > 0 {
      AllVisibleUpTo(points, clip, n - 1);
      assert points[..n - 1] + [points[n - 1]] == points[..n];
      if n == |points| - 1 {
        assert points[..n] + [points[n]] == points;
      }
    }
  }

  /** Under `clipSegment`'s guarantee, a run left open after n pairs was
      left open by pair n-1 at its end `points[n]`, which is inside, and
      that pair was not the last one. */
  lemma {:induction false} OpenRunInside(points: seq<Point>, clip: ClipFn, inside: Point -> bool, n: nat)
    requires n < |points|
    requires ClipsTo(points, clip, inside)
    ensures ClipUpTo(points, clip, n).open != [] ==> inside(points[n]) && n < |points| - 1
  {
    if n > 0 {
      OpenRunInside(points, clip, inside, n - 1);
      var seg := Seg(points, clip, n - 1);
      assert inside(points[n - 1]) ==> seg.Some?;
      assert seg.Some? ==> inside(seg.value.1);
    }
  }

  /** Under `clipSegment`'s guarantee, every run can be drawn: each holds at
      least two points, so no run of a single point is produced. */
  lemma ClipRunsDrawable(points: seq<Point>, clip: ClipFn, inside: Point -> bool)
    requires ClipsTo(points, clip, inside)
    ensures forall k :: 0 <= k < |Clip(points, clip)| ==> |Clip(points, clip)[k]| >= 2
  {
    if points != [] {
      OpenRunInside(points, clip, inside, |points| - 1);
      ClosedRunsUpTo(points, clip, |points| - 1);
    }
  }
}
