/** L.Polycurve: a Leaflet polyline whose path is a list of SVG path-data
    instructions. The layer keeps the instructions, the flattened envelope
    points handed to the base polyline, their projection, the clipped runs,
    and answers path-string and closest-point queries. */
module PolycurveLayer {
  import opened Types
  import Instructions
  import Projection
  import Serializer
  import Clipping
  import Proximity

  class Polycurve {
    var latlngs: seq<LatLng>                       // `_latlngs`
    var instructions: seq<Instr>                   // `_instructions`
    var originalPoints: Option<seq<Point>>         // `_originalPoints`; None until projected
    var pointInstructions: Option<seq<PtInstr>>    // `_pointInstructions`; None until projected
    var parts: seq<seq<Point>>                     // `_parts`
    const noClip: bool                             // `options.noClip`

    /** The envelope points are those of the instructions, and once the
        layer is projected, the projected instructions carry the projected
        envelope points as their end points. */
    ghost predicate Consistent()
      reads this
    {
      latlngs == Instructions.Defined(instructions) &&
      (pointInstructions.Some? ==>
         originalPoints.Some? &&
         Projection.DefinedPoints(pointInstructions.value) == originalPoints.value)
    }

    /** `initialize`: the flattened envelope points go to the base polyline,
        then the instructions are normalised. */
    constructor (ins: seq<Instr>, noClip: bool)
      requires forall i :: 0 <= i < |ins| ==> Instructions.Targeted(ins[i])
      ensures latlngs == Instructions.Defined(ins)
      ensures |instructions| == |ins|
      ensures forall i :: 0 <= i < |ins| ==> instructions[i] == Instructions.Normalize(ins[i])
      ensures originalPoints.None? && pointInstructions.None? && parts == []
      ensures this.noClip == noClip
      ensures Consistent()
    {
      var flat := Instructions.FlattenEnvelope(ins);
      latlngs := flat;
      this.noClip := noClip;
      instructions := [];
      originalPoints, pointInstructions, parts := None, None, [];
      new;
      SetInstructions(ins);
      Instructions.DefinedSameTargets(instructions, ins);
    }

    /** `setInstructions`: C, S and Q (by the `"CSQ".indexOf` test) without
        controls get `[latlng]`; a C with exactly one control gets it
        duplicated; everything else is kept, in the same order. */
    method SetInstructions(ins: seq<Instr>)
      requires forall i :: 0 <= i < |ins| ==> Instructions.Targeted(ins[i])
      modifies this
      ensures |instructions| == |ins|
      ensures forall i :: 0 <= i < |ins| ==> instructions[i] == Instructions.Normalize(ins[i])
      ensures latlngs == old(latlngs) && originalPoints == old(originalPoints)
      ensures pointInstructions == old(pointInstructions) && parts == old(parts)
    {
      var normalized: seq<Instr> := [];
      for i := 0 to |ins|
        invariant |normalized| == i
        invariant forall k :: 0 <= k < i ==> normalized[k] == Instructions.Normalize(ins[k])
      {
        var instr := ins[i];
        if instr.controls.None? {
          if Instructions.IsCurveLetter(instr.letter) {
            instr := instr.(controls := Some([instr.latlng.value]));
          }
        } else if instr.letter == "C" && |instr.controls.value| == 1 {
          instr := instr.(controls := Some(instr.controls.value + [instr.controls.value[0]]));
        }
        normalized := normalized + [instr];
      }
      instructions := normalized;
    }

    /** `projectLatlngs`: with a map, the envelope points and the
        instructions are projected; without one, nothing changes. */
    method ProjectLatlngs(layerMap: Option<Projection.LayerMap>)
      modifies this
      ensures layerMap.None? ==>
                originalPoints == old(originalPoints) && pointInstructions == old(pointInstructions)
      ensures layerMap.Some? ==>
                originalPoints == Some(Projection.ToLayerAll(latlngs, layerMap.value)) &&
                pointInstructions == Some(Projection.ProjectInstructions(instructions, layerMap.value))
      ensures latlngs == old(latlngs) && instructions == old(instructions) && parts == old(parts)
      ensures old(Consistent()) ==> Consistent()
    {
      if layerMap.Some? {
        originalPoints := Some(Projection.ToLayerAll(latlngs, layerMap.value));
        pointInstructions := Some(Projection.ProjectInstructions(instructions, layerMap.value));
        if latlngs == Instructions.Defined(instructions) {
          Projection.ProjectedPointsAgree(instructions, layerMap.value);
        }
      }
    }

    /** `_clipPoints`: with `noClip` the one run is all the points;
        otherwise the runs are built pair by pair (Clipping.Clip). */
    method ClipPoints(clip: Clipping.ClipFn)
      modifies this
      ensures noClip ==> parts == [old(originalPoints).GetOr([])]
      ensures !noClip ==> parts == Clipping.Clip(old(originalPoints).GetOr([]), clip)
      ensures latlngs == old(latlngs) && instructions == old(instructions)
      ensures originalPoints == old(originalPoints) && pointInstructions == old(pointInstructions)
    {
      var points := originalPoints.GetOr([]);
      var len := |points|;
      if noClip {
        parts := [points];
        return;
      }
      // `parts` aliases the fresh `this._parts`; it is written back once built
      var runsOut: seq<seq<Point>> := [];
      var i, k := 0, 0;
      ghost var runs := Clipping.Runs([], []);
      while i < len - 1
        invariant 0 <= i && (len == 0 || i < len)
        invariant len == 0 ==> runs == Clipping.Runs([], [])
        invariant len > 0 ==> runs == Clipping.ClipUpTo(points, clip, i)
        invariant runsOut == Clipping.Parts(runs) && k == |runs.closed|
        modifies {}
      {
        var segment := clip(points[i], points[i + 1], i);
        Clipping.NextPair(points, clip, i + 1);
        assert segment == Clipping.Seg(points, clip, i);
        if segment.Some? {
          runsOut, k := Clipping.PushSegment(runsOut, k, points, i, segment.value, runs);
        }
        runs := Clipping.Step(runs, points, i, segment);
        i := i + 1;
      }
      parts := runsOut;
    }

    /** `_simplifyPoints`: each run is tested with `part instanceof
        L.Point`, which an array never is, and the callback only rebinds its
        own parameter; the layer is left as it was. */
    method SimplifyPoints(given: Option<seq<seq<Point>>>)
      ensures unchanged(this)
    {
      var runs := given.GetOr(parts);
      for j := 0 to |runs| {
        var part := runs[j];
      }
    }

    /** `getPathString`: fails before the first projection; otherwise the
        serialised projected instructions. */
    function GetPathString(f: Serializer.Format): (r: Result<string, Fault>)
      reads this
      ensures pointInstructions.None? ==> r == Failure(NotProjected)
      ensures pointInstructions.Some? ==> r == Serializer.PathString(pointInstructions.value, f)
    {
      if pointInstructions.None? then Failure(NotProjected)
      else Serializer.PathString(pointInstructions.value, f)
    }

    /** `closestLayerPoint`: the running minimum over every segment of every
        part; nothing when there is no segment, otherwise the closest point
        of the first segment of least squared distance. */
    method ClosestLayerPoint(p: Point, m: Proximity.SegmentMetric) returns (r: Option<Proximity.Closest>)
      ensures r.None? <==> Proximity.NoSegment(parts)
      ensures r.Some? ==>
                exists j, i :: Proximity.FirstMinimal(parts, p, m, j, i) &&
                  r.value == Proximity.Closest(m.closest(p, parts[j][i - 1], parts[j][i]),
                                               Proximity.SegDist(parts, p, m, j, i))
    {
      var minDistance: Proximity.Bound := Proximity.Infinite;
      var minPoint: Option<Point> := None;
      ghost var bj, bi := 0, 0;
      var j := 0;
      while j < |parts|
        invariant 0 <= j <= |parts|
        invariant minPoint.None? <==> !Proximity.SomeBefore(parts, j, 0)
        invariant minPoint.None? <==> minDistance.Infinite?
        invariant minPoint.Some? ==>
                    Proximity.FirstMinimalBefore(parts, p, m, bj, bi, j, 0) &&
                    minDistance == Proximity.Finite(Proximity.SegDist(parts, p, m, bj, bi)) &&
                    minPoint.value == m.closest(p, parts[bj][bi - 1], parts[bj][bi])
      {
        var points := parts[j];
        var i := 1;
        while i < |points|
          invariant 1 <= i <= |points| || (i == 1 && |points| <= 1)
          invariant minPoint.None? <==> !Proximity.SomeBefore(parts, j, i)
          invariant minPoint.None? <==> minDistance.Infinite?
          invariant minPoint.Some? ==>
                      Proximity.FirstMinimalBefore(parts, p, m, bj, bi, j, i) &&
                      minDistance == Proximity.Finite(Proximity.SegDist(parts, p, m, bj, bi)) &&
                      minPoint.value == m.closest(p, parts[bj][bi - 1], parts[bj][bi])
        {
          assert Proximity.IsSegment(parts, j, i) && Proximity.Before(j, i, j, i + 1);
          var sqDist := m.sqDist(p, points[i - 1], points[i]);
          if Proximity.Below(sqDist, minDistance) {
            minDistance := Proximity.Finite(sqDist);
            minPoint := Some(m.closest(p, points[i - 1], points[i]));
            bj, bi := j, i;
          }
          i := i + 1;
        }
        j := j + 1;
      }
      Proximity.NoSegmentNothingBefore(parts);
      if minPoint.Some? {
        r := Some(Proximity.Closest(minPoint.value, minDistance.value));
      } else {
        r := None;
      }
    }
  }
}
