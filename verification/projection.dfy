/** Projection (`projectLatlngs`): world coordinates become layer points
    through the attached map. The map's `latLngToLayerPoint` and its
    per-axis conversion are uninterpreted functions carried by LayerMap. */
module Projection {
  import opened Types
  import Instructions

  /** What an attached map offers projection: `latLngToLayerPoint`, and the
      conversion of a lone latitude (V) or longitude (H) to a layer y or x. */
  datatype LayerMap = LayerMap(
    toLayer: LatLng -> Point,
    latToY: real -> real,
    lngToX: real -> real)

  /** `latlngToPoint` applied to an array: element by element. */
  function ToLayerAll(ls: seq<LatLng>, m: LayerMap): (ps: seq<Point>)
    ensures |ps| == |ls|
    ensures forall i :: 0 <= i < |ls| ==> ps[i] == m.toLayer(ls[i])
  {
    seq(|ls|, i requires 0 <= i < |ls| => m.toLayer(ls[i]))
  }

  /** The layer-plane copy of one instruction: a `latlng` becomes `point`,
      each control is projected, a `lat` becomes `y` and a `lng` becomes `x`;
      the letter and the arc payload are copied unchanged. */
  function ProjectInstr(instr: Instr, m: LayerMap): (pi: PtInstr)
    ensures pi.letter == instr.letter
    ensures pi.point.Some? <==> instr.latlng.Some?
    ensures instr.latlng.Some? ==> pi.point.value == m.toLayer(instr.latlng.value)
    ensures pi.controls.Some? <==> instr.controls.Some?
    ensures instr.controls.Some? ==>
              |pi.controls.value| == |instr.controls.value| &&
              forall i :: 0 <= i < |instr.controls.value| ==>
                pi.controls.value[i] == m.toLayer(instr.controls.value[i])
    ensures pi.x.Some? <==> instr.lng.Some?
    ensures pi.y.Some? <==> instr.lat.Some?
    ensures pi.radius == instr.radius && pi.angle == instr.angle
    ensures pi.largeArc == instr.largeArc && pi.sweep == instr.sweep
  {
    PtInstr(
      instr.letter,
      if instr.latlng.Some? then Some(m.toLayer(instr.latlng.value)) else None,
      if instr.controls.Some? then Some(ToLayerAll(instr.controls.value, m)) else None,
      if instr.lng.Some? then Some(m.lngToX(instr.lng.value)) else None,
      if instr.lat.Some? then Some(m.latToY(instr.lat.value)) else None,
      instr.radius, instr.angle, instr.largeArc, instr.sweep)
  }

  /** `_pointInstructions`: one copy per instruction, in instruction order. */
  function ProjectInstructions(ins: seq<Instr>, m: LayerMap): (pis: seq<PtInstr>)
    ensures |pis| == |ins|
    ensures forall i :: 0 <= i < |ins| ==> pis[i] == ProjectInstr(ins[i], m)
  {
    seq(|ins|, i requires 0 <= i < |ins| => ProjectInstr(ins[i], m))
  }

  /** The defined `point` values of projected instructions, in order. */
  function DefinedPoints(pis: seq<PtInstr>): (r: seq<Point>)
    ensures |r| <= |pis|
  {
    if pis == [] then []
    else
      var last := pis[|pis| - 1];
      DefinedPoints(pis[..|pis| - 1]) + (if last.point.Some? then [last.point.value] else [])
  }

  /** The two outputs of projection agree: the end points carried by the
      projected instructions are, in order, the projected envelope points
      (`_originalPoints`, the projection of the flattened `_latlngs`). */
  lemma {:induction false} ProjectedPointsAgree(ins: seq<Instr>, m: LayerMap)
    ensures DefinedPoints(ProjectInstructions(ins, m)) == ToLayerAll(Instructions.Defined(ins), m)
  {
    if ins != [] {
      var init := ins[..|ins| - 1];
      ProjectedPointsAgree(init, m);
      assert ProjectInstructions(ins, m)[..|ins| - 1] == ProjectInstructions(init, m);
    }
  }

  // ---------------------------------------------------------------------
  // projectLatlngs as written
  // ---------------------------------------------------------------------

  /** JavaScript truthiness of an optional number: present and not zero. */
  predicate Truthy(v: Option<real>) {
    v.Some? && v.value != 0.0
  }

  /** The filter callback of `projectLatlngs` as written. `latlngToPoint` is
      called without a receiver, so reading `this._map` fails whenever there
      is a coordinate to project; a zero `lat` or `lng` is falsy and is left
      in place; otherwise the copy equals the record. */
  function CopyAsWritten(instr: Instr): (r: Result<Instr, Fault>)
    ensures r.Failure? <==>
              instr.latlng.Some? || (instr.controls.Some? && instr.controls.value != []) ||
              Truthy(instr.lat) || Truthy(instr.lng)
    ensures r.Success? ==> r.value == instr
  {
    if instr.latlng.Some? then Failure(UnboundMapCall)
    else if instr.controls.Some? && |instr.controls.value| > 0 then Failure(UnboundMapCall)
    else if Truthy(instr.lat) then Failure(UnboundMapCall)
    else if Truthy(instr.lng) then Failure(UnboundMapCall)
    else Success(instr)
  }

  /** `this._instructions.filter(callback)` as written: the callback's copy
      is an object, hence truthy, so `filter` keeps every ORIGINAL record and
      discards the copies; the first callback that fails aborts the pass. */
  function PointInstructionsAsWritten(ins: seq<Instr>): (r: Result<seq<Instr>, Fault>)
    ensures r.Success? ==> r.value == ins
    ensures r.Failure? <==> exists i :: 0 <= i < |ins| && CopyAsWritten(ins[i]).Failure?
  {
    if ins == [] then Success([])
    else
      match CopyAsWritten(ins[0])
      case Failure(e) => Failure(e)
      case Success(_) =>
        match PointInstructionsAsWritten(ins[1..])
        case Failure(e) =>
          assert exists i :: 0 <= i < |ins[1..]| && CopyAsWritten(ins[1..][i]).Failure?;
          Failure(e)
        case Success(rest) =>
          assert forall i :: 0 < i < |ins| ==> ins[i] == ins[1..][i - 1];
          Success([ins[0]] + rest)
  }

  /** A MoveTo cannot be projected as written, where the corrected
      projection gives it the layer point of its target. */
  lemma MoveToAsWritten(p: LatLng, m: LayerMap)
    ensures var move := Instr("M", Some(p), None, None, None, None, None, false, false);
      PointInstructionsAsWritten([move]) == Failure(UnboundMapCall) &&
      ProjectInstructions([move], m)[0].point == Some(m.toLayer(p))
  {
    var move := Instr("M", Some(p), None, None, None, None, None, false, false);
    assert CopyAsWritten(move) == Failure(UnboundMapCall);
  }

  /** A V at latitude 0 passes the as-written pass untouched, keeping its
      `lat` and getting no `y`, where the corrected projection gives it one. */
  lemma ZeroLatitudeAsWritten(m: LayerMap)
    ensures var v := Instr("V", None, None, Some(0.0), None, None, None, false, false);
      PointInstructionsAsWritten([v]) == Success([v]) &&
      ProjectInstr(v, m).y == Some(m.latToY(0.0))
  {
    var v := Instr("V", None, None, Some(0.0), None, None, None, false, false);
    assert CopyAsWritten(v) == Success(v);
    assert [v][1..] == [];
  }
}
