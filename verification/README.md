# L.Polycurve in Dafny

L.Polycurve is a Leaflet layer that draws a path given as a list of SVG
path-data instructions (M, L, H, V, C, S, Q, T, A, Z). Each instruction
carries a target `latlng`, or a lone `lat` (V) or `lng` (H). Curves carry
`controls`, and arcs carry a radius, an angle and two flags. The layer
works in five steps:

- It flattens the instructions into the envelope points (`_latlngs`) that
  the base polyline uses for bounds.
- It normalises the control points of curve instructions.
- When a map is attached, it projects the envelope points and the
  instructions into the layer plane.
- It clips the projected points against the viewport into runs (`_parts`).
- It serialises the projected instructions into the SVG `d` attribute. It
  also answers "closest point on the path" queries over the runs.

The model is split into seven modules:

- `Types`: the instruction record, its projected form, `Option`/`Result`,
  and the faults a call can end with.
- `Instructions`: `String.prototype.indexOf`, control-point normalisation
  and envelope flattening.
- `Projection`: the layer-plane copy of the instructions, and the
  projection pass as written.
- `Serializer`: the per-instruction strings and their join.
- `Clipping`: the run-building loop of `_clipPoints` as a specification
  function, with the properties of its result.
- `Proximity`: what "the first closest segment" means.
- `PolycurveLayer`: the class `Polycurve`. Its fields are the layer's
  fields. Its constructor and methods update them in place. Each method is
  proved against the functions of the modules above.

Leaflet's own helpers are not part of this model. These are
`latLngToLayerPoint`, `L.LineUtil.clipSegment`,
`L.LineUtil._sqClosestPointOnSegment`, and the text form of points and
numbers. Each one is a function-valued parameter (`LayerMap`, `ClipFn`,
`SegmentMetric`, `Format`), so every property holds for every choice of
them.

### Where the code and its documentation disagree

Where the two disagree, the model follows the code. The exceptions are the
three places where the code cannot work as written (see Findings). There the
model gives an as-written member that shows the failure and a corrected
definition. The class uses the corrected definition.

- `setInstructions` gives a C without controls ONE control, `[latlng]`,
  not two. Normalising such an instruction again duplicates that control,
  so normalisation is not idempotent (`NormalizeIdempotentIff`).
- The curve test `"CSQ".indexOf(letter) !== -1` is a substring test. It
  accepts the letters "", "CS", "SQ" and "CSQ" as well as C, S and Q
  (`CurveLetters`).
- Flattening never reads `prevLatLng`. The tests `instr === 'V'` and
  `instr === 'H'` compare a record with a string, so they never hold. An H
  or V therefore contributes no envelope point. No error is raised for an
  H or V without a preceding point.
- The envelope points are the instruction targets only. Control points do
  not enter `_latlngs` or `_originalPoints`.
- Clipping keeps every run it builds. For an arbitrary `clipSegment`, the
  last run may hold a single point: a visible pair that ends at its next
  point opens a run, and if the next pair is hidden and is the last one,
  nothing closes it (`ClipRunShape`). Leaflet's `clipSegment` guarantees
  two things (`ClipsTo`): a pair that starts inside the viewport is
  visible, and a visible piece ends inside. Under that guarantee no such run
  arises, and every run holds at least two points (`ClipRunsDrawable`).
- The arc and projection code paths fail as written (see Findings).

## Model

| member | source | states |
|---|---|---|
| Instructions.IndexOfFrom | L.Polycurve.js:55 | the result is the first occurrence at or after `from`, or -1 exactly when there is none |
| Instructions.CurveLetters | L.Polycurve.js:55 | `"CSQ".indexOf(letter) !== -1` holds exactly for the substrings "", C, S, Q, CS, SQ, CSQ |
| Instructions.IsCurveLetter | L.Polycurve.js:55 | a letter given a default control is never H, V, Z or z, so it always has a target |
| Instructions.Normalize | L.Polycurve.js:53-62 | only `controls` changes; a curve letter without controls gets `[latlng]`; a C with one control gets it twice; everything else is returned unchanged |
| Instructions.NormalizeIdempotentIff | L.Polycurve.js:54-61 | normalising twice equals normalising once exactly when the instruction is not a C without controls |
| Instructions.Defined | L.Polycurve.js:36-44 | the flattened envelope is never longer than the instruction list |
| Instructions.FlattenEnvelope | L.Polycurve.js:35-44 | the map/filter loops yield exactly the defined targets, in instruction order |
| Instructions.DefinedAppend | L.Polycurve.js:36-44 | flattening distributes over concatenation, so order is kept |
| Instructions.DefinedMembers | L.Polycurve.js:36-44 | a point is in the envelope exactly when some instruction targets it |
| Instructions.DefinedLength | L.Polycurve.js:44 | the envelope has one point per instruction exactly when every instruction has a target, so the filter drops exactly the targetless ones |
| Instructions.DefinedSameTargets | L.Polycurve.js:36-63 | lists with the same targets at each index flatten alike, so normalisation does not move the envelope |
| Projection.ToLayerAll | L.Polycurve.js:83-97 | the projected envelope has one layer point per envelope point, each the map's projection of it |
| Projection.ProjectInstr | L.Polycurve.js:100-121 | the copy keeps the letter and arc fields; `point` is present exactly when `latlng` is, as its projection; controls are projected element by element; `x` is present exactly when `lng` is, and `y` exactly when `lat` is |
| Projection.ProjectInstructions | L.Polycurve.js:99-122 | one projected copy per instruction, in order |
| Projection.DefinedPoints | L.Polycurve.js:99-122 | no more end points than instructions |
| Projection.ProjectedPointsAgree | L.Polycurve.js:95-122 | the end points of the projected instructions are, in order, the projected envelope points |
| Projection.CopyAsWritten | L.Polycurve.js:99-121 | the callback as written fails exactly when there is a target, a non-empty control list, or a non-zero lat or lng; otherwise its copy equals the record |
| Projection.PointInstructionsAsWritten | L.Polycurve.js:99-122 | the filter as written either fails because some callback fails, or returns the original records unchanged |
| Projection.MoveToAsWritten | L.Polycurve.js:99-105 | an M cannot be projected as written; the corrected projection gives it its layer point |
| Projection.ZeroLatitudeAsWritten | L.Polycurve.js:111-115 | a V at latitude 0 passes the as-written filter without a `y`; the corrected projection gives it one |
| Serializer.Join | L.Polycurve.js:73 | `join` of no strings is ""; otherwise the result is as long as all the strings plus one separator between each two |
| Serializer.MapAll | L.Polycurve.js:71-73 | a map whose callback may throw gives, when it succeeds, one result per element |
| Serializer.ControlsText | L.Polycurve.js:79 | missing or empty controls give ""; a single control gives that point's text alone |
| Serializer.ArcText | L.Polycurve.js:78 | the arc fields are the radius x and y, the angle and the large-arc flag, then the sweep flag, separated by single spaces |
| Serializer.Tail | L.Polycurve.js:80 | the corrected tail is the point when there is one, else x when present, else y when present, else "" |
| Serializer.TailAsWritten | L.Polycurve.js:80 | the `\|\|` chain agrees with the corrected tail except when the first coordinate present is 0; an H at x = 0 gets "" |
| Serializer.ArcPart | L.Polycurve.js:76-80 | a corrected A with a radius serialises to "A", the arc fields, the sweep flag and its tail |
| Serializer.JoinAppend | L.Polycurve.js:73 | joining a concatenation is joining the two joins with the separator |
| Serializer.PartStr | L.Polycurve.js:75-81 | the corrected part fails exactly for an A without a radius; otherwise it starts with the letter |
| Serializer.PartStrAsWritten | L.Polycurve.js:75-81 | the part as written fails for every A; otherwise it starts with the letter |
| Serializer.MapAllAt | L.Polycurve.js:71-73 | a map whose callback may throw succeeds exactly when every call does, with each result at its element's index |
| Serializer.MapAllAppend | L.Polycurve.js:71-73 | mapping a concatenation gives the concatenation of the results |
| Serializer.PartStrs | L.Polycurve.js:71-73 | the part strings exist exactly when every part succeeds, one per instruction |
| Serializer.PathString | L.Polycurve.js:68-74 | the path string exists exactly when every part can be serialised; no instructions give "" |
| Serializer.PathStringIsJoin | L.Polycurve.js:71-73 | the path string is the part strings in instruction order, joined by single spaces |
| Serializer.PathStringAppend | L.Polycurve.js:71-73 | serialising a concatenation joins the two halves' strings with one space |
| Serializer.ClosePathPart | L.Polycurve.js:76-80 | a Z with no controls, point, x or y serialises to exactly "Z" |
| Serializer.ArcSweepDistinguished | L.Polycurve.js:77-78 | the corrected arc strings differ in the sweep flag; as written both sweep values fail |
| Serializer.ZeroAxisValue | L.Polycurve.js:80 | an H at x = 0 keeps its coordinate when corrected; as written it serialises to the bare "H" |
| Clipping.ConcatSnoc | L.Polycurve.js:150-157 | reading the runs after appending one is reading the old runs and then the new one |
| Clipping.Step | L.Polycurve.js:145-157 | one turn of the loop closes at most one run |
| Clipping.PushSegment | L.Polycurve.js:150-157 | the in-place updates (`parts[k] = parts[k] \|\| []`, the pushes, `k++`) turn the runs before a visible pair into the runs after it |
| Clipping.ClipUpTo | L.Polycurve.js:144-158 | after n pairs there are at most n runs |
| Clipping.ClosedRunsUpTo | L.Polycurve.js:150-157 | every closed run holds at least two points |
| Clipping.StepFollowsPath | L.Polycurve.js:145-157 | one turn of the loop appends the pair's contribution to the points read in run order |
| Clipping.RunsFollowPathUpTo | L.Polycurve.js:144-158 | after n pairs, reading the runs gives the contributions of those pairs in path order |
| Clipping.Clip | L.Polycurve.js:138-158 | fewer than two points give no run; otherwise there are at most as many runs as pairs |
| Clipping.ClipFollowsPath | L.Polycurve.js:144-158 | the runs hold exactly the clipped points, in order, with none lost or repeated |
| Clipping.ClipRunShape | L.Polycurve.js:150-157 | runs are non-empty, all but the last have at least two points, and all do when the last pair is visible |
| Clipping.OpenRunInside | L.Polycurve.js:150-157 | under `clipSegment`'s guarantee, a run still open after n pairs ends at point n, which is inside, and n is not the last point |
| Clipping.ClipRunsDrawable | L.Polycurve.js:144-158 | under `clipSegment`'s guarantee every run holds at least two points |
| Clipping.NothingVisible | L.Polycurve.js:146-148 | when no pair is visible there are no runs |
| Clipping.NothingVisibleUpTo | L.Polycurve.js:146-148 | no prefix of an invisible path opens a run |
| Clipping.AllVisible | L.Polycurve.js:144-158 | when every pair is wholly visible the runs are the one run of all points, as with `noClip` |
| Clipping.AllVisibleUpTo | L.Polycurve.js:144-158 | with every pair visible, the prefix is one open run until the last pair closes it |
| Proximity.NoSegmentNothingBefore | L.Polycurve.js:180-182 | there is no segment exactly when the loops visit none |
| Proximity.FirstMinimalUnique | L.Polycurve.js:186 | the strict `<` tie break leaves at most one first closest segment |
| PolycurveLayer.Polycurve.constructor | L.Polycurve.js:14-51 | the envelope is the defined targets, the instructions are normalised one by one, nothing is projected or clipped yet, and the layer is consistent |
| PolycurveLayer.Polycurve.SetInstructions | L.Polycurve.js:52-64 | the new instruction list is the normalisation of each given instruction, in order; the other fields are unchanged |
| PolycurveLayer.Polycurve.ProjectLatlngs | L.Polycurve.js:82-124 | with a map, the projected envelope and the projected instructions are stored and consistency is kept; without one nothing changes |
| PolycurveLayer.Polycurve.ClipPoints | L.Polycurve.js:128-159 | with `noClip` the runs are the one list of all points; otherwise they are the result of the run-building loop on the projected points (missing points count as none) |
| PolycurveLayer.Polycurve.SimplifyPoints | L.Polycurve.js:168-174 | the layer is left unchanged |
| PolycurveLayer.Polycurve.GetPathString | L.Polycurve.js:68-74 | before projection the call fails; afterwards it is the serialised projected instructions |
| PolycurveLayer.Polycurve.ClosestLayerPoint | L.Polycurve.js:177-196 | the result is none exactly when no run has a segment; otherwise it is the closest point of the first segment of least squared distance, with that distance |

## Left out

- PolycurveLayer.Polycurve.SetInstructions: the callback updates the caller's instruction records in place. The model works on instruction values, so it does not capture that aliasing, or the effect on other holders of those records.
- PolycurveLayer.Polycurve.constructor: it requires every instruction other than H, V and Z to have a target. This is the rule of the instruction typedef (L.Polycurve.js:3). Of the instructions without a target, only a C, S or Q without controls would behave differently: it would be given an undefined control. An M, L, T or A without a target passes through untouched.
- The default instruction list used when `initialize` is given none is not modelled. The constructor always takes a list.
- `L.Polyline` itself is not part of this model: its `initialize`, its options and its bounds.
- Leaflet's projection, viewport clipping, point-to-segment geometry and the text form of numbers and points are parameters, not definitions.
- PolycurveLayer.Polycurve.ClipPoints: `segment[1] !== points[i + 1]` compares object identity. The model compares values, so a clipped end that equals the next point but is a fresh object would close the run in the source and not in the model. `clipSegment`'s internal `_lastCode` state is treated as part of the function parameter.
- PolycurveLayer.Polycurve.ClipPoints, PolycurveLayer.Polycurve.ClosestLayerPoint, PolycurveLayer.Polycurve.SimplifyPoints: `this._parts` is undefined before the first clip. The model starts it as the empty list. Before the first clip, the source's `_simplifyPoints` (L.Polycurve.js:169) and `closestLayerPoint` (L.Polycurve.js:180) throw. In the model the first does nothing and the second returns none.
- PolycurveLayer.Polycurve.ClipPoints: without a map and without `noClip`, reading `this._map._pathViewport` (L.Polycurve.js:141) throws. The model does not capture this. Leaflet clips only while the layer is on a map.
- PolycurveLayer.Polycurve.ProjectLatlngs: it stores the corrected projection, Projection.ProjectInstructions. As written, the projection throws when `latlngToPoint`, called without its receiver, reaches `this._map` (L.Polycurve.js:88, from line 103). When it does not throw, the filter keeps the unprojected records (L.Polycurve.js:99-122). Projection.PointInstructionsAsWritten models that behaviour; see Findings.
- PolycurveLayer.Polycurve.GetPathString: it serialises with the corrected Serializer.PartStr. As written, every A throws (L.Polycurve.js:78) and a zero coordinate is dropped (L.Polycurve.js:80). Serializer.PartStrAsWritten and Serializer.TailAsWritten model that behaviour; see Findings.
- PolycurveLayer.Polycurve.ClosestLayerPoint: it returns the squared distance. `Math.sqrt` is not modelled, and neither is attaching `distance` to the returned point object.
- Projection.ProjectInstr: the source reads a lone V or H coordinate as `.y` or `.x` of the result of mapping an array, which is undefined. The model replaces this with the map's per-axis conversion (`latToY`, `lngToX`), an abstract function.
- Instructions.FlattenEnvelope: the `=== 'V'` and `=== 'H'` branches never run, so their reads of `prevLatLng` (which would throw for a leading H or V) are not modelled.
- Numbers are reals. JavaScript floating point, `NaN` and `Infinity` as coordinates are not modelled.

## Findings

| source | as written | input that shows it | evidently intended | confidence | as-written member | corrected member |
|---|---|---|---|---|---|---|
| L.Polycurve.js:78 | the sweep flag is read from `instr.sweepinstr.largeArc`, which throws on undefined | any A instruction with a radius | the sweep flag `instr.sweep?1:0` | high, not executed | Serializer.PartStrAsWritten, Serializer.ArcSweepDistinguished | Serializer.PartStr |
| L.Polycurve.js:80 | `instr.point\|\|instr.x\|\|instr.y\|\|""` skips a zero coordinate | an H whose layer x is 0 | write the coordinate whenever present | medium, not executed | Serializer.PartStrAsWritten, Serializer.ZeroAxisValue | Serializer.PartStr |
| L.Polycurve.js:99-122 | `filter` keeps the original records; `latlngToPoint` is called without a receiver, so `this._map` throws; `if (ptInstr.lat)` skips zero | an M with a target; a V at latitude 0 | `map` to projected copies, projecting every present coordinate | high, not executed | Projection.PointInstructionsAsWritten, Projection.MoveToAsWritten, Projection.ZeroLatitudeAsWritten | Projection.ProjectInstructions |
