/** Values shared by every part of the Polycurve model: Leaflet's coordinate
    types, the instruction record a Polycurve is built from, and the copy of
    it that projection produces. */
module Types {

  datatype Option<+T> = None | Some(value: T) {
    /** JavaScript's `x || d` for a value that is an object when present. */
    function GetOr(default: T): T {
      if Some? then value else default
    }
  }

  datatype Result<+T, +E> = Success(value: T) | Failure(error: E)

  /** A geographic coordinate (L.LatLng). */
  datatype LatLng = LatLng(lat: real, lng: real)

  /** A point of the map's layer plane (L.Point). */
  datatype Point = Point(x: real, y: real)

  /** One path instruction as the caller supplies it: a JavaScript object
      whose `instr` letter says which of the optional fields it uses.
      A field the object does not have is None. */
  datatype Instr = Instr(
    letter: string,                    // `instr`: M L H V C S Q T A Z z
    latlng: Option<LatLng>,            // end point; absent on H, V and Z
    controls: Option<seq<LatLng>>,     // control points of C, S and Q
    lat: Option<real>,                 // the one coordinate of V
    lng: Option<real>,                 // the one coordinate of H
    radius: Option<Point>,             // A
    angle: Option<real>,               // A
    largeArc: bool,                    // A; an absent flag reads as false
    sweep: bool)                       // A

  /** The layer-plane copy of an instruction that projection builds: `point`
      replaces `latlng`, `x` replaces `lng` and `y` replaces `lat`. */
  datatype PtInstr = PtInstr(
    letter: string,
    point: Option<Point>,
    controls: Option<seq<Point>>,
    x: Option<real>,
    y: Option<real>,
    radius: Option<Point>,
    angle: Option<real>,
    largeArc: bool,
    sweep: bool)

  /** The run-time TypeErrors the source can raise. */
  datatype Fault =
    | UnboundMapCall      // `this._map` read through an unbound `this`
    | ArcWithoutRadius    // `instr.radius.x` on an A without a radius
    | ArcSweepTypo        // `instr.sweepinstr.largeArc` on any A
    | NotProjected        // `this._pointInstructions` read before projection
}
