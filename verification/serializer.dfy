/** Path-string serialisation (`getPathString` / `_getPathPartStr`): each
    projected instruction becomes its letter followed by its payload, and
    the parts are joined by single spaces. How JavaScript turns a point or a
    number into text is left abstract (Format). */
module Serializer {
  import opened Types

  /** The implicit `toString` of an L.Point and of a number. */
  datatype Format = Format(pointText: Point -> string, numText: real -> string)

  /** The total length of some strings. */
  function TotalLength(parts: seq<string>): nat {
    if parts == [] then 0 else TotalLength(parts[..|parts| - 1]) + |parts[|parts| - 1]|
  }

  /** Array.prototype.join: the strings with one separator between each
      neighbouring pair, and nothing else. */
  function Join(parts: seq<string>, sep: string): (r: string)
    ensures parts != [] ==> |r| == TotalLength(parts) + (|parts| - 1) * |sep|
    ensures parts == [] ==> r == ""
  {
    if |parts| == 0 then ""
    else if |parts| == 1 then parts[0]
    else
      assert parts[..|parts| - 1][..|parts| - 2] == parts[..|parts| - 2];
      assert (|parts| - 1) * |sep| == (|parts| - 2) * |sep| + |sep|;
      Join(parts[..|parts| - 1], sep) + sep + parts[|parts| - 1]
  }

  /** Joining two non-empty lists is joining their joins. */
  lemma {:induction false} JoinAppend(a: seq<string>, b: seq<string>, sep: string)
    requires a != [] && b != []
    ensures Join(a + b, sep) == Join(a, sep) + sep + Join(b, sep)
    decreases |b|
  {
    if |b| == 1 {
      assert (a + b)[..|a + b| - 1] == a;
    } else {
      var b' := b[..|b| - 1];
      assert (a + b)[..|a + b| - 1] == a + b';
      JoinAppend(a, b', sep);
    }
  }

  /** `largeArc?1:0`. */
  function Flag(b: bool): string {
    if b then "1" else "0"
  }

  /** `(instr.controls&&instr.controls||[]).join(' ')`: absent or empty
      controls give no text, and a single control is its point text alone. */
  function ControlsText(cs: Option<seq<Point>>, f: Format): (r: string)
    ensures cs.None? || cs.value == [] ==> r == ""
    ensures cs.Some? && |cs.value| == 1 ==> r == f.pointText(cs.value[0])
  {
    var points := cs.GetOr([]);
    Join(seq(|points|, i requires 0 <= i < |points| => f.pointText(points[i])), " ")
  }

  /** The arc fields before the sweep flag: radius x and y, angle (an
      absent angle joins as empty text) and the large-arc flag. */
  function ArcHead(pi: PtInstr, f: Format): seq<string>
    requires pi.radius.Some?
  {
    var angle := if pi.angle.Some? then f.numText(pi.angle.value) else "";
    [f.numText(pi.radius.value.x), f.numText(pi.radius.value.y), angle, Flag(pi.largeArc)]
  }

  /** The arc payload with the sweep flag read from `sweep`: the five arc
      fields joined by spaces, so the text is the joined head fields, one
      space and the sweep flag. */
  function ArcText(pi: PtInstr, f: Format): (r: string)
    requires pi.radius.Some?
    ensures r == Join(ArcHead(pi, f), " ") + " " + Flag(pi.sweep)
  {
    var fields := ArcHead(pi, f) + [Flag(pi.sweep)];
    assert fields[..4] == ArcHead(pi, f);
    Join(fields, " ")
  }

  /** The end of a part: the end point, else the lone x of H, else the lone
      y of V, else nothing; a present coordinate is written even when zero. */
  function Tail(pi: PtInstr, f: Format): (r: string)
    ensures pi.point.None? && pi.x.None? && pi.y.None? ==> r == ""
    ensures pi.point.None? && pi.x.Some? ==> r == f.numText(pi.x.value)
    ensures pi.point.None? && pi.x.None? && pi.y.Some? ==> r == f.numText(pi.y.value)
  {
    if pi.point.Some? then f.pointText(pi.point.value)
    else if pi.x.Some? then f.numText(pi.x.value)
    else if pi.y.Some? then f.numText(pi.y.value)
    else ""
  }

  /** `instr.point||instr.x||instr.y||""` as written: a zero x or y is falsy
      and is skipped. */
  function TailAsWritten(pi: PtInstr, f: Format): (r: string)
    ensures r == Tail(pi, f) ||
            (pi.point.None? && (pi.x == Some(0.0) || (pi.x.None? && pi.y == Some(0.0))))
    ensures pi.point.None? && pi.x == Some(0.0) && pi.y.None? ==> r == ""
  {
    if pi.point.Some? then f.pointText(pi.point.value)
    else if pi.x.Some? && pi.x.value != 0.0 then f.numText(pi.x.value)
    else if pi.y.Some? && pi.y.value != 0.0 then f.numText(pi.y.value)
    else ""
  }

  /** `_getPathPartStr` with the sweep flag and zero coordinates corrected.
      An A without a radius still fails on `instr.radius.x`. */
  function PartStr(pi: PtInstr, f: Format): (r: Result<string, Fault>)
    ensures r.Failure? <==> pi.letter == "A" && pi.radius.None?
    ensures r.Success? ==> |pi.letter| <= |r.value| && r.value[..|pi.letter|] == pi.letter
  {
    if pi.letter == "A" then
      if pi.radius.None? then Failure(ArcWithoutRadius)
      else Success(pi.letter + ArcText(pi, f) + Tail(pi, f))
    else
      Success(pi.letter + ControlsText(pi.controls, f) + Tail(pi, f))
  }

  /** `_getPathPartStr` as written: every A fails, on `instr.radius.x` when
      there is no radius and on `instr.sweepinstr.largeArc` otherwise. */
  function PartStrAsWritten(pi: PtInstr, f: Format): (r: Result<string, Fault>)
    ensures r.Failure? <==> pi.letter == "A"
    ensures r.Success? ==> |pi.letter| <= |r.value| && r.value[..|pi.letter|] == pi.letter
  {
    if pi.letter == "A" then
      Failure(if pi.radius.None? then ArcWithoutRadius else ArcSweepTypo)
    else
      Success(pi.letter + ControlsText(pi.controls, f) + TailAsWritten(pi, f))
  }

  /** Array.prototype.map with a callback that may throw: the results in
      order, or the fault of the first element that fails. */
  function MapAll<T, U, E>(xs: seq<T>, g: T -> Result<U, E>): (r: Result<seq<U>, E>)
    ensures r.Success? ==> |r.value| == |xs|
  {
    if xs == [] then Success([])
    else
      match g(xs[0])
      case Failure(e) => Failure(e)
      case Success(head) =>
        match MapAll(xs[1..], g)
        case Failure(e) => Failure(e)
        case Success(rest) => Success([head] + rest)
  }

  /** The map succeeds exactly when every call does, and then holds each
      call's result at its element's index. */
  lemma {:induction false} MapAllAt<T, U, E>(xs: seq<T>, g: T -> Result<U, E>)
    ensures MapAll(xs, g).Success? <==> forall i :: 0 <= i < |xs| ==> g(xs[i]).Success?
    ensures MapAll(xs, g).Success? ==>
              |MapAll(xs, g).value| == |xs| &&
              forall i :: 0 <= i < |xs| ==> g(xs[i]) == Success(MapAll(xs, g).value[i])
  {
    if xs != [] {
      MapAllAt(xs[1..], g);
      assert forall i :: 0 < i < |xs| ==> xs[i] == xs[1..][i - 1];
      if g(xs[0]).Success? && MapAll(xs[1..], g).Failure? {
        var i :| 0 <= i < |xs[1..]| && g(xs[1..][i]).Failure?;
        assert g(xs[i + 1]).Failure?;
      }
    }
  }

  /** Mapping a concatenation gives the concatenation of the results. */
  lemma {:induction false} MapAllAppend<T, U, E>(a: seq<T>, b: seq<T>, g: T -> Result<U, E>)
    requires MapAll(a, g).Success? && MapAll(b, g).Success?
    ensures MapAll(a + b, g) == Success(MapAll(a, g).value + MapAll(b, g).value)
  {
    var pb := MapAll(b, g).value;
    if a == [] {
      assert a + b == b;
      assert MapAll(a, g).value + pb == pb;
    } else {
      var head, rest := g(a[0]), MapAll(a[1..], g);
      assert head.Success? && rest.Success?;
      HeadTail(a, b);
      MapAllAppend(a[1..], b, g);
      assert [head.value] + (rest.value + pb) == [head.value] + rest.value + pb;
    }
  }

  /** `this._pointInstructions.map(_getPathPartStr)`. */
  function PartStrs(pis: seq<PtInstr>, f: Format): (r: Result<seq<string>, Fault>)
    ensures r.Success? <==> forall i :: 0 <= i < |pis| ==> PartStr(pis[i], f).Success?
    ensures r.Success? ==>
              |r.value| == |pis| &&
              forall i :: 0 <= i < |pis| ==> PartStr(pis[i], f) == Success(r.value[i])
  {
    MapAllAt(pis, pi => PartStr(pi, f));
    MapAll(pis, pi => PartStr(pi, f))
  }

  /** `getPathString`: the part strings joined by single spaces. */
  function PathString(pis: seq<PtInstr>, f: Format): (r: Result<string, Fault>)
    ensures r.Success? <==> forall i :: 0 <= i < |pis| ==> PartStr(pis[i], f).Success?
    ensures pis == [] ==> r == Success("")
  {
    match PartStrs(pis, f)
    case Failure(e) => Failure(e)
    case Success(parts) => Success(Join(parts, " "))
  }

  /** The path string is the per-instruction strings, in instruction order,
      joined by single spaces. */
  lemma PathStringIsJoin(pis: seq<PtInstr>, f: Format)
    requires PathString(pis, f).Success?
    ensures forall i :: 0 <= i < |pis| ==> PartStr(pis[i], f).Success?
    ensures PathString(pis, f).value ==
              Join(seq(|pis|, i requires 0 <= i < |pis| => PartStr(pis[i], f).value), " ")
  {
    var parts := PartStrs(pis, f).value;
    assert parts == seq(|pis|, i requires 0 <= i < |pis| => PartStr(pis[i], f).value);
  }

  lemma HeadTail<T>(a: seq<T>, b: seq<T>)
    requires a != []
    ensures (a + b)[0] == a[0] && (a + b)[1..] == a[1..] + b
  {
  }

  /** Serialising a concatenation is serialising each half and joining the
      two with one space. */
  lemma {:induction false} PathStringAppend(a: seq<PtInstr>, b: seq<PtInstr>, f: Format)
    requires a != [] && b != []
    requires PathString(a, f).Success? && PathString(b, f).Success?
    ensures PathString(a + b, f) == Success(PathString(a, f).value + " " + PathString(b, f).value)
  {
    MapAllAppend(a, b, pi => PartStr(pi, f));
    JoinAppend(PartStrs(a, f).value, PartStrs(b, f).value, " ");
  }

  /** A Z, which has no controls, point, x or y, serialises to exactly "Z". */
  lemma ClosePathPart(pi: PtInstr, f: Format)
    requires pi.letter == "Z"
    requires pi.controls.None? && pi.point.None? && pi.x.None? && pi.y.None?
    ensures PartStr(pi, f) == Success("Z")
  {
    assert ControlsText(pi.controls, f) == "";
  }

  /** A corrected arc part: the letter, the joined head fields, one space,
      the sweep flag and the end point. */
  lemma ArcPart(pi: PtInstr, f: Format)
    requires pi.letter == "A" && pi.radius.Some?
    ensures PartStr(pi, f) == Success("A" + Join(ArcHead(pi, f), " ") + " " + Flag(pi.sweep) + Tail(pi, f))
  {
    var j, fl, t := Join(ArcHead(pi, f), " "), Flag(pi.sweep), Tail(pi, f);
    assert "A" + (j + " " + fl) + t == "A" + j + " " + fl + t;
  }

  /** The corrected arc text tells the two sweep directions apart; as
      written, neither direction can be serialised. */
  lemma ArcSweepDistinguished(pi: PtInstr, f: Format)
    requires pi.letter == "A" && pi.radius.Some?
    ensures PartStr(pi.(sweep := true), f) != PartStr(pi.(sweep := false), f)
    ensures PartStrAsWritten(pi.(sweep := true), f) == Failure(ArcSweepTypo)
    ensures PartStrAsWritten(pi.(sweep := false), f) == Failure(ArcSweepTypo)
  {
    var on, off := pi.(sweep := true), pi.(sweep := false);
    ArcPart(on, f);
    ArcPart(off, f);
    assert ArcHead(on, f) == ArcHead(off, f) && Tail(on, f) == Tail(off, f);
    var prefix, t := "A" + Join(ArcHead(on, f), " ") + " ", Tail(on, f);
    assert (prefix + "1" + t)[|prefix|] == '1';
    assert (prefix + "0" + t)[|prefix|] == '0';
  }

  /** An H at layer x = 0 keeps its coordinate in the corrected text; as
      written the `||` chain skips it and the part is the bare letter. */
  lemma ZeroAxisValue(f: Format)
    ensures var h := PtInstr("H", None, None, Some(0.0), None, None, None, false, false);
      PartStr(h, f) == Success("H" + f.numText(0.0)) &&
      PartStrAsWritten(h, f) == Success("H")
  {
    var h := PtInstr("H", None, None, Some(0.0), None, None, None, false, false);
    assert ControlsText(h.controls, f) == "";
  }
}
