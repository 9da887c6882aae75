/** The instruction model of L.Polycurve: control-point normalisation
    (`setInstructions`) and the envelope-point flattening done by
    `initialize` before the base polyline is set up. */
module Instructions {
  import opened Types

  // ---------------------------------------------------------------------
  // The `"CSQ".indexOf(instr.instr)` dispatch
  // ---------------------------------------------------------------------

  /** `needle` occurs in `hay` starting at index `k`. */
  predicate OccursAt(hay: string, needle: string, k: int) {
    0 <= k && k + |needle| <= |hay| && hay[k..k + |needle|] == needle
  }

  /** String.prototype.indexOf from a position within the string: the first
      index at or after `from` where `needle` occurs, or -1. */
  function IndexOfFrom(hay: string, needle: string, from: nat): (r: int)
    requires from <= |hay|
    ensures r == -1 || (from <= r && OccursAt(hay, needle, r))
    ensures r >= 0 ==> forall k :: from <= k < r ==> !OccursAt(hay, needle, k)
    ensures r == -1 <==> forall k :: from <= k ==> !OccursAt(hay, needle, k)
    decreases |hay| - from
  {
    if from + |needle| > |hay| then -1
    else if hay[from..from + |needle|] == needle then from
    else IndexOfFrom(hay, needle, from + 1)
  }

  function IndexOf(hay: string, needle: string): int {
    IndexOfFrom(hay, needle, 0)
  }

  /** The letters `setInstructions` gives a control point when none is
      supplied. Being a substring test, it accepts more than C, S and Q. */
  predicate IsCurveLetter(letter: string)
    ensures IsCurveLetter(letter) ==> letter !in {"H", "V", "Z", "z"}
  {
    CurveLetters(letter);
    IndexOf("CSQ", letter) != -1
  }

  /** The substring test selects exactly the substrings of "CSQ", the empty
      letter included. */
  lemma {:induction false} CurveLetters(letter: string)
    ensures IndexOf("CSQ", letter) != -1 <==> letter in {"", "C", "S", "Q", "CS", "SQ", "CSQ"}
  {
    var hay := "CSQ";
    var r := IndexOf(hay, letter);
    assert hay[0..1] == "C" && hay[1..2] == "S" && hay[2..3] == "Q";
    assert hay[0..2] == "CS" && hay[1..3] == "SQ" && hay[0..3] == "CSQ";
    if r != -1 {
      assert OccursAt(hay, letter, r);
      assert letter == hay[r..r + |letter|];
      if |letter| == 1 {
        assert r == 0 || r == 1 || r == 2;
      } else if |letter| == 2 {
        assert r == 0 || r == 1;
      }
    } else {
      assert !OccursAt(hay, letter, 0) && !OccursAt(hay, letter, 1) && !OccursAt(hay, letter, 2);
      assert hay[0..0] == "";
    }
  }

  // ---------------------------------------------------------------------
  // Control-point normalisation (setInstructions)
  // ---------------------------------------------------------------------

  /** The instruction typedef: every instruction but H, V and Z carries a
      `latlng`. */
  predicate Targeted(instr: Instr) {
    instr.latlng.Some? || instr.letter in {"H", "V", "Z", "z"}
  }

  /** What the `setInstructions` callback does to one instruction. */
  function Normalize(instr: Instr): (r: Instr)
    requires Targeted(instr)
    ensures r.(controls := instr.controls) == instr
    ensures instr.controls.None? && IsCurveLetter(instr.letter) ==>
              r.controls == Some([instr.latlng.value])
    ensures instr.controls.Some? && instr.letter == "C" && |instr.controls.value| == 1 ==>
              r.controls == Some([instr.controls.value[0], instr.controls.value[0]])
    ensures !(instr.controls.None? && IsCurveLetter(instr.letter)) &&
            !(instr.controls.Some? && instr.letter == "C" && |instr.controls.value| == 1) ==>
              r == instr
  {
    if instr.controls.None? then
      if IsCurveLetter(instr.letter) then
        instr.(controls := Some([instr.latlng.value]))
      else
        instr
    else if instr.letter == "C" && |instr.controls.value| == 1 then
      assert instr.controls.value + [instr.controls.value[0]]
          == [instr.controls.value[0], instr.controls.value[0]];
      instr.(controls := Some(instr.controls.value + [instr.controls.value[0]]))
    else
      instr
  }

  /** Normalising twice gives the result of normalising once, except for a
      C that arrived without controls: the first pass gives it one control
      and the second pass duplicates that control. */
  lemma {:induction false} NormalizeIdempotentIff(instr: Instr)
    requires Targeted(instr)
    ensures Targeted(Normalize(instr))
    ensures Normalize(Normalize(instr)) == Normalize(instr) <==>
              !(instr.letter == "C" && instr.controls.None?)
  {
    var once := Normalize(instr);
    assert Targeted(once);
    if instr.letter == "C" && instr.controls.None? {
      assert OccursAt("CSQ", "C", 0);
      assert IsCurveLetter("C");
      assert once.controls == Some([instr.latlng.value]);
      assert |Normalize(once).controls.value| == 2;
    }
  }

  // ---------------------------------------------------------------------
  // Envelope-point flattening (initialize)
  // ---------------------------------------------------------------------

  /** The defined `latlng` values of the instructions, in instruction order. */
  function Defined(ins: seq<Instr>): (r: seq<LatLng>)
    ensures |r| <= |ins|
  {
    if ins == [] then []
    else
      var last := ins[|ins| - 1];
      Defined(ins[..|ins| - 1]) + (if last.latlng.Some? then [last.latlng.value] else [])
  }

  /** `initialize`'s map/filter pass: each instruction yields its `latlng`
      (the tests `instr === 'V'` and `instr === 'H'` compare the record with
      a string and never hold, so `prevLatLng` is written but never read),
      then the undefined results are filtered out. */
  method FlattenEnvelope(ins: seq<Instr>) returns (latlngs: seq<LatLng>)
    ensures latlngs == Defined(ins)
    ensures |latlngs| <= |ins|
  {
    var mapped: seq<Option<LatLng>> := [];
    var prevLatLng: Option<LatLng> := None;
    for i := 0 to |ins|
      invariant |mapped| == i
      invariant forall k :: 0 <= k < i ==> mapped[k] == ins[k].latlng
    {
      var result := ins[i].latlng;
      prevLatLng := ins[i].latlng;
      mapped := mapped + [result];
    }
    latlngs := [];
    for i := 0 to |mapped|
      invariant latlngs == Defined(ins[..i])
    {
      assert ins[..i + 1][..i] == ins[..i];
      if mapped[i].Some? {
        latlngs := latlngs + [mapped[i].value];
      }
    }
    assert ins[..|ins|] == ins;
  }

  /** Flattening distributes over concatenation: the flattened list keeps
      instruction order. */
  lemma {:induction false} DefinedAppend(a: seq<Instr>, b: seq<Instr>)
    ensures Defined(a + b) == Defined(a) + Defined(b)
    decreases |b|
  {
    if b == [] {
      assert a + b == a;
    } else {
      var b' := b[..|b| - 1];
      assert (a + b)[..|a + b| - 1] == a + b';
      DefinedAppend(a, b');
    }
  }

  /** A coordinate is in the flattened list exactly when some instruction
      has it as its `latlng`; instructions without one (Z, H, V) add nothing. */
  lemma {:induction false} DefinedMembers(ins: seq<Instr>, p: LatLng)
    ensures p in Defined(ins) <==> exists i :: 0 <= i < |ins| && ins[i].latlng == Some(p)
  {
    if ins != [] {
      var init := ins[..|ins| - 1];
      DefinedMembers(init, p);
      if exists i :: 0 <= i < |init| && init[i].latlng == Some(p) {
        var i :| 0 <= i < |init| && init[i].latlng == Some(p);
        assert ins[i].latlng == Some(p);
      }
      if exists i :: 0 <= i < |ins| && ins[i].latlng == Some(p) {
        var i :| 0 <= i < |ins| && ins[i].latlng == Some(p);
        if i < |init| {
          assert init[i].latlng == Some(p);
        }
      }
    }
  }

  /** The flattened list is as long as the instruction list exactly when
      every instruction has a `latlng`. */
  lemma {:induction false} DefinedLength(ins: seq<Instr>)
    ensures |Defined(ins)| == |ins| <==> forall i :: 0 <= i < |ins| ==> ins[i].latlng.Some?
  {
    if ins != [] {
      var init := ins[..|ins| - 1];
      DefinedLength(init);
      if forall i :: 0 <= i < |ins| ==> ins[i].latlng.Some? {
        assert forall i :: 0 <= i < |init| ==> init[i].latlng.Some?;
      } else if ins[|ins| - 1].latlng.Some? {
        var i :| 0 <= i < |ins| && ins[i].latlng.None?;
        assert init[i].latlng.None?;
      }
    }
  }

  /** Flattening reads only the `latlng` fields, so normalisation, which
      touches only `controls`, leaves the flattened list as it was. */
  lemma {:induction false} DefinedSameTargets(a: seq<Instr>, b: seq<Instr>)
    requires |a| == |b|
    requires forall i :: 0 <= i < |a| ==> a[i].latlng == b[i].latlng
    ensures Defined(a) == Defined(b)
  {
    if a != [] {
      DefinedSameTargets(a[..|a| - 1], b[..|b| - 1]);
    }
  }
}
