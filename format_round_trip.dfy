/**
 * `format_text` read back by `parse_ansi_annotated`: for text without ESC the
 * decoder returns the text, no points, and one span over the whole text
 * carrying what the attributes leave active, or no span when nothing is.
 */
module FormatRoundTrip {

  import opened Wrappers
  import opened Bytes
  import opened AnsiTypes
  import opened SgrSet
  import opened AnsiCreator
  import opened AnsiInterpreter
  import opened DecoderProperties
  import opened RoundTrip

  /** The escapes the decoder reads from `Codes(attrs)`: one per attribute that has a code. */
  function SgrStream(attrs: seq<SgrAttribute>): (r: seq<AnsiEscape>)
    ensures forall k :: 0 <= k < |r| ==> r[k].Sgr? && r[k].attr in attrs && IsEncodable(r[k].attr)
    decreases |attrs|
  {
    if attrs == [] then []
    else
      var init, a := attrs[..|attrs| - 1], attrs[|attrs| - 1];
      var prev := SgrStream(init);
      assert forall x :: x in init ==> x in attrs;
      if IsEncodable(a) then prev + [Sgr(a)] else prev
  }

  /**
   * The attributes active after `attrs`, applied in order from none: a Reset
   * clears them all, any other attribute replaces the one of its kind, and an
   * attribute without a code changes nothing.
   */
  function Styles(attrs: seq<SgrAttribute>): (r: seq<SgrAttribute>)
    ensures ActiveOk(r)
    decreases |attrs|
  {
    if attrs == [] then []
    else
      var prev := Styles(attrs[..|attrs| - 1]);
      var a := attrs[|attrs| - 1];
      if !IsEncodable(a) then prev
      else if a.Reset? then []
      else
        MergeOk(prev, a);
        Insert(Evict(prev, a), a)
  }

  /**
   * Which attributes are active: exactly those with a code that no later
   * Reset and no later attribute of the same kind (with a code) overrides.
   */
  predicate Survives(attrs: seq<SgrAttribute>, i: nat)
    requires i < |attrs|
  {
    && IsEncodable(attrs[i]) && !attrs[i].Reset?
    && forall j :: i < j < |attrs| && IsEncodable(attrs[j]) ==> !attrs[j].Reset? && Rank(attrs[j]) != Rank(attrs[i])
  }

  /** One more attribute: what Styles keeps of the earlier ones, and whether it adds the new one. */
  lemma StylesStep(attrs: seq<SgrAttribute>, x: SgrAttribute)
    requires attrs != []
    ensures var a := attrs[|attrs| - 1];
      x in Styles(attrs) <==>
        (IsEncodable(a) && !a.Reset? && x == a) ||
        (x in Styles(attrs[..|attrs| - 1]) && (IsEncodable(a) ==> !a.Reset? && Rank(a) != Rank(x)))
  {
    var prev, a := Styles(attrs[..|attrs| - 1]), attrs[|attrs| - 1];
    if IsEncodable(a) && !a.Reset? {
      MergeOk(prev, a);
    }
  }

  /** An earlier attribute survives one more exactly when it survived before and the new one does not override it. */
  lemma SurvivesStep(attrs: seq<SgrAttribute>, i: nat)
    requires i < |attrs| - 1
    ensures var a := attrs[|attrs| - 1];
      Survives(attrs, i) <==>
        Survives(attrs[..|attrs| - 1], i) && (IsEncodable(a) ==> !a.Reset? && Rank(a) != Rank(attrs[i]))
  {
    var init := attrs[..|attrs| - 1];
    assert forall j :: i < j < |init| ==> init[j] == attrs[j];
  }

  lemma {:induction false} StylesMembers(attrs: seq<SgrAttribute>, x: SgrAttribute)
    ensures x in Styles(attrs) <==> exists i :: 0 <= i < |attrs| && attrs[i] == x && Survives(attrs, i)
    decreases |attrs|
  {
    if attrs != [] {
      var n := |attrs| - 1;
      var init, a := attrs[..n], attrs[n];
      StylesMembers(init, x);
      StylesStep(attrs, x);
      if x in Styles(attrs) {
        if IsEncodable(a) && !a.Reset? && x == a {
          assert Survives(attrs, n);
        } else {
          var i :| 0 <= i < |init| && init[i] == x && Survives(init, i);
          SurvivesStep(attrs, i);
          assert attrs[i] == x && Survives(attrs, i);
        }
      } else {
        forall i | 0 <= i < |attrs| && attrs[i] == x
          ensures !Survives(attrs, i)
        {
          if i < n {
            SurvivesStep(attrs, i);
            assert init[i] == x;
          }
        }
      }
    }
  }

  /** Reading the codes of `attrs` applies their escapes, whatever follows. */
  lemma {:induction false} ScanCodes(attrs: seq<SgrAttribute>, rest: seq<byte>, st: DecodeState)
    requires Sorted(st.active)
    ensures Scan(Codes(attrs) + rest, st) == Scan(rest, ApplyEscapes(st, SgrStream(attrs)))
    decreases |attrs|
  {
    if attrs == [] {
      assert Codes(attrs) + rest == rest;
    } else {
      var init, a := attrs[..|attrs| - 1], attrs[|attrs| - 1];
      var code := SgrCode(a);
      assert Codes(attrs) + rest == Codes(init) + (code + rest);
      ScanCodes(init, code + rest, st);
      var mid := ApplyEscapes(st, SgrStream(init));
      if IsEncodable(a) {
        EscapeRoundTrip(Sgr(a), rest);
        ScanUnfold(code + rest, mid);
        assert (code + rest)[|code|..] == rest;
        ApplyEscapesSnoc(st, SgrStream(init), Sgr(a));
        assert ApplyEscapes(mid, [Sgr(a)]) == ApplyEscape(ApplyEscapes(mid, []), Sgr(a));
      } else {
        assert code + rest == rest;
      }
    }
  }

  /** The shape of the state while only codes have been read. */
  predicate BeforeText(s: DecodeState) {
    StateOk(s) && s.outputPos == 0 && s.cleaned == [] && s.points == []
  }

  /** One attribute read before any text keeps that shape and updates the active set as Styles does. */
  lemma BeforeTextStep(prev: DecodeState, a: SgrAttribute)
    requires BeforeText(prev)
    ensures BeforeText(ApplySgr(prev, a))
    ensures ApplySgr(prev, a).active == (if a.Reset? then [] else Insert(Evict(prev.active, a), a))
  {
    ApplySgrOk(prev, a);
    if a.Reset? {
      ResetClosesSpan(prev);
    }
  }

  /** Before any text, a span is open at 0 exactly when something is active, and every closed span is empty. */
  lemma SpansEmptyBeforeText(s: DecodeState)
    requires BeforeText(s)
    ensures s.spanStart == if s.active != [] then Some(0) else None
    ensures forall sp :: sp in s.spans ==> sp.start == sp.end
  {
    forall sp | sp in s.spans ensures sp.start == sp.end {
      var k :| 0 <= k < |s.spans| && s.spans[k] == sp;
      assert SpanOk(s.spans[k], 0);
    }
  }

  /** After the codes of `attrs`, read from the start: nothing written, the styles of `attrs` active. */
  lemma {:induction false} CodesState(attrs: seq<SgrAttribute>)
    ensures var s := ApplyEscapes(Init(0), SgrStream(attrs));
      BeforeText(s) && s.active == Styles(attrs)
    decreases |attrs|
  {
    if attrs == [] {
      InitOk(0);
    } else {
      var init, a := attrs[..|attrs| - 1], attrs[|attrs| - 1];
      CodesState(init);
      var prev := ApplyEscapes(Init(0), SgrStream(init));
      if IsEncodable(a) {
        ApplyEscapesSnoc(Init(0), SgrStream(init), Sgr(a));
        BeforeTextStep(prev, a);
      }
    }
  }

  /** The codes, then the text, then the Reset that `format_text` always appends. */
  lemma FormatTextParts(text: seq<byte>, attrs: seq<SgrAttribute>)
    ensures FormatText(text, attrs) == Codes(attrs) + (text + RESET_CODE)
  {
    assert SgrCode(Reset) == RESET_CODE;
    assert Codes(attrs) + text + RESET_CODE == Codes(attrs) + (text + RESET_CODE);
  }

  /** The trailing Reset code is read as a Reset and nothing else. */
  lemma ScanReset(st: DecodeState)
    requires Sorted(st.active)
    ensures Scan(RESET_CODE, st) == ApplySgr(st, Reset)
  {
    assert RESET_CODE == EscapeCode(Sgr(Reset)) + [];
    EscapeRoundTrip(Sgr(Reset), []);
    ScanUnfold(RESET_CODE, st);
    assert ApplyEscapes(st, [Sgr(Reset)]) == ApplyEscape(ApplyEscapes(st, []), Sgr(Reset));
  }

  /** The state after the codes and the text keeps the invariant. */
  lemma AfterTextOk(s0: DecodeState, text: seq<byte>)
    requires BeforeText(s0)
    ensures StateOk(s0.(cleaned := text, outputPos := |text|))
  {
    var s1 := s0.(cleaned := text, outputPos := |text|);
    var bound := if s1.spanStart.Some? then s1.spanStart.value else s1.outputPos;
    forall k | 0 <= k < |s1.spans| ensures SpanOk(s1.spans[k], bound) {
      assert SpanOk(s0.spans[k], 0);
    }
  }

  /** What Finish makes of the spans closed before the text plus the span over the text. */
  lemma {:induction false} FinishSpans(early: seq<AnsiSpan>, tail: seq<AnsiSpan>)
    requires forall sp :: sp in early ==> sp.start == sp.end
    ensures DropEmpty(early + tail) == DropEmpty(tail)
    decreases |early|
  {
    if early != [] {
      assert (early + tail)[0] == early[0] && (early + tail)[1..] == early[1..] + tail;
      assert early[0] in early;
      FinishSpans(early[1..], tail);
    } else {
      assert early + tail == tail;
    }
  }

  /** The codes, then the text: everything of the formatted text but the Reset. */
  lemma ScanFormatted(text: seq<byte>, attrs: seq<SgrAttribute>)
    requires ESC !in text
    ensures Scan(FormatText(text, attrs), Init(0))
      == Scan(RESET_CODE, ApplyEscapes(Init(0), SgrStream(attrs)).(cleaned := text, outputPos := |text|))
  {
    var s0 := ApplyEscapes(Init(0), SgrStream(attrs));
    CodesState(attrs);
    calc {
      Scan(FormatText(text, attrs), Init(0));
    == { FormatTextParts(text, attrs); }
      Scan(Codes(attrs) + (text + RESET_CODE), Init(0));
    == { ScanCodes(attrs, text + RESET_CODE, Init(0)); }
      Scan(text + RESET_CODE, s0);
    == { ScanPlain(text, RESET_CODE, s0); }
      Scan(RESET_CODE, CopyText(s0, text));
    == { assert s0.cleaned + text == text; }
      Scan(RESET_CODE, s0.(cleaned := text, outputPos := |text|));
    }
  }

  /**
   * `parse_ansi_annotated(format_text(text, attrs))` for text without ESC:
   * the text itself, no points, and a single span over the whole text with
   * the styles of `attrs`, or no span when the text is empty or nothing is
   * active.
   */
  lemma FormatTextRoundTrip(text: seq<byte>, attrs: seq<SgrAttribute>)
    requires ESC !in text
    ensures Decode(FormatText(text, attrs)) == AnsiParseResult(
      text,
      if text != [] && Styles(attrs) != [] then [AnsiSpan(0, |text|, Styles(attrs))] else [],
      [])
  {
    var s0 := ApplyEscapes(Init(0), SgrStream(attrs));
    var s1 := s0.(cleaned := text, outputPos := |text|);
    ScanFormatted(text, attrs);
    CodesState(attrs);
    SpansEmptyBeforeText(s0);
    AfterTextOk(s0, text);
    ScanReset(s1);
    ResetClosesSpan(s1);
    var last := ApplySgr(s1, Reset);
    assert Decode(FormatText(text, attrs)) == Finish(last);
    assert CloseSpan(last) == last;
    var tail := if s0.active != [] then [AnsiSpan(0, |text|, s0.active)] else [];
    assert s0.active != [] ==> s1.spanStart == Some(0);
    assert last.spans == s1.spans + (if s1.active != [] then [AnsiSpan(s1.spanStart.value, s1.outputPos, s1.active)] else []);
    assert last.spans == s0.spans + tail;
    FinishSpans(s0.spans, tail);
    assert DropEmpty(tail) == if text != [] && Styles(attrs) != [] then [AnsiSpan(0, |text|, Styles(attrs))] else [];
  }
}
