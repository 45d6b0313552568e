/**
 * Concrete decodings: inputs from the decoder's test cases, the pieces of
 * its malformed-input test, and what formatted text decodes to.
 */
module DecoderExamples {

  import opened Wrappers
  import opened Bytes
  import opened Decimal
  import opened AnsiTypes
  import opened SgrSet
  import opened AnsiCreator
  import opened AnsiInterpreter
  import opened DecoderProperties
  import opened RoundTrip
  import opened FormatRoundTrip

  /** "A\x1B[2BC": the text "AC" and one point, Down(2), at offset 1. */
  lemma CursorMovementExample()
    ensures Decode([CHAR_A, ESC, LEFT_BRACKET, 0x32, CHAR_B, CHAR_C])
      == AnsiParseResult([CHAR_A, CHAR_C], [], [AnsiPoint(1, Cursor(Down(2)))])
  {
    var input: seq<byte> := [CHAR_A, ESC, LEFT_BRACKET, 0x32, CHAR_B, CHAR_C];
    var s0 := Init(0);
    ScanUnfold(input, s0);
    var s1 := Copy(s0, CHAR_A);
    var rest := input[1..];
    assert rest == [ESC, LEFT_BRACKET, 0x32, CHAR_B, CHAR_C];
    assert FirstFinal(rest, 2) == Some(3);
    assert Digits(2) == [0x32];
    ParseDigits(2, U16_MAX);
    assert NextEscapes(rest) == Some(([Cursor(Down(2))], 4));
    ScanUnfold(rest, s1);
    var s2 := ApplyEscapes(s1, [Cursor(Down(2))]);
    assert s2 == s1.(points := [AnsiPoint(1, Cursor(Down(2)))]);
    assert rest[4..] == [CHAR_C];
    ScanUnfold([CHAR_C], s2);
    assert [CHAR_C][1..] == [];
    assert Scan(input, s0) == Copy(s2, CHAR_C);
  }

  /** A control sequence that yields one non-SGR escape adds a point at the current offset and changes nothing else. */
  lemma StepPoint(st: DecodeState, params: seq<byte>, final: byte, e: AnsiEscape)
    requires Sorted(st.active) && Classify(params, final) == [e] && !e.Sgr?
    ensures Step(st, Csi(params, final)) == st.(points := st.points + [AnsiPoint(st.outputPos, e)])
  {
    assert ApplyEscapes(st, [e]) == ApplyEscape(ApplyEscapes(st, []), e);
  }

  /** Well-formed pieces: the decoder's result is the final state of running them, closed. */
  lemma DecodePieces(ps: seq<Piece>, input: seq<byte>)
    requires forall k :: 0 <= k < |ps| ==> PieceOk(ps[k])
    requires Render(ps) == input
    ensures Decode(input) == Finish(Run(Init(0), ps))
  {
    ScanRender(ps, Init(0));
  }

  /** Running pieces one list after another runs their concatenation. */
  lemma {:induction false} RunAppend(st: DecodeState, xs: seq<Piece>, ys: seq<Piece>)
    requires Sorted(st.active)
    ensures Run(st, xs + ys) == Run(Run(st, xs), ys)
    decreases |xs|
  {
    if xs == [] {
      assert xs + ys == ys;
    } else {
      assert (xs + ys)[1..] == xs[1..] + ys;
      RunAppend(Step(st, xs[0]), xs[1..], ys);
    }
  }

  /** Writing pieces one list after another writes their concatenation. */
  lemma {:induction false} RenderAppend(xs: seq<Piece>, ys: seq<Piece>)
    ensures Render(xs + ys) == Render(xs) + Render(ys)
    decreases |xs|
  {
    if xs == [] {
      assert xs + ys == ys;
    } else {
      assert (xs + ys)[1..] == xs[1..] + ys;
      RenderAppend(xs[1..], ys);
    }
  }

  /** ESC [ 2 J and ESC [ 1 K: erase the whole display, erase the line up to the cursor. */
  lemma EraseCodesExample()
    ensures Classify([0x32], CHAR_J) == [AnsiEscape.Erase(Display(All))]
    ensures Classify([0x31], CHAR_K) == [AnsiEscape.Erase(Line(ToStart))]
  {
    assert Digits(0) == [0x30] && Digits(1) == [0x31] && Digits(2) == [0x32];
  }

  /** The erase test's input as pieces: text and ESC [ 2 J, ... */
  function EraseDisplayPieces(): seq<Piece> {
    [Text([CHAR_A]), Csi([0x32], CHAR_J)]
  }

  /** ... then text, ESC [ 1 K and text. */
  function EraseLinePieces(): seq<Piece> {
    [Text([CHAR_B]), Csi([0x31], CHAR_K), Text([CHAR_C])]
  }

  /** The erase test's pieces write its input. */
  lemma EraseRender()
    ensures Render(EraseDisplayPieces()) == [CHAR_A, ESC, LEFT_BRACKET, 0x32, CHAR_J]
    ensures Render(EraseLinePieces()) == [CHAR_B, ESC, LEFT_BRACKET, 0x31, CHAR_K, CHAR_C]
  {
  }

  /** After "A" and ESC [ 2 J: one letter written, Display(All) at offset 1. */
  lemma EraseDisplayRun(ps: seq<Piece>)
    requires ps == EraseDisplayPieces()
    ensures Run(Init(0), ps) == DecodeState(1, [CHAR_A], [], [AnsiPoint(1, AnsiEscape.Erase(Display(All)))], [], None, [])
  {
    var display := AnsiEscape.Erase(Display(All));
    EraseCodesExample();
    var s1 := DecodeState(1, [CHAR_A], [], [], [], None, []);
    var s2 := s1.(points := [AnsiPoint(1, display)]);
    assert Step(Init(0), ps[0]) == s1;
    StepPoint(s1, [0x32], CHAR_J, display);
    assert Step(s1, ps[1]) == s2;
    PiecesAt(Init(0), ps, 0);
    PiecesAt(s1, ps, 1);
    assert ps[2..] == [];
  }

  /** Then "B", ESC [ 1 K and "C": three letters written, Line(ToStart) at offset 2. */
  lemma EraseLineRun(st: DecodeState, ps: seq<Piece>)
    requires st == DecodeState(1, [CHAR_A], [], [AnsiPoint(1, AnsiEscape.Erase(Display(All)))], [], None, [])
    requires ps == EraseLinePieces()
    ensures Run(st, ps)
      == DecodeState(3, [CHAR_A, CHAR_B, CHAR_C], [],
                     [AnsiPoint(1, AnsiEscape.Erase(Display(All))), AnsiPoint(2, AnsiEscape.Erase(Line(ToStart)))], [], None, [])
  {
    var line := AnsiEscape.Erase(Line(ToStart));
    EraseCodesExample();
    var s1 := st.(outputPos := 2, cleaned := [CHAR_A, CHAR_B]);
    var s2 := s1.(points := st.points + [AnsiPoint(2, line)]);
    var s3 := s2.(outputPos := 3, cleaned := [CHAR_A, CHAR_B, CHAR_C]);
    assert Step(st, ps[0]) == s1;
    StepPoint(s1, [0x31], CHAR_K, line);
    assert Step(s1, ps[1]) == s2;
    assert Step(s2, ps[2]) == s3;
    PiecesAt(st, ps, 0);
    PiecesAt(s1, ps, 1);
    PiecesAt(s2, ps, 2);
    assert ps[3..] == [];
  }

  /** "A\x1B[2JB\x1B[1KC": the text "ABC", Display(All) at offset 1 and Line(ToStart) at offset 2. */
  lemma EraseDisplayAndLineExample()
    ensures Decode([CHAR_A, ESC, LEFT_BRACKET, 0x32, CHAR_J] + [CHAR_B, ESC, LEFT_BRACKET, 0x31, CHAR_K, CHAR_C])
      == AnsiParseResult([CHAR_A, CHAR_B, CHAR_C], [],
                         [AnsiPoint(1, AnsiEscape.Erase(Display(All))), AnsiPoint(2, AnsiEscape.Erase(Line(ToStart)))])
  {
    var head, tail := EraseDisplayPieces(), EraseLinePieces();
    var ps := head + tail;
    assert forall k :: 0 <= k < |ps| ==> PieceOk(ps[k]);
    RenderAppend(head, tail);
    EraseRender();
    DecodePieces(ps, Render(head) + Render(tail));
    RunAppend(Init(0), head, tail);
    EraseDisplayRun(head);
    EraseLineRun(Run(Init(0), head), tail);
  }

  /** ESC [ s, ESC [ u, ESC [ ?25l, ESC [ ?25h: save, restore, hide and show the cursor. */
  lemma DeviceCodesExample()
    ensures Classify([], CHAR_s) == [Device(SaveCursor)]
    ensures Classify([], CHAR_u) == [Device(RestoreCursor)]
    ensures Classify(QUERY_25, CHAR_l) == [Device(HideCursor)]
    ensures Classify(QUERY_25, CHAR_h) == [Device(ShowCursor)]
  {
    assert QUERY_25 != QUERY_25 + [CHAR_l] && QUERY_25 != QUERY_25 + [CHAR_h];
  }

  /** The device test's input as pieces: save and restore, with one letter after each, ... */
  function SaveRestorePieces(): seq<Piece> {
    [Text([CHAR_A]), Csi([], CHAR_s), Text([CHAR_B]), Csi([], CHAR_u)]
  }

  /** ... then hide and show. */
  function HideShowPieces(): seq<Piece> {
    [Text([CHAR_C]), Csi(QUERY_25, CHAR_l), Text([0x44]), Csi(QUERY_25, CHAR_h), Text([0x45])]
  }



  /** The device test's pieces write its input, ... */
  lemma SaveRestoreRender()
    ensures Render(SaveRestorePieces()) == [CHAR_A, ESC, LEFT_BRACKET, CHAR_s, CHAR_B, ESC, LEFT_BRACKET, CHAR_u]
  {
  }

  /** ... in two halves. */
  lemma HideShowRender()
    ensures Render(HideShowPieces())
      == [CHAR_C, ESC, LEFT_BRACKET, QUESTION, 0x32, 0x35, CHAR_l, 0x44, ESC, LEFT_BRACKET, QUESTION, 0x32, 0x35, CHAR_h, 0x45]
  {
    assert PieceBytes(Csi(QUERY_25, CHAR_l)) == [ESC, LEFT_BRACKET, QUESTION, 0x32, 0x35, CHAR_l];
    assert PieceBytes(Csi(QUERY_25, CHAR_h)) == [ESC, LEFT_BRACKET, QUESTION, 0x32, 0x35, CHAR_h];
  }

  /** After "A" ESC [ s "B" ESC [ u: two letters written, SaveCursor at 1 and RestoreCursor at 2. */
  lemma SaveRestoreRun(ps: seq<Piece>)
    requires ps == SaveRestorePieces()
    ensures Run(Init(0), ps)
      == DecodeState(2, [CHAR_A, CHAR_B], [], [AnsiPoint(1, Device(SaveCursor)), AnsiPoint(2, Device(RestoreCursor))], [], None, [])
  {
    DeviceCodesExample();
    var s1 := DecodeState(1, [CHAR_A], [], [], [], None, []);
    var s2 := s1.(points := [AnsiPoint(1, Device(SaveCursor))]);
    var s3 := s2.(outputPos := 2, cleaned := [CHAR_A, CHAR_B]);
    var s4 := s3.(points := [AnsiPoint(1, Device(SaveCursor)), AnsiPoint(2, Device(RestoreCursor))]);
    assert Step(Init(0), ps[0]) == s1;
    StepPoint(s1, [], CHAR_s, Device(SaveCursor));
    assert Step(s1, ps[1]) == s2;
    assert Step(s2, ps[2]) == s3;
    StepPoint(s3, [], CHAR_u, Device(RestoreCursor));
    assert Step(s3, ps[3]) == s4;
    PiecesAt(Init(0), ps, 0);
    PiecesAt(s1, ps, 1);
    PiecesAt(s2, ps, 2);
    PiecesAt(s3, ps, 3);
    assert ps[4..] == [];
  }

  /** Then "C" ESC [ ?25l "D" ESC [ ?25h "E": five letters, HideCursor at 3 and ShowCursor at 4. */
  lemma HideShowRun(st: DecodeState, ps: seq<Piece>)
    requires st == DecodeState(2, [CHAR_A, CHAR_B], [], [AnsiPoint(1, Device(SaveCursor)), AnsiPoint(2, Device(RestoreCursor))], [], None, [])
    requires ps == HideShowPieces()
    ensures Run(st, ps)
      == DecodeState(5, [CHAR_A, CHAR_B, CHAR_C, 0x44, 0x45], [],
                     [AnsiPoint(1, Device(SaveCursor)), AnsiPoint(2, Device(RestoreCursor)),
                      AnsiPoint(3, Device(HideCursor)), AnsiPoint(4, Device(ShowCursor))], [], None, [])
  {
    DeviceCodesExample();
    var s1 := st.(outputPos := 3, cleaned := [CHAR_A, CHAR_B, CHAR_C]);
    var s2 := s1.(points := st.points + [AnsiPoint(3, Device(HideCursor))]);
    var s3 := s2.(outputPos := 4, cleaned := [CHAR_A, CHAR_B, CHAR_C, 0x44]);
    var s4 := s3.(points := s2.points + [AnsiPoint(4, Device(ShowCursor))]);
    var s5 := s4.(outputPos := 5, cleaned := [CHAR_A, CHAR_B, CHAR_C, 0x44, 0x45]);
    assert Step(st, ps[0]) == s1;
    StepPoint(s1, QUERY_25, CHAR_l, Device(HideCursor));
    assert Step(s1, ps[1]) == s2;
    assert Step(s2, ps[2]) == s3;
    StepPoint(s3, QUERY_25, CHAR_h, Device(ShowCursor));
    assert Step(s3, ps[3]) == s4;
    assert Step(s4, ps[4]) == s5;
    PiecesAt(st, ps, 0);
    PiecesAt(s1, ps, 1);
    PiecesAt(s2, ps, 2);
    PiecesAt(s3, ps, 3);
    PiecesAt(s4, ps, 4);
    assert ps[5..] == [];
  }

  /** "A\x1B[sB\x1B[uC\x1B[?25lD\x1B[?25hE": the text "ABCDE" and the four device controls at offsets 1 to 4. */
  lemma DeviceControlExample()
    ensures Decode([CHAR_A, ESC, LEFT_BRACKET, CHAR_s, CHAR_B, ESC, LEFT_BRACKET, CHAR_u]
                   + [CHAR_C, ESC, LEFT_BRACKET, QUESTION, 0x32, 0x35, CHAR_l, 0x44, ESC, LEFT_BRACKET, QUESTION, 0x32, 0x35, CHAR_h, 0x45])
      == AnsiParseResult([CHAR_A, CHAR_B, CHAR_C, 0x44, 0x45], [],
                         [AnsiPoint(1, Device(SaveCursor)), AnsiPoint(2, Device(RestoreCursor)),
                          AnsiPoint(3, Device(HideCursor)), AnsiPoint(4, Device(ShowCursor))])
  {
    var head, tail := SaveRestorePieces(), HideShowPieces();
    var ps := head + tail;
    assert forall k :: 0 <= k < |ps| ==> PieceOk(ps[k]);
    RenderAppend(head, tail);
    SaveRestoreRender();
    HideShowRender();
    DecodePieces(ps, Render(head) + Render(tail));
    RunAppend(Init(0), head, tail);
    SaveRestoreRun(head);
    HideShowRun(Run(Init(0), head), tail);
  }

  /** The parameters 38;2;1;2 are four segments, the first of them 38. */
  lemma TruncatedTrueColorSegments()
    ensures Segments([0x33, 0x38, SEMICOLON, 0x32, SEMICOLON, 0x31, SEMICOLON, 0x32]) == [Digits(38), Digits(2), Digits(1), Digits(2)]
  {
    var segs := [Digits(38), Digits(2), Digits(1), Digits(2)];
    TruncatedTrueColorJoin();
    SplitJoin(segs);
    NonEmptyKeepsNonEmpty(segs);
  }

  /** 38, 2, 1 and 2 printed and joined with `;`. */
  lemma TruncatedTrueColorJoin()
    ensures Join([Digits(38), Digits(2), Digits(1), Digits(2)]) == [0x33, 0x38, SEMICOLON, 0x32, SEMICOLON, 0x31, SEMICOLON, 0x32]
  {
    assert Digits(38) == [0x33, 0x38] && Digits(2) == [0x32] && Digits(1) == [0x31];
  }

  /** ESC [ 38;2;1;2 m from the malformed-input test: a 24-bit colour without its blue value sets nothing. */
  lemma TruncatedTrueColorSequence()
    ensures Classify([0x33, 0x38, SEMICOLON, 0x32, SEMICOLON, 0x31, SEMICOLON, 0x32], CHAR_m) == []
  {
    var segs := [Digits(38), Digits(2), Digits(1), Digits(2)];
    TruncatedTrueColorSegments();
    assert LiteralValue(segs[0]) == Some(38);
    TruncatedTrueColorYieldsNothing(segs);
  }

  /** The malformed-input test's input as pieces: a cursor move and an unknown final byte, ... */
  function MalformedHead(): seq<Piece> {
    [Text([CHAR_A]), Csi([0x33, 0x31], CHAR_B), Csi([0x39, 0x39, 0x39], 0x5A)]
  }

  /** ... then a truncated 24-bit colour. */
  function MalformedTail(): seq<Piece> {
    [Text([CHAR_C]), Csi([0x33, 0x38, SEMICOLON, 0x32, SEMICOLON, 0x31, SEMICOLON, 0x32], CHAR_m), Text([0x44])]
  }

  /** The malformed-input test's pieces write its input, ... */
  lemma MalformedHeadRender()
    ensures Render(MalformedHead()) == [CHAR_A, ESC, LEFT_BRACKET, 0x33, 0x31, CHAR_B, ESC, LEFT_BRACKET, 0x39, 0x39, 0x39, 0x5A]
  {
  }

  /** ... in two halves. */
  lemma MalformedTailRender()
    ensures Render(MalformedTail())
      == [CHAR_C, ESC, LEFT_BRACKET, 0x33, 0x38, SEMICOLON, 0x32, SEMICOLON, 0x31, SEMICOLON, 0x32, CHAR_m, 0x44]
  {
  }

  /** After "A", ESC [ 31 B and ESC [ 999 Z: one letter written, Down(31) at offset 1. */
  lemma CursorThenUnknownRun(ps: seq<Piece>)
    requires ps == MalformedHead()
    ensures Run(Init(0), ps) == DecodeState(1, [CHAR_A], [], [AnsiPoint(1, Cursor(Down(31)))], [], None, [])
  {
    CursorDown31();
    UnknownFinalYieldsNothing();
    var s1 := DecodeState(1, [CHAR_A], [], [], [], None, []);
    var s2 := s1.(points := [AnsiPoint(1, Cursor(Down(31)))]);
    assert Step(Init(0), ps[0]) == s1;
    StepPoint(s1, [0x33, 0x31], CHAR_B, Cursor(Down(31)));
    assert Step(s1, ps[1]) == s2;
    assert Step(s2, ps[2]) == s2;
    PiecesAt(Init(0), ps, 0);
    PiecesAt(s1, ps, 1);
    PiecesAt(s2, ps, 2);
    assert ps[3..] == [];
  }

  /** Then "C", ESC [ 38;2;1;2 m and "D": three letters written, no attribute set, no new point. */
  lemma TruncatedColorRun(st: DecodeState, ps: seq<Piece>)
    requires st == DecodeState(1, [CHAR_A], [], [AnsiPoint(1, Cursor(Down(31)))], [], None, [])
    requires ps == MalformedTail()
    ensures Run(st, ps) == DecodeState(3, [CHAR_A, CHAR_C, 0x44], [], [AnsiPoint(1, Cursor(Down(31)))], [], None, [])
  {
    TruncatedTrueColorSequence();
    var s1 := st.(outputPos := 2, cleaned := [CHAR_A, CHAR_C]);
    var s2 := s1.(outputPos := 3, cleaned := [CHAR_A, CHAR_C, 0x44]);
    assert Step(st, ps[0]) == s1;
    assert Step(s1, ps[1]) == s1;
    assert Step(s1, ps[2]) == s2;
    PiecesAt(st, ps, 0);
    PiecesAt(s1, ps, 1);
    PiecesAt(s1, ps, 2);
    assert ps[3..] == [];
  }

  /**
   * "A\x1B[31B\x1B[999ZC\x1B[38;2;1;2mD", the malformed-input test: the text
   * "ACD"; the first sequence is a well-formed Down(31), the other two yield nothing.
   */
  lemma MalformedSequencesExample()
    ensures Decode([CHAR_A, ESC, LEFT_BRACKET, 0x33, 0x31, CHAR_B, ESC, LEFT_BRACKET, 0x39, 0x39, 0x39, 0x5A]
                   + [CHAR_C, ESC, LEFT_BRACKET, 0x33, 0x38, SEMICOLON, 0x32, SEMICOLON, 0x31, SEMICOLON, 0x32, CHAR_m, 0x44])
      == AnsiParseResult([CHAR_A, CHAR_C, 0x44], [], [AnsiPoint(1, Cursor(Down(31)))])
  {
    var head, tail := MalformedHead(), MalformedTail();
    var ps := head + tail;
    assert forall k :: 0 <= k < |ps| ==> PieceOk(ps[k]);
    RenderAppend(head, tail);
    MalformedHeadRender();
    MalformedTailRender();
    DecodePieces(ps, Render(head) + Render(tail));
    RunAppend(Init(0), head, tail);
    CursorThenUnknownRun(head);
    TruncatedColorRun(Run(Init(0), head), tail);
  }

  /** ESC [ +3 A: `str::parse` accepts a leading `+`, so the count is 3. */
  lemma PlusSignCountExample()
    ensures Classify([PLUS, 0x33], CHAR_A) == [Cursor(Up(3))]
  {
    ParseDigitText([0x33], U16_MAX);
    assert [PLUS] + [0x33] == [PLUS, 0x33];
  }

  /** ESC [ 38;5;007 m: leading zeros are accepted in a colour index. */
  lemma LeadingZeroIndexExample()
    ensures SgrOf([Digits(38), Digits(5), [0x30, 0x30, 0x37]]) == [Foreground(AnsiValue(7))]
  {
    var segs := [Digits(38), Digits(5), [0x30, 0x30, 0x37]];
    assert LiteralValue(Digits(38)) == Some(38);
    ParseDigitText([0x30, 0x30, 0x37], U8_MAX);
    assert SgrGroup(segs) == ([Foreground(AnsiValue(7))], 3);
    assert segs[3..] == [];
  }

  /**
   * ESC ESC [ m [: the first ESC is not followed by `[` and is copied, the
   * empty SGR sequence sets nothing, and the last `[` is copied. The cleaned
   * text is ESC `[`, which a second decoding would read as the start of a
   * control sequence.
   */
  lemma EscapeBeforeSequenceExample()
    ensures Decode([ESC, ESC, LEFT_BRACKET, CHAR_m, LEFT_BRACKET]) == AnsiParseResult([ESC, LEFT_BRACKET], [], [])
  {
    var input: seq<byte> := [ESC, ESC, LEFT_BRACKET, CHAR_m, LEFT_BRACKET];
    var s0 := Init(0);
    assert !StartsCsi(input);
    ScanUnfold(input, s0);
    var s1 := Copy(s0, ESC);
    var rest := input[1..];
    assert rest == [ESC, LEFT_BRACKET, CHAR_m, LEFT_BRACKET];
    assert FirstFinal(rest, 2) == Some(2);
    EmptySgrSetsNothing();
    assert rest[2..2] == [];
    assert NextEscapes(rest) == Some(([], 3));
    ScanUnfold(rest, s1);
    assert ApplyEscapes(s1, []) == s1;
    assert rest[3..] == [LEFT_BRACKET];
    ScanUnfold([LEFT_BRACKET], s1);
    assert [LEFT_BRACKET][1..] == [];
    assert Scan(input, s0) == Copy(s1, LEFT_BRACKET);
  }

  /** ESC [ m: the empty parameter string has no segment, so an empty SGR sequence is not a Reset. */
  lemma EmptySgrSetsNothing()
    ensures Classify([], CHAR_m) == []
  {
    assert Split([]) == [[]];
  }

  /** ESC [ 31 B, from the malformed-input test: a cursor move down by 31. */
  lemma CursorDown31()
    ensures Classify([0x33, 0x31], CHAR_B) == [Cursor(Down(31))]
  {
    assert Digits(31) == [0x33, 0x31];
    ParseDigits(31, U16_MAX);
  }

  /** ESC [ 999 Z, from the malformed-input test: a final byte no family claims yields nothing. */
  lemma UnknownFinalYieldsNothing()
    ensures Classify([0x39, 0x39, 0x39], 0x5A) == []
  {
  }

  /**
   * Four segments kind;2;r;g, as in the malformed-input test's 38;2;1;2: a
   * 24-bit colour missing its blue value sets nothing and consumes everything.
   */
  lemma TruncatedTrueColorYieldsNothing(segs: seq<seq<byte>>)
    requires |segs| == 4 && segs[1] == Digits(2)
    requires var kind := LiteralValue(segs[0]); kind.Some? && IsExtendedKind(kind.value)
    ensures SgrOf(segs) == []
  {
    assert Digits(2) != Digits(5) by {
      assert Digits(2) == [0x32] && Digits(5) == [0x35];
    }
    assert SgrGroup(segs) == ([], 4);
    assert segs[4..] == [];
    SgrOfUnfold(segs);
  }

  /** An attribute's code, the text, the Reset: one span over the whole text with that attribute alone. */
  lemma SingleStyleExample(text: seq<byte>, a: SgrAttribute)
    requires ESC !in text && IsEncodable(a) && !a.Reset?
    ensures Decode(FormatText(text, [a]))
      == AnsiParseResult(text, if text != [] then [AnsiSpan(0, |text|, [a])] else [], [])
  {
    FormatTextRoundTrip(text, [a]);
    assert [a][..0] == [];
    assert Styles([a]) == Insert(Evict([], a), a);
  }

  /** The styles of Bold, a foreground colour and Underline, in rank order. */
  lemma StylesByRank(c: Color)
    ensures Styles([Bold, Foreground(c), Underline]) == [Bold, Underline, Foreground(c)]
  {
    var attrs := [Bold, Foreground(c), Underline];
    var prev := [Bold, Foreground(c)];
    assert Styles(attrs[..2]) == prev by {
      BoldThenColor(c);
      assert attrs[..2] == prev;
    }
    UnderlineKeepsColor(c);
    UnderlineBetween(c);
  }

  /** Underline evicts only an earlier Underline, so Bold and the colour stay. */
  lemma UnderlineKeepsColor(c: Color)
    ensures Evict([Bold, Foreground(c)], Underline) == [Bold, Foreground(c)]
  {
    var prev := [Bold, Foreground(c)];
    var kept := Evict(prev, Underline);
    forall x ensures x in kept <==> x in prev {
    }
    SortedSetEquality(kept, prev);
  }

  /** Underline (rank 4) goes between Bold (rank 1) and a foreground colour (rank 10). */
  lemma UnderlineBetween(c: Color)
    ensures Insert([Bold, Foreground(c)], Underline) == [Bold, Underline, Foreground(c)]
  {
    assert [Bold, Foreground(c)][1..] == [Foreground(c)];
  }

  /** Bold, then a foreground colour: both stay, Bold first. */
  lemma BoldThenColor(c: Color)
    ensures Styles([Bold, Foreground(c)]) == [Bold, Foreground(c)]
  {
    var attrs := [Bold, Foreground(c)];
    var want := [Bold, Foreground(c)];
    assert Styles(attrs[..1]) == [Bold] by {
      assert attrs[..1] == [Bold] && [Bold][..0] == [];
    }
    forall x ensures x in Styles(attrs) <==> x in want {
      StylesStep(attrs, x);
    }
    SortedSetEquality(Styles(attrs), want);
  }

  /** Bold, a foreground colour, Underline: the span lists them in declaration order, not in the order written. */
  lemma StyleOrderExample(text: seq<byte>, c: Color)
    requires ESC !in text && text != []
    ensures Decode(FormatText(text, [Bold, Foreground(c), Underline]))
      == AnsiParseResult(text, [AnsiSpan(0, |text|, [Bold, Underline, Foreground(c)])], [])
  {
    FormatTextRoundTrip(text, [Bold, Foreground(c), Underline]);
    StylesByRank(c);
  }
}
