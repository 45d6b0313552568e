/**
 * The encoder and the decoder against each other: every escape the encoder
 * can write is read back as exactly that escape, and a formatted text reads
 * back as the text with one span of its attributes over all of it.
 */
module RoundTrip {

  import opened Wrappers
  import opened Bytes
  import opened Decimal
  import opened AnsiTypes
  import opened SgrSet
  import opened AnsiCreator
  import opened AnsiInterpreter
  import opened DecoderProperties

  // ---------------------------------------------------------------------
  // Scanning a control sequence in front of the rest of the input

  /** A control sequence in front of anything is read up to its final byte and no further. */
  lemma SequenceAhead(params: seq<byte>, final: byte, rest: seq<byte>)
    requires NoFinal(params) && IsFinal(final)
    ensures NextEscapes(CSI + params + [final] + rest) == Some((Classify(params, final), |params| + 3))
  {
    var s := CSI + params + [final] + rest;
    var end := |params| + 2;
    assert s[end] == final;
    forall i | 2 <= i < end ensures !IsFinal(s[i]) {
      assert s[i] == params[i - 2];
    }
    FirstFinalUnique(s, 2, end);
    assert s[2..end] == params;
  }

  /** Any control sequence, whatever follows it, is read as its classification and no further. */
  lemma ControlSequenceAhead(r: seq<byte>, rest: seq<byte>)
    requires IsControlSequence(r)
    ensures NextEscapes(r + rest) == Some((Classify(r[2..|r| - 1], r[|r| - 1]), |r|))
  {
    var params, final := r[2..|r| - 1], r[|r| - 1];
    ParameterBytesHaveNoFinal(params);
    assert r == CSI + params + [final];
    SequenceAhead(params, final, rest);
  }

  lemma ScanSequence(params: seq<byte>, final: byte, rest: seq<byte>, st: DecodeState)
    requires NoFinal(params) && IsFinal(final) && Sorted(st.active)
    ensures Scan(CSI + params + [final] + rest, st) == Scan(rest, ApplyEscapes(st, Classify(params, final)))
    ensures Strip(CSI + params + [final] + rest) == Strip(rest)
  {
    var s := CSI + params + [final] + rest;
    SequenceAhead(params, final, rest);
    ScanUnfold(s, st);
    StripUnfold(s);
    assert s[|params| + 3..] == rest;
  }

  lemma ParameterBytesHaveNoFinal(p: seq<byte>)
    requires ParameterBytes(p)
    ensures NoFinal(p)
  {
  }

  /** The decoder reads an encoded escape, whatever follows, as that escape applied to the state. */
  lemma ScanEscape(e: AnsiEscape, rest: seq<byte>, st: DecodeState)
    requires IsEncodableEscape(e) && Sorted(st.active)
    ensures Scan(EscapeCode(e) + rest, st) == Scan(rest, ApplyEscape(st, e))
  {
    var code := EscapeCode(e);
    EscapeRoundTrip(e, rest);
    ScanUnfold(code + rest, st);
    assert (code + rest)[|code|..] == rest;
    assert ApplyEscapes(st, [e]) == ApplyEscape(ApplyEscapes(st, []), e);
  }

  /** What Encodes says about the bytes themselves. */
  lemma EncodesShape(r: seq<byte>, params: seq<seq<byte>>, final: byte)
    requires Encodes(r, params, final)
    ensures r == CSI + r[2..|r| - 1] + [final]
    ensures NoFinal(r[2..|r| - 1]) && IsFinal(final)
    ensures r[2..|r| - 1] == Join(params)
  {
    JoinSplit(r[2..|r| - 1]);
    assert r == r[..2] + r[2..|r| - 1] + [r[|r| - 1]];
  }

  // ---------------------------------------------------------------------
  // Reading back what the encoder writes

  lemma {:induction false} NonEmptyKeepsNonEmpty(parts: seq<seq<byte>>)
    requires forall k :: 0 <= k < |parts| ==> parts[k] != []
    ensures NonEmpty(parts) == parts
    decreases |parts|
  {
    if parts != [] {
      NonEmptyKeepsNonEmpty(parts[1..]);
      assert parts == [parts[0]] + parts[1..];
    }
  }

  lemma PlainAttributeOfRank(a: SgrAttribute)
    requires !IsSlot(a)
    ensures PlainAttribute(Rank(a)) == a
  {
  }

  lemma NamedColorOfRank(c: Color)
    requires IsNamed(c)
    ensures NamedColor(ColorRank(c)) == c
  {
  }

  /** The number the encoder writes for a named colour is the row of the decoder's table for it. */
  lemma SimpleCodeOfNamed(c: Color)
    requires IsNamed(c)
    ensures SimpleCode(NamedCode(30, c)) == Some(Foreground(c))
    ensures SimpleCode(NamedCode(40, c)) == Some(Background(c))
  {
    NamedColorOfRank(c);
  }

  /** The decoder's table and the encoder's numbers agree on every single-number attribute, both ways. */
  lemma SimpleCodeMatchesEncoder(v: nat, a: SgrAttribute)
    ensures SimpleCode(v) == Some(a) <==>
      (!IsSlot(a) && v == Rank(a)) ||
      (a.Foreground? && IsNamed(a.color) && v == NamedCode(30, a.color)) ||
      (a.Background? && IsNamed(a.color) && v == NamedCode(40, a.color))
  {
    if !IsSlot(a) {
      PlainAttributeOfRank(a);
    } else if IsNamed(a.color) {
      SimpleCodeOfNamed(a.color);
    }
  }

  lemma SgrOfSingle(v: nat, a: SgrAttribute)
    requires SimpleCode(v) == Some(a) && !IsExtendedKind(v)
    ensures SgrOf([Digits(v)]) == [a]
  {
    var segs := [Digits(v)];
    assert LiteralValue(Digits(v)) == Some(v);
    assert SgrGroup(segs) == ([a], 1);
    assert segs[1..] == [];
  }

  lemma SgrOfIndexed(kind: nat, idx: u8)
    requires IsExtendedKind(kind)
    ensures SgrOf([Digits(kind), Digits(5), Digits(idx)]) == [Slot(kind, AnsiValue(idx))]
  {
    var segs := [Digits(kind), Digits(5), Digits(idx)];
    assert LiteralValue(Digits(kind)) == Some(kind);
    ParseDigits(idx, U8_MAX);
    assert SgrGroup(segs) == ([Slot(kind, AnsiValue(idx))], 3);
    assert segs[3..] == [];
  }

  lemma SgrOfTrueColor(kind: nat, r: u8, g: u8, b: u8)
    requires IsExtendedKind(kind)
    ensures SgrOf([Digits(kind), Digits(2), Digits(r), Digits(g), Digits(b)]) == [Slot(kind, Rgb24(r, g, b))]
  {
    var segs := [Digits(kind), Digits(2), Digits(r), Digits(g), Digits(b)];
    assert LiteralValue(segs[0]) == Some(kind) by {
      assert LiteralValue(Digits(kind)) == Some(kind);
    }
    assert segs[1] != Digits(5) && segs[1] == Digits(2);
    assert ParseU8(segs[2]) == Some(r as nat) by {
      ParseDigits(r, U8_MAX);
    }
    assert ParseU8(segs[3]) == Some(g as nat) by {
      ParseDigits(g, U8_MAX);
    }
    assert ParseU8(segs[4]) == Some(b as nat) by {
      ParseDigits(b, U8_MAX);
    }
    TrueColorGroup(segs, kind, r, g, b);
  }

  /** Five segments kind;2;r;g;b with values that parse: one colour in that slot. */
  lemma TrueColorGroup(segs: seq<seq<byte>>, kind: nat, r: u8, g: u8, b: u8)
    requires |segs| == 5 && IsExtendedKind(kind) && LiteralValue(segs[0]) == Some(kind)
    requires segs[1] != Digits(5) && segs[1] == Digits(2)
    requires ParseU8(segs[2]) == Some(r as nat) && ParseU8(segs[3]) == Some(g as nat) && ParseU8(segs[4]) == Some(b as nat)
    ensures SgrOf(segs) == [Slot(kind, Rgb24(r, g, b))]
  {
    assert SgrGroup(segs) == ([Slot(kind, Rgb24(r, g, b))], 5);
    assert segs[5..] == [];
    SgrOfUnfold(segs);
  }

  /** The segments the decoder sees in an encoded sequence are the parameters the encoder wrote. */
  lemma SegmentsOfEncoded(r: seq<byte>, params: seq<seq<byte>>, final: byte)
    requires Encodes(r, params, final)
    requires forall k :: 0 <= k < |params| ==> params[k] != []
    ensures Segments(r[2..|r| - 1]) == params
  {
    NonEmptyKeepsNonEmpty(params);
  }

  /** `r` is a control sequence whose parameters the SGR loop reads as exactly `attrs`. */
  predicate ReadsBackAs(r: seq<byte>, attrs: seq<SgrAttribute>) {
    |r| >= 3 && SgrOf(Segments(r[2..|r| - 1])) == attrs
  }

  /** A palette colour written with selector `kind` reads back as that colour in that slot. */
  lemma IndexedRoundTrip(kind: nat, idx: u8)
    requires IsExtendedKind(kind)
    ensures ReadsBackAs(Indexed(kind, idx), [Slot(kind, AnsiValue(idx))])
  {
    SegmentsOfEncoded(Indexed(kind, idx), [Digits(kind), Digits(5), Digits(idx)], CHAR_m);
    SgrOfIndexed(kind, idx);
  }

  /** A 24-bit colour written with selector `kind` reads back as that colour in that slot. */
  lemma TrueColorRoundTrip(kind: nat, r: u8, g: u8, b: u8)
    requires IsExtendedKind(kind)
    ensures ReadsBackAs(TrueColor(kind, r, g, b), [Slot(kind, Rgb24(r, g, b))])
  {
    SegmentsOfEncoded(TrueColor(kind, r, g, b), [Digits(kind), Digits(2), Digits(r), Digits(g), Digits(b)], CHAR_m);
    SgrOfTrueColor(kind, r, g, b);
  }

  /** A single-number attribute reads back as itself. */
  lemma NumericRoundTrip(v: nat, a: SgrAttribute)
    requires SimpleCode(v) == Some(a) && !IsExtendedKind(v)
    ensures ReadsBackAs(Numeric(v, CHAR_m), [a])
  {
    SegmentsOfEncoded(Numeric(v, CHAR_m), [Digits(v)], CHAR_m);
    SgrOfSingle(v, a);
  }

  /** The encoders' named colours are the single-number sequences of their numbers. */
  lemma NamedCodes(c: Color)
    requires IsNamed(c)
    ensures FgCode(c) == Numeric(NamedCode(30, c), CHAR_m)
    ensures BgCode(c) == Numeric(NamedCode(40, c), CHAR_m)
  {
  }

  /** A named colour reads back as itself, as a foreground and as a background. */
  lemma NamedRoundTrip(c: Color)
    requires IsNamed(c)
    ensures ReadsBackAs(FgCode(c), [Foreground(c)])
    ensures ReadsBackAs(BgCode(c), [Background(c)])
  {
    NamedCodes(c);
    SimpleCodeOfNamed(c);
    assert !IsExtendedKind(NamedCode(30, c)) && !IsExtendedKind(NamedCode(40, c));
    NumericRoundTrip(NamedCode(30, c), Foreground(c));
    NumericRoundTrip(NamedCode(40, c), Background(c));
  }

  lemma ForegroundRoundTrip(c: Color)
    ensures ReadsBackAs(FgCode(c), [Foreground(c)])
  {
    if c.AnsiValue? {
      assert FgCode(c) == Indexed(38, c.index) && Slot(38, AnsiValue(c.index)) == Foreground(c);
      IndexedRoundTrip(38, c.index);
    } else if c.Rgb24? {
      assert FgCode(c) == TrueColor(38, c.r, c.g, c.b) && Slot(38, Rgb24(c.r, c.g, c.b)) == Foreground(c);
      TrueColorRoundTrip(38, c.r, c.g, c.b);
    } else {
      NamedRoundTrip(c);
    }
  }

  lemma BackgroundRoundTrip(c: Color)
    ensures ReadsBackAs(BgCode(c), [Background(c)])
  {
    if c.AnsiValue? {
      assert BgCode(c) == Indexed(48, c.index) && Slot(48, AnsiValue(c.index)) == Background(c);
      IndexedRoundTrip(48, c.index);
    } else if c.Rgb24? {
      assert BgCode(c) == TrueColor(48, c.r, c.g, c.b) && Slot(48, Rgb24(c.r, c.g, c.b)) == Background(c);
      TrueColorRoundTrip(48, c.r, c.g, c.b);
    } else {
      NamedRoundTrip(c);
    }
  }

  lemma UnderlineColorRoundTrip(c: Color)
    requires !IsNamed(c)
    ensures ReadsBackAs(UnderlineColorCodeExplicit(c), [UnderlineColor(c)])
  {
    match c
    case AnsiValue(idx) => IndexedRoundTrip(58, idx);
    case Rgb24(r, g, b) => TrueColorRoundTrip(58, r, g, b);
  }

  /** The code of an attribute other than a colour slot is the single number of its rank. */
  lemma PlainCode(a: SgrAttribute)
    requires !IsSlot(a)
    ensures SgrCode(a) == Numeric(Rank(a), CHAR_m)
  {
  }

  /** Every attribute the encoder writes a sequence for reads back as itself, alone. */
  lemma SgrRoundTrip(a: SgrAttribute)
    requires IsEncodable(a)
    ensures ReadsBackAs(SgrCode(a), [a])
  {
    if !IsSlot(a) {
      PlainCode(a);
      PlainAttributeOfRank(a);
      NumericRoundTrip(Rank(a), a);
    } else if a.Foreground? {
      assert SgrCode(a) == FgCode(a.color);
      ForegroundRoundTrip(a.color);
    } else if a.Background? {
      assert SgrCode(a) == BgCode(a.color);
      BackgroundRoundTrip(a.color);
    } else {
      assert SgrCode(a) == UnderlineColorCodeExplicit(a.color);
      UnderlineColorRoundTrip(a.color);
    }
  }

  lemma CursorRoundTrip(m: CursorMove)
    ensures var r := CursorCode(m); ParseCursor(r[2..|r| - 1], r[|r| - 1]) == Some(m)
  {
    var r := CursorCode(m);
    var params := r[2..|r| - 1];
    if m.Position? {
      ParseDigits(m.row, U16_MAX);
      ParseDigits(m.col, U16_MAX);
    } else {
      EncodesShape(r, [Digits(m.n)], CursorFinal(m));
      assert params == Digits(m.n) && r[|r| - 1] == CursorFinal(m);
      ParseDigits(m.n, U16_MAX);
      MoveOfFinal(m, params);
    }
  }

  /** The final byte of a relative move selects that move again, with the count parsed from the parameters. */
  lemma MoveOfFinal(m: CursorMove, params: seq<byte>)
    requires !m.Position? && ParseU16(params) == Some(m.n)
    ensures ParseCursor(params, CursorFinal(m)) == Some(m)
  {
  }

  lemma EraseRoundTrip(e: Erase)
    ensures var r := EraseCode(e); ParseErase(r[2..|r| - 1], r[|r| - 1]) == Some(e)
  {
    var r := EraseCode(e);
    var k := EraseModeNum(e.mode);
    EncodesShape(r, [Digits(k)], if e.Display? then CHAR_J else CHAR_K);
    var params := r[2..|r| - 1];
    assert params == Digits(k);
    var got := ParseErase(params, r[|r| - 1]);
    assert got.Some?;
    var back := if got.value.mode.ToEnd? then 0 else if got.value.mode.ToStart? then 1 else 2;
    DigitsInjective(back, k);
    EraseModeNumInjective(got.value.mode, e.mode);
  }

  lemma DeviceRoundTrip(d: DeviceControl)
    ensures var r := DeviceCode(d); ParseDevice(r[2..|r| - 1], r[|r| - 1]) == Some(d)
  {
    var r := DeviceCode(d);
    var params := r[2..|r| - 1];
    if d.SaveCursor? || d.RestoreCursor? {
      EncodesShape(r, [[]], r[|r| - 1]);
      assert params == [];
    } else {
      EncodesShape(r, [QUERY_25], r[|r| - 1]);
      assert params == QUERY_25;
    }
  }

  /** `r` is a control sequence whose parameters and final byte classify as `e` alone. */
  predicate ClassifiesAs(r: seq<byte>, e: AnsiEscape) {
    |r| >= 3 && Classify(r[2..|r| - 1], r[|r| - 1]) == [e]
  }

  lemma ClassifySgrCode(a: SgrAttribute)
    requires IsEncodable(a)
    ensures ClassifiesAs(SgrCode(a), Sgr(a))
  {
    SgrRoundTrip(a);
    SgrClassifies(SgrCode(a), a);
  }

  /** A sequence ending in `m` whose parameters read back as one attribute classifies as that attribute. */
  lemma SgrClassifies(r: seq<byte>, a: SgrAttribute)
    requires ReadsBackAs(r, [a]) && r[|r| - 1] == CHAR_m
    ensures ClassifiesAs(r, Sgr(a))
  {
    assert SgrEscapes([a]) == [Sgr(a)];
  }

  lemma ClassifyCursorCode(m: CursorMove)
    ensures ClassifiesAs(CursorCode(m), Cursor(m))
  {
    var r := CursorCode(m);
    CursorRoundTrip(m);
    assert r[|r| - 1] != CHAR_m by {
      assert IsCursorFinal(r[|r| - 1]);
    }
  }

  lemma ClassifyEraseCode(x: Erase)
    ensures ClassifiesAs(EraseCode(x), AnsiEscape.Erase(x))
  {
    var r := EraseCode(x);
    EraseRoundTrip(x);
    assert ParseCursor(r[2..|r| - 1], r[|r| - 1]).None?;
  }

  lemma ClassifyDeviceCode(d: DeviceControl)
    ensures ClassifiesAs(DeviceCode(d), Device(d))
  {
    var r := DeviceCode(d);
    var params, final := r[2..|r| - 1], r[|r| - 1];
    assert final == CHAR_s || final == CHAR_u || final == CHAR_l || final == CHAR_h;
    DeviceRoundTrip(d);
    assert ParseCursor(params, final).None? && ParseErase(params, final).None?;
  }

  /** The classification of each encoded escape is that escape, alone. */
  lemma ClassifyRoundTrip(e: AnsiEscape)
    requires IsEncodableEscape(e)
    ensures ClassifiesAs(EscapeCode(e), e)
  {
    match e
    case Sgr(a) =>
      ClassifySgrCode(a);
    case Cursor(m) =>
      ClassifyCursorCode(m);
    case Erase(x) =>
      ClassifyEraseCode(x);
    case Device(d) =>
      ClassifyDeviceCode(d);
  }

  /**
   * For every escape but a named underline colour, the encoded escape is one
   * complete control sequence, and the decoder's look-ahead at it, whatever
   * follows, consumes exactly its bytes and yields exactly that escape.
   */
  lemma EscapeRoundTrip(e: AnsiEscape, rest: seq<byte>)
    requires IsEncodableEscape(e)
    ensures IsControlSequence(EscapeCode(e))
    ensures NextEscapes(EscapeCode(e) + rest) == Some(([e], |EscapeCode(e)|))
  {
    ControlSequenceAhead(EscapeCode(e), rest);
    ClassifyRoundTrip(e);
  }
  // ---------------------------------------------------------------------
  // Streams of text and escapes

  /** Text without ESC is copied byte by byte. */
  lemma {:induction false} ScanPlain(text: seq<byte>, rest: seq<byte>, st: DecodeState)
    requires Sorted(st.active) && ESC !in text
    ensures Scan(text + rest, st) == Scan(rest, CopyText(st, text))
    decreases |text|
  {
    if text == [] {
      assert text + rest == rest;
      assert st.cleaned + text == st.cleaned;
    } else {
      var st1 := Copy(st, text[0]);
      assert text[0] in text;
      assert text + rest == [text[0]] + (text[1..] + rest);
      ScanCopyByte(text[0], text[1..] + rest, st);
      ScanPlain(text[1..], rest, st1);
      CopyThenCopyText(st, text);
    }
  }

  /** A piece of decoder input: plain text, an escape as the encoder writes it, or any control sequence. */
  datatype Piece =
    | Text(bytes: seq<byte>)
    | Code(escape: AnsiEscape)
    | Csi(params: seq<byte>, final: byte)

  /** Text without ESC, an escape the encoder has a code for, a complete control sequence. */
  predicate PieceOk(p: Piece) {
    match p
    case Text(bytes) => ESC !in bytes
    case Code(e) => IsEncodableEscape(e)
    case Csi(params, final) => NoFinal(params) && IsFinal(final)
  }

  function PieceBytes(p: Piece): seq<byte> {
    match p
    case Text(bytes) => bytes
    case Code(e) => EscapeCode(e)
    case Csi(params, final) => CSI + params + [final]
  }

  /** The pieces written one after the other. */
  function Render(ps: seq<Piece>): seq<byte>
    decreases |ps|
  {
    if ps == [] then [] else PieceBytes(ps[0]) + Render(ps[1..])
  }

  /** What the decoder's state machine does with one piece. */
  function Step(st: DecodeState, p: Piece): (r: DecodeState)
    requires Sorted(st.active)
    ensures Sorted(r.active)
  {
    match p
    case Text(bytes) => CopyText(st, bytes)
    case Code(e) => ApplyEscape(st, e)
    case Csi(params, final) => ApplyEscapes(st, Classify(params, final))
  }

  /** ... and with each piece, in order. */
  function Run(st: DecodeState, ps: seq<Piece>): (r: DecodeState)
    requires Sorted(st.active)
    ensures Sorted(r.active)
    decreases |ps|
  {
    if ps == [] then st else Run(Step(st, ps[0]), ps[1..])
  }

  /** Render and Run, one piece further into the stream. */
  lemma PiecesAt(st: DecodeState, ps: seq<Piece>, k: nat)
    requires Sorted(st.active) && k < |ps|
    ensures Render(ps[k..]) == PieceBytes(ps[k]) + Render(ps[k + 1..])
    ensures Run(st, ps[k..]) == Run(Step(st, ps[k]), ps[k + 1..])
  {
    assert ps[k..][1..] == ps[k + 1..];
  }

  /** One well-formed piece in front of the unread input: the decoder takes exactly its Step. */
  lemma ScanPiece(p: Piece, rest: seq<byte>, st: DecodeState)
    requires Sorted(st.active) && PieceOk(p)
    ensures Scan(PieceBytes(p) + rest, st) == Scan(rest, Step(st, p))
  {
    match p
    case Text(bytes) => ScanPlain(bytes, rest, st);
    case Code(e) => ScanEscape(e, rest, st);
    case Csi(params, final) => ScanSequence(params, final, rest, st);
  }

  /** The decoder reads rendered pieces back one piece at a time. */
  lemma {:induction false} ScanRender(ps: seq<Piece>, st: DecodeState)
    requires Sorted(st.active)
    requires forall k :: 0 <= k < |ps| ==> PieceOk(ps[k])
    ensures Scan(Render(ps), st) == Run(st, ps)
    decreases |ps|
  {
    if ps != [] {
      var rest := Render(ps[1..]);
      assert Render(ps) == PieceBytes(ps[0]) + rest;
      assert PieceOk(ps[0]);
      ScanPiece(ps[0], rest, st);
      ScanRender(ps[1..], Step(st, ps[0]));
    }
  }
}
