/**
 * The decoder: a single pass over the input bytes that removes each
 * control sequence (ESC [ parameter bytes, final byte), classifies it into
 * escape values, and runs a small state machine over the SGR attributes to
 * produce half-open style spans over the cleaned text and zero-width point
 * events for every other escape.
 *
 * The scan is specified by functions over the unread suffix of the input
 * (NextEscapes, Scan, Finish); the parser object and its methods are proved
 * to compute exactly those functions.
 */
module AnsiInterpreter {

  import opened Wrappers
  import opened Bytes
  import opened Decimal
  import opened AnsiTypes
  import opened SgrSet

  /** A range [start, end) of the cleaned text and the attributes in force over it. */
  datatype AnsiSpan = AnsiSpan(start: nat, end: nat, codes: seq<SgrAttribute>)

  /** A non-SGR escape and the offset in the cleaned text where it occurred. */
  datatype AnsiPoint = AnsiPoint(pos: nat, code: AnsiEscape)

  datatype AnsiParseResult = AnsiParseResult(text: seq<byte>, spans: seq<AnsiSpan>, points: seq<AnsiPoint>)

  // ---------------------------------------------------------------------
  // SGR parameters

  /** The `;`-separated pieces of a parameter string that are not empty. */
  function NonEmpty(parts: seq<seq<byte>>): (r: seq<seq<byte>>)
    ensures |r| <= |parts|
    ensures forall k :: 0 <= k < |r| ==> r[k] != []
    ensures forall p :: p in r <==> p in parts && p != []
    decreases |parts|
  {
    if parts == [] then []
    else (if parts[0] == [] then [] else [parts[0]]) + NonEmpty(parts[1..])
  }

  /** `params.split(';').filter(|s| !s.is_empty())`. */
  function Segments(params: seq<byte>): (r: seq<seq<byte>>)
    ensures forall k :: 0 <= k < |r| ==> r[k] != [] && SEMICOLON !in r[k]
    ensures SEMICOLON !in params ==> r == (if params == [] then [] else [params])
  {
    var parts := Split(params);
    assert forall p :: p in parts ==> SEMICOLON !in p;
    NonEmpty(parts)
  }

  /** The effect with the given place in the declaration of SgrAttribute, from Reset (0) to CrossedOut (9). */
  function PlainAttribute(k: nat): (a: SgrAttribute)
    requires k < 10
    ensures Rank(a) == k
  {
    match k
    case 0 => Reset
    case 1 => Bold
    case 2 => Faint
    case 3 => Italic
    case 4 => Underline
    case 5 => BlinkSlow
    case 6 => BlinkRapid
    case 7 => Reverse
    case 8 => Conceal
    case 9 => CrossedOut
  }

  /** The named colour with the given place in the declaration of Color. */
  function NamedColor(k: nat): (c: Color)
    requires k < 16
    ensures ColorRank(c) == k && IsNamed(c)
  {
    match k
    case 0 => Black
    case 1 => Red
    case 2 => Green
    case 3 => Yellow
    case 4 => Blue
    case 5 => Magenta
    case 6 => Cyan
    case 7 => White
    case 8 => BrightBlack
    case 9 => BrightRed
    case 10 => BrightGreen
    case 11 => BrightYellow
    case 12 => BrightBlue
    case 13 => BrightMagenta
    case 14 => BrightCyan
    case 15 => BrightWhite
  }

  /**
   * The single-number rows of the SGR table: 0-9 the effects, 30-37 and
   * 90-97 the named foregrounds, 40-47 and 100-107 the named backgrounds.
   */
  function SimpleCode(v: nat): (r: Option<SgrAttribute>)
    ensures r.Some? ==> !r.value.UnderlineColor?
    ensures r.Some? && IsSlot(r.value) ==> IsNamed(r.value.color)
  {
    if v < 10 then Some(PlainAttribute(v))
    else if 30 <= v < 38 then Some(Foreground(NamedColor(v - 30)))
    else if 90 <= v < 98 then Some(Foreground(NamedColor(v - 90 + 8)))
    else if 40 <= v < 48 then Some(Background(NamedColor(v - 40)))
    else if 100 <= v < 108 then Some(Background(NamedColor(v - 100 + 8)))
    else None
  }

  /** 38, 48 and 58 introduce an extended foreground, background and underline colour. */
  predicate IsExtendedKind(v: nat) {
    v == 38 || v == 48 || v == 58
  }

  function Slot(kind: nat, c: Color): (a: SgrAttribute)
    requires IsExtendedKind(kind)
    ensures a.Foreground? <==> kind == 38
    ensures a.Background? <==> kind == 48
    ensures a.UnderlineColor? <==> kind == 58
    ensures IsSlot(a) && a.color == c
  {
    if kind == 38 then Foreground(c) else if kind == 48 then Background(c) else UnderlineColor(c)
  }

  /**
   * One turn of `parse_sgr`'s loop on the remaining segments: the attributes
   * it pushes (none or one) and how many segments it pulled from the iterator.
   * An extended colour pulls its mode and values even when they do not parse.
   */
  function SgrGroup(segs: seq<seq<byte>>): (r: (seq<SgrAttribute>, nat))
    requires segs != []
    ensures 1 <= r.1 <= |segs| && |r.0| <= 1
  {
    var code := LiteralValue(segs[0]);
    if code.Some? && IsExtendedKind(code.value) then
      if |segs| < 2 then ([], 1)
      else if segs[1] == Digits(5) then
        if |segs| < 3 then ([], 2)
        else
          var idx := ParseU8(segs[2]);
          if idx.Some? then ([Slot(code.value, AnsiValue(idx.value))], 3) else ([], 3)
      else if segs[1] == Digits(2) then
        var r := if |segs| > 2 then ParseU8(segs[2]) else None;
        var g := if |segs| > 3 then ParseU8(segs[3]) else None;
        var b := if |segs| > 4 then ParseU8(segs[4]) else None;
        var used := if |segs| < 5 then |segs| else 5;
        if r.Some? && g.Some? && b.Some? then ([Slot(code.value, Rgb24(r.value, g.value, b.value))], used)
        else ([], used)
      else ([], 2)
    else if code.Some? && SimpleCode(code.value).Some? then ([SimpleCode(code.value).value], 1)
    else ([], 1)
  }

  /** The attributes `parse_sgr` returns for a list of segments, in order. */
  function SgrOf(segs: seq<seq<byte>>): (r: seq<SgrAttribute>)
    ensures |r| <= |segs|
    decreases |segs|
  {
    if segs == [] then []
    else
      var group := SgrGroup(segs);
      group.0 + SgrOf(segs[group.1..])
  }

  /**
   * The `"38" | "48" | "58"` arm of `parse_sgr`: the kind was read from
   * segment `i - 1`; pull the mode and its values from segment `i` on.
   */
  method PullExtended(segs: seq<seq<byte>>, i: nat, kind: nat) returns (pushed: seq<SgrAttribute>, j: nat)
    requires 1 <= i <= |segs| && IsExtendedKind(kind) && LiteralValue(segs[i - 1]) == Some(kind)
    ensures i <= j <= |segs|
    ensures (pushed, j - (i - 1)) == SgrGroup(segs[i - 1..])
  {
    ghost var rest := segs[i - 1..];
    assert rest[0] == segs[i - 1];
    pushed := [];
    j := i;
    if j < |segs| {
      var next := segs[j];
      assert next == rest[1];
      j := j + 1;
      if next == Digits(5) {
        if j < |segs| {
          var val := segs[j];
          assert val == rest[2];
          j := j + 1;
          var idx := ParseU8(val);
          if idx.Some? {
            pushed := [Slot(kind, AnsiValue(idx.value))];
          }
        }
        assert (pushed, j - (i - 1)) == SgrGroup(rest);
      } else if next == Digits(2) {
        var r, g, b;
        r, j := NextU8(segs, j);
        g, j := NextU8(segs, j);
        b, j := NextU8(segs, j);
        assert |rest| > 2 ==> rest[2] == segs[i + 1];
        assert |rest| > 3 ==> rest[3] == segs[i + 2];
        assert |rest| > 4 ==> rest[4] == segs[i + 3];
        if r.Some? && g.Some? && b.Some? {
          pushed := [Slot(kind, Rgb24(r.value, g.value, b.value))];
        }
        assert (pushed, j - (i - 1)) == SgrGroup(rest);
      }
    }
  }

  /** `iter.next().and_then(|v| v.parse::<u8>().ok())`: the next segment as a byte value, if any. */
  method NextU8(segs: seq<seq<byte>>, j: nat) returns (v: Option<nat>, next: nat)
    requires j <= |segs|
    ensures j < |segs| ==> v == ParseU8(segs[j]) && next == j + 1
    ensures j == |segs| ==> v.None? && next == j
  {
    if j < |segs| {
      v, next := ParseU8(segs[j]), j + 1;
    } else {
      v, next := None, j;
    }
  }

  /** The first turn of `parse_sgr`'s loop, and what the rest of the loop adds. */
  lemma SgrOfUnfold(segs: seq<seq<byte>>)
    requires segs != []
    ensures SgrOf(segs) == SgrGroup(segs).0 + SgrOf(segs[SgrGroup(segs).1..])
    ensures var code := LiteralValue(segs[0]);
      !(code.Some? && IsExtendedKind(code.value)) ==>
        SgrGroup(segs) == (if code.Some? && SimpleCode(code.value).Some? then [SimpleCode(code.value).value] else [], 1)
  {
  }

  /** A first segment that is not 38, 48 or 58 is a group of its own, which pushes its simple code if it has one. */
  lemma SimpleGroup(segs: seq<seq<byte>>, pushed: seq<SgrAttribute>)
    requires segs != []
    requires var code := LiteralValue(segs[0]);
      !(code.Some? && IsExtendedKind(code.value))
      && pushed == (if code.Some? && SimpleCode(code.value).Some? then [SimpleCode(code.value).value] else [])
    ensures SgrGroup(segs) == (pushed, 1)
  {
  }

  /** `parse_sgr`: pulls segments from the filtered split and pushes what each group denotes. */
  method ParseSgr(params: seq<byte>) returns (result: seq<SgrAttribute>)
    ensures result == SgrOf(Segments(params))
  {
    var segs := Segments(params);
    result := [];
    var i := 0;
    assert segs[i..] == segs;
    while i < |segs|
      invariant 0 <= i <= |segs|
      invariant result + SgrOf(segs[i..]) == SgrOf(segs)
      decreases |segs| - i
    {
      var pushed, next := PullGroup(segs, i);
      SgrOfStep(segs, i, pushed, next);
      AppendAssoc(result, pushed, SgrOf(segs[next..]));
      result := result + pushed;
      i := next;
    }
  }

  /** One turn of `parse_sgr`'s loop from segment `i`: the attributes it pushes and where the next turn starts. */
  method PullGroup(segs: seq<seq<byte>>, i: nat) returns (pushed: seq<SgrAttribute>, next: nat)
    requires i < |segs|
    ensures i < next <= |segs|
    ensures (pushed, next - i) == SgrGroup(segs[i..])
  {
    var param := segs[i];
    next := i + 1;
    var code := LiteralValue(param);
    pushed := [];
    if code.Some? && IsExtendedKind(code.value) {
      pushed, next := PullExtended(segs, next, code.value);
    } else {
      if code.Some? && SimpleCode(code.value).Some? {
        pushed := [SimpleCode(code.value).value];
      }
      assert segs[i..][0] == param;
      SimpleGroup(segs[i..], pushed);
    }
  }

  /** One turn of `parse_sgr`'s loop: the group at `i` pushes `pushed` and the loop goes on from `j`. */
  lemma SgrOfStep(segs: seq<seq<byte>>, i: nat, pushed: seq<SgrAttribute>, j: nat)
    requires i < j <= |segs| && (pushed, j - i) == SgrGroup(segs[i..])
    ensures SgrOf(segs[i..]) == pushed + SgrOf(segs[j..])
  {
    SgrOfUnfold(segs[i..]);
    assert segs[i..][j - i..] == segs[j..];
  }

  lemma AppendAssoc<T>(a: seq<T>, b: seq<T>, c: seq<T>)
    ensures (a + b) + c == a + (b + c)
  {
  }

  // ---------------------------------------------------------------------
  // Cursor, erase and device parameters

  /** The final bytes of the cursor moves: A to H, and f as a synonym of H. */
  predicate IsCursorFinal(final: byte) {
    CHAR_A <= final <= CHAR_H || final == CHAR_f
  }

  /**
   * `parse_cursor`: the whole parameter string is the count, 1 when it does
   * not parse; H and f read `row;col` from the first two pieces, each 1 when
   * missing or unparsable.
   */
  function ParseCursor(params: seq<byte>, final: byte): (r: Option<CursorMove>)
    ensures r.Some? <==> IsCursorFinal(final)
    ensures r.Some? && r.value.Position? <==> final == CHAR_H || final == CHAR_f
    ensures r.Some? && !r.value.Position? ==> r.value.n == ParseU16(params).GetOr(1)
    ensures r.Some? && r.value.Position? ==>
      r.value.row == ParseU16(Split(params)[0]).GetOr(1) &&
      r.value.col == (if |Split(params)| > 1 then ParseU16(Split(params)[1]).GetOr(1) else 1)
  {
    var n: u16 := ParseU16(params).GetOr(1);
    if final == CHAR_A then Some(Up(n))
    else if final == CHAR_B then Some(Down(n))
    else if final == CHAR_C then Some(Forward(n))
    else if final == CHAR_D then Some(Backward(n))
    else if final == CHAR_E then Some(NextLine(n))
    else if final == CHAR_F then Some(PreviousLine(n))
    else if final == CHAR_G then Some(HorizontalAbsolute(n))
    else if final == CHAR_H || final == CHAR_f then
      var parts := Split(params);
      var row: u16 := ParseU16(parts[0]).GetOr(1);
      var col: u16 := if |parts| > 1 then ParseU16(parts[1]).GetOr(1) else 1;
      Some(Position(row, col))
    else None
  }

  /** `parse_erase`: "" and "0" are ToEnd, "1" ToStart, "2" All; J erases in the display, K in the line. */
  function ParseErase(params: seq<byte>, final: byte): (r: Option<Erase>)
    ensures r.Some? <==> (final == CHAR_J || final == CHAR_K) && (params == [] || params == Digits(0) || params == Digits(1) || params == Digits(2))
    ensures r.Some? ==> (r.value.Display? <==> final == CHAR_J)
    ensures r.Some? && params != [] ==> params == Digits(if r.value.mode.ToEnd? then 0 else if r.value.mode.ToStart? then 1 else 2)
    ensures r.Some? && params == [] ==> r.value.mode.ToEnd?
  {
    var mode :=
      if params == [] || params == Digits(0) then Some(ToEnd)
      else if params == Digits(1) then Some(ToStart)
      else if params == Digits(2) then Some(All)
      else None;
    if mode.None? then None
    else if final == CHAR_J then Some(Display(mode.value))
    else if final == CHAR_K then Some(Line(mode.value))
    else None
  }

  /**
   * `parse_device`: save and restore take no parameters, hide and show take
   * "?25". The source also lists the pairs ("?25l", l) and ("?25h", h); they
   * are kept here, and the second ensures shows that parameters cut from the
   * input (which never hold a final byte) cannot reach them.
   */
  function ParseDevice(params: seq<byte>, final: byte): (r: Option<DeviceControl>)
    ensures r.Some? ==> final == CHAR_s || final == CHAR_u || final == CHAR_l || final == CHAR_h
    ensures NoFinal(params) ==>
      (r.Some? <==> (params == [] && (final == CHAR_s || final == CHAR_u)) ||
                    (params == QUERY_25 && (final == CHAR_l || final == CHAR_h)))
  {
    if params == [] && final == CHAR_s then Some(SaveCursor)
    else if params == [] && final == CHAR_u then Some(RestoreCursor)
    else if params == QUERY_25 + [CHAR_l] && final == CHAR_l then
      assert IsFinal(params[3]);
      Some(HideCursor)
    else if params == QUERY_25 + [CHAR_h] && final == CHAR_h then
      assert IsFinal(params[3]);
      Some(ShowCursor)
    else if params == QUERY_25 && final == CHAR_l then Some(HideCursor)
    else if params == QUERY_25 && final == CHAR_h then Some(ShowCursor)
    else None
  }

  function SgrEscapes(attrs: seq<SgrAttribute>): (r: seq<AnsiEscape>)
    ensures |r| == |attrs|
    ensures forall k :: 0 <= k < |r| ==> r[k] == Sgr(attrs[k])
  {
    seq(|attrs|, k requires 0 <= k < |attrs| => Sgr(attrs[k]))
  }

  /**
   * What one complete control sequence yields: its SGR attributes for final
   * byte m; otherwise the first of cursor, erase and device that accepts it;
   * otherwise nothing.
   */
  function Classify(params: seq<byte>, final: byte): (r: seq<AnsiEscape>)
    ensures final == CHAR_m ==> r == SgrEscapes(SgrOf(Segments(params)))
    ensures final != CHAR_m ==> |r| <= 1 && forall k :: 0 <= k < |r| ==> !r[k].Sgr?
    ensures IsCursorFinal(final) ==> r == [Cursor(ParseCursor(params, final).value)]
  {
    if final == CHAR_m then SgrEscapes(SgrOf(Segments(params)))
    else if ParseCursor(params, final).Some? then [Cursor(ParseCursor(params, final).value)]
    else if ParseErase(params, final).Some? then [AnsiEscape.Erase(ParseErase(params, final).value)]
    else if ParseDevice(params, final).Some? then [Device(ParseDevice(params, final).value)]
    else []
  }

  /**
   * `parse_next_escapes` on the unread input `rest`: nothing unless `rest`
   * starts with ESC [; the escapes of the sequence up to the first final
   * byte and its length; or, with no final byte, no escapes and all of `rest`.
   */
  function NextEscapes(rest: seq<byte>): (r: Option<(seq<AnsiEscape>, nat)>)
    ensures r.None? <==> !StartsCsi(rest)
    ensures r.Some? ==> 2 <= r.value.1 <= |rest|
    ensures r.Some? && r.value.1 < |rest| ==>
      r.value.1 >= 3 && IsFinal(rest[r.value.1 - 1]) && NoFinalBetween(rest, 2, r.value.1 - 1)
    ensures r.Some? && r.value.1 == |rest| && !IsFinal(rest[|rest| - 1]) ==> r.value.0 == []
    ensures r.Some? && r.value.1 == |rest| && r.value.0 != [] ==>
      |rest| >= 3 && IsFinal(rest[|rest| - 1]) && NoFinalBetween(rest, 2, |rest| - 1)
  {
    if !StartsCsi(rest) then None
    else
      match FirstFinal(rest, 2)
      case None => Some(([], |rest|))
      case Some(end) => Some((Classify(rest[2..end], rest[end]), end + 1))
  }

  // ---------------------------------------------------------------------
  // The state machine over SGR attributes

  /**
   * Everything `parse_annotated` updates while it scans: the output offset,
   * the cleaned text, the spans and points so far, the active set, the start
   * of the open span and the set last written into a span.
   */
  datatype DecodeState = DecodeState(
    outputPos: nat,
    cleaned: seq<byte>,
    spans: seq<AnsiSpan>,
    points: seq<AnsiPoint>,
    active: seq<SgrAttribute>,
    spanStart: Option<nat>,
    lastEmitted: seq<SgrAttribute>)

  /** The state before the first byte, with the output offset at `base`. */
  function Init(base: nat): (r: DecodeState)
    ensures r.outputPos == base && r.cleaned == [] && r.spans == [] && r.points == []
    ensures r.active == [] && r.spanStart.None? && r.lastEmitted == []
  {
    DecodeState(base, [], [], [], [], None, [])
  }

  /**
   * `current_span_start.take()`, then push a span ending at the output offset
   * with the last emitted set, unless that set is empty.
   */
  function CloseSpan(st: DecodeState): (r: DecodeState)
    ensures r.spanStart.None?
    ensures r == st.(spanStart := None, spans := r.spans)
  {
    match st.spanStart
    case None => st
    case Some(start) =>
      st.(spanStart := None,
          spans := if st.lastEmitted != [] then st.spans + [AnsiSpan(start, st.outputPos, st.lastEmitted)] else st.spans)
  }

  /**
   * The retain that precedes an insert: for a colour, every attribute of the
   * same slot goes; for any other attribute, every attribute with the same
   * discriminant.
   */
  function Evict(active: seq<SgrAttribute>, sgr: SgrAttribute): (r: seq<SgrAttribute>)
    ensures forall x :: x in r <==> x in active && Rank(x) != Rank(sgr)
    ensures Sorted(active) ==> Sorted(r)
    ensures OnePerKind(active) ==> OnePerKind(r)
  {
    match sgr
    case Foreground(_) => Retain(active, (a: SgrAttribute) => !a.Foreground?)
    case Background(_) => Retain(active, (a: SgrAttribute) => !a.Background?)
    case UnderlineColor(_) => Retain(active, (a: SgrAttribute) => !a.UnderlineColor?)
    case _ => Retain(active, a => Rank(a) != Rank(sgr))
  }

  /** One SGR attribute through the state machine. */
  function ApplySgr(st: DecodeState, sgr: SgrAttribute): (r: DecodeState)
    requires Sorted(st.active)
    ensures Sorted(r.active)
    ensures r.outputPos == st.outputPos && r.cleaned == st.cleaned && r.points == st.points
  {
    var st1 := if sgr.Reset? then CloseSpan(st).(active := []) else st.(active := Insert(Evict(st.active, sgr), sgr));
    if st1.active != st1.lastEmitted then
      var st2 := CloseSpan(st1);
      st2.(spanStart := if st2.active != [] then Some(st2.outputPos) else st2.spanStart, lastEmitted := st2.active)
    else st1
  }

  /** One escape: a non-SGR escape becomes a point; an SGR escape goes through the state machine. */
  function ApplyEscape(st: DecodeState, e: AnsiEscape): (r: DecodeState)
    requires Sorted(st.active)
    ensures Sorted(r.active)
    ensures r.outputPos == st.outputPos && r.cleaned == st.cleaned
  {
    if e.Sgr? then ApplySgr(st, e.attr)
    else st.(points := st.points + [AnsiPoint(st.outputPos, e)])
  }

  /** The escapes of one sequence, in order. */
  function ApplyEscapes(st: DecodeState, es: seq<AnsiEscape>): (r: DecodeState)
    requires Sorted(st.active)
    ensures Sorted(r.active)
    ensures r.outputPos == st.outputPos && r.cleaned == st.cleaned
    decreases |es|
  {
    if es == [] then st else ApplyEscape(ApplyEscapes(st, es[..|es| - 1]), es[|es| - 1])
  }

  /** A byte that starts no control sequence is copied to the cleaned text. */
  function Copy(st: DecodeState, b: byte): (r: DecodeState)
    ensures r.cleaned == st.cleaned + [b] && r.outputPos == st.outputPos + 1
    ensures r.(cleaned := st.cleaned, outputPos := st.outputPos) == st
  {
    st.(cleaned := st.cleaned + [b], outputPos := st.outputPos + 1)
  }

  /** Copy each byte of `text`, in order. */
  function CopyText(st: DecodeState, text: seq<byte>): DecodeState {
    st.(cleaned := st.cleaned + text, outputPos := st.outputPos + |text|)
  }

  /** Copying the first byte, then the others, copies the whole text. */
  lemma CopyThenCopyText(st: DecodeState, text: seq<byte>)
    requires text != []
    ensures CopyText(Copy(st, text[0]), text[1..]) == CopyText(st, text)
  {
    assert st.cleaned + [text[0]] + text[1..] == st.cleaned + text;
  }

  /** The main loop of `parse_annotated` over the unread input `rest`. */
  function Scan(rest: seq<byte>, st: DecodeState): (r: DecodeState)
    requires Sorted(st.active)
    ensures Sorted(r.active)
    decreases |rest|
  {
    if rest == [] then st
    else
      match NextEscapes(rest)
      case Some((escapes, consumed)) => Scan(rest[consumed..], ApplyEscapes(st, escapes))
      case None => Scan(rest[1..], Copy(st, rest[0]))
  }

  /** The spans with `start != end`. */
  function DropEmpty(spans: seq<AnsiSpan>): (r: seq<AnsiSpan>)
    ensures |r| <= |spans|
    ensures forall k :: 0 <= k < |r| ==> r[k].start != r[k].end
    ensures forall s :: s in r <==> s in spans && s.start != s.end
    decreases |spans|
  {
    if spans == [] then []
    else (if spans[0].start == spans[0].end then [] else [spans[0]]) + DropEmpty(spans[1..])
  }

  /** After the loop: close the open span, then drop the empty spans. */
  function Finish(st: DecodeState): (r: AnsiParseResult)
    ensures r.text == st.cleaned && r.points == st.points
    ensures forall sp :: sp in r.spans <==>
      sp.start != sp.end
      && (sp in st.spans || (st.spanStart.Some? && st.lastEmitted != [] && sp == AnsiSpan(st.spanStart.value, st.outputPos, st.lastEmitted)))
  {
    var closed := CloseSpan(st);
    AnsiParseResult(closed.cleaned, DropEmpty(closed.spans), closed.points)
  }

  /** `parse_ansi_annotated` as a function of the input. */
  function Decode(input: seq<byte>): (r: AnsiParseResult)
    ensures forall k :: 0 <= k < |r.spans| ==> r.spans[k].start != r.spans[k].end
    ensures input == [] ==> r == AnsiParseResult([], [], [])
  {
    Finish(Scan(input, Init(0)))
  }

  lemma ApplyEscapesSnoc(st: DecodeState, es: seq<AnsiEscape>, e: AnsiEscape)
    requires Sorted(st.active)
    ensures ApplyEscapes(st, es + [e]) == ApplyEscape(ApplyEscapes(st, es), e)
  {
    assert (es + [e])[..|es|] == es;
  }

  /** One turn of the main loop, as the two equations of Scan. */
  lemma ScanUnfold(rest: seq<byte>, st: DecodeState)
    requires Sorted(st.active) && rest != []
    ensures NextEscapes(rest).Some? ==>
      Scan(rest, st) == Scan(rest[NextEscapes(rest).value.1..], ApplyEscapes(st, NextEscapes(rest).value.0))
    ensures NextEscapes(rest).None? ==> Scan(rest, st) == Scan(rest[1..], Copy(st, rest[0]))
  {
  }

  /** A control sequence at index `p` of the whole input, as the parser's loop sees it. */
  lemma ScanEscapesAt(input: seq<byte>, p: nat, st: DecodeState, escapes: seq<AnsiEscape>, consumed: nat)
    requires p < |input| && Sorted(st.active)
    requires NextEscapes(input[p..]) == Some((escapes, consumed))
    ensures p + consumed <= |input|
    ensures Scan(input[p..], st) == Scan(input[p + consumed..], ApplyEscapes(st, escapes))
  {
    var rest := input[p..];
    ScanUnfold(rest, st);
    assert rest[consumed..] == input[p + consumed..];
  }

  /** A byte copied at index `p` of the whole input, as the parser's loop sees it. */
  lemma ScanCopyAt(input: seq<byte>, p: nat, st: DecodeState)
    requires p < |input| && Sorted(st.active)
    requires NextEscapes(input[p..]).None?
    ensures Scan(input[p..], st) == Scan(input[p + 1..], Copy(st, input[p]))
  {
    var rest := input[p..];
    ScanUnfold(rest, st);
    assert rest[1..] == input[p + 1..] && rest[0] == input[p];
  }

  /** A byte other than ESC in front of the unread input is copied to the cleaned text. */
  lemma ScanCopyByte(b: byte, tail: seq<byte>, st: DecodeState)
    requires b != ESC && Sorted(st.active)
    ensures Scan([b] + tail, st) == Scan(tail, Copy(st, b))
  {
    var rest := [b] + tail;
    assert !StartsCsi(rest);
    ScanUnfold(rest, st);
    assert rest[1..] == tail;
  }

  // ---------------------------------------------------------------------
  // The parser object

  /**
   * The `for escape in escapes` loop of `parse_annotated`, on the decoder's
   * local state: points for non-SGR escapes, the active-set update and span
   * bookkeeping for SGR ones.
   */
  method HandleEscapes(st: DecodeState, escapes: seq<AnsiEscape>) returns (r: DecodeState)
    requires Sorted(st.active)
    ensures r == ApplyEscapes(st, escapes)
  {
    ghost var before := st;
    var outputPos, cleaned, spans, points := st.outputPos, st.cleaned, st.spans, st.points;
    var active, spanStart, lastEmitted := st.active, st.spanStart, st.lastEmitted;
    for k := 0 to |escapes|
      invariant Sorted(active)
      invariant DecodeState(outputPos, cleaned, spans, points, active, spanStart, lastEmitted)
                == ApplyEscapes(before, escapes[..k])
    {
      ghost var here := DecodeState(outputPos, cleaned, spans, points, active, spanStart, lastEmitted);
      var escape := escapes[k];
      if !escape.Sgr? {
        points := points + [AnsiPoint(outputPos, escape)];
      }
      if escape.Sgr? {
        var sgr := escape.attr;
        if sgr.Reset? {
          if spanStart.Some? {
            var start := spanStart.value;
            spanStart := None;
            if lastEmitted != [] {
              spans := spans + [AnsiSpan(start, outputPos, lastEmitted)];
            }
          }
          active := [];
        } else {
          active := Evict(active, sgr);
          active := Insert(active, sgr);
        }
        ghost var mid := DecodeState(outputPos, cleaned, spans, points, active, spanStart, lastEmitted);
        assert mid == if sgr.Reset? then CloseSpan(here).(active := []) else here.(active := Insert(Evict(here.active, sgr), sgr));
        if active != lastEmitted {
          if spanStart.Some? {
            var start := spanStart.value;
            spanStart := None;
            if lastEmitted != [] {
              spans := spans + [AnsiSpan(start, outputPos, lastEmitted)];
            }
          }
          if active != [] {
            spanStart := Some(outputPos);
          }
          lastEmitted := active;
        }
      }
      assert DecodeState(outputPos, cleaned, spans, points, active, spanStart, lastEmitted) == ApplyEscape(here, escape);
      assert escapes[..k + 1] == escapes[..k] + [escape];
      ApplyEscapesSnoc(before, escapes[..k], escape);
    }
    assert escapes[..|escapes|] == escapes;
    r := DecodeState(outputPos, cleaned, spans, points, active, spanStart, lastEmitted);
  }

  /**
   * The scan of `parse_next_escapes` for the final byte of the sequence that
   * `rest` starts with: its index, or `|rest|` when the input ends first.
   */
  method FindFinal(rest: seq<byte>) returns (end: nat)
    requires StartsCsi(rest)
    ensures 2 <= end <= |rest|
    ensures end < |rest| ==> FirstFinal(rest, 2) == Some(end)
    ensures end == |rest| ==> FirstFinal(rest, 2).None?
  {
    end := 2;
    while end < |rest|
      invariant 2 <= end <= |rest|
      invariant NoFinalBetween(rest, 2, end)
      decreases |rest| - end
    {
      if IsFinal(rest[end]) {
        FirstFinalUnique(rest, 2, end);
        return;
      }
      end := end + 1;
    }
    FirstFinalNone(rest, 2);
  }

  /** The SGR arm of `parse_next_escapes`: one escape per attribute `parse_sgr` returns. */
  method SgrEscapesOf(params: seq<byte>) returns (escapes: seq<AnsiEscape>)
    ensures escapes == SgrEscapes(SgrOf(Segments(params)))
  {
    var sgrs := ParseSgr(params);
    escapes := [];
    for k := 0 to |sgrs|
      invariant |escapes| == k
      invariant forall j :: 0 <= j < k ==> escapes[j] == Sgr(sgrs[j])
    {
      escapes := escapes + [Sgr(sgrs[k])];
    }
  }

  /** The `match final_byte` of `parse_next_escapes`: the escapes one control sequence denotes. */
  method EscapesOf(params: seq<byte>, finalByte: byte) returns (escapes: seq<AnsiEscape>)
    ensures escapes == Classify(params, finalByte)
  {
    if finalByte == CHAR_m {
      escapes := SgrEscapesOf(params);
      return;
    }
    escapes := [];
    var cursor := ParseCursor(params, finalByte);
    if cursor.Some? {
      escapes := [Cursor(cursor.value)];
      return;
    }
    var erase := ParseErase(params, finalByte);
    if erase.Some? {
      escapes := [AnsiEscape.Erase(erase.value)];
      return;
    }
    var device := ParseDevice(params, finalByte);
    if device.Some? {
      escapes := [Device(device.value)];
    }
  }

  class AnsiParser {
    const input: seq<byte>
    var pos: nat
    var outputPos: nat

    constructor(input: seq<byte>)
      ensures this.input == input && pos == 0 && outputPos == 0
    {
      this.input := input;
      pos := 0;
      outputPos := 0;
    }

    /** `parse_next_escapes`: look for a control sequence at `pos`, without moving. */
    method ParseNextEscapes() returns (r: Option<(seq<AnsiEscape>, nat)>)
      requires pos <= |input|
      ensures r == NextEscapes(input[pos..])
    {
      var rest := input[pos..];
      if |rest| < 2 || rest[0] != ESC || rest[1] != LEFT_BRACKET {
        return None;
      }
      var end := FindFinal(rest);
      if end == |rest| {
        return Some(([], |rest|));
      }
      var escapes := EscapesOf(rest[2..end], rest[end]);
      return Some((escapes, end + 1));
    }

    /**
     * `parse_annotated`: scan from `pos` to the end of the input, moving
     * `pos` and `outputPos`, and return the cleaned text, spans and points.
     */
    method ParseAnnotated() returns (result: AnsiParseResult)
      requires pos <= |input|
      modifies this
      ensures result == Finish(Scan(input[old(pos)..], Init(old(outputPos))))
      ensures pos == |input|
      ensures outputPos == old(outputPos) + |result.text|
    {
      var cleaned: seq<byte> := [];
      var spans: seq<AnsiSpan> := [];
      var points: seq<AnsiPoint> := [];
      var active: seq<SgrAttribute> := [];
      var spanStart: Option<nat> := None;
      var lastEmitted: seq<SgrAttribute> := [];
      ghost var goal := Scan(input[pos..], Init(outputPos));
      ghost var base := outputPos;
      ghost var st := Init(outputPos);

      while pos < |input|
        invariant pos <= |input|
        invariant st == DecodeState(outputPos, cleaned, spans, points, active, spanStart, lastEmitted)
        invariant Sorted(st.active)
        invariant outputPos == base + |cleaned|
        invariant Scan(input[pos..], st) == goal
        decreases |input| - pos
      {
        var next := ParseNextEscapes();
        ghost var p, st0 := pos, st;
        if next.Some? {
          var escapes := next.value.0;
          var consumed := next.value.1;
          ScanEscapesAt(input, p, st0, escapes, consumed);
          var handled := HandleEscapes(DecodeState(outputPos, cleaned, spans, points, active, spanStart, lastEmitted), escapes);
          cleaned, spans, points := handled.cleaned, handled.spans, handled.points;
          active, spanStart, lastEmitted := handled.active, handled.spanStart, handled.lastEmitted;
          assert handled == ApplyEscapes(st0, escapes);
          pos := pos + consumed;
          st := handled;
          assert pos == p + consumed;
          assert input[pos..] == input[p + consumed..];
          assert Scan(input[p + consumed..], handled) == Scan(input[pos..], st);
          assert Scan(input[p..], st0) == Scan(input[pos..], st);
        } else {
          ScanCopyAt(input, p, st0);
          st := Copy(st, input[pos]);
          cleaned := cleaned + [input[pos]];
          pos := pos + 1;
          outputPos := outputPos + 1;
          assert input[pos..] == input[p + 1..];
          assert Scan(input[p..], st0) == Scan(input[pos..], st);
        }
      }
      ghost var last := DecodeState(outputPos, cleaned, spans, points, active, spanStart, lastEmitted);
      assert input[pos..] == [];
      assert goal == last;

      if spanStart.Some? {
        var start := spanStart.value;
        spanStart := None;
        if lastEmitted != [] {
          spans := spans + [AnsiSpan(start, outputPos, lastEmitted)];
        }
      }
      assert CloseSpan(last) == DecodeState(outputPos, cleaned, spans, points, active, spanStart, lastEmitted);
      result := AnsiParseResult(cleaned, DropEmpty(spans), points);
    }
  }

  /** `parse_ansi_annotated`: a fresh parser over the whole input. */
  method ParseAnsiAnnotated(input: seq<byte>) returns (r: AnsiParseResult)
    ensures r == Decode(input)
  {
    var parser := new AnsiParser(input);
    r := parser.ParseAnnotated();
  }
}
