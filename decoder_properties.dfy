/**
 * What the decoder promises about its output, proved about the
 * specification functions of AnsiInterpreter (and so, through the
 * postconditions of its methods, about the parser object):
 *
 *  - the cleaned text is the input with every control sequence removed
 *    (Strip), and the output offset is its length;
 *  - the points are exactly the non-SGR escapes at the offsets where they
 *    were read (PointsOf);
 *  - the active set never holds Reset and holds at most one attribute of
 *    each kind; re-asserting an active attribute changes nothing; Reset
 *    closes the open span and empties the set;
 *  - the returned spans are non-empty, within the text, ordered and
 *    disjoint; the points are ordered and within the text.
 */
module DecoderProperties {

  import opened Wrappers
  import opened Bytes
  import opened Decimal
  import opened AnsiTypes
  import opened SgrSet
  import opened AnsiInterpreter

  // ---------------------------------------------------------------------
  // The cleaned text

  /**
   * The input with each ESC [ ... final-byte sequence removed and an
   * unterminated ESC [ tail dropped; every other byte, a lone ESC included,
   * is kept.
   */
  function Strip(s: seq<byte>): (r: seq<byte>)
    ensures |r| <= |s|
    decreases |s|
  {
    if s == [] then []
    else if StartsCsi(s) then
      match FirstFinal(s, 2)
      case None => []
      case Some(end) => Strip(s[end + 1..])
    else [s[0]] + Strip(s[1..])
  }

  /** Text without ESC is kept whole. */
  lemma {:induction false} StripPlain(s: seq<byte>)
    requires ESC !in s
    ensures Strip(s) == s
    decreases |s|
  {
    if s != [] {
      StripPlain(s[1..]);
      assert s == [s[0]] + s[1..];
    }
  }

  /** Plain text in front of the rest is kept, and the rest is stripped on its own. */
  lemma {:induction false} StripPlainPrefix(t: seq<byte>, rest: seq<byte>)
    requires ESC !in t
    ensures Strip(t + rest) == t + Strip(rest)
    decreases |t|
  {
    if t != [] {
      assert (t + rest)[0] == t[0] && t[0] != ESC;
      assert (t + rest)[1..] == t[1..] + rest;
      StripPlainPrefix(t[1..], rest);
      assert Strip(t + rest) == [t[0]] + Strip(t[1..] + rest);
      AppendAssoc([t[0]], t[1..], Strip(rest));
      assert t == [t[0]] + t[1..];
    } else {
      assert t + rest == rest;
    }
  }

  /** Strip in the parser's own steps: skip what NextEscapes consumes, or keep one byte. */
  lemma StripUnfold(rest: seq<byte>)
    requires rest != []
    ensures NextEscapes(rest).Some? ==> Strip(rest) == Strip(rest[NextEscapes(rest).value.1..])
    ensures NextEscapes(rest).None? ==> Strip(rest) == [rest[0]] + Strip(rest[1..])
  {
    if StartsCsi(rest) && FirstFinal(rest, 2).None? {
      assert rest[|rest|..] == [];
    }
  }

  /** The main loop appends to the cleaned text exactly the stripped input, and the output offset follows it. */
  lemma {:induction false} ScanText(rest: seq<byte>, st: DecodeState)
    requires Sorted(st.active)
    ensures Scan(rest, st).cleaned == st.cleaned + Strip(rest)
    ensures Scan(rest, st).outputPos == st.outputPos + |Strip(rest)|
    decreases |rest|
  {
    if rest != [] {
      ScanUnfold(rest, st);
      StripUnfold(rest);
      var next := NextEscapes(rest);
      if next.Some? {
        var tail, st1 := rest[next.value.1..], ApplyEscapes(st, next.value.0);
        assert Scan(rest, st) == Scan(tail, st1) && Strip(rest) == Strip(tail);
        ScanText(tail, st1);
      } else {
        var tail, st1 := rest[1..], Copy(st, rest[0]);
        assert Scan(rest, st) == Scan(tail, st1) && Strip(rest) == [rest[0]] + Strip(tail);
        ScanText(tail, st1);
        assert st.cleaned + [rest[0]] + Strip(tail) == st.cleaned + ([rest[0]] + Strip(tail));
      }
    }
  }

  /** The decoded text is the stripped input. */
  lemma DecodeText(input: seq<byte>)
    ensures Decode(input).text == Strip(input)
  {
    ScanText(input, Init(0));
  }

  // ---------------------------------------------------------------------
  // Points

  /** A point at `pos` for each non-SGR escape of `es`, in order. */
  function NonSgrPoints(pos: nat, es: seq<AnsiEscape>): (r: seq<AnsiPoint>)
    ensures forall k :: 0 <= k < |r| ==> r[k].pos == pos && !r[k].code.Sgr? && r[k].code in es
    decreases |es|
  {
    if es == [] then []
    else
      var last := es[|es| - 1];
      NonSgrPoints(pos, es[..|es| - 1]) + (if last.Sgr? then [] else [AnsiPoint(pos, last)])
  }

  /**
   * The points the input yields when its cleaned text so far has length
   * `pos`: the non-SGR escapes of each complete control sequence, at the
   * length of the cleaned text in front of it.
   */
  function PointsOf(s: seq<byte>, pos: nat): (r: seq<AnsiPoint>)
    ensures forall k :: 0 <= k < |r| ==> !r[k].code.Sgr? && pos <= r[k].pos <= pos + |s|
    decreases |s|
  {
    if s == [] then []
    else if StartsCsi(s) then
      match FirstFinal(s, 2)
      case None => []
      case Some(end) => NonSgrPoints(pos, Classify(s[2..end], s[end])) + PointsOf(s[end + 1..], pos)
    else PointsOf(s[1..], pos + 1)
  }

  lemma {:induction false} ApplyEscapesPoints(st: DecodeState, es: seq<AnsiEscape>)
    requires Sorted(st.active)
    ensures ApplyEscapes(st, es).points == st.points + NonSgrPoints(st.outputPos, es)
    decreases |es|
  {
    if es != [] {
      ApplyEscapesPoints(st, es[..|es| - 1]);
    }
  }

  /** PointsOf in the parser's own steps. */
  lemma PointsOfUnfold(rest: seq<byte>, pos: nat)
    requires rest != []
    ensures NextEscapes(rest).Some? ==>
      PointsOf(rest, pos) == NonSgrPoints(pos, NextEscapes(rest).value.0) + PointsOf(rest[NextEscapes(rest).value.1..], pos)
    ensures NextEscapes(rest).None? ==> PointsOf(rest, pos) == PointsOf(rest[1..], pos + 1)
  {
    if StartsCsi(rest) && FirstFinal(rest, 2).None? {
      assert rest[|rest|..] == [];
    }
  }

  /** The main loop appends exactly PointsOf the unread input. */
  lemma {:induction false} ScanPoints(rest: seq<byte>, st: DecodeState)
    requires Sorted(st.active)
    ensures Scan(rest, st).points == st.points + PointsOf(rest, st.outputPos)
    decreases |rest|
  {
    if rest != [] {
      ScanUnfold(rest, st);
      PointsOfUnfold(rest, st.outputPos);
      var next := NextEscapes(rest);
      if next.Some? {
        var es := next.value.0;
        ApplyEscapesPoints(st, es);
        ScanPoints(rest[next.value.1..], ApplyEscapes(st, es));
        AppendAssoc(st.points, NonSgrPoints(st.outputPos, es), PointsOf(rest[next.value.1..], st.outputPos));
      } else {
        ScanPoints(rest[1..], Copy(st, rest[0]));
      }
    }
  }

  /** The decoded points are exactly the non-SGR escapes of the input, each at its offset in the text. */
  lemma DecodePoints(input: seq<byte>)
    ensures Decode(input).points == PointsOf(input, 0)
  {
    ScanPoints(input, Init(0));
  }

  // ---------------------------------------------------------------------
  // The active set

  /** What the active set may hold: sorted, one attribute per kind, never Reset. */
  predicate ActiveOk(a: seq<SgrAttribute>) {
    Sorted(a) && OnePerKind(a) && Reset !in a
  }

  /** The insert after the retain: `sgr` replaces whatever of its kind was active. */
  lemma MergeOk(active: seq<SgrAttribute>, sgr: SgrAttribute)
    requires ActiveOk(active) && !sgr.Reset?
    ensures ActiveOk(Insert(Evict(active, sgr), sgr))
    ensures forall x :: x in Insert(Evict(active, sgr), sgr) <==> x == sgr || (x in active && Rank(x) != Rank(sgr))
  {
    var r := Insert(Evict(active, sgr), sgr);
    forall x, y | x in r && y in r && Rank(x) == Rank(y) ensures x == y {
      if x in active && y in active {
        OnePerKindMembers(active, x, y);
      }
    }
    SortedDistinctRanks(r);
  }

  /**
   * At most one foreground, one background and one underline colour are
   * active at a time, and at most one of each effect.
   */
  lemma SlotsExclusive(a: seq<SgrAttribute>, x: SgrAttribute, y: SgrAttribute)
    requires ActiveOk(a) && x in a && y in a
    ensures x.Foreground? && y.Foreground? ==> x == y
    ensures x.Background? && y.Background? ==> x == y
    ensures x.UnderlineColor? && y.UnderlineColor? ==> x == y
    ensures Rank(x) == Rank(y) ==> x == y
  {
    if Rank(x) == Rank(y) {
      OnePerKindMembers(a, x, y);
    }
  }

  // ---------------------------------------------------------------------
  // The state invariant

  /** A span that closes at or before `bound`, with a non-empty, well-formed set of codes. */
  predicate SpanOk(sp: AnsiSpan, bound: nat) {
    sp.start <= sp.end <= bound && sp.codes != [] && ActiveOk(sp.codes)
  }

  /** Spans that close at or before `bound`, in order and disjoint. */
  predicate SpansBefore(spans: seq<AnsiSpan>, bound: nat) {
    && (forall i :: 0 <= i < |spans| ==> SpanOk(spans[i], bound))
    && (forall i, j :: 0 <= i < j < |spans| ==> spans[i].end <= spans[j].start)
  }

  /** Points at or before `bound`, never SGR, in non-decreasing order. */
  predicate PointsBefore(points: seq<AnsiPoint>, bound: nat) {
    && (forall i :: 0 <= i < |points| ==> points[i].pos <= bound && !points[i].code.Sgr?)
    && (forall i, j :: 0 <= i < j < |points| ==> points[i].pos <= points[j].pos)
  }

  /**
   * The invariant of `parse_annotated`'s loop: the last emitted set is the
   * active set, a span is open exactly when the set is not empty, and the
   * spans closed so far end where the open one starts (or at the offset).
   */
  predicate StateOk(st: DecodeState) {
    && ActiveOk(st.active)
    && st.lastEmitted == st.active
    && (st.spanStart.Some? <==> st.active != [])
    && (st.spanStart.Some? ==> st.spanStart.value <= st.outputPos)
    && SpansBefore(st.spans, if st.spanStart.Some? then st.spanStart.value else st.outputPos)
    && PointsBefore(st.points, st.outputPos)
  }

  lemma InitOk(base: nat)
    ensures StateOk(Init(base))
  {
  }

  /** Closing pushes the open span, if any, and leaves ordered spans that end by the offset. */
  lemma CloseSpanOk(st: DecodeState)
    requires StateOk(st)
    ensures CloseSpan(st).spans == st.spans + (if st.active != [] then [AnsiSpan(st.spanStart.value, st.outputPos, st.active)] else [])
    ensures SpansBefore(CloseSpan(st).spans, st.outputPos)
  {
  }

  /** Reset closes the open span (if any) and empties the active set; nothing else changes. */
  lemma ResetClosesSpan(st: DecodeState)
    requires StateOk(st)
    ensures ApplySgr(st, Reset) == CloseSpan(st).(active := [], lastEmitted := [])
    ensures ApplySgr(st, Reset).spans == st.spans + (if st.active != [] then [AnsiSpan(st.spanStart.value, st.outputPos, st.active)] else [])
    ensures StateOk(ApplySgr(st, Reset))
  {
    CloseSpanOk(st);
  }

  /** Re-asserting an active attribute leaves the whole state unchanged: no span opens or closes. */
  lemma ReassertIsNoOp(st: DecodeState, sgr: SgrAttribute)
    requires StateOk(st) && sgr in st.active
    ensures ApplySgr(st, sgr) == st
  {
    MergeOk(st.active, sgr);
    var merged := Insert(Evict(st.active, sgr), sgr);
    forall x ensures x in merged <==> x in st.active {
      if x in st.active && Rank(x) == Rank(sgr) {
        OnePerKindMembers(st.active, x, sgr);
      }
    }
    SortedSetEquality(merged, st.active);
  }

  /** Any other attribute replaces its kind; when that changes the set, the open span closes and a new one opens here. */
  lemma ApplySgrOk(st: DecodeState, sgr: SgrAttribute)
    requires StateOk(st)
    ensures StateOk(ApplySgr(st, sgr))
    ensures !sgr.Reset? ==> ApplySgr(st, sgr).active == Insert(Evict(st.active, sgr), sgr)
    ensures !sgr.Reset? ==> sgr in ApplySgr(st, sgr).active
    ensures !sgr.Reset? && ApplySgr(st, sgr).active != st.active ==>
      ApplySgr(st, sgr).spanStart == Some(st.outputPos) && ApplySgr(st, sgr).spans == CloseSpan(st).spans
  {
    if sgr.Reset? {
      ResetClosesSpan(st);
    } else {
      MergeOk(st.active, sgr);
      CloseSpanOk(st);
    }
  }

  lemma ApplyEscapeOk(st: DecodeState, e: AnsiEscape)
    requires StateOk(st)
    ensures StateOk(ApplyEscape(st, e))
  {
    if e.Sgr? {
      ApplySgrOk(st, e.attr);
    }
  }

  lemma {:induction false} ApplyEscapesOk(st: DecodeState, es: seq<AnsiEscape>)
    requires StateOk(st)
    ensures StateOk(ApplyEscapes(st, es))
    decreases |es|
  {
    if es != [] {
      ApplyEscapesOk(st, es[..|es| - 1]);
      ApplyEscapeOk(ApplyEscapes(st, es[..|es| - 1]), es[|es| - 1]);
    }
  }

  /** The invariant holds through the whole main loop. */
  lemma {:induction false} ScanOk(rest: seq<byte>, st: DecodeState)
    requires StateOk(st)
    ensures StateOk(Scan(rest, st))
    decreases |rest|
  {
    if rest != [] {
      ScanUnfold(rest, st);
      match NextEscapes(rest)
      case Some((es, consumed)) =>
        ApplyEscapesOk(st, es);
        ScanOk(rest[consumed..], ApplyEscapes(st, es));
      case None =>
        ScanOk(rest[1..], Copy(st, rest[0]));
    }
  }

  // ---------------------------------------------------------------------
  // The returned spans and points

  /** What every decoded result satisfies. */
  predicate ResultOk(res: AnsiParseResult) {
    && (forall i :: 0 <= i < |res.spans| ==> SpanOk(res.spans[i], |res.text|) && res.spans[i].start < res.spans[i].end)
    && (forall i, j :: 0 <= i < j < |res.spans| ==> res.spans[i].end <= res.spans[j].start)
    && PointsBefore(res.points, |res.text|)
  }

  lemma SpansBeforeTail(spans: seq<AnsiSpan>, bound: nat)
    requires spans != [] && SpansBefore(spans, bound)
    ensures SpansBefore(spans[1..], bound)
    ensures forall sp :: sp in spans[1..] ==> spans[0].end <= sp.start
  {
    var tail := spans[1..];
    forall i | 0 <= i < |tail| ensures SpanOk(tail[i], bound) {
      assert tail[i] == spans[i + 1];
    }
    forall i, j | 0 <= i < j < |tail| ensures tail[i].end <= tail[j].start {
      assert tail[i] == spans[i + 1] && tail[j] == spans[j + 1];
    }
    forall sp | sp in tail ensures spans[0].end <= sp.start {
      var k :| 0 <= k < |tail| && tail[k] == sp;
      assert spans[k + 1] == sp;
    }
  }

  lemma SpansBeforeCons(sp: AnsiSpan, rest: seq<AnsiSpan>, bound: nat)
    requires SpanOk(sp, bound) && SpansBefore(rest, bound)
    requires forall x :: x in rest ==> sp.end <= x.start
    ensures SpansBefore([sp] + rest, bound)
  {
    var r := [sp] + rest;
    forall i | 0 <= i < |r| ensures SpanOk(r[i], bound) {
      if i > 0 {
        assert r[i] == rest[i - 1];
      }
    }
    forall i, j | 0 <= i < j < |r| ensures r[i].end <= r[j].start {
      assert r[j] == rest[j - 1];
      assert r[j] in rest;
      if i > 0 {
        assert r[i] == rest[i - 1];
      }
    }
  }

  /** Dropping the empty spans keeps the rest in order. */
  lemma {:induction false} DropEmptyOk(spans: seq<AnsiSpan>, bound: nat)
    requires SpansBefore(spans, bound)
    ensures SpansBefore(DropEmpty(spans), bound)
    decreases |spans|
  {
    if spans != [] {
      SpansBeforeTail(spans, bound);
      DropEmptyOk(spans[1..], bound);
      var rest := DropEmpty(spans[1..]);
      if spans[0].start != spans[0].end {
        SpansBeforeCons(spans[0], rest, bound);
      }
    }
  }

  /**
   * Every decoded result: spans have start < end <= |text| and non-empty
   * codes, come in ascending order without overlap; points are non-SGR,
   * within the text and in non-decreasing order.
   */
  lemma DecodeOk(input: seq<byte>)
    ensures ResultOk(Decode(input))
  {
    var st := Scan(input, Init(0));
    ScanOk(input, Init(0));
    ScanText(input, Init(0));
    CloseSpanOk(st);
    DropEmptyOk(CloseSpan(st).spans, st.outputPos);
  }
}
