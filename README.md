# ANSI escape codes: encoder, decoder and vocabulary

This project models the core of `ansi_escapers`, a Rust library for terminal
escape codes. The model has three layers.

- **Vocabulary** (`ansi_types.dfy`). Datatypes for the closed set of escapes
  the library knows:
  - colours: 16 named, `AnsiValue(u8)` and `Rgb24(u8, u8, u8)`;
  - SGR attributes: Reset, nine effects, and the three colour slots
    Foreground, Background and UnderlineColor;
  - cursor moves with u16 counts, erase commands, device controls;
  - the top-level `AnsiEscape`.

  The module also fixes the total order of attributes that the decoder's
  sorted set needs: variant declaration order first, then the payload.
- **Encoder** (`ansi_creator.dfy`). `sgr_code`, `fg_code`, `bg_code`,
  `underline_color_code_explicit`, the `*_standard`, `*_8bit` and `*_24bit`
  helpers, `cursor_code`, `erase_code`, `device_code`, `escape_code`,
  `erase_mode_num` and `format_text`. Each is a pure function on bytes. Each
  contract states the control sequence it writes: ESC `[`, the parameter
  segments as decimal digits joined by `;`, then the final byte, following
  the control-sequence syntax of section 5.4 of ECMA-48.
- **Decoder** (`ansi_interpreter.dfy`). A control sequence is ESC `[`, then
  parameter bytes, then a final byte in 0x40–0x7E.
  - `parse_next_escapes` recognises one control sequence and classifies it.
    The table-driven `parse_sgr`, `parse_cursor`, `parse_erase` and
    `parse_device` do the classification.
  - `parse_annotated` is one pass over the input. It copies plain bytes into
    the cleaned text and removes each control sequence.
  - While scanning it keeps the active SGR set, the open span and the last
    emitted set. From these it builds style spans and point events.
  - The specification is a set of functions over the unread input: `NextEscapes`,
    `Scan` and `Finish`, composed as `Decode`. The `AnsiParser` class and
    its methods keep the Rust loops and mutable fields, and are proved to
    compute exactly those functions.

Supporting modules:

- `bytes.dfy`: bytes, final-byte search, and `;` splitting with its
  join/split round trips.
- `decimal.dfy`: decimal formatting, and parsing bounded to u8/u16, which
  stands in for `format!` and `str::parse`.
- `sgr_set.dfy`: the `BTreeSet<SgrAttribute>`, kept as a sorted sequence with
  insert and retain.
- `decoder_properties.dfy`: what the decoder guarantees about text, points,
  the active set and spans.
- `round_trip.dfy`: encode-then-decode for every escape.
- `format_round_trip.dfy`: `format_text` read back by the decoder.
- `decoder_examples.dfy`: four of the repository's decoder tests proved as
  whole decodings (cursor movement, erase, device control, malformed
  sequences), and smaller worked examples of parameter parsing and
  formatting. The other decoder tests are discussed under "Left out".

## Model

| member | source | states |
|---|---|---|
| AnsiTypes.ColorRank | src/ansi_escape/ansi_types.rs:39-76 | each colour has a declaration rank below 18; a colour is one of the 16 named ones exactly when its rank is below 16 |
| AnsiTypes.Rank | src/ansi_escape/ansi_types.rs:8-35 | each attribute has a declaration rank below 13; rank 0 is exactly Reset; ranks 10–12 are exactly the three colour slots |
| AnsiTypes.SameRankSameKind | src/ansi_escape/ansi_types.rs:8-35 | two attributes of equal rank have the same variant, and are equal if they carry no colour |
| AnsiTypes.SameColorRank | src/ansi_escape/ansi_types.rs:39-76 | two colours of equal rank have the same variant, and are equal if named |
| AnsiTypes.ColorLessIsTransitive | src/ansi_escape/ansi_types.rs:38-76 | the colour order (rank, then payload) is transitive |
| AnsiTypes.ColorLessIsTotal | src/ansi_escape/ansi_types.rs:38-76 | any two distinct colours are ordered one way or the other |
| AnsiTypes.ColorLessIsStrictTotal | src/ansi_escape/ansi_types.rs:38-76 | the colour order is irreflexive, asymmetric, transitive and total, so it is a strict total order |
| AnsiTypes.SgrLessIsTransitive | src/ansi_escape/ansi_interpreter.rs:78 | the attribute order (rank, then colour) that the BTreeSet needs is transitive |
| AnsiTypes.SgrLessIsTotal | src/ansi_escape/ansi_interpreter.rs:78 | any two distinct attributes are ordered one way or the other |
| AnsiTypes.SgrLessIsStrictTotal | src/ansi_escape/ansi_types.rs:7 | the attribute order is a strict total order that agrees with the derived structural equality |
| Bytes.FirstFinal | src/ansi_escape/ansi_interpreter.rs:198-206 | the scan for the end of a sequence finds the first final byte at or after the start, or shows there is none |
| Bytes.FirstFinalUnique | src/ansi_escape/ansi_interpreter.rs:198-206 | a final byte with no final byte before it is the one the scan finds |
| Bytes.FirstFinalNone | src/ansi_escape/ansi_interpreter.rs:207-211 | with no final byte in the rest, the scan finds none |
| Bytes.IndexOf | src/ansi_escape/ansi_interpreter.rs:240 | finds the first occurrence of a byte |
| Bytes.Split | src/ansi_escape/ansi_interpreter.rs:240 | `split(';')` yields at least one piece, and no piece holds a `;` |
| Bytes.JoinSplit | src/ansi_escape/ansi_interpreter.rs:240 | joining the pieces of a split with `;` gives back the original bytes |
| Bytes.SplitAt | src/ansi_escape/ansi_interpreter.rs:337 | a split cuts at the first `;` and continues after it |
| Bytes.SplitJoin | src/ansi_escape/ansi_creator.rs:221 | pieces free of `;`, joined with `;`, split back into exactly those pieces |
| Decimal.Digits | src/ansi_escape/ansi_creator.rs:148 | `format!("{}", n)` writes at least one digit, and no leading zero except for 0 itself |
| Decimal.ValueOfDigits | src/ansi_escape/ansi_creator.rs:148 | the value of the digits written for n is n |
| Decimal.DigitsInjective | src/ansi_escape/ansi_creator.rs:148 | different numbers are written differently |
| Decimal.ParseUnsigned | src/ansi_escape/ansi_interpreter.rs:327 | a successful bounded parse comes from a non-empty run of digits, after an optional `+`, and gives the number those digits spell, at most the bound |
| Decimal.ParseU8 | src/ansi_escape/ansi_interpreter.rs:292 | `parse::<u8>` yields only values 0..255; a run of digits parses exactly when its value is at most 255, and to that value |
| Decimal.ParseU16 | src/ansi_escape/ansi_interpreter.rs:327 | `parse::<u16>` yields only values 0..65535; a run of digits parses exactly when its value is at most 65535, and to that value |
| Decimal.ParseDigits | src/ansi_escape/ansi_interpreter.rs:304-306 | parsing the digits written for any n within the bound gives back n |
| Decimal.ParseOverflow | src/ansi_escape/ansi_interpreter.rs:292 | the digits of bound+1 do not parse, which is the out-of-range error |
| Decimal.ParseDigitText | src/ansi_escape/ansi_interpreter.rs:327 | any non-empty run of digits, leading zeros included, parses to its value when that is within the bound and fails otherwise; a leading `+` changes nothing |
| Decimal.LiteralValue | src/ansi_escape/ansi_interpreter.rs:242-285 | a parameter matches a string literal of the SGR table exactly when it is the canonical digits of that number |
| AnsiCreator.JoinParameterBytes | src/ansi_escape/ansi_creator.rs:221 | digit segments joined with `;` are still parameter bytes |
| AnsiCreator.SequenceEncodes | src/ansi_escape/ansi_creator.rs:148 | ESC `[`, joined parameters and a final byte form one control sequence carrying exactly those parameters |
| AnsiCreator.DigitsAreParameter | src/ansi_escape/ansi_creator.rs:148 | decimal digits are valid parameter bytes |
| AnsiCreator.Numeric | src/ansi_escape/ansi_creator.rs:271-277 | `ESC[{n}X` is a control sequence with the single parameter n and final X |
| AnsiCreator.Indexed | src/ansi_escape/ansi_creator.rs:212-214 | `ESC[{base};5;{idx}m` carries the parameters base, 5 and idx, with final m |
| AnsiCreator.TrueColor | src/ansi_escape/ansi_creator.rs:220-222 | `ESC[{base};2;{r};{g};{b}m` carries base, 2, r, g and b, with final m |
| AnsiCreator.FgStandard | src/ansi_escape/ansi_creator.rs:146-149 | `fg_standard(code)` is `ESC[{code}m` |
| AnsiCreator.BgStandard | src/ansi_escape/ansi_creator.rs:228-231 | `bg_standard(code)` is `ESC[{code}m` |
| AnsiCreator.Fg8bit | src/ansi_escape/ansi_creator.rs:212-214 | `ESC[38;5;{idx}m` |
| AnsiCreator.Fg24bit | src/ansi_escape/ansi_creator.rs:220-222 | `ESC[38;2;{r};{g};{b}m` |
| AnsiCreator.Bg8bit | src/ansi_escape/ansi_creator.rs:237-239 | `ESC[48;5;{idx}m` |
| AnsiCreator.Bg24bit | src/ansi_escape/ansi_creator.rs:245-247 | `ESC[48;2;{r};{g};{b}m` |
| AnsiCreator.Underline8bit | src/ansi_escape/ansi_creator.rs:253-255 | `ESC[58;5;{idx}m` |
| AnsiCreator.Underline24bit | src/ansi_escape/ansi_creator.rs:261-263 | `ESC[58;2;{r};{g};{b}m` |
| AnsiCreator.FgCode | src/ansi_escape/ansi_creator.rs:152-173 | named foregrounds give `ESC[30m`–`ESC[37m` and `ESC[90m`–`ESC[97m` by rank; AnsiValue gives the 38;5 form and Rgb24 the 38;2 form |
| AnsiCreator.BgCode | src/ansi_escape/ansi_creator.rs:176-197 | named backgrounds give `ESC[40m`–`ESC[47m` and `ESC[100m`–`ESC[107m` by rank; AnsiValue gives the 48;5 form and Rgb24 the 48;2 form |
| AnsiCreator.NamedCode | src/ansi_escape/ansi_creator.rs:152-197 | the eight standard colours get base to base+7 and the eight bright ones base+60 to base+67 |
| AnsiCreator.UnderlineColorCodeExplicit | src/ansi_escape/ansi_creator.rs:200-206 | the code is empty exactly for named colours; otherwise it is the 58;5 or 58;2 form |
| AnsiCreator.SgrCode | src/ansi_escape/ansi_creator.rs:124-140 | Reset through CrossedOut give `ESC[0m` through `ESC[9m` in declaration order; the code is empty exactly for an underline colour with a named colour; otherwise it is one control sequence ending in m |
| AnsiCreator.FormatText | src/ansi_escape/ansi_creator.rs:107-114 | the attribute codes in order, then the text, then `ESC[0m`; always ends with the Reset code, even when there are no attributes |
| AnsiCreator.Codes | src/ansi_escape/ansi_creator.rs:108-111 | the attribute loop writes nothing exactly when no attribute has a code |
| AnsiCreator.CursorCode | src/ansi_escape/ansi_creator.rs:269-280 | moves are `ESC[{n}` followed by A–G by variant; Position is `ESC[{row};{col}H` |
| AnsiCreator.CursorFinal | src/ansi_escape/ansi_creator.rs:271-277 | a relative move ends in a letter from A to G |
| AnsiCreator.EraseModeNum | src/ansi_escape/ansi_creator.rs:321-327 | the erase mode number is 0, 1 or 2 |
| AnsiCreator.EraseModeNumInjective | src/ansi_escape/ansi_creator.rs:321-327 | distinct modes get distinct numbers |
| AnsiCreator.EraseModeNumValues | src/ansi_escape/ansi_creator.rs:321-327 | ToEnd, ToStart and All are written as 0, 1 and 2 |
| AnsiCreator.EraseCode | src/ansi_escape/ansi_creator.rs:286-291 | `ESC[{mode}J` for the display, `ESC[{mode}K` for the line |
| AnsiCreator.DeviceCode | src/ansi_escape/ansi_creator.rs:297-304 | `ESC[s`, `ESC[u`, `ESC[?25l` and `ESC[?25h` |
| AnsiCreator.EscapeCode | src/ansi_escape/ansi_creator.rs:310-317 | dispatches on the family; gives one control sequence for every escape except an underline colour with a named colour, which gives nothing |
| AnsiInterpreter.NonEmpty | src/ansi_escape/ansi_interpreter.rs:240 | the filter keeps exactly the non-empty pieces, in order |
| AnsiInterpreter.Segments | src/ansi_escape/ansi_interpreter.rs:240 | every piece is non-empty and free of `;`; a parameter string without `;` is one piece, or none when empty |
| AnsiInterpreter.PlainAttribute | src/ansi_escape/ansi_interpreter.rs:243-252 | SGR codes 0–9 name the attribute of that rank |
| AnsiInterpreter.NamedColor | src/ansi_escape/ansi_interpreter.rs:253-284 | a colour offset 0–15 names the named colour of that rank |
| AnsiInterpreter.SimpleCode | src/ansi_escape/ansi_interpreter.rs:243-284 | the single-number table never yields an underline colour, and yields only named colours |
| AnsiInterpreter.Slot | src/ansi_escape/ansi_interpreter.rs:293-298 | 38, 48 and 58 select Foreground, Background and UnderlineColor, carrying the given colour |
| AnsiInterpreter.SgrGroup | src/ansi_escape/ansi_interpreter.rs:241-318 | one code, with the pieces it pulls, yields at most one attribute and consumes at least one piece |
| AnsiInterpreter.PullExtended | src/ansi_escape/ansi_interpreter.rs:285-317 | the iterator pulls of a 38/48/58 group, as a loop, push and consume what the group specification says |
| AnsiInterpreter.NextU8 | src/ansi_escape/ansi_interpreter.rs:304-306 | `iter.next().and_then(parse::<u8>)` parses the next piece, or gives nothing at the end |
| AnsiInterpreter.SgrOfUnfold | src/ansi_escape/ansi_interpreter.rs:241-242 | the attributes of a parameter list are those of its first group, then those of the rest |
| AnsiInterpreter.ParseSgr | src/ansi_escape/ansi_interpreter.rs:238-322 | the imperative loop returns exactly the attributes of the group-by-group specification of the non-empty pieces |
| AnsiInterpreter.SgrOf | src/ansi_escape/ansi_interpreter.rs:238-323 | the attributes of a parameter list, group by group; at most one per piece |
| AnsiInterpreter.PullGroup | src/ansi_escape/ansi_interpreter.rs:241-318 | one turn of the loop pushes and consumes what the group specification says, at least one piece |
| AnsiInterpreter.SgrOfStep | src/ansi_escape/ansi_interpreter.rs:241-319 | one pass of the loop keeps the output so far plus the rest's attributes equal to the full result |
| AnsiInterpreter.ParseCursor | src/ansi_escape/ansi_interpreter.rs:326-350 | accepts exactly A–H and f; a count that does not parse is 1; H and f read row and col from the first two `;` pieces, each 1 when missing or unparsable |
| AnsiInterpreter.ParseErase | src/ansi_escape/ansi_interpreter.rs:353-365 | accepts exactly `""`, `"0"`, `"1"`, `"2"` with J (display) or K (line); `""` and `"0"` mean ToEnd |
| AnsiInterpreter.ParseDevice | src/ansi_escape/ansi_interpreter.rs:368-378 | only s, u, l and h are accepted; for parameters cut from input, exactly `("", s)`, `("", u)`, `("?25", l)` and `("?25", h)` are accepted |
| AnsiInterpreter.SgrEscapes | src/ansi_escape/ansi_interpreter.rs:219-222 | each parsed attribute becomes one Sgr escape, in order |
| AnsiInterpreter.Classify | src/ansi_escape/ansi_interpreter.rs:216-231 | final m gives the SGR attributes; any other final gives at most one non-SGR escape, with cursor tried first |
| AnsiInterpreter.NextEscapes | src/ansi_escape/ansi_interpreter.rs:191-234 | nothing unless the rest starts with ESC `[`; a terminated sequence consumes at least 3 bytes up to its first final byte; an unterminated one consumes everything and yields no escape |
| AnsiInterpreter.CloseSpan | src/ansi_escape/ansi_interpreter.rs:97-104 | closing leaves no span open and changes nothing else except possibly the span list |
| AnsiInterpreter.Init | src/ansi_escape/ansi_interpreter.rs:74-80 | the loop starts at the given offset with nothing written, no span open and nothing active |
| AnsiInterpreter.Copy | src/ansi_escape/ansi_interpreter.rs:155-159 | a plain byte is appended to the cleaned text and the output offset advances by one; nothing else changes |
| AnsiInterpreter.Evict | src/ansi_escape/ansi_interpreter.rs:112-131 | the retain removes exactly the attributes of the new one's kind, and keeps the set sorted with one per kind |
| AnsiInterpreter.ApplySgr | src/ansi_escape/ansi_interpreter.rs:93-151 | one SGR keeps the active set sorted and leaves the text, offset and points alone |
| AnsiInterpreter.ApplyEscape | src/ansi_escape/ansi_interpreter.rs:84-151 | one escape keeps the set sorted and leaves the text and offset alone |
| AnsiInterpreter.ApplyEscapes | src/ansi_escape/ansi_interpreter.rs:84-152 | a batch of escapes keeps the set sorted and leaves the text and offset alone |
| AnsiInterpreter.Scan | src/ansi_escape/ansi_interpreter.rs:82-165 | the main loop, as a function of the unread input, terminates and keeps the active set sorted |
| AnsiInterpreter.DropEmpty | src/ansi_escape/ansi_interpreter.rs:177-181 | keeps exactly the spans with start ≠ end, in order |
| AnsiInterpreter.Finish | src/ansi_escape/ansi_interpreter.rs:166-186 | the result has the loop's text and points; its spans are the recorded ones plus the still-open one, closed, keeping only those with start ≠ end |
| AnsiInterpreter.Decode | src/ansi_escape/ansi_interpreter.rs:388-390 | no returned span is empty, and the empty input gives the empty result |
| AnsiInterpreter.ScanUnfold | src/ansi_escape/ansi_interpreter.rs:82-165 | one iteration either handles a whole sequence or copies one byte |
| AnsiInterpreter.ScanEscapesAt | src/ansi_escape/ansi_interpreter.rs:83-152 | handling the escapes at a position and advancing past them continues the same scan |
| AnsiInterpreter.ScanCopyAt | src/ansi_escape/ansi_interpreter.rs:153-163 | copying the byte at a position and advancing by one continues the same scan |
| AnsiInterpreter.HandleEscapes | src/ansi_escape/ansi_interpreter.rs:84-151 | the imperative `for escape in escapes` body computes the state-machine specification |
| AnsiInterpreter.FindFinal | src/ansi_escape/ansi_interpreter.rs:197-206 | the `while end < len` loop stops at the first final byte, or at the end of input when there is none |
| AnsiInterpreter.SgrEscapesOf | src/ansi_escape/ansi_interpreter.rs:218-222 | the SGR branch pushes one Sgr escape per parsed attribute |
| AnsiInterpreter.EscapesOf | src/ansi_escape/ansi_interpreter.rs:216-231 | the if-else chain builds exactly the classification |
| AnsiInterpreter.AnsiParser.constructor | src/ansi_escape/ansi_interpreter.rs:62-67 | a new parser holds the input at position 0 and output offset 0 |
| AnsiInterpreter.AnsiParser.ParseNextEscapes | src/ansi_escape/ansi_interpreter.rs:191-234 | the method returns exactly `NextEscapes` of the unread input |
| AnsiInterpreter.AnsiParser.ParseAnnotated | src/ansi_escape/ansi_interpreter.rs:73-189 | returns the finished scan of the unread input, consumes all of it, and advances the output offset by the length of the cleaned text |
| AnsiInterpreter.ParseAnsiAnnotated | src/ansi_escape/ansi_interpreter.rs:388-390 | a fresh parser's result is `Decode(input)` |
| SgrSet.OnePerKindIsSorted | src/ansi_escape/ansi_interpreter.rs:78 | a set with one attribute per kind in rank order is sorted |
| SgrSet.OnePerKindMembers | src/ansi_escape/ansi_interpreter.rs:78 | two members of the same kind are the same attribute |
| SgrSet.SortedDistinctRanks | src/ansi_escape/ansi_interpreter.rs:78 | sorted with no two of one kind means one per kind |
| SgrSet.HeadBelowTail | src/ansi_escape/ansi_interpreter.rs:78 | the first element of a sorted set is below every later one |
| SgrSet.Insert | src/ansi_escape/ansi_interpreter.rs:132 | `BTreeSet::insert` adds exactly the element, keeps the set sorted, and grows it by at most one |
| SgrSet.Retain | src/ansi_escape/ansi_interpreter.rs:113-130 | `BTreeSet::retain` keeps exactly the members satisfying the predicate, and preserves sortedness and one-per-kind |
| SgrSet.SortedSetEquality | src/ansi_escape/ansi_interpreter.rs:135 | two sorted sets with the same members are equal, so comparing sets is comparing sequences |
| DecoderProperties.Strip | src/ansi_escape/ansi_interpreter.rs:153-159 | the cleaned text, removing every control sequence and any unterminated tail, is never longer than the input |
| DecoderProperties.StripPlain | src/ansi_escape/ansi_interpreter.rs:193-195 | input without ESC is copied unchanged |
| DecoderProperties.StripPlainPrefix | src/ansi_escape/ansi_interpreter.rs:153-159 | an ESC-free prefix passes through before the rest is cleaned |
| DecoderProperties.ScanText | src/ansi_escape/ansi_interpreter.rs:153-160 | the scan's cleaned text is the earlier text plus the stripped input, and the output offset grows by exactly its length |
| DecoderProperties.DecodeText | src/ansi_escape/ansi_interpreter.rs:185 | the result text is the input with all control sequences and any unterminated ESC `[` tail removed; other ESC bytes stay |
| DecoderProperties.NonSgrPoints | src/ansi_escape/ansi_interpreter.rs:84-91 | a batch gives one point per non-SGR escape, at the current offset |
| DecoderProperties.PointsOf | src/ansi_escape/ansi_interpreter.rs:84-91 | every point of the specification is a non-SGR escape at an offset between the starting one and the starting one plus the input length |
| DecoderProperties.ApplyEscapesPoints | src/ansi_escape/ansi_interpreter.rs:84-91 | handling a batch appends exactly its non-SGR points at the current output offset |
| DecoderProperties.PointsOfUnfold | src/ansi_escape/ansi_interpreter.rs:82-165 | one step of the point specification: after a sequence, or after one copied byte |
| DecoderProperties.ScanPoints | src/ansi_escape/ansi_interpreter.rs:84-91 | the scan appends exactly the specified points, in encounter order |
| DecoderProperties.DecodePoints | src/ansi_escape/ansi_interpreter.rs:84-91 | the result points are exactly the non-SGR escapes, each at the output offset current when it was read |
| DecoderProperties.MergeOk | src/ansi_escape/ansi_interpreter.rs:107-132 | retain then insert gives a well-formed set: exactly the new attribute and the old ones of other kinds |
| DecoderProperties.SlotsExclusive | src/ansi_escape/ansi_interpreter.rs:110-131 | a well-formed active set holds at most one foreground, one background, one underline colour and one of each effect |
| DecoderProperties.InitOk | src/ansi_escape/ansi_interpreter.rs:74-80 | the initial state satisfies the loop invariant |
| DecoderProperties.CloseSpanOk | src/ansi_escape/ansi_interpreter.rs:136-146 | closing appends the open span with the active codes, if any, and every span then ends by the current offset |
| DecoderProperties.ResetClosesSpan | src/ansi_escape/ansi_interpreter.rs:95-106 | Reset closes the open span and empties the set, and the invariant holds after it |
| DecoderProperties.ReassertIsNoOp | src/ansi_escape/ansi_interpreter.rs:107-151 | re-asserting an active attribute changes nothing and opens no span |
| DecoderProperties.ApplySgrOk | src/ansi_escape/ansi_interpreter.rs:93-151 | one SGR keeps the invariant; a non-Reset attribute replaces its kind and is active afterwards; a changed set opens a new span at the current offset |
| DecoderProperties.ApplyEscapeOk | src/ansi_escape/ansi_interpreter.rs:84-151 | one escape keeps the invariant |
| DecoderProperties.ApplyEscapesOk | src/ansi_escape/ansi_interpreter.rs:84-152 | a batch of escapes keeps the invariant |
| DecoderProperties.ScanOk | src/ansi_escape/ansi_interpreter.rs:82-165 | every iteration of the main loop keeps the invariant: active set well formed and equal to the last emitted set, a span open exactly when it is non-empty, spans ordered and closed by the open span's start, and points non-SGR, ordered and not past the offset |
| DecoderProperties.DropEmptyOk | src/ansi_escape/ansi_interpreter.rs:177-181 | filtering keeps spans ordered and within the bound |
| DecoderProperties.DecodeOk | src/ansi_escape/ansi_interpreter.rs:167-181 | returned spans have start < end ≤ text length and non-empty well-formed codes, in ascending, non-overlapping order; points are non-SGR, non-decreasing and not past the text |
| RoundTrip.SequenceAhead | src/ansi_escape/ansi_interpreter.rs:197-215 | a complete sequence at the front is consumed whole and classified by its parameters and final byte |
| RoundTrip.ControlSequenceAhead | src/ansi_escape/ansi_interpreter.rs:197-215 | the same, for any byte string the encoder calls a control sequence |
| RoundTrip.ScanSequence | src/ansi_escape/ansi_interpreter.rs:212-232 | a complete sequence in the input applies its escapes and adds no text |
| RoundTrip.ScanEscape | src/ansi_escape/ansi_creator.rs:310-317 | the code of an escape, read by the decoder, applies exactly that escape |
| RoundTrip.EncodesShape | src/ansi_escape/ansi_creator.rs:148 | an encoded sequence is ESC `[`, the joined parameters, and one final byte, with no final byte among the parameters |
| RoundTrip.NonEmptyKeepsNonEmpty | src/ansi_escape/ansi_interpreter.rs:240 | the empty-piece filter keeps pieces that are all non-empty |
| RoundTrip.PlainAttributeOfRank | src/ansi_escape/ansi_interpreter.rs:243-252 | the decoder's table inverts the encoder's numbering of the plain attributes |
| RoundTrip.NamedColorOfRank | src/ansi_escape/ansi_interpreter.rs:253-284 | the decoder's colour numbering inverts the encoder's |
| RoundTrip.SimpleCodeOfNamed | src/ansi_escape/ansi_interpreter.rs:253-284 | the foreground and background codes of a named colour decode to that colour in that slot |
| RoundTrip.SimpleCodeMatchesEncoder | src/ansi_escape/ansi_interpreter.rs:243-284 | a single number decodes to an attribute exactly when the encoder writes that attribute as that number |
| RoundTrip.SgrOfSingle | src/ansi_escape/ansi_interpreter.rs:241-285 | a lone table code decodes to its one attribute |
| RoundTrip.SgrOfIndexed | src/ansi_escape/ansi_interpreter.rs:289-301 | `kind;5;idx` decodes to the indexed colour in the kind's slot |
| RoundTrip.SgrOfTrueColor | src/ansi_escape/ansi_interpreter.rs:302-316 | `kind;2;r;g;b` decodes to the RGB colour in the kind's slot |
| RoundTrip.TrueColorGroup | src/ansi_escape/ansi_interpreter.rs:302-316 | a five-piece group with mode 2 and three parsed components yields that RGB colour |
| RoundTrip.SegmentsOfEncoded | src/ansi_escape/ansi_interpreter.rs:240 | the decoder's pieces of an encoded sequence are exactly the encoder's parameters |
| RoundTrip.IndexedRoundTrip | src/ansi_escape/ansi_creator.rs:212-214 | an 8-bit colour code reads back as that colour in its slot |
| RoundTrip.TrueColorRoundTrip | src/ansi_escape/ansi_creator.rs:220-222 | a 24-bit colour code reads back as that colour in its slot |
| RoundTrip.NumericRoundTrip | src/ansi_escape/ansi_creator.rs:146-149 | a single-number SGR code reads back as the attribute the table gives for it |
| RoundTrip.NamedCodes | src/ansi_escape/ansi_creator.rs:152-197 | the named-colour foreground and background codes are single-number SGR codes |
| RoundTrip.NamedRoundTrip | src/ansi_escape/ansi_creator.rs:152-197 | a named colour's foreground and background codes read back as that colour |
| RoundTrip.ForegroundRoundTrip | src/ansi_escape/ansi_creator.rs:152-173 | every foreground code reads back as that foreground |
| RoundTrip.BackgroundRoundTrip | src/ansi_escape/ansi_creator.rs:176-197 | every background code reads back as that background |
| RoundTrip.UnderlineColorRoundTrip | src/ansi_escape/ansi_creator.rs:200-206 | every non-empty underline colour code reads back as that underline colour |
| RoundTrip.PlainCode | src/ansi_escape/ansi_creator.rs:126-135 | the effect attributes are written as their rank |
| RoundTrip.SgrRoundTrip | src/ansi_escape/ansi_creator.rs:124-140 | every encodable attribute's code reads back as exactly that attribute |
| RoundTrip.CursorRoundTrip | src/ansi_escape/ansi_creator.rs:269-280 | `parse_cursor` of every cursor code gives back the move |
| RoundTrip.MoveOfFinal | src/ansi_escape/ansi_interpreter.rs:327-334 | a move's final letter with its parsed count gives back the move |
| RoundTrip.EraseRoundTrip | src/ansi_escape/ansi_creator.rs:286-291 | `parse_erase` of every erase code gives back the erase |
| RoundTrip.DeviceRoundTrip | src/ansi_escape/ansi_creator.rs:297-304 | `parse_device` of every device code gives back the control |
| RoundTrip.ClassifySgrCode | src/ansi_escape/ansi_interpreter.rs:218-222 | an encodable SGR code is classified as exactly that one escape |
| RoundTrip.SgrClassifies | src/ansi_escape/ansi_interpreter.rs:218-222 | a sequence ending in m that reads back as one attribute is classified as that escape |
| RoundTrip.ClassifyCursorCode | src/ansi_escape/ansi_interpreter.rs:223-224 | a cursor code is classified as exactly that move |
| RoundTrip.ClassifyEraseCode | src/ansi_escape/ansi_interpreter.rs:225-226 | an erase code is classified as exactly that erase; cursor parsing does not claim it first |
| RoundTrip.ClassifyDeviceCode | src/ansi_escape/ansi_interpreter.rs:227-228 | a device code is classified as exactly that control; cursor and erase parsing do not claim it first |
| RoundTrip.ClassifyRoundTrip | src/ansi_escape/ansi_creator.rs:310-317 | every encodable escape's code is classified as exactly that escape |
| RoundTrip.EscapeRoundTrip | src/ansi_escape/ansi_creator.rs:310-317 | for every escape except an underline colour with a named colour, the code is one control sequence, and `parse_next_escapes` consumes all of it and returns exactly that escape, whatever follows |
| RoundTrip.ScanPlain | src/ansi_escape/ansi_interpreter.rs:153-163 | ESC-free text is copied byte by byte into the cleaned text |
| RoundTrip.Step | src/ansi_escape/ansi_interpreter.rs:82-165 | one piece (text, encoded escape or control sequence) updates the state and keeps the set sorted |
| RoundTrip.Run | src/ansi_escape/ansi_interpreter.rs:82-165 | a run of pieces keeps the set sorted |
| RoundTrip.PiecesAt | src/ansi_escape/ansi_interpreter.rs:82-165 | rendering and running unfold piece by piece |
| RoundTrip.ScanPiece | src/ansi_escape/ansi_interpreter.rs:82-165 | decoding a rendered piece performs that piece's step |
| RoundTrip.ScanRender | src/ansi_escape/ansi_interpreter.rs:82-165 | decoding input built from text, encoded escapes and control sequences performs their steps in order |
| FormatRoundTrip.SgrStream | src/ansi_escape/ansi_creator.rs:108-111 | the codes of the attributes are read back as one Sgr escape per attribute that has a code |
| FormatRoundTrip.Styles | src/ansi_escape/ansi_interpreter.rs:95-132 | the set left active by a run of attributes is well formed |
| FormatRoundTrip.StylesStep | src/ansi_escape/ansi_interpreter.rs:95-132 | one more attribute keeps the earlier ones it does not override, and adds itself unless it is a Reset or has no code |
| FormatRoundTrip.SurvivesStep | src/ansi_escape/ansi_interpreter.rs:95-132 | an attribute survives one more exactly when it survived before and the new one does not override it |
| FormatRoundTrip.StylesMembers | src/ansi_escape/ansi_interpreter.rs:95-132 | an attribute is active exactly when it has a code and no later Reset or same-kind attribute with a code overrides it |
| FormatRoundTrip.ScanCodes | src/ansi_escape/ansi_creator.rs:108-111 | reading the attribute codes applies their Sgr escapes in order, whatever follows |
| FormatRoundTrip.BeforeTextStep | src/ansi_escape/ansi_interpreter.rs:95-151 | an SGR read before any text writes nothing, and updates the set as Styles does |
| FormatRoundTrip.SpansEmptyBeforeText | src/ansi_escape/ansi_interpreter.rs:136-150 | before any text, a span is open at 0 exactly when something is active, and every closed span is empty |
| FormatRoundTrip.CodesState | src/ansi_escape/ansi_creator.rs:108-111 | after the codes, nothing is written and the active set is Styles of the attributes |
| FormatRoundTrip.FormatTextParts | src/ansi_escape/ansi_creator.rs:107-114 | `format_text` is the codes, then the text, then the Reset code |
| FormatRoundTrip.ScanReset | src/ansi_escape/ansi_creator.rs:112 | the trailing Reset code is read as one Reset |
| FormatRoundTrip.AfterTextOk | src/ansi_escape/ansi_interpreter.rs:153-163 | copying the text after the codes keeps the invariant |
| FormatRoundTrip.FinishSpans | src/ansi_escape/ansi_interpreter.rs:177-181 | spans that are all empty vanish in the final filter |
| FormatRoundTrip.ScanFormatted | src/ansi_escape/ansi_creator.rs:107-114 | decoding `format_text` applies the codes, copies the text, then applies the Reset |
| FormatRoundTrip.FormatTextRoundTrip | src/ansi_escape/ansi_creator.rs:107-114 | decoding `format_text(text, attrs)` for ESC-free text gives the text, no points, and one span over the whole text with the attributes left active, or no span when the text is empty or nothing is active |
| DecoderExamples.CursorMovementExample | src/ansi_escape/ansi_interpreter.rs:493-503 | `A ESC[2B C` decodes to text `AC`, no spans, and a Down(2) point at offset 1 |
| DecoderExamples.StepPoint | src/ansi_escape/ansi_interpreter.rs:84-91 | a sequence that yields one non-SGR escape adds one point at the current offset and changes nothing else |
| DecoderExamples.DecodePieces | src/ansi_escape/ansi_interpreter.rs:388-390 | input written as well-formed pieces decodes to the closed state of running those pieces |
| DecoderExamples.RunAppend | src/ansi_escape/ansi_interpreter.rs:82-165 | running two lists of pieces in turn is running their concatenation |
| DecoderExamples.RenderAppend | src/ansi_escape/ansi_interpreter.rs:82-165 | the bytes of two lists of pieces are the bytes of their concatenation |
| DecoderExamples.EraseCodesExample | src/ansi_escape/ansi_interpreter.rs:505-520 | `ESC[2J` is Display(All) and `ESC[1K` is Line(ToStart) |
| DecoderExamples.EraseDisplayAndLineExample | src/ansi_escape/ansi_interpreter.rs:505-520 | `A ESC[2J B ESC[1K C` decodes to text `ABC`, no spans, Display(All) at offset 1 and Line(ToStart) at offset 2 |
| DecoderExamples.DeviceCodesExample | src/ansi_escape/ansi_interpreter.rs:522-544 | `ESC[s`, `ESC[u`, `ESC[?25l` and `ESC[?25h` are save, restore, hide and show |
| DecoderExamples.DeviceControlExample | src/ansi_escape/ansi_interpreter.rs:522-544 | `A ESC[s B ESC[u C ESC[?25l D ESC[?25h E` decodes to text `ABCDE`, no spans, and the four device points at offsets 1 to 4 |
| DecoderExamples.MalformedSequencesExample | src/ansi_escape/ansi_interpreter.rs:546-560 | `A ESC[31B ESC[999Z C ESC[38;2;1;2m D` decodes to text `ACD`, no spans, and a single Down(31) point at offset 1 |
| DecoderExamples.TruncatedTrueColorSequence | src/ansi_escape/ansi_interpreter.rs:546-560 | `ESC[38;2;1;2m` yields nothing |
| DecoderExamples.PlusSignCountExample | src/ansi_escape/ansi_interpreter.rs:327 | `ESC[+3A` is Up(3) |
| DecoderExamples.LeadingZeroIndexExample | src/ansi_escape/ansi_interpreter.rs:289-301 | `38;5;007` sets the foreground to index 7 |
| DecoderExamples.EscapeBeforeSequenceExample | src/ansi_escape/ansi_interpreter.rs:193-215 | an ESC copied verbatim can meet a later `[` in the cleaned text: `ESC ESC[m [` decodes to text `ESC [` |
| DecoderExamples.EmptySgrSetsNothing | src/ansi_escape/ansi_interpreter.rs:240 | `ESC[m` yields no attribute, not a Reset |
| DecoderExamples.CursorDown31 | src/ansi_escape/ansi_interpreter.rs:546-550 | `ESC[31B` in the malformed-input test is a Down(31) move |
| DecoderExamples.UnknownFinalYieldsNothing | src/ansi_escape/ansi_interpreter.rs:546-550 | `ESC[999Z` is consumed but yields no escape |
| DecoderExamples.TruncatedTrueColorYieldsNothing | src/ansi_escape/ansi_interpreter.rs:546-550 | `38;2;1;2` is a truncated 24-bit group and yields no attribute |
| DecoderExamples.SingleStyleExample | src/ansi_escape/ansi_creator.rs:341-350 | text formatted with one encodable non-Reset attribute decodes to one span over the text with that attribute |
| DecoderExamples.StylesByRank | src/ansi_escape/ansi_interpreter.rs:78 | Bold, a foreground, then Underline are kept in rank order: Bold, Underline, foreground |
| DecoderExamples.UnderlineKeepsColor | src/ansi_escape/ansi_interpreter.rs:126-130 | Underline's retain keeps Bold and the foreground |
| DecoderExamples.UnderlineBetween | src/ansi_escape/ansi_interpreter.rs:132 | inserting Underline puts it between Bold and the foreground |
| DecoderExamples.BoldThenColor | src/ansi_escape/ansi_interpreter.rs:107-132 | Bold then a foreground leave both active, in that order |
| DecoderExamples.StyleOrderExample | src/ansi_escape/ansi_creator.rs:107-114 | Bold, a foreground and Underline formatted around text decode to one span whose codes are in rank order |

## Left out

- `AnsiEnvironment::detect` (src/ansi_escape/ansi_creator.rs:29-71) and `AnsiCreator::new` (91-95) read environment variables and query the terminal. This is I/O. No encoder reads the creator's state, so the encoders are plain functions with no receiver.
- `src/ansi_escape.rs` only declares modules and re-exports; it is not part of this model.
- UTF-8 decoding is not modelled. The input is bytes, and the copy branch copies one byte per step instead of one `char`. No UTF-8 lead or continuation byte equals ESC (0x1B), so for valid UTF-8 the cleaned bytes and every offset are the same. Rust's `&str` slicing and panics on non-character boundaries are also not modelled.
- `format!` and `str::parse` are replaced by `Decimal.Digits` and `Decimal.ParseUnsigned`. The parser accepts ASCII digits with an optional leading `+`, as `str::parse` for unsigned integers does. Overflow is an error, as in Rust. Error values are collapsed into `None`.
- `Decimal.LiteralValue`: matching a parameter against the SGR table's string literals is stated through the canonical digits of a number. A rank computation replaces the 42 literal rows of src/ansi_escape/ansi_interpreter.rs:243-284. `AnsiInterpreter.SimpleCode` and `RoundTrip.SimpleCodeMatchesEncoder` state that the two agree.
- `AnsiCreator.FgCode` and `AnsiCreator.BgCode` compute named-colour codes from the declaration rank, not from the literal table in the source. Their contracts, together with `AnsiTypes.ColorRank`, give the same numbers 30–37, 90–97, 40–47 and 100–107.
- Several tests assert that SGR escapes show up in `points`: src/ansi_escape/ansi_interpreter.rs:402-414, 422-434, 442-454, 465-489 and 568-582. The code excludes them at line 86, and the model follows the code (`DecoderProperties.DecodePoints`).
- `SgrAttribute` derives no ordering (src/ansi_escape/ansi_types.rs:7), yet the decoder keeps a `BTreeSet<SgrAttribute>` (src/ansi_escape/ansi_interpreter.rs:78). The model fixes one order: variant declaration order, then colour (declaration order, then index, then r, g, b). That order is used for set comparison and for the order of each span's codes.
- The `("?25l", l)` and `("?25h", h)` arms of `parse_device` are kept, but they cannot be reached. Parameters cut from input never contain a final byte such as `l` or `h`, and `AnsiInterpreter.ParseDevice` states this.
- The `break` in the copy branch (src/ansi_escape/ansi_interpreter.rs:160-162) cannot be reached when the position is before the end of the input. The byte model has no such branch.
- `AnsiInterpreter.Scan`: the loop's progress argument is the decreasing length of the unread input. Each iteration consumes at least one byte: a terminated sequence takes at least three, an unterminated one takes all the rest. `AnsiInterpreter.NextEscapes` states these bounds.
- `AnsiInterpreter.AnsiParser`: the Rust parser borrows its input. The model stores it as an immutable sequence field.
