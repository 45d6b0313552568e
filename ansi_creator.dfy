/**
 * The encoder: total, stateless maps from each escape-code value to its
 * byte string. The source's methods take `&self` but never read it, so they
 * are plain functions here.
 */
module AnsiCreator {

  import opened Bytes
  import opened Decimal
  import opened AnsiTypes

  /** Bytes allowed between ESC [ and the final byte in what this encoder writes. */
  predicate ParameterBytes(p: seq<byte>) {
    forall i :: 0 <= i < |p| ==> IsDigit(p[i]) || p[i] == SEMICOLON || p[i] == QUESTION
  }

  /** One complete control sequence: ESC [, parameter bytes, one final byte. */
  predicate IsControlSequence(r: seq<byte>) {
    |r| >= 3 && r[..2] == CSI && IsFinal(r[|r| - 1]) && ParameterBytes(r[2..|r| - 1])
  }

  /** `r` is one control sequence whose `;`-separated parameters are `params` and whose final byte is `final`. */
  predicate Encodes(r: seq<byte>, params: seq<seq<byte>>, final: byte) {
    IsControlSequence(r) && r[|r| - 1] == final && Split(r[2..|r| - 1]) == params
  }

  /** A single parameter as the encoder writes one: parameter bytes without `;`. */
  predicate IsParameter(p: seq<byte>) {
    ParameterBytes(p) && SEMICOLON !in p
  }

  /** ESC [ p1 ; ... ; pn final. */
  function Sequence(params: seq<seq<byte>>, final: byte): seq<byte>
    requires |params| >= 1
  {
    CSI + Join(params) + [final]
  }

  lemma {:induction false} JoinParameterBytes(params: seq<seq<byte>>)
    requires |params| >= 1
    requires forall k :: 0 <= k < |params| ==> ParameterBytes(params[k])
    ensures ParameterBytes(Join(params))
    decreases |params|
  {
    if |params| > 1 {
      JoinParameterBytes(params[1..]);
      var tail := Join(params[1..]);
      assert Join(params) == params[0] + [SEMICOLON] + tail;
      forall i | 0 <= i < |Join(params)|
        ensures IsDigit(Join(params)[i]) || Join(params)[i] == SEMICOLON || Join(params)[i] == QUESTION
      {
        if i > |params[0]| {
          assert Join(params)[i] == tail[i - |params[0]| - 1];
        }
      }
    }
  }

  /** A sequence built from proper parameters and a final byte encodes exactly those parameters. */
  lemma SequenceEncodes(params: seq<seq<byte>>, final: byte)
    requires |params| >= 1 && IsFinal(final)
    requires forall k :: 0 <= k < |params| ==> IsParameter(params[k])
    ensures Encodes(Sequence(params, final), params, final)
  {
    var r := Sequence(params, final);
    assert r[2..|r| - 1] == Join(params);
    JoinParameterBytes(params);
    SplitJoin(params);
  }

  lemma DigitsAreParameter(n: nat)
    ensures IsParameter(Digits(n))
  {
    var d := Digits(n);
    assert forall i :: 0 <= i < |d| ==> d[i] != SEMICOLON;
  }

  /** A sequence with one numeric parameter. */
  function Numeric(n: nat, final: byte): (r: seq<byte>)
    requires IsFinal(final)
    ensures Encodes(r, [Digits(n)], final)
  {
    DigitsAreParameter(n);
    SequenceEncodes([Digits(n)], final);
    Sequence([Digits(n)], final)
  }

  /** The SGR sequence `base;5;idx`, a colour from the 256-colour palette. */
  function Indexed(base: nat, idx: u8): (r: seq<byte>)
    ensures Encodes(r, [Digits(base), Digits(5), Digits(idx)], CHAR_m)
  {
    var params := [Digits(base), Digits(5), Digits(idx)];
    DigitsAreParameter(base);
    DigitsAreParameter(5);
    DigitsAreParameter(idx);
    SequenceEncodes(params, CHAR_m);
    Sequence(params, CHAR_m)
  }

  /** The SGR sequence `base;2;r;g;b`, a 24-bit colour. */
  function TrueColor(base: nat, r: u8, g: u8, b: u8): (s: seq<byte>)
    ensures Encodes(s, [Digits(base), Digits(2), Digits(r), Digits(g), Digits(b)], CHAR_m)
  {
    var params := [Digits(base), Digits(2), Digits(r), Digits(g), Digits(b)];
    DigitsAreParameter(base);
    DigitsAreParameter(2);
    DigitsAreParameter(r);
    DigitsAreParameter(g);
    DigitsAreParameter(b);
    SequenceEncodes(params, CHAR_m);
    Sequence(params, CHAR_m)
  }

  /** `fg_standard`: ESC [ code m. */
  function FgStandard(code: u8): (r: seq<byte>)
    ensures Encodes(r, [Digits(code)], CHAR_m)
  {
    Numeric(code, CHAR_m)
  }

  /** `bg_standard`: ESC [ code m. */
  function BgStandard(code: u8): (r: seq<byte>)
    ensures Encodes(r, [Digits(code)], CHAR_m)
  {
    Numeric(code, CHAR_m)
  }

  /** `fg_8bit`: ESC [ 38;5;idx m. */
  function Fg8bit(idx: u8): (r: seq<byte>)
    ensures Encodes(r, [Digits(38), Digits(5), Digits(idx)], CHAR_m)
  {
    Indexed(38, idx)
  }

  /** `fg_24bit`: ESC [ 38;2;r;g;b m. */
  function Fg24bit(r: u8, g: u8, b: u8): (s: seq<byte>)
    ensures Encodes(s, [Digits(38), Digits(2), Digits(r), Digits(g), Digits(b)], CHAR_m)
  {
    TrueColor(38, r, g, b)
  }

  /** `bg_8bit`: ESC [ 48;5;idx m. */
  function Bg8bit(idx: u8): (r: seq<byte>)
    ensures Encodes(r, [Digits(48), Digits(5), Digits(idx)], CHAR_m)
  {
    Indexed(48, idx)
  }

  /** `bg_24bit`: ESC [ 48;2;r;g;b m. */
  function Bg24bit(r: u8, g: u8, b: u8): (s: seq<byte>)
    ensures Encodes(s, [Digits(48), Digits(2), Digits(r), Digits(g), Digits(b)], CHAR_m)
  {
    TrueColor(48, r, g, b)
  }

  /** `underline_8bit`: ESC [ 58;5;idx m. */
  function Underline8bit(idx: u8): (r: seq<byte>)
    ensures Encodes(r, [Digits(58), Digits(5), Digits(idx)], CHAR_m)
  {
    Indexed(58, idx)
  }

  /** `underline_24bit`: ESC [ 58;2;r;g;b m. */
  function Underline24bit(r: u8, g: u8, b: u8): (s: seq<byte>)
    ensures Encodes(s, [Digits(58), Digits(2), Digits(r), Digits(g), Digits(b)], CHAR_m)
  {
    TrueColor(58, r, g, b)
  }

  /**
   * The SGR number of a named colour: `base` plus its place among the eight
   * standard colours, or `base + 60` plus its place among the eight bright ones.
   */
  function NamedCode(base: nat, c: Color): (r: nat)
    requires IsNamed(c)
    ensures ColorRank(c) < 8 ==> base <= r < base + 8
    ensures ColorRank(c) >= 8 ==> base + 60 <= r < base + 68
  {
    if ColorRank(c) < 8 then base + ColorRank(c) else base + 60 + (ColorRank(c) - 8)
  }

  /** `fg_code`: named colours as 30-37 and 90-97, then the 8-bit and 24-bit forms. */
  function FgCode(c: Color): (r: seq<byte>)
    ensures IsNamed(c) ==> Encodes(r, [Digits(NamedCode(30, c))], CHAR_m)
    ensures c.AnsiValue? ==> Encodes(r, [Digits(38), Digits(5), Digits(c.index)], CHAR_m)
    ensures c.Rgb24? ==> Encodes(r, [Digits(38), Digits(2), Digits(c.r), Digits(c.g), Digits(c.b)], CHAR_m)
  {
    match c
    case AnsiValue(idx) => Fg8bit(idx)
    case Rgb24(r, g, b) => Fg24bit(r, g, b)
    case _ => FgStandard(NamedCode(30, c) as u8)
  }

  /** `bg_code`: named colours as 40-47 and 100-107, then the 8-bit and 24-bit forms. */
  function BgCode(c: Color): (r: seq<byte>)
    ensures IsNamed(c) ==> Encodes(r, [Digits(NamedCode(40, c))], CHAR_m)
    ensures c.AnsiValue? ==> Encodes(r, [Digits(48), Digits(5), Digits(c.index)], CHAR_m)
    ensures c.Rgb24? ==> Encodes(r, [Digits(48), Digits(2), Digits(c.r), Digits(c.g), Digits(c.b)], CHAR_m)
  {
    match c
    case AnsiValue(idx) => Bg8bit(idx)
    case Rgb24(r, g, b) => Bg24bit(r, g, b)
    case _ => BgStandard(NamedCode(40, c) as u8)
  }

  /** `underline_color_code_explicit`: only the 8-bit and 24-bit forms; a named colour gives nothing. */
  function UnderlineColorCodeExplicit(c: Color): (r: seq<byte>)
    ensures IsNamed(c) <==> r == []
    ensures c.AnsiValue? ==> Encodes(r, [Digits(58), Digits(5), Digits(c.index)], CHAR_m)
    ensures c.Rgb24? ==> Encodes(r, [Digits(58), Digits(2), Digits(c.r), Digits(c.g), Digits(c.b)], CHAR_m)
  {
    match c
    case AnsiValue(idx) => Underline8bit(idx)
    case Rgb24(r, g, b) => Underline24bit(r, g, b)
    case _ => []
  }

  /** True for every attribute the encoder writes a sequence for: all but a named underline colour. */
  predicate IsEncodable(a: SgrAttribute) {
    !(a.UnderlineColor? && IsNamed(a.color))
  }

  /**
   * `sgr_code`: Reset through CrossedOut are ESC [ 0 m through ESC [ 9 m, the
   * number being the attribute's place in the declaration (its Rank); the
   * colour slots use the colour encoders.
   */
  function SgrCode(a: SgrAttribute): (r: seq<byte>)
    ensures !IsSlot(a) ==> Encodes(r, [Digits(Rank(a))], CHAR_m)
    ensures IsEncodable(a) <==> r != []
    ensures IsEncodable(a) ==> IsControlSequence(r) && r[|r| - 1] == CHAR_m
  {
    match a
    case Foreground(c) => FgCode(c)
    case Background(c) => BgCode(c)
    case UnderlineColor(c) => UnderlineColorCodeExplicit(c)
    case _ => Numeric(Rank(a), CHAR_m)
  }

  /** The codes of `attrs`, one after the other: the `push_str` loop of `format_text`. */
  function Codes(attrs: seq<SgrAttribute>): (r: seq<byte>)
    ensures r == [] <==> forall k :: 0 <= k < |attrs| ==> !IsEncodable(attrs[k])
    decreases |attrs|
  {
    if attrs == [] then [] else Codes(attrs[..|attrs| - 1]) + SgrCode(attrs[|attrs| - 1])
  }

  /** ESC [ 0 m, the code that ends every formatted text. */
  const RESET_CODE: seq<byte> := [ESC, LEFT_BRACKET, DIGIT_ZERO, CHAR_m]

  /**
   * `format_text`: the codes of `attrs` in order, then `text`, then the Reset
   * code, which is written even when `attrs` is empty.
   */
  function FormatText(text: seq<byte>, attrs: seq<SgrAttribute>): (r: seq<byte>)
    ensures |r| >= |text| + 4
    ensures r[|r| - 4..] == RESET_CODE
    ensures r[|r| - 4 - |text|..|r| - 4] == text
    ensures r[..|r| - 4 - |text|] == Codes(attrs)
    ensures attrs == [] ==> r == text + RESET_CODE
  {
    var reset := SgrCode(Reset);
    assert reset == RESET_CODE;
    Codes(attrs) + text + reset
  }

  /** The final byte of a cursor move other than Position: A to G in declaration order. */
  function CursorFinal(m: CursorMove): (r: byte)
    requires !m.Position?
    ensures CHAR_A <= r <= CHAR_G
  {
    match m
    case Up(_) => CHAR_A
    case Down(_) => CHAR_B
    case Forward(_) => CHAR_C
    case Backward(_) => CHAR_D
    case NextLine(_) => CHAR_E
    case PreviousLine(_) => CHAR_F
    case HorizontalAbsolute(_) => CHAR_G
  }

  /** `cursor_code`: ESC [ n A..G, or ESC [ row;col H for Position. */
  function CursorCode(movement: CursorMove): (r: seq<byte>)
    ensures !movement.Position? ==> Encodes(r, [Digits(movement.n)], CursorFinal(movement))
    ensures movement.Position? ==> Encodes(r, [Digits(movement.row), Digits(movement.col)], CHAR_H)
  {
    match movement
    case Up(n) => Numeric(n, CHAR_A)
    case Down(n) => Numeric(n, CHAR_B)
    case Forward(n) => Numeric(n, CHAR_C)
    case Backward(n) => Numeric(n, CHAR_D)
    case NextLine(n) => Numeric(n, CHAR_E)
    case PreviousLine(n) => Numeric(n, CHAR_F)
    case HorizontalAbsolute(n) => Numeric(n, CHAR_G)
    case Position(row, col) =>
      DigitsAreParameter(row);
      DigitsAreParameter(col);
      SequenceEncodes([Digits(row), Digits(col)], CHAR_H);
      Sequence([Digits(row), Digits(col)], CHAR_H)
  }

  /** `erase_mode_num`: ToEnd, ToStart and All are 0, 1 and 2. */
  function EraseModeNum(mode: EraseMode): (k: u8)
    ensures k < 3
  {
    match mode
    case ToEnd => 0
    case ToStart => 1
    case All => 2
  }

  /** The three numbers `erase_mode_num` writes. */
  lemma EraseModeNumValues()
    ensures EraseModeNum(ToEnd) == 0 && EraseModeNum(ToStart) == 1 && EraseModeNum(All) == 2
  {
  }

  /** Distinct erase modes get distinct numbers. */
  lemma EraseModeNumInjective(m1: EraseMode, m2: EraseMode)
    requires EraseModeNum(m1) == EraseModeNum(m2)
    ensures m1 == m2
  {
  }

  /** `erase_code`: ESC [ mode J for the display, ESC [ mode K for the line. */
  function EraseCode(erase: Erase): (r: seq<byte>)
    ensures Encodes(r, [Digits(EraseModeNum(erase.mode))], if erase.Display? then CHAR_J else CHAR_K)
  {
    match erase
    case Display(mode) => Numeric(EraseModeNum(mode), CHAR_J)
    case Line(mode) => Numeric(EraseModeNum(mode), CHAR_K)
  }

  /** `device_code`: ESC [ s, ESC [ u, ESC [ ?25l and ESC [ ?25h. */
  function DeviceCode(device: DeviceControl): (r: seq<byte>)
    ensures device.SaveCursor? ==> Encodes(r, [[]], CHAR_s)
    ensures device.RestoreCursor? ==> Encodes(r, [[]], CHAR_u)
    ensures device.HideCursor? ==> Encodes(r, [QUERY_25], CHAR_l)
    ensures device.ShowCursor? ==> Encodes(r, [QUERY_25], CHAR_h)
  {
    SequenceEncodes([[]], CHAR_s);
    SequenceEncodes([[]], CHAR_u);
    SequenceEncodes([QUERY_25], CHAR_l);
    SequenceEncodes([QUERY_25], CHAR_h);
    match device
    case SaveCursor => Sequence([[]], CHAR_s)
    case RestoreCursor => Sequence([[]], CHAR_u)
    case HideCursor => Sequence([QUERY_25], CHAR_l)
    case ShowCursor => Sequence([QUERY_25], CHAR_h)
  }

  /** Every escape has a code except an SGR underline colour given by name. */
  predicate IsEncodableEscape(e: AnsiEscape) {
    !e.Sgr? || IsEncodable(e.attr)
  }

  /** `escape_code`: dispatch on the family. */
  function EscapeCode(code: AnsiEscape): (r: seq<byte>)
    ensures IsEncodableEscape(code) ==> IsControlSequence(r)
    ensures !IsEncodableEscape(code) ==> r == []
  {
    match code
    case Sgr(attr) => SgrCode(attr)
    case Cursor(movement) => CursorCode(movement)
    case Erase(erase) => EraseCode(erase)
    case Device(device) => DeviceCode(device)
  }
}
