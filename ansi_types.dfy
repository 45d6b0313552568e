/**
 * The closed vocabulary of escape codes: colours, graphic-rendition
 * attributes, cursor moves, erase commands, device controls and the
 * top-level escape that unites them. Payloads carry the source's integer
 * widths as subset types (u8 colour components, u16 counts).
 *
 * The source derives only equality for these types, yet the decoder keeps
 * attributes in a sorted set; the order it needs is defined here once:
 * declaration order of the variant first, then the payload (Rank, SgrLess).
 */
module AnsiTypes {

  type u8 = x: int | 0 <= x < 0x100
  type u16 = x: int | 0 <= x < 0x1_0000

  datatype Color =
    | Black | Red | Green | Yellow | Blue | Magenta | Cyan | White
    | BrightBlack | BrightRed | BrightGreen | BrightYellow
    | BrightBlue | BrightMagenta | BrightCyan | BrightWhite
    | AnsiValue(index: u8)
    | Rgb24(r: u8, g: u8, b: u8)

  datatype SgrAttribute =
    | Reset
    | Bold | Faint | Italic | Underline | BlinkSlow | BlinkRapid | Reverse | Conceal | CrossedOut
    | Foreground(color: Color)
    | Background(color: Color)
    | UnderlineColor(color: Color)

  datatype CursorMove =
    | Up(n: u16)
    | Down(n: u16)
    | Forward(n: u16)
    | Backward(n: u16)
    | NextLine(n: u16)
    | PreviousLine(n: u16)
    | HorizontalAbsolute(n: u16)
    | Position(row: u16, col: u16)

  datatype EraseMode = ToEnd | ToStart | All

  datatype Erase = Display(mode: EraseMode) | Line(mode: EraseMode)

  datatype DeviceControl = SaveCursor | RestoreCursor | HideCursor | ShowCursor

  datatype AnsiEscape =
    | Sgr(attr: SgrAttribute)
    | Cursor(movement: CursorMove)
    | Erase(erase: Erase)
    | Device(device: DeviceControl)

  /** One of the sixteen named colours (as opposed to a palette index or an RGB triple). */
  predicate IsNamed(c: Color) {
    !c.AnsiValue? && !c.Rgb24?
  }

  /** The colour-carrying attributes: each is a slot that holds one colour at a time. */
  predicate IsSlot(a: SgrAttribute) {
    a.Foreground? || a.Background? || a.UnderlineColor?
  }

  /** Position of the colour's variant in its declaration. */
  function ColorRank(c: Color): (k: nat)
    ensures k < 18
    ensures IsNamed(c) <==> k < 16
  {
    match c
    case Black => 0
    case Red => 1
    case Green => 2
    case Yellow => 3
    case Blue => 4
    case Magenta => 5
    case Cyan => 6
    case White => 7
    case BrightBlack => 8
    case BrightRed => 9
    case BrightGreen => 10
    case BrightYellow => 11
    case BrightBlue => 12
    case BrightMagenta => 13
    case BrightCyan => 14
    case BrightWhite => 15
    case AnsiValue(_) => 16
    case Rgb24(_, _, _) => 17
  }

  /** Position of the attribute's variant in its declaration. */
  function Rank(a: SgrAttribute): (k: nat)
    ensures k < 13
    ensures k == 0 <==> a.Reset?
    ensures IsSlot(a) <==> k >= 10
  {
    match a
    case Reset => 0
    case Bold => 1
    case Faint => 2
    case Italic => 3
    case Underline => 4
    case BlinkSlow => 5
    case BlinkRapid => 6
    case Reverse => 7
    case Conceal => 8
    case CrossedOut => 9
    case Foreground(_) => 10
    case Background(_) => 11
    case UnderlineColor(_) => 12
  }

  /** Colours ordered by variant, then palette index, then (r, g, b) lexicographically. */
  predicate ColorLess(c: Color, d: Color) {
    || ColorRank(c) < ColorRank(d)
    || (c.AnsiValue? && d.AnsiValue? && c.index < d.index)
    || (c.Rgb24? && d.Rgb24? &&
        (c.r < d.r || (c.r == d.r && (c.g < d.g || (c.g == d.g && c.b < d.b)))))
  }

  /** Attributes ordered by variant, then by colour for two attributes of the same slot. */
  predicate SgrLess(a: SgrAttribute, b: SgrAttribute) {
    || Rank(a) < Rank(b)
    || (Rank(a) == Rank(b) && IsSlot(a) && ColorLess(a.color, b.color))
  }

  /** Equal ranks mean the same variant: the same attribute unless it carries a colour. */
  lemma SameRankSameKind(a: SgrAttribute, b: SgrAttribute)
    requires Rank(a) == Rank(b)
    ensures IsSlot(a) == IsSlot(b)
    ensures !IsSlot(a) ==> a == b
    ensures a.Foreground? == b.Foreground? && a.Background? == b.Background?
    ensures a.UnderlineColor? == b.UnderlineColor?
  {
  }

  lemma ColorLessIsStrictTotal(c: Color, d: Color, e: Color)
    ensures !ColorLess(c, c)
    ensures ColorLess(c, d) ==> !ColorLess(d, c)
    ensures ColorLess(c, d) && ColorLess(d, e) ==> ColorLess(c, e)
    ensures c != d ==> ColorLess(c, d) || ColorLess(d, c)
  {
    ColorLessIsTransitive(c, d, e);
    ColorLessIsTotal(c, d);
  }

  lemma ColorLessIsTransitive(c: Color, d: Color, e: Color)
    ensures ColorLess(c, d) && ColorLess(d, e) ==> ColorLess(c, e)
  {
  }

  lemma ColorLessIsTotal(c: Color, d: Color)
    ensures c != d ==> ColorLess(c, d) || ColorLess(d, c)
  {
    if ColorRank(c) == ColorRank(d) {
      SameColorRank(c, d);
    }
  }

  /** Equal colour ranks mean the same variant: the same colour unless it carries an index or a triple. */
  lemma SameColorRank(c: Color, d: Color)
    requires ColorRank(c) == ColorRank(d)
    ensures c.AnsiValue? == d.AnsiValue? && c.Rgb24? == d.Rgb24?
    ensures IsNamed(c) ==> c == d
  {
  }

  /** SgrLess is a strict total order: irreflexive, asymmetric, transitive and total. */
  lemma SgrLessIsStrictTotal(a: SgrAttribute, b: SgrAttribute, c: SgrAttribute)
    ensures !SgrLess(a, a)
    ensures SgrLess(a, b) ==> !SgrLess(b, a)
    ensures SgrLess(a, b) && SgrLess(b, c) ==> SgrLess(a, c)
    ensures a != b ==> SgrLess(a, b) || SgrLess(b, a)
  {
    SgrLessIsTransitive(a, b, c);
    SgrLessIsTransitive(a, b, a);
    SgrLessIsTotal(a, b);
  }

  lemma SgrLessIsTransitive(a: SgrAttribute, b: SgrAttribute, c: SgrAttribute)
    ensures SgrLess(a, b) && SgrLess(b, c) ==> SgrLess(a, c)
  {
    if SgrLess(a, b) && SgrLess(b, c) && Rank(a) == Rank(b) == Rank(c) {
      ColorLessIsTransitive(a.color, b.color, c.color);
    }
  }

  lemma SgrLessIsTotal(a: SgrAttribute, b: SgrAttribute)
    ensures a != b ==> SgrLess(a, b) || SgrLess(b, a)
  {
    if Rank(a) == Rank(b) {
      SameRankSameKind(a, b);
      if IsSlot(a) {
        ColorLessIsTotal(a.color, b.color);
      }
    }
  }
}
