/**
 The cell snapshot shared by the grid renderer and the URL detector, and the
 resolution of a cell's ANSI colours against the configured overrides.
 */
module Cells {
  import opened Wrappers

  /** A resolved colour; only equality of colours matters to the caches. */
  datatype Rgba = Rgba(r: real, g: real, b: real, a: real)

  datatype NamedColor =
    | Black | Red | Green | Yellow | Blue | Magenta | Cyan | White
    | BrightBlack | BrightRed | BrightGreen | BrightYellow
    | BrightBlue | BrightMagenta | BrightCyan | BrightWhite
    | Foreground | Background | Cursor
    | DimBlack | DimRed | DimGreen | DimYellow
    | DimBlue | DimMagenta | DimCyan | DimWhite
    | BrightForeground | DimForeground

  datatype AnsiColor =
    | Named(name: NamedColor)
    | Indexed(index: nat)
    | Spec(r: nat, g: nat, b: nat)

  datatype Flags = Flags(bold: bool, italic: bool, wide: bool, spacer: bool, inverse: bool)

  datatype HyperlinkSource = Osc8 | Regex

  datatype Hotspot = Hotspot(kind: nat, text: string, isDir: bool, resolved: Option<string>)

  datatype RenderCell = RenderCell(
    row: nat,
    col: nat,
    c: char,
    text: string,
    fg: AnsiColor,
    bg: AnsiColor,
    flags: Flags,
    hyperlink: Option<string>,
    hyperlinkSource: Option<HyperlinkSource>,
    hotspot: Option<Hotspot>)

  /** A 16-colour override palette. */
  type Palette = p: seq<Rgba> | |p| == 16 witness seq(16, i => Rgba(0.0, 0.0, 0.0, 1.0))

  /**
   The colours a renderer resolves cells with. `baseFg` and `baseBg` stand for
   the built-in palette lookup, which is not part of this model.
   */
  datatype Theme = Theme(
    bgOverride: Option<Rgba>,
    fgOverride: Option<Rgba>,
    ansiOverride: Option<Palette>,
    hyperlink: Rgba,
    termBg: Rgba,
    baseFg: AnsiColor -> Rgba,
    baseBg: AnsiColor -> Option<Rgba>)

  function AnsiIndexForNamed(name: NamedColor): (index: Option<nat>)
    ensures index.Some? ==> index.value < 16
  {
    match name
    case Black | DimBlack => Some(0)
    case Red | DimRed => Some(1)
    case Green | DimGreen => Some(2)
    case Yellow | DimYellow => Some(3)
    case Blue | DimBlue => Some(4)
    case Magenta | DimMagenta => Some(5)
    case Cyan | DimCyan => Some(6)
    case White | DimWhite => Some(7)
    case BrightBlack => Some(8)
    case BrightRed => Some(9)
    case BrightGreen => Some(10)
    case BrightYellow => Some(11)
    case BrightBlue => Some(12)
    case BrightMagenta => Some(13)
    case BrightCyan => Some(14)
    case BrightWhite => Some(15)
    case _ => None
  }

  function ResolveFg(theme: Theme, color: AnsiColor): Rgba {
    match color
    case Named(Foreground) | Named(BrightForeground) | Named(DimForeground) =>
      theme.fgOverride.GetOr(theme.baseFg(color))
    case Named(name) =>
      if theme.ansiOverride.Some? && AnsiIndexForNamed(name).Some?
      then theme.ansiOverride.value[AnsiIndexForNamed(name).value]
      else theme.baseFg(color)
    case Indexed(i) =>
      if theme.ansiOverride.Some? && i < 16 then theme.ansiOverride.value[i] else theme.baseFg(color)
    case Spec(_, _, _) => theme.baseFg(color)
  }

  function ResolveBg(theme: Theme, color: AnsiColor): Option<Rgba> {
    match color
    case Named(Background) | Named(Black) => None
    case Named(name) =>
      if theme.ansiOverride.Some? && AnsiIndexForNamed(name).Some?
      then Some(theme.ansiOverride.value[AnsiIndexForNamed(name).value])
      else theme.baseBg(color)
    case Indexed(i) =>
      if i == 0 then None
      else if theme.ansiOverride.Some? && i < 16 then Some(theme.ansiOverride.value[i])
      else theme.baseBg(color)
    case Spec(_, _, _) => theme.baseBg(color)
  }

  /** The colour behind every cell without an explicit background. */
  function ResolvedBg(theme: Theme): Rgba {
    theme.bgOverride.GetOr(theme.termBg)
  }

  /**
   Under an override palette a named colour and its index resolve to the same
   foreground. For backgrounds that holds for every name except DimBlack, which
   is painted with palette entry 0 while index 0 is left transparent.
   */
  lemma NamedAgreesWithIndex(theme: Theme, name: NamedColor)
    requires theme.ansiOverride.Some? && AnsiIndexForNamed(name).Some?
    ensures ResolveFg(theme, Named(name)) == ResolveFg(theme, Indexed(AnsiIndexForNamed(name).value))
    ensures ResolveBg(theme, Named(name)) == ResolveBg(theme, Indexed(AnsiIndexForNamed(name).value))
            <==> name != DimBlack
  {
  }

  /** The palette names in the order of their indices, and the dim ones. */
  const ANSI_NAMES: seq<NamedColor> := [Black, Red, Green, Yellow, Blue, Magenta, Cyan, White,
    BrightBlack, BrightRed, BrightGreen, BrightYellow, BrightBlue, BrightMagenta, BrightCyan, BrightWhite]
  const DIM_NAMES: seq<NamedColor> := [DimBlack, DimRed, DimGreen, DimYellow, DimBlue, DimMagenta, DimCyan, DimWhite]

  const NOT_IN_PALETTE: set<NamedColor> := {Foreground, Background, Cursor, BrightForeground, DimForeground}

  /**
   An override palette gives its i-th colour to the i-th name and index, and to the dim
   form of the first eight, but black and index 0 paint no background.
   */
  lemma PaletteIsUsed(theme: Theme, palette: Palette, i: nat)
    requires theme.ansiOverride == Some(palette) && i < 16
    ensures ResolveFg(theme, Named(ANSI_NAMES[i])) == ResolveFg(theme, Indexed(i)) == palette[i]
    ensures ResolveBg(theme, Named(ANSI_NAMES[i])) == ResolveBg(theme, Indexed(i))
                                                   == if i == 0 then None else Some(palette[i])
    ensures i < 8 ==> ResolveFg(theme, Named(DIM_NAMES[i])) == palette[i]
                      && ResolveBg(theme, Named(DIM_NAMES[i])) == Some(palette[i])
  {
  }

  /**
   Every other colour is that of the built-in palette, except the terminal's own
   foreground, which may be overridden; its background is never painted.
   */
  lemma OtherColorsAreBuiltIn(theme: Theme, color: AnsiColor)
    ensures
      var own := color in {Named(Foreground), Named(BrightForeground), Named(DimForeground)};
      var inPalette := if color.Named? then color.name !in NOT_IN_PALETTE else color.Indexed? && color.index < 16;
      && (own && theme.fgOverride.Some? ==> ResolveFg(theme, color) == theme.fgOverride.value)
      && ((own && theme.fgOverride.None?) || (!own && !(inPalette && theme.ansiOverride.Some?)) ==>
            ResolveFg(theme, color) == theme.baseFg(color))
      && (color in {Named(Background), Named(Black), Indexed(0)} ==> ResolveBg(theme, color) == None)
      && (color !in {Named(Background), Named(Black), Indexed(0)} && !(inPalette && theme.ansiOverride.Some?) ==>
            ResolveBg(theme, color) == theme.baseBg(color))
  {
  }
}
