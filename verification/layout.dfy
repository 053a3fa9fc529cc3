/**
 The responsive layout choices of the notes editor. Two viewport
 predicates, computed from the viewport width with inclusive bounds,
 select the number of rows of the note field, the grid width of a note
 card at the `sm` breakpoint, and the maximum width of the page container.
 Widths are in CSS pixels, which are fractional under browser zoom, so a
 width is a `real`: between 599 and 600, and between 959 and 960, neither
 media query matches.
 */
module Layout {

  /** A viewport width in CSS pixels. */
  type Width = w: real | 0.0 <= w

  /** `useMediaQuery({ maxWidth: 599 })`, i.e. `(max-width: 599px)`: the bound is inclusive. */
  predicate IsMobile(width: Width) {
    width <= 599.0
  }

  /** `useMediaQuery({ minWidth: 600, maxWidth: 959 })`: both bounds inclusive. */
  predicate IsTablet(width: Width) {
    600.0 <= width <= 959.0
  }

  /** The two values the page container's `maxWidth` takes. */
  datatype MaxWidth = Sm | Lg

  /** What the viewport predicates decide about the page. */
  datatype Preset = Preset(inputRows: nat, gridSm: nat, maxWidth: MaxWidth)

  /** The three ternaries on the two predicates, each taken on its own. */
  function SelectPreset(isMobile: bool, isTablet: bool): Preset {
    Preset(
      if isMobile then 2 else 4,
      if isTablet then 6 else 4,
      if isTablet then Sm else Lg)
  }

  /** The preset in effect at a given viewport width. */
  function PresetFor(width: Width): Preset {
    SelectPreset(IsMobile(width), IsTablet(width))
  }

  const Narrow := Preset(2, 4, Lg)
  const Medium := Preset(4, 6, Sm)
  const Wide := Preset(4, 4, Lg)

  /** No width is both mobile and tablet. */
  lemma NeverMobileAndTablet(width: Width)
    ensures !(IsMobile(width) && IsTablet(width))
  {
  }

  /**
   Each width gets one of three presets: up to 599 a two-row field, from
   600 to 959 half-width cards in a narrower container, and otherwise the
   default preset. "Otherwise" includes the fractional widths strictly
   between 599 and 600, which match neither query, and those strictly
   between 959 and 960.
   */
  lemma PresetBands(width: Width)
    ensures width <= 599.0 ==> PresetFor(width) == Narrow
    ensures 599.0 < width < 600.0 ==> PresetFor(width) == Wide
    ensures 600.0 <= width <= 959.0 ==> PresetFor(width) == Medium
    ensures 959.0 < width ==> PresetFor(width) == Wide
    ensures !(IsMobile(width) && IsTablet(width))
  {
    NeverMobileAndTablet(width);
  }

  /**
   The grid breakpoint `sm` of the Material-UI default theme, in pixels:
   below it a card's `xs={12}` applies, from it on its `sm` width.
   This value belongs to the component library, not to the editor.
   */
  const SmBreakpoint: real := 600.0

  /** The number of columns of the card grid. */
  const GridColumns: nat := 12

  /**
   How many note cards share a row: one below 600 (a fractional width
   just under 600 included, though it gets the default preset), two from
   600 to 959, three above 959.
   */
  function CardsPerRow(width: Width): (r: nat)
    ensures width < 600.0 ==> r == 1
    ensures 600.0 <= width <= 959.0 ==> r == 2
    ensures 959.0 < width ==> r == 3
  {
    var span := if width < SmBreakpoint then 12 else PresetFor(width).gridSm;
    GridColumns / span
  }
}
