/**
 * Colour assignment for the chart panels (`generate_color_palette`): a fixed
 * ten-colour palette used cyclically, or the user's custom colours with the
 * palette filling in once they run out.
 */
module Palette {

  const DefaultPalette: seq<string> := [
    "#FF6B6B", "#4ECDC4", "#45B7D1", "#96CEB4", "#FECA57",
    "#FF9FF3", "#54A0FF", "#5F27CD", "#FF9F43", "#1DD1A1"
  ]

  /** The palette-type name that selects the fixed palette; every other name selects the custom colours. */
  const DefaultPaletteName: string := "默认配色"

  /** The fixed palette's colour for panel `i`: `default_palette[i % len(default_palette)]`. */
  function Cyclic(i: nat): string {
    DefaultPalette[i % |DefaultPalette|]
  }

  /**
   * `generate_color_palette(n_items, palette_type)`, with the session's
   * `custom_colors` passed in as `customColors` (the empty list when unset).
   */
  function GenerateColorPalette(nItems: nat, paletteType: string, customColors: seq<string>): (r: seq<string>)
    ensures |r| == nItems
    ensures paletteType == DefaultPaletteName ==>
              forall i :: 0 <= i < nItems ==> r[i] == DefaultPalette[i % 10]
    ensures paletteType != DefaultPaletteName ==>
              && (forall i :: 0 <= i < nItems && i < |customColors| ==> r[i] == customColors[i])
              && (forall i :: |customColors| <= i < nItems ==> r[i] == DefaultPalette[i % 10])
  {
    if paletteType == DefaultPaletteName then
      seq(nItems, i requires 0 <= i => Cyclic(i))
    else if |customColors| >= nItems then
      customColors[..nItems]
    else
      var fill := seq(nItems - |customColors|, j requires 0 <= j => Cyclic(j + |customColors|));
      assert forall i :: |customColors| <= i < nItems ==> fill[i - |customColors|] == Cyclic(i);
      customColors + fill
  }

  /** Without custom colours the custom mode colours exactly like the fixed palette. */
  lemma NoCustomColoursIsDefault(nItems: nat, paletteType: string)
    ensures GenerateColorPalette(nItems, paletteType, []) == GenerateColorPalette(nItems, DefaultPaletteName, [])
  {
  }

  /** Colours repeat with period ten in the fixed palette. */
  lemma DefaultPaletteCycle(nItems: nat, i: nat)
    requires i + 10 < nItems
    ensures GenerateColorPalette(nItems, DefaultPaletteName, [])[i] == GenerateColorPalette(nItems, DefaultPaletteName, [])[i + 10]
  {
    assert (i + 10) % 10 == i % 10;
  }

  /** The first ten panels of the fixed palette all get different colours. */
  lemma DefaultPaletteDistinct(nItems: nat)
    requires nItems <= 10
    ensures var r := GenerateColorPalette(nItems, DefaultPaletteName, []);
            forall a, b :: 0 <= a < b < nItems ==> r[a] != r[b]
  {
    var r := GenerateColorPalette(nItems, DefaultPaletteName, []);
    forall a, b | 0 <= a < b < nItems
      ensures r[a] != r[b]
    {
      assert r[a] == DefaultPalette[a] && r[b] == DefaultPalette[b];
    }
  }

  /** The colours a longer request assigns start with the colours a shorter one assigns. */
  lemma {:induction false} PaletteExtends(m: nat, n: nat, paletteType: string, customColors: seq<string>)
    requires m <= n
    ensures GenerateColorPalette(n, paletteType, customColors)[..m] == GenerateColorPalette(m, paletteType, customColors)
  {
    var long := GenerateColorPalette(n, paletteType, customColors);
    var short := GenerateColorPalette(m, paletteType, customColors);
    assert forall i :: 0 <= i < m ==> long[i] == short[i];
  }
}
