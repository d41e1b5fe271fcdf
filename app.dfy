/**
 * The application logic of src/App.js around the generator: the default
 * colour names, the palette handed to the generator (the user's selection,
 * or the A-M colours when nothing is selected), and the list of colours the
 * generated grid uses.
 */
module App {
  import opened Wrappers
  import opened JsString
  import opened Palette
  import opened Sequences
  import opened Dedup
  import opened Render
  import opened Pixels
  import ColorTable
  import PixelArtLegacy

  /** `/^[A-Ma-m]/.test(c.name)` as a filter. */
  function DefaultColor(c: Entry): Option<Entry>
  {
    if StartsWithAToM(c.name) then Some(c) else None
  }

  /** `selectedColors.includes(c.name)` as a filter. */
  function InSelection(selected: seq<string>): Entry -> Option<Entry>
  {
    (c: Entry) => if c.name in selected then Some(c) else None
  }

  /**
   * `getDefaultColorNames`: the names of the entries whose name starts with
   * A-M or a-m, in table order. The k-th name comes from the entry at the k-th
   * origin, the origins increase, and no such entry is skipped.
   */
  function DefaultColorNames(colorTable: seq<Entry>): (names: seq<string>)
    ensures var o := Origins(colorTable, DefaultColor);
      && |o| == |names| <= |colorTable|
      && (forall k :: 0 <= k < |o| ==> o[k] < |colorTable| && names[k] == colorTable[o[k]].name && StartsWithAToM(names[k]))
      && (forall k1, k2 :: 0 <= k1 < k2 < |o| ==> o[k1] < o[k2])
      && (forall i :: 0 <= i < |colorTable| && StartsWithAToM(colorTable[i].name) ==> i in o)
  {
    var kept := FilterMap(colorTable, DefaultColor);
    FilterMapOrigins(colorTable, DefaultColor);
    seq(|kept|, k requires 0 <= k < |kept| => kept[k].name)
  }

  /** The palette `handleGenerate` passes to the generator. */
  function SelectPalette(colorTable: seq<Entry>, selectedColors: seq<string>): seq<Entry>
  {
    if |selectedColors| > 0 then FilterMap(colorTable, InSelection(selectedColors))
    else FilterMap(colorTable, DefaultColor)
  }

  /**
   * The palette is the table's entries, in table order, that are selected,
   * or that start with A-M or a-m when the selection is empty.
   */
  lemma SelectPaletteSpec(colorTable: seq<Entry>, selectedColors: seq<string>, c: Entry)
    ensures c in SelectPalette(colorTable, selectedColors) <==>
      c in colorTable && (if |selectedColors| > 0 then c.name in selectedColors else StartsWithAToM(c.name))
    ensures var keep := if |selectedColors| > 0 then InSelection(selectedColors) else DefaultColor;
      var p, o := SelectPalette(colorTable, selectedColors), Origins(colorTable, keep);
      && |o| == |p|
      && (forall k :: 0 <= k < |o| ==> o[k] < |colorTable| && p[k] == colorTable[o[k]])
      && (forall k1, k2 :: 0 <= k1 < k2 < |o| ==> o[k1] < o[k2])
  {
    if |selectedColors| > 0 {
      FilterMapMembers(colorTable, InSelection(selectedColors), c);
      FilterMapOrigins(colorTable, InSelection(selectedColors));
    } else {
      FilterMapMembers(colorTable, DefaultColor, c);
      FilterMapOrigins(colorTable, DefaultColor);
    }
  }

  /** With nothing selected, a loaded table is used whole: the loader already kept only A-M names. */
  lemma NoSelectionUsesLoadedTable(text: string)
    ensures SelectPalette(ColorTable.ParseTable(text), []) == ColorTable.ParseTable(text)
  {
    var table := ColorTable.ParseTable(text);
    ColorTable.TableEntriesShape(text);
    forall i | 0 <= i < |table|
      ensures DefaultColor(table[i]) == Some(table[i])
    {
      assert table[i] in table;
    }
    FilterMapKeepsAll(table, DefaultColor);
  }

  /** Selecting exactly the default names gives the same palette as selecting nothing. */
  lemma SelectingDefaultNames(colorTable: seq<Entry>)
    requires |DefaultColorNames(colorTable)| > 0
    ensures SelectPalette(colorTable, DefaultColorNames(colorTable)) == SelectPalette(colorTable, [])
  {
    var names := DefaultColorNames(colorTable);
    var o := Origins(colorTable, DefaultColor);
    forall i | 0 <= i < |colorTable|
      ensures InSelection(names)(colorTable[i]) == DefaultColor(colorTable[i])
    {
      var c := colorTable[i];
      if StartsWithAToM(c.name) {
        var k :| 0 <= k < |o| && o[k] == i;
        assert names[k] == c.name;
      }
      if c.name in names {
        var k :| 0 <= k < |names| && names[k] == c.name;
        assert StartsWithAToM(names[k]);
      }
    }
    FilterMapAgree(colorTable, InSelection(names), DefaultColor);
  }

  /** The `{ name, hex }` of every cell. */
  function Entries(cells: seq<Swatch>): (es: seq<Entry>)
    ensures |es| == |cells|
    ensures forall i :: 0 <= i < |cells| ==> es[i] == Entry(cells[i].name, cells[i].hex)
  {
    seq(|cells|, i requires 0 <= i < |cells| => Entry(cells[i].name, cells[i].hex))
  }

  /** The used-colour loop over `result.flat()`. */
  method CollectUsed(result: seq<seq<Swatch>>) returns (used: seq<Entry>)
    ensures used == FirstOccurrences(Entries(Flatten(result)))
  {
    var cells := Flatten(result);
    used := [];
    var usedSet: set<string> := {};
    var i := 0;
    while i < |cells|
      invariant 0 <= i <= |cells|
      invariant used == FirstOccurrences(Entries(cells[..i])) && usedSet == Names(used)
    {
      var c := cells[i];
      ghost var es := Entries(cells[..i + 1]);
      assert es[..i] == Entries(cells[..i]);
      if c.name !in usedSet {
        NamesSnoc(used, Entry(c.name, c.hex));
        used := used + [Entry(c.name, c.hex)];
        usedSet := usedSet + {c.name};
      }
      i := i + 1;
    }
    assert cells[..i] == cells;
  }

  /** No two used entries share a name. */
  lemma UsedDistinct(result: seq<seq<Swatch>>)
    ensures DistinctNames(FirstOccurrences(Entries(Flatten(result))))
  {
    FirstOccurrencesNames(Entries(Flatten(result)));
  }

  /** A name is used exactly when some cell of the grid carries it. */
  lemma UsedNames(result: seq<seq<Swatch>>, n: string)
    ensures n in Names(FirstOccurrences(Entries(Flatten(result)))) <==>
      exists y, x :: 0 <= y < |result| && 0 <= x < |result[y]| && result[y][x].name == n
  {
    var cells := Flatten(result);
    var es := Entries(cells);
    FirstOccurrencesNames(es);
    NamesAt(es, n);
    if n in Names(es) {
      var i :| 0 <= i < |es| && es[i].name == n;
      assert cells[i] in cells;
      FlattenMembers(result, cells[i]);
      var y :| 0 <= y < |result| && cells[i] in result[y];
      var x :| 0 <= x < |result[y]| && result[y][x] == cells[i];
    }
    if exists y, x :: 0 <= y < |result| && 0 <= x < |result[y]| && result[y][x].name == n {
      var y, x :| 0 <= y < |result| && 0 <= x < |result[y]| && result[y][x].name == n;
      assert result[y][x] in result[y];
      FlattenMembers(result, result[y][x]);
      var i :| 0 <= i < |cells| && cells[i] == result[y][x];
      assert es[i].name == n;
    }
  }

  /**
   * Each used entry is the name and hex of the first cell in row-major order
   * with that name, and the entries come in the order their names first appear.
   */
  lemma UsedOrder(result: seq<seq<Swatch>>)
    ensures var cells := Flatten(result);
      var es, used := Entries(cells), FirstOccurrences(Entries(cells));
      && (forall k :: 0 <= k < |used| ==>
            used[k].name in Names(es) &&
            used[k] == Entry(cells[FirstIndex(es, used[k].name)].name, cells[FirstIndex(es, used[k].name)].hex))
      && (forall k1, k2 :: 0 <= k1 < k2 < |used| ==> FirstIndex(es, used[k1].name) < FirstIndex(es, used[k2].name))
  {
    FirstOccurrencesOrder(Entries(Flatten(result)));
  }

  /**
   * `handleGenerate` once the image is loaded: choose the palette, run the
   * generator the application imports with the grid shown and its default
   * label font (no font is passed), and collect the colours used.
   */
  method HandleGenerate(colorTable: seq<Entry>, selectedColors: seq<string>, data: seq<Byte>,
                        pixelWidth: nat, pixelHeight: nat, cellSize: nat, dist: Distance)
    returns (plan: Plan, used: seq<Entry>)
    requires PixelArtLegacy.Resized(data, pixelWidth, pixelHeight)
    requires |SelectPalette(colorTable, selectedColors)| >= 1
    ensures var grid := PixelArtLegacy.MatchedGrid(data, pixelWidth, pixelHeight,
                                                  PreparePalette(SelectPalette(colorTable, selectedColors)), dist);
      && plan == PlanOf(grid, pixelWidth, pixelHeight, cellSize, true, PixelArtLegacy.DefaultFont)
      && used == FirstOccurrences(Entries(Flatten(grid)))
  {
    var useColors: seq<Entry>;
    if |selectedColors| > 0 {
      useColors := FilterMap(colorTable, InSelection(selectedColors));
    } else {
      useColors := FilterMap(colorTable, DefaultColor);
    }
    var result;
    plan, result := PixelArtLegacy.GeneratePixelArt(data, pixelWidth, pixelHeight, cellSize, useColors, true, PixelArtLegacy.DefaultFont, dist);
    used := CollectUsed(result);
  }
}
