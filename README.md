# pindou bead-pattern generator — a verified model

pindou turns a picture into a bead ("拼豆") pattern. The grid is `pixelWidth × pixelHeight` cells. Each cell is reduced to one RGB colour. That colour is snapped to the nearest entry of a bead palette. The grid is drawn as coloured, labelled squares with optional grid lines. The palette entries the grid uses are listed and can be exported as a sorted two-column sheet.

This project models that core in Dafny and proves what each step promises:

- `Pixels`, `Statistics`: the RGBA byte buffer, sampling windows, and the row-major scan. The dominant-colour tally and the rounded per-channel mean are specified by functions of the scanned pixels.
- `PixelArt` models `utils/pixelArt.js`, the generator with five sampling modes and optional edge exclusion.
- `PixelArtV1` models `src/utils/pixelArt_v1.js`, the block sampler with block-relative indexing.
- `PixelArtLegacy` models `src/utils/pixelArt.js`, the one-pixel-per-cell generator that `src/App.js` imports. It also keeps the unused `getBlockColor`.
- `Palette` holds the palette preparation and the nearest-colour scan shared by all three generators. The distance is an arbitrary function.
- `Render` holds the drawing phase, shared by all three generators. It is modelled as the list of commands sent to the canvas.
- `Hex` models `hexToRgb` and the `parseInt(…, 16)` it relies on.
- `JsString` models `trim`, `split`, `toUpperCase`, `slice`, `indexOf` and `replace` as far as the core uses them.
- `ColorTable` models `loadColorTable` once the CSV text has been fetched, and `getColorMap`.
- `ExportExcel` models the dedup, sort and `sheetData` construction of `exportColorList`.
- `App` models the default colour names, the palette selection and the used-colour list in `src/App.js`.
- `Dedup` and `Sequences` hold the two deduplications (last row wins, first row wins) and the order-preserving filter they are built from.

Loops in the source are methods with loop invariants, proved equal to a specification function. The properties are proved as lemmas about that function.

## Model

| member | source | states |
|---|---|---|
| PixelArt.Margin | utils/pixelArt.js:29-30 | the edge margin `max(1, floor(block*0.15))` is at least one pixel |
| PixelArt.WindowInsideBlock | utils/pixelArt.js:27-32 | with or without edge exclusion, the sampled window never leaves the block `[x0, x0+blockW) × [y0, y0+blockH)` |
| PixelArt.MarginFits | utils/pixelArt.js:29-31 | for a block of at least 3 pixels, at least one pixel remains once both margins are removed |
| PixelArt.EdgeWindowEmptiness | utils/pixelArt.js:27-32 | with edge exclusion the window is empty if and only if `blockW <= 2` or `blockH <= 2` |
| PixelArt.PlainWindowEmptiness | utils/pixelArt.js:53 | without exclusion the window is the whole block, and it is empty exactly when a block side is 0 |
| PixelArt.MarginHalf | utils/pixelArt.js:84-85 | twice the margin exceeds the block by at most one pixel, so the shrunken extent is at least -1 |
| PixelArt.OffsetsInBlock | utils/pixelArt.js:79-86 | for every block side of at least 1, with or without exclusion, the centre offset and the 4/5 offset lie in `[0, block)`; this includes the floor of a negative value at side 1 |
| PixelArt.OffsetsInWindow | utils/pixelArt.js:99-106 | for a side of at least 3, with exclusion both offsets lie inside the shrunken window |
| PixelArt.DominantColor | utils/pixelArt.js:26-49 | the `colorCount`/`maxCount`/`dominant` loop returns `Mode` of the window's pixels in row-major order (see `Statistics.ModeIsFirstToReachMax`) |
| PixelArt.AverageColor | utils/pixelArt.js:52-75 | the accumulator loop returns `Mean` of the window's pixels: black for an empty window, otherwise each channel `Math.round(sum/count)` |
| PixelArt.BlockReadable | utils/pixelArt.js:177-187 | every byte a sampler reads from a block inside the image is in bounds: the whole window, the centre pixel and the 4/5 pixel |
| PixelArt.BlockModesReadInside | utils/pixelArt.js:150-155 | in block modes `blockW = floor(imgW/pixelWidth) >= 1`, `x*blockW + blockW <= imgW` for every `x < pixelWidth` (likewise rows), and all sampled bytes are in bounds |
| PixelArt.OriginalReadsResizedPixel | utils/pixelArt.js:140-147 | in `'original'` mode the blocks are 1×1 and cell (x, y) is bytes `(y*pixelWidth+x)*4 .. +2` of the resized buffer |
| PixelArt.UnknownModeSamplesAsDominant | utils/pixelArt.js:192-195 | a `colorMode` other than the five named ones samples exactly as `'dominant'` |
| PixelArt.SampleCell | utils/pixelArt.js:175-195 | the mode dispatch yields `CellColor` of the cell |
| PixelArt.MatchedCell | utils/pixelArt.js:197-206 | the palette element chosen for a cell is an element of the palette |
| PixelArt.MatchedGridShape | utils/pixelArt.js:171-209 | the result has `pixelHeight` rows of `pixelWidth` elements, and each is the matched palette element of its cell: the first nearest palette element to the cell's sample |
| PixelArt.MatchRow | utils/pixelArt.js:173-207 | the inner loop builds exactly row `y` of the matched grid |
| PixelArt.GeneratePixelArt | utils/pixelArt.js:128-246 | the result is the matched grid of the buffer the mode selects, it is a `pixelHeight × pixelWidth` grid, and the plan is the drawing plan of that grid |
| PixelArtV1.DominantColor | src/utils/pixelArt_v1.js:16-33 | scanning pixels `(x*blockW+dx, y*blockH+dy)` returns `Mode` of the block's pixels: a colour of maximal count that was first to reach that count |
| PixelArtV1.DominantFrom | src/utils/pixelArt_v1.js:20-31 | the nested `dy`/`dx` loop with the `colorCount` dictionary returns `Mode` of the block starting at `(x0, y0)` |
| PixelArtV1.TallyRow | src/utils/pixelArt_v1.js:21-30 | one pass of the inner `dx` loop advances `colorCount`/`maxCount`/`dominant` from the tally of the pixels before row `y` to the tally including that row |
| PixelArtV1.AverageColor | src/utils/pixelArt_v1.js:36-53 | for blocks of at least one pixel, the result is `Mean` of the block's pixels: per channel `Math.round(sum/count)` |
| PixelArtV1.SumsFrom | src/utils/pixelArt_v1.js:37-47 | the accumulator loop ends with the three channel sums and the pixel count of the block |
| PixelArtV1.SumRow | src/utils/pixelArt_v1.js:39-46 | one pass of the inner `dx` loop adds row `y`'s channels and pixel count to the running sums |
| PixelArtV1.CenterInBlock | src/utils/pixelArt_v1.js:56-66 | for blocks of at least 1×1, offset `(floor(blockW/2), floor(blockH/2))` is inside the block, so the centre colour is one of the block's pixels |
| PixelArtV1.BlockInImage | src/utils/pixelArt_v1.js:107-108 | with `blockW = floor(imgW/pixelWidth)`, every block of the grid lies inside the image |
| PixelArtV1.UnknownModeSamplesAsDominant | src/utils/pixelArt_v1.js:113-121 | any mode other than `dominant`, `average` and `center` samples as `dominant` |
| PixelArtV1.ResizedCellIsPixel | src/utils/pixelArt_v1.js:90-91 | on a buffer of exactly `pixelWidth × pixelHeight`, the blocks are 1×1 and every mode returns pixel (x, y) |
| PixelArtV1.SampleCell | src/utils/pixelArt_v1.js:112-121 | the mode dispatch yields `CellColor` of the cell |
| PixelArtV1.MatchedCell | src/utils/pixelArt_v1.js:123-132 | the matched palette element is an element of the palette |
| PixelArtV1.MatchedGridShape | src/utils/pixelArt_v1.js:106-135 | the result is `pixelHeight × pixelWidth` palette elements, each the matched palette element of its cell: the first nearest palette element to the cell's sample |
| PixelArtV1.MatchRow | src/utils/pixelArt_v1.js:110-133 | the inner loop builds exactly row `y` of the matched grid |
| PixelArtV1.GeneratePixelArt | src/utils/pixelArt_v1.js:79-175 | the result is the matched grid, shaped `pixelHeight × pixelWidth`, and the plan is the drawing plan of that grid |
| PixelArtLegacy.BlockColor | src/utils/pixelArt.js:16-33 | `getBlockColor` returns the rounded per-channel mean of the block |
| PixelArtLegacy.CellColor | src/utils/pixelArt.js:76-77 | cell (x, y) takes bytes `(y*pixelWidth+x)*4 .. +2` of the resized buffer, all in bounds |
| PixelArtLegacy.SamplersAgreeOnResized | src/utils/pixelArt.js:73-77 | on a buffer already resized to the grid, the other two generators' samplers return this pixel whatever their mode (`'original'` mode for the current one) |
| PixelArtLegacy.MatchedCell | src/utils/pixelArt.js:79-88 | the chosen palette element is in the palette |
| PixelArtLegacy.MatchedGridShape | src/utils/pixelArt.js:71-91 | the grid has `pixelHeight` rows of `pixelWidth`, and each cell is the first nearest palette element to its pixel |
| PixelArtLegacy.MatchRow | src/utils/pixelArt.js:74-89 | the inner loop builds exactly row `y` of the matched grid |
| PixelArtLegacy.GeneratePixelArt | src/utils/pixelArt.js:46-131 | one pixel per cell, matched and drawn: the result is the matched grid and the plan is its drawing plan |
| Palette.PreparePalette | src/utils/pixelArt.js:60-64 | the palette keeps the table's length, order, names and hex strings |
| Palette.MatchStateInvariant | src/utils/pixelArt.js:80-87 | after `n` steps, `minDist` is Infinity exactly when every distance seen was NaN; otherwise `minIdx` holds the least distance seen, and every earlier index is NaN or strictly farther |
| Palette.NearestIsFirstNearest | src/utils/pixelArt.js:80-87 | the scan settles on the lowest index of minimal distance, in range for a non-empty palette |
| Palette.FirstNearestIsUnique | src/utils/pixelArt.js:83-86 | only one index can be the first nearest, so the strict `<` tie-break is well defined |
| Palette.NearestCharacterised | src/utils/pixelArt.js:80-87 | an index is the scan's answer if and only if it is the first nearest |
| Palette.MatchIndex | utils/pixelArt.js:197-205 | the `minDist`/`minIdx` loop returns the first nearest index, which is in range for a non-empty palette |
| Render.Draw | src/utils/pixelArt.js:93-128 | the drawing code produces exactly `PlanOf` the grid |
| Render.DrawCells | src/utils/pixelArt.js:102-112 | the nested fill/label loops emit the cell phase of the plan |
| Render.StrokeGrid | src/utils/pixelArt.js:114-128 | the grid-line loops append the vertical and then the horizontal lines |
| Render.CanvasSize | src/utils/pixelArt.js:94-100 | the canvas is `pixelWidth*cellSize × pixelHeight*cellSize` with the given font, and there are `2·w·h` cell commands plus `w+h+2` lines when the grid is shown |
| Render.CellsInRowMajorOrder | src/utils/pixelArt.js:102-111 | commands `2k` and `2k+1`, with `k = y*pixelWidth + x`, fill cell (x, y)'s square at `(x*cellSize, y*cellSize)` with its hex and label its centre with its name |
| Render.GridLinesAfterCells | src/utils/pixelArt.js:114-128 | with the grid shown, after the cell commands come exactly `pixelWidth+1` vertical lines at `x*cellSize` and `pixelHeight+1` horizontal lines at `y*cellSize`, each spanning the canvas |
| Render.StrokesLast | src/utils/pixelArt.js:102-128 | no fill or label follows a line; without the grid there is no line at all |
| Render.RowCommandsAt | src/utils/pixelArt.js:103-111 | one row of the loop emits a fill and a label per cell, in column order |
| Render.CellAt | src/utils/pixelArt.js:102-112 | the commands of cell (x, y) sit at positions `2(y*w+x)` and `2(y*w+x)+1` of the cell phase |
| Render.LinesAt | src/utils/pixelArt.js:116-127 | line `i` of either loop is the stroke at `i*cellSize` across the given extent |
| Hex.HexPrefix | utils/pixelArt.js:121-123 | the digits `parseInt(…, 16)` consumes are the longest prefix of hex digits |
| Hex.DigitsValueBound | utils/pixelArt.js:121-123 | a string of `n` hex digits has a value below `16^n` |
| Hex.ParsePair | utils/pixelArt.js:121-123 | two hex digits parse to their byte value, below 256 |
| Hex.SixDigits | utils/pixelArt.js:118-125 | for six hex digits, with or without a leading `#`, each channel is its pair's value |
| Hex.PairsOf | src/utils/pixelArt_v1.js:72-74 | the three two-character slices of six digits parse to their pair values |
| Hex.HexToRgbOf | src/utils/pixelArt.js:36-43 | `hexToRgb` removes the first `#` only and parses slices 0-2, 2-4 and 4-6 |
| Hex.NoHashInDigits | src/utils/pixelArt.js:37 | removing `#` leaves a string of digits unchanged |
| Hex.ChannelRange | utils/pixelArt.js:118-125 | for every input, each channel is NaN or lies in -15..255: at most two hex digits, possibly negated |
| Hex.HexRoundTrip | utils/pixelArt.js:118-125 | formatting a colour as `#RRGGBB` and parsing it gives the colour back |
| Hex.UpperCaseParsesAlike | src/utils/colorTable.js:14 | upper-casing the ASCII letters of a hex string never changes what `hexToRgb` returns |
| Hex.UpperParse | src/utils/colorTable.js:14 | `parseInt(…, 16)` is indifferent to ASCII upper-casing |
| Hex.UpperParseTrimmed | src/utils/colorTable.js:14 | parsing after the leading white space is indifferent to ASCII upper-casing |
| JsString.TrimStart | src/utils/colorTable.js:13 | the result is a suffix with only white space removed and no leading white space |
| JsString.TrimEnd | src/utils/colorTable.js:13 | the result is a prefix with only white space removed and no trailing white space |
| JsString.Trim | src/utils/colorTable.js:7 | the result is an infix between white-space runs, with white space at neither end |
| JsString.TrimIdempotent | src/utils/colorTable.js:13-14 | trimming twice is trimming once |
| JsString.TrimAllWhiteSpace | src/utils/colorTable.js:14 | a white-space-only field trims to the empty string |
| JsString.Split | src/utils/colorTable.js:7 | `split` gives at least one part, and no part holds the separator |
| JsString.SplitJoin | src/utils/colorTable.js:10 | joining the parts with the separator gives back the string |
| JsString.SplitCount | src/utils/colorTable.js:10 | there is one more part than separators |
| JsString.ToUpperAscii | src/utils/colorTable.js:14 | same length, character by character upper-cased, and no lower-case ASCII letter remains |
| JsString.UpperAsciiIdempotent | src/utils/colorTable.js:14 | upper-casing twice is upper-casing once |
| JsString.IndexOf | src/utils/pixelArt.js:37 | the position of the first occurrence |
| JsString.RemoveFirst | src/utils/pixelArt.js:37 | `replace('#', '')` deletes the first `#` only, and nothing when there is none |
| JsString.Slice | src/utils/pixelArt.js:39-41 | `slice(from, to)` is clamped to the string and reads the characters from `from` on |
| ColorTable.Lines | src/utils/colorTable.js:7 | the trimmed text splits into at least one line |
| ColorTable.LoadColorTable | src/utils/colorTable.js:4-19 | the loader's result is the entries of the lines after the header, in order |
| ColorTable.ParseLines | src/utils/colorTable.js:8-17 | the loop from line 1 on pushes exactly the entries of those lines |
| ColorTable.ParseLine | src/utils/colorTable.js:10-16 | one line gives an entry iff its first two comma fields are non-empty and the trimmed name starts with A-M or a-m |
| ColorTable.TableFromLines | src/utils/colorTable.js:8-18 | every entry comes from a data line, never from the header, in line order; every qualifying line contributes; at most `lines − 1` entries |
| ColorTable.EntryShape | src/utils/colorTable.js:13-14 | an entry's name is trimmed and starts with A-M or a-m; its hex has no lower-case ASCII letter and, under ASCII upper-casing, parses like the raw field |
| ColorTable.TableEntriesShape | src/utils/colorTable.js:13-14 | every entry of the table has a trimmed A-M name and a hex with no lower-case ASCII letter |
| ColorTable.TwoFields | src/utils/colorTable.js:10-14 | for `name,hex` the entry is decided by the two untrimmed fields alone: both non-empty and the trimmed name starting A-M |
| ColorTable.ExtraFieldsIgnored | src/utils/colorTable.js:10 | fields after the second do not change the entry |
| ColorTable.BlankHexKept | src/utils/colorTable.js:11-14 | a white-space-only hex field passes the emptiness test and gives `hex: ""` |
| ColorTable.GetColorMap | src/utils/colorTable.js:22-28 | the dictionary's keys are exactly the table's names, and a repeated name keeps the last row's hex |
| ColorTable.WriteEntries | src/utils/colorTable.js:24-27 | the `forEach` over the table leaves the dictionary in which each name holds the hex of its last entry |
| Dedup.LastWinsKeys | src/utils/exportExcel.js:8-9 | writing rows into a dictionary by name gives exactly the rows' names as keys |
| Dedup.LastWinsValue | src/utils/exportExcel.js:9 | the value under a name is the hex of its last row |
| Dedup.FirstOccurrencesNames | src/App.js:117-124 | the first-occurrence list has no repeated name and the same names as its input |
| Dedup.FirstOccurrencesOrder | src/App.js:117-124 | each kept row is the first row of its name, and the kept rows come in the order their names first appear |
| Sequences.FilterMapOrigins | src/App.js:12 | `filter` keeps exactly the passing elements, each once, in their original order |
| Sequences.FlattenAt | src/App.js:119 | cell (x, y) of a grid of width `w` is element `y*w + x` of `result.flat()` |
| Sequences.FlattenMembers | src/App.js:119 | an element is in `result.flat()` iff it is in some row |
| ExportExcel.LessTotal | src/utils/exportExcel.js:10 | the default string order is total and antisymmetric |
| ExportExcel.LessTransitive | src/utils/exportExcel.js:10 | the default string order is transitive |
| ExportExcel.SortSorted | src/utils/exportExcel.js:10 | sorting distinct names gives a strictly increasing list of the same names |
| ExportExcel.StrictlySortedUnique | src/utils/exportExcel.js:10 | two strictly increasing lists with the same members are equal, so the sorted key list is determined by the key set |
| ExportExcel.KeysAreNames | src/utils/exportExcel.js:9-10 | `Object.keys(unique)` lists every input name exactly once |
| ExportExcel.SortedNames | src/utils/exportExcel.js:10 | the sorted keys are exactly the distinct input names |
| ExportExcel.SortedNamesAscending | src/utils/exportExcel.js:10 | the sorted keys are strictly increasing |
| ExportExcel.WriteDictionary | src/utils/exportExcel.js:8-9 | the `forEach` leaves `unique` with the last hex of each name, its keys exactly the input names |
| ExportExcel.ExportColorList | src/utils/exportExcel.js:6-16 | the dedup, sort and `push` loop builds exactly `Sheet` of the colour list |
| ExportExcel.PushRows | src/utils/exportExcel.js:13-16 | the header followed by one `[name, hex]` row per sorted name, in sorted order |
| ExportExcel.SheetShape | src/utils/exportExcel.js:13-16 | row 0 is the header `['色号','色值']`, there are 1 + (number of distinct names) rows of two cells, and names strictly increase down the sheet |
| ExportExcel.SheetNames | src/utils/exportExcel.js:9-16 | a name is in the input iff it is the name of some data row |
| ExportExcel.SheetValues | src/utils/exportExcel.js:9-15 | every data row is `[name, hex of the name's last row in the input]` |
| ExportExcel.NameColumnUnique | src/utils/exportExcel.js:10-16 | the name column is the unique strictly increasing listing of the input names |
| App.DefaultColorNames | src/App.js:10-13 | the default names are, in table order, exactly the names of the entries whose name starts with A-M or a-m |
| App.SelectPaletteSpec | src/App.js:96-102 | an entry is in the palette iff it is in the table and selected (or, with no selection, starts with A-M); table order is kept |
| App.NoSelectionUsesLoadedTable | src/App.js:96-102 | with no selection, a table produced by the loader is passed on unchanged |
| App.SelectingDefaultNames | src/App.js:96-102 | selecting exactly the default names gives the same palette as selecting nothing |
| App.CollectUsed | src/App.js:117-124 | the `used`/`usedSet` loop over `result.flat()` yields the first occurrence of each name, in row-major order |
| App.UsedDistinct | src/App.js:117-124 | no two used entries share a name |
| App.UsedNames | src/App.js:117-124 | a name is used iff some cell of the grid carries it |
| App.UsedOrder | src/App.js:117-124 | each used entry carries the name and hex of the first cell with that name, and entries follow first appearance in `result.flat()` |
| App.HandleGenerate | src/App.js:90-128 | once the image is loaded, the plan is the drawing plan (grid shown, default font `bold 12px sans-serif`) of the grid `generatePixelArt` matches against the selected palette, and `used` is that grid's first-occurrence list |
| Statistics.TallyInvariant | utils/pixelArt.js:33-47 | after any prefix of the scan, `colorCount` holds each colour's exact count, `maxCount` is the dominant colour's count, and `dominant` is the first colour to reach the maximum |
| Statistics.TickStep | utils/pixelArt.js:41-45 | one loop step preserves that invariant |
| Statistics.ModeIsFirstToReachMax | utils/pixelArt.js:36-48 | for a non-empty window, a colour is the returned one iff it occurs with maximal count and was the first to reach that count in row-major order |
| Statistics.FirstToReachMaxUnique | utils/pixelArt.js:42 | at most one colour is first to reach the maximum, so the strict `>` tie-break is well defined |
| Statistics.ModeOccurs | utils/pixelArt.js:35-48 | an empty window yields `{0,0,0}`; otherwise the result occurs in the window |
| Statistics.RoundDiv | utils/pixelArt.js:71-73 | `Math.round(sum/count)` is the integer nearest to the quotient, halves rounding up |
| Statistics.RoundDivWithin | utils/pixelArt.js:71-73 | the rounded quotient stays within any bounds the mean lies in |
| Statistics.SumWithin | utils/pixelArt.js:64-66 | a channel sum lies between `count·min` and `count·max` |
| Statistics.MeanWithin | utils/pixelArt.js:70-74 | each channel of the average lies between that channel's minimum and maximum in the window, hence in 0..255 |
| Statistics.MeanOfSums | utils/pixelArt.js:70-74 | the three rounded quotients of the channel sums (as in both `getAverageColor`s and `getBlockColor`) lie in 0..255 and form `Mean` of the pixels |
| Statistics.MeanOfSingle | src/utils/pixelArt_v1.js:48-52 | the average of a single pixel is that pixel |
| Statistics.ModeOfSingle | src/utils/pixelArt_v1.js:16-33 | the dominant colour of a single pixel is that pixel |
| Pixels.ScanLength | utils/pixelArt.js:36-37 | the scan visits `(ex−sx)·(ey−sy)` pixels of a non-empty window and none of an empty one |
| Pixels.ScanContains | utils/pixelArt.js:36-40 | every pixel of the window is visited |
| Pixels.SinglePixelScan | src/utils/pixelArt_v1.js:20-21 | a 1×1 window scans exactly its one pixel |
| Pixels.BlockFits | utils/pixelArt.js:154-155 | with `block = floor(side/cells)`, block `x < cells` ends at or before `side` |
| Pixels.RectReadable | utils/pixelArt.js:38-40 | every byte index `(y*imgW+x)*4 + k` of a window inside the image is in bounds |
| Pixels.VisitedStep | utils/pixelArt.js:37-40 | one inner-loop step appends the pixel at `(x, y)` to the visited pixels |
| Pixels.VisitedAll | utils/pixelArt.js:36-47 | when the outer loop ends, the visited pixels are the whole row-major scan |

## Left out

- The colour distance is left out. `rgb_to_lab` and `diff` from `color-diff` compute CIEDE2000 over floating-point Lab values. The model takes the distance as an arbitrary function from a sample and a parsed palette colour to a number or NaN. Every matching property holds for every such function.
- `getImageData` and `getResizedImageData` are left out. They are canvas calls, and the browser's resampling is unspecified. The RGBA buffers (original and resized) are inputs.
- Pixel output is left out. The raster produced by `fillRect`, `fillText` and `stroke` (fonts, antialiasing) is not modelled; only the command list is, together with the canvas width, height and font. `textAlign`, `textBaseline`, `beginPath` and the `strokeStyle`/`fillStyle` assignments are folded into the commands' style fields. A canvas ignores a `fillStyle` it cannot parse, so a cell whose hex is not a colour (such as the empty hex of `ColorTable.BlankHexKept`) is painted in the previous style, the `'#222'` of the preceding label; the model's Fill command carries the cell's hex string as it is.
- `blockW * 0.15` and `blockW * 4 / 5` are floating point. They are written as the integer quotients `(blockW*15)/100` and `(blockW*4)/5`. These agree with the floored doubles for every block size an image can have, but the model does not prove this.
- `Math.round(s/c)` is written as the exact integer `(2s + c) div 2c`, rounding halves up. The cell-label position `x*cellSize + cellSize/2` is a `real`.
- `fetch` in `loadColorTable` and the `async`/`await` around it are left out; the CSV text is an input.
- The `XLSX` sheet and file writing in `exportColorList` is left out; the model ends at `sheetData`.
- `setTimeout`, `message.error` and the React state in `handleGenerate` are left out, as is the rest of `src/App.js`:
  - upload, downloads, and the colour-selector modal with its `localeCompare` option order;
  - the aspect-ratio lock, which uses floating point.
- `App.HandleGenerate` starts once an image is loaded (the `!imgObj` early return is outside the model). `generatePixelArt` ignores the `colorMode` and `excludeEdge` it is passed, so they are not parameters.
- App.HandleGenerate: requires a non-empty palette. With an empty one, the source pushes `palette[0]`, which is `undefined`, into every cell, and the drawing loop then fails on `c.hex`.
- PixelArt.GeneratePixelArt, PixelArtV1.GeneratePixelArt and PixelArtLegacy.GeneratePixelArt: require a non-empty colour table, for the same reason.
- PixelArt.GeneratePixelArt: the block modes require `pixelWidth <= imgW` and `pixelHeight <= imgH` for the original image, so that `blockW, blockH >= 1`; the caller is expected to keep the grid no larger than the image. With a zero block, `getDominantColor` returns its initial `{0,0,0}`, `getAverageColor` its `count > 0` fallback `{0,0,0}`, `getCenterColor` and `getDiagonal45Color` without exclusion read offset 0 of the block, and `getDiagonal45Color` with `excludeEdge` reads offset -1; the model does not cover these grids.
- PixelArtV1.GeneratePixelArt: its buffer is the image resized to `pixelWidth × pixelHeight`, so `blockW = blockH = 1` in the source. The model accepts any buffer at least that large (`1 <= pixelWidth <= width`), which includes the resized one.
- PixelArtV1.AverageColor and PixelArtLegacy.BlockColor: require `blockW, blockH >= 1`. Neither `getAverageColor` of `src/utils/pixelArt_v1.js` nor `getBlockColor` of `src/utils/pixelArt.js` guards against a zero count, which would give NaN channels; with the buffers these files build, the block is never empty.
- JsString.ToUpperAscii: upper-cases ASCII letters only. JavaScript's `toUpperCase` applies the full Unicode case mapping, which also changes non-ASCII letters and can lengthen the string ('ß' becomes "SS", U+FB00 'ﬀ' becomes "FF").
- UpperCaseParsesAlike, UpperParse and UpperParseTrimmed: hold for ASCII upper-casing only. Under the full mapping `parseInt('ﬀ', 16)` is NaN raw but 255 once upper-cased, so a hex field such as "ﬀ0000" parses to (NaN, 0, 0) raw but to (255, 0, 0) once upper-cased, and a length-changing mapping shifts the `slice(0,2)`, `slice(2,4)` and `slice(4,6)` windows.
- EntryShape and TableEntriesShape: "parses like the raw field" and "no lower-case letter" are stated for the ASCII mapping, so they cover hex fields made of ASCII characters only.
- Strings are sequences of code points, whereas JavaScript's `slice`, `indexOf` and `length` count UTF-16 code units; the two agree on text without characters outside the Basic Multilingual Plane, which includes every hex field and colour name in ASCII.
- ExportExcel.Less: compares characters by code point. JavaScript's default `sort` compares UTF-16 code units; the two differ only for characters outside the Basic Multilingual Plane.
- `Object.keys` order is left out: it lists integer-like keys first. The model proves the sorted result does not depend on key order. The special key `__proto__` is also not modelled; every name reaching these dictionaries starts with a letter A-M.
- The dominant sampler keys its dictionary by the string `` `${r},${g},${b}` ``. The model keys it by the colour itself, which is equivalent because the string is injective on byte triples.
