/**
 * The generator the application imports (src/utils/pixelArt.js): the image
 * is resized by the browser to `pixelWidth x pixelHeight` and cell (x, y)
 * takes pixel (x, y) of the resized buffer. The file also keeps a block
 * averaging sampler, `getBlockColor`, that the generator never calls.
 */
module PixelArtLegacy {
  import opened Pixels
  import opened Statistics
  import opened Palette
  import opened Render
  import PixelArtV1
  import PixelArt

  /** `getBlockColor`: the per-channel rounded mean of block (x, y), line for line the first version's average sampler. */
  method BlockColor(data: seq<Byte>, x: int, y: int, blockW: int, blockH: int, imgW: int) returns (color: Rgb)
    requires blockW >= 1 && blockH >= 1
    requires Readable(data, imgW, PixelArtV1.BlockWindow(x, y, blockW, blockH))
    ensures color == Mean(Scan(data, imgW, PixelArtV1.BlockWindow(x, y, blockW, blockH)))
  {
    color := PixelArtV1.AverageColor(data, x, y, blockW, blockH, imgW);
  }

  /** The resized buffer: `pixelWidth x pixelHeight` pixels of four bytes. */
  predicate Resized(data: seq<Byte>, pixelWidth: nat, pixelHeight: nat)
  {
    |data| == pixelWidth * pixelHeight * 4
  }

  /** Bytes `(y * pixelWidth + x) * 4 .. + 2` of the resized buffer. */
  function CellColor(data: seq<Byte>, pixelWidth: nat, pixelHeight: nat, x: nat, y: nat): (c: Rgb)
    requires Resized(data, pixelWidth, pixelHeight) && x < pixelWidth && y < pixelHeight
    ensures var i := (y * pixelWidth + x) * 4; i + 2 < |data| && c == Rgb(data[i], data[i + 1], data[i + 2])
  {
    PixelInImage(Image(pixelWidth, pixelHeight, data), x, y);
    PixelAt(data, pixelWidth, x, y)
  }

  /**
   * On a buffer already resized to the grid, the other two generators sample
   * the same colour as this one, whatever their mode: the first version's
   * blocks are single pixels, and the current one reads the same pixel in its
   * `'original'` mode.
   */
  lemma SamplersAgreeOnResized(data: seq<Byte>, pixelWidth: nat, pixelHeight: nat, x: nat, y: nat,
                               colorMode: string, excludeEdge: bool)
    requires Resized(data, pixelWidth, pixelHeight) && x < pixelWidth && y < pixelHeight
    ensures PixelArtV1.Fits(Image(pixelWidth, pixelHeight, data), pixelWidth, pixelHeight)
    ensures PixelArtV1.CellColor(Image(pixelWidth, pixelHeight, data), pixelWidth, pixelHeight, colorMode, x, y)
         == CellColor(data, pixelWidth, pixelHeight, x, y)
    ensures PixelArt.Fits(Image(pixelWidth, pixelHeight, data), pixelWidth, pixelHeight, "original")
    ensures PixelArt.CellColor(Image(pixelWidth, pixelHeight, data), pixelWidth, pixelHeight, "original", excludeEdge, x, y)
         == CellColor(data, pixelWidth, pixelHeight, x, y)
  {
    var img := Image(pixelWidth, pixelHeight, data);
    PixelArtV1.ResizedCellIsPixel(img, pixelWidth, pixelHeight, colorMode, x, y);
  }

  /** The palette element cell (x, y) becomes. */
  function MatchedCell(data: seq<Byte>, pixelWidth: nat, pixelHeight: nat, palette: seq<Swatch>, dist: Distance,
                       x: nat, y: nat): (c: Swatch)
    requires Resized(data, pixelWidth, pixelHeight) && x < pixelWidth && y < pixelHeight && |palette| >= 1
    ensures c in palette
  {
    var ds := Distances(dist, CellColor(data, pixelWidth, pixelHeight, x, y), palette);
    NearestIsFirstNearest(ds);
    palette[Nearest(ds)]
  }

  function MatchedRow(data: seq<Byte>, pixelWidth: nat, pixelHeight: nat, palette: seq<Swatch>, dist: Distance,
                      y: nat): seq<Swatch>
    requires Resized(data, pixelWidth, pixelHeight) && y < pixelHeight && |palette| >= 1
  {
    seq(pixelWidth, x requires 0 <= x < pixelWidth => MatchedCell(data, pixelWidth, pixelHeight, palette, dist, x, y))
  }

  function MatchedGrid(data: seq<Byte>, pixelWidth: nat, pixelHeight: nat, palette: seq<Swatch>, dist: Distance)
    : seq<seq<Swatch>>
    requires Resized(data, pixelWidth, pixelHeight) && |palette| >= 1
  {
    seq(pixelHeight, y requires 0 <= y < pixelHeight => MatchedRow(data, pixelWidth, pixelHeight, palette, dist, y))
  }

  /**
   * The grid has `pixelHeight` rows of `pixelWidth` palette elements; cell
   * (x, y) is the first palette element nearest to bytes `(y * pixelWidth + x) * 4 .. + 2`.
   */
  lemma MatchedGridShape(data: seq<Byte>, pixelWidth: nat, pixelHeight: nat, palette: seq<Swatch>, dist: Distance)
    requires Resized(data, pixelWidth, pixelHeight) && |palette| >= 1
    ensures var g := MatchedGrid(data, pixelWidth, pixelHeight, palette, dist);
      && IsGrid(g, pixelWidth, pixelHeight)
      && (forall y, x :: 0 <= y < pixelHeight && 0 <= x < pixelWidth ==>
            var ds := Distances(dist, CellColor(data, pixelWidth, pixelHeight, x, y), palette);
            Nearest(ds) < |palette| && IsFirstNearest(ds, Nearest(ds)) && g[y][x] == palette[Nearest(ds)])
  {
    forall y, x | 0 <= y < pixelHeight && 0 <= x < pixelWidth
      ensures var ds := Distances(dist, CellColor(data, pixelWidth, pixelHeight, x, y), palette);
              Nearest(ds) < |palette| && IsFirstNearest(ds, Nearest(ds))
    {
      NearestIsFirstNearest(Distances(dist, CellColor(data, pixelWidth, pixelHeight, x, y), palette));
    }
  }

  /** One pass of the inner grid loop. */
  method MatchRow(data: seq<Byte>, pixelWidth: nat, pixelHeight: nat, palette: seq<Swatch>, dist: Distance, y: nat)
    returns (row: seq<Swatch>)
    requires Resized(data, pixelWidth, pixelHeight) && y < pixelHeight && |palette| >= 1
    ensures row == MatchedRow(data, pixelWidth, pixelHeight, palette, dist, y)
  {
    row := [];
    var x := 0;
    while x < pixelWidth
      invariant 0 <= x <= pixelWidth && |row| == x
      invariant forall xx :: 0 <= xx < x ==> row[xx] == MatchedCell(data, pixelWidth, pixelHeight, palette, dist, xx, y)
    {
      PixelInImage(Image(pixelWidth, pixelHeight, data), x, y);
      var i := (y * pixelWidth + x) * 4;
      var rgb := Rgb(data[i], data[i + 1], data[i + 2]);
      var minIdx := MatchIndex(dist, rgb, palette);
      row := row + [palette[minIdx]];
      x := x + 1;
    }
  }

  /** The label font `generatePixelArt` draws with when its caller passes none. */
  const DefaultFont: string := "bold 12px sans-serif"

  /** `generatePixelArt` of the file the application imports: one resized pixel per cell, matched, drawn. */
  method GeneratePixelArt(data: seq<Byte>, pixelWidth: nat, pixelHeight: nat, cellSize: nat,
                          colorTable: seq<Entry>, showGrid: bool, font: string, dist: Distance)
    returns (plan: Plan, result: seq<seq<Swatch>>)
    requires Resized(data, pixelWidth, pixelHeight)
    requires |colorTable| >= 1
    ensures result == MatchedGrid(data, pixelWidth, pixelHeight, PreparePalette(colorTable), dist)
    ensures IsGrid(result, pixelWidth, pixelHeight)
    ensures plan == PlanOf(result, pixelWidth, pixelHeight, cellSize, showGrid, font)
  {
    var palette := PreparePalette(colorTable);
    ghost var grid := MatchedGrid(data, pixelWidth, pixelHeight, palette, dist);
    result := [];
    var y := 0;
    while y < pixelHeight
      invariant 0 <= y <= pixelHeight && result == grid[..y]
    {
      var row := MatchRow(data, pixelWidth, pixelHeight, palette, dist, y);
      assert grid[..y + 1] == grid[..y] + [row];
      result := result + [row];
      y := y + 1;
    }
    assert grid[..pixelHeight] == grid;
    MatchedGridShape(data, pixelWidth, pixelHeight, palette, dist);
    plan := Draw(result, pixelWidth, pixelHeight, cellSize, showGrid, font);
  }
}
