/**
 * The first generator (src/utils/pixelArt_v1.js): the image is resized by the
 * browser to `pixelWidth x pixelHeight`, cut into blocks of
 * `floor(imgW / pixelWidth)` by `floor(imgH / pixelHeight)` pixels, and each
 * block is reduced to its dominant colour, its rounded mean or its centre
 * pixel, addressed relative to the block: pixel `(x * blockW + dx, y * blockH + dy)`.
 */
module PixelArtV1 {
  import opened Pixels
  import opened Statistics
  import opened Palette
  import opened Render

  /** The pixels of cell (x, y): `dx < blockW`, `dy < blockH` from `(x * blockW, y * blockH)`. */
  function BlockWindow(x: int, y: int, blockW: int, blockH: int): Window
  {
    Window(x * blockW, y * blockH, x * blockW + blockW, y * blockH + blockH)
  }

  /** `getDominantColor`: the `dy`/`dx` scan with the `colorCount` dictionary. */
  method DominantColor(data: seq<Byte>, x: int, y: int, blockW: int, blockH: int, imgW: int)
    returns (dominant: Rgb)
    requires Readable(data, imgW, BlockWindow(x, y, blockW, blockH))
    ensures dominant == Mode(Scan(data, imgW, BlockWindow(x, y, blockW, blockH)))
  {
    dominant := DominantFrom(data, x * blockW, y * blockH, blockW, blockH, imgW);
  }

  /** The loops of `getDominantColor` over pixels `(x0 + dx, y0 + dy)` of the block at `(x0, y0)`. */
  method DominantFrom(data: seq<Byte>, x0: int, y0: int, blockW: int, blockH: int, imgW: int)
    returns (dominant: Rgb)
    requires Readable(data, imgW, Window(x0, y0, x0 + blockW, y0 + blockH))
    ensures dominant == Mode(Scan(data, imgW, Window(x0, y0, x0 + blockW, y0 + blockH)))
  {
    var w := Window(x0, y0, x0 + blockW, y0 + blockH);
    var colorCount: map<Rgb, nat> := map[];
    var maxCount: nat := 0;
    dominant := Black;
    VisitedStart(data, imgW, w);
    var cy := y0;
    var dy := 0;
    while dy < blockH
      invariant cy == y0 + dy && ScanPosition(w, cy, w.sx)
      invariant Tally(colorCount, maxCount, dominant) == TallyOf(Visited(data, imgW, w, cy, w.sx))
    {
      colorCount, maxCount, dominant := TallyRow(data, imgW, w, cy, colorCount, maxCount, dominant);
      cy, dy := cy + 1, dy + 1;
    }
    VisitedAll(data, imgW, w, cy);
  }

  /** One pass of the inner `dx` loop of `getDominantColor`: the pixels of row `y` counted in turn. */
  method TallyRow(data: seq<Byte>, imgW: int, w: Window, y: int,
                  colorCount: map<Rgb, nat>, maxCount: nat, dominant: Rgb)
    returns (colorCount': map<Rgb, nat>, maxCount': nat, dominant': Rgb)
    requires Readable(data, imgW, w) && ScanPosition(w, y, w.sx) && y < w.ey
    requires Tally(colorCount, maxCount, dominant) == TallyOf(Visited(data, imgW, w, y, w.sx))
    ensures ScanPosition(w, y + 1, w.sx)
    ensures Tally(colorCount', maxCount', dominant') == TallyOf(Visited(data, imgW, w, y + 1, w.sx))
  {
    colorCount', maxCount', dominant' := colorCount, maxCount, dominant;
    ghost var cx := w.sx;
    var dx := 0;
    while dx < w.ex - w.sx
      invariant cx == w.sx + dx && ScanPosition(w, y, cx)
      invariant Tally(colorCount', maxCount', dominant') == TallyOf(Visited(data, imgW, w, y, cx))
    {
      TallyVisit(data, imgW, w, y, cx);
      var key := PixelAt(data, imgW, w.sx + dx, y);
      ghost var before := Tally(colorCount', maxCount', dominant');
      var n := CountOf(colorCount', key) + 1;
      colorCount' := colorCount'[key := n];
      if n > maxCount' {
        maxCount' := n;
        dominant' := key;
      }
      TickUpdate(before, key, colorCount', maxCount', dominant');
      cx, dx := cx + 1, dx + 1;
    }
    VisitedNextRow(data, imgW, w, y, cx);
  }

  /**
   * `getAverageColor`: the `dy`/`dx` scan summing the channels, then the
   * rounded quotients. There is no guard for a zero count, so the block must
   * hold a pixel.
   */
  method AverageColor(data: seq<Byte>, x: int, y: int, blockW: int, blockH: int, imgW: int)
    returns (color: Rgb)
    requires blockW >= 1 && blockH >= 1
    requires Readable(data, imgW, BlockWindow(x, y, blockW, blockH))
    ensures color == Mean(Scan(data, imgW, BlockWindow(x, y, blockW, blockH)))
  {
    var w := BlockWindow(x, y, blockW, blockH);
    var r, g, b, count := SumsFrom(data, x * blockW, y * blockH, blockW, blockH, imgW);
    ScanLength(data, imgW, w);
    MeanOfSums(Scan(data, imgW, w), r, g, b);
    color := Rgb(RoundDiv(r, count), RoundDiv(g, count), RoundDiv(b, count));
  }

  /** The loops of `getAverageColor` over pixels `(x0 + dx, y0 + dy)` of the block at `(x0, y0)`. */
  method SumsFrom(data: seq<Byte>, x0: int, y0: int, blockW: int, blockH: int, imgW: int)
    returns (r: nat, g: nat, b: nat, count: nat)
    requires Readable(data, imgW, Window(x0, y0, x0 + blockW, y0 + blockH))
    ensures Sums(Scan(data, imgW, Window(x0, y0, x0 + blockW, y0 + blockH)), r, g, b, count)
  {
    var w := Window(x0, y0, x0 + blockW, y0 + blockH);
    r, g, b, count := 0, 0, 0, 0;
    VisitedStart(data, imgW, w);
    var cy := y0;
    var dy := 0;
    while dy < blockH
      invariant cy == y0 + dy && ScanPosition(w, cy, w.sx)
      invariant Sums(Visited(data, imgW, w, cy, w.sx), r, g, b, count)
    {
      r, g, b, count := SumRow(data, imgW, w, cy, r, g, b, count);
      cy, dy := cy + 1, dy + 1;
    }
    VisitedAll(data, imgW, w, cy);
  }

  /** One pass of the inner `dx` loop of `getAverageColor`: the pixels of row `y` added in turn. */
  method SumRow(data: seq<Byte>, imgW: int, w: Window, y: int, r: nat, g: nat, b: nat, count: nat)
    returns (r': nat, g': nat, b': nat, count': nat)
    requires Readable(data, imgW, w) && ScanPosition(w, y, w.sx) && y < w.ey
    requires Sums(Visited(data, imgW, w, y, w.sx), r, g, b, count)
    ensures ScanPosition(w, y + 1, w.sx)
    ensures Sums(Visited(data, imgW, w, y + 1, w.sx), r', g', b', count')
  {
    r', g', b', count' := r, g, b, count;
    ghost var cx := w.sx;
    var dx := 0;
    while dx < w.ex - w.sx
      invariant cx == w.sx + dx && ScanPosition(w, y, cx)
      invariant Sums(Visited(data, imgW, w, y, cx), r', g', b', count')
    {
      SumsVisit(data, imgW, w, y, cx, r', g', b', count');
      var p := PixelAt(data, imgW, w.sx + dx, y);
      r' := r' + p.r;
      g' := g' + p.g;
      b' := b' + p.b;
      count' := count' + 1;
      cx, dx := cx + 1, dx + 1;
    }
    VisitedNextRow(data, imgW, w, y, cx);
  }

  /** `getCenterColor`: the pixel at offset `(floor(blockW / 2), floor(blockH / 2))` of the block. */
  function CenterColor(data: seq<Byte>, x: int, y: int, blockW: int, blockH: int, imgW: int): Rgb
    requires ByteInBounds(data, imgW, x * blockW + blockW / 2, y * blockH + blockH / 2)
  {
    PixelAt(data, imgW, x * blockW + blockW / 2, y * blockH + blockH / 2)
  }

  /** A block of one or more pixels is readable and its centre pixel is one of its own pixels. */
  lemma CenterInBlock(data: seq<Byte>, x: int, y: int, blockW: int, blockH: int, imgW: int)
    requires blockW >= 1 && blockH >= 1
    requires Readable(data, imgW, BlockWindow(x, y, blockW, blockH))
    ensures ByteInBounds(data, imgW, x * blockW + blockW / 2, y * blockH + blockH / 2)
    ensures CenterColor(data, x, y, blockW, blockH, imgW) in Scan(data, imgW, BlockWindow(x, y, blockW, blockH))
  {
    ScanContains(data, imgW, BlockWindow(x, y, blockW, blockH), x * blockW + blockW / 2, y * blockH + blockH / 2);
  }

  /** The resized buffer has at least one pixel per cell in each direction. */
  predicate Fits(img: Image, pixelWidth: nat, pixelHeight: nat)
  {
    WellFormed(img) && 1 <= pixelWidth <= img.width && 1 <= pixelHeight <= img.height
  }

  /** Every block of the grid lies inside the buffer. */
  lemma BlockInImage(img: Image, pixelWidth: nat, pixelHeight: nat, x: nat, y: nat)
    requires Fits(img, pixelWidth, pixelHeight) && x < pixelWidth && y < pixelHeight
    ensures var blockW, blockH := img.width / pixelWidth, img.height / pixelHeight;
      && blockW >= 1 && blockH >= 1
      && Readable(img.data, img.width, BlockWindow(x, y, blockW, blockH))
  {
    var blockW, blockH := img.width / pixelWidth, img.height / pixelHeight;
    BlockFits(img.width, pixelWidth, x);
    BlockFits(img.height, pixelHeight, y);
    RectReadable(img, BlockWindow(x, y, blockW, blockH));
  }

  /** The colour the generator samples for cell (x, y); an unknown mode samples as `'dominant'`. */
  function CellColor(img: Image, pixelWidth: nat, pixelHeight: nat, colorMode: string, x: nat, y: nat): Rgb
    requires Fits(img, pixelWidth, pixelHeight) && x < pixelWidth && y < pixelHeight
  {
    var blockW, blockH := img.width / pixelWidth, img.height / pixelHeight;
    BlockInImage(img, pixelWidth, pixelHeight, x, y);
    var block := Scan(img.data, img.width, BlockWindow(x, y, blockW, blockH));
    if colorMode == "average" then Mean(block)
    else if colorMode == "center" then
      CenterInBlock(img.data, x, y, blockW, blockH, img.width);
      CenterColor(img.data, x, y, blockW, blockH, img.width)
    else Mode(block)
  }

  /** Any mode other than `dominant`, `average` and `center` falls back to the dominant sampler. */
  lemma UnknownModeSamplesAsDominant(img: Image, pixelWidth: nat, pixelHeight: nat, colorMode: string, x: nat, y: nat)
    requires colorMode !in ["dominant", "average", "center"]
    requires Fits(img, pixelWidth, pixelHeight) && x < pixelWidth && y < pixelHeight
    ensures CellColor(img, pixelWidth, pixelHeight, colorMode, x, y)
         == CellColor(img, pixelWidth, pixelHeight, "dominant", x, y)
  {
    assert colorMode != "average" && colorMode != "center";
  }

  /**
   * When the buffer is exactly `pixelWidth x pixelHeight`, as the browser
   * resizes it, every block is one pixel and every mode returns pixel (x, y).
   */
  lemma ResizedCellIsPixel(img: Image, pixelWidth: nat, pixelHeight: nat, colorMode: string, x: nat, y: nat)
    requires Fits(img, pixelWidth, pixelHeight) && x < pixelWidth && y < pixelHeight
    requires img.width == pixelWidth && img.height == pixelHeight
    ensures img.width / pixelWidth == 1 && img.height / pixelHeight == 1
    ensures ByteInBounds(img.data, img.width, x, y)
    ensures CellColor(img, pixelWidth, pixelHeight, colorMode, x, y) == PixelAt(img.data, img.width, x, y)
  {
    PixelInImage(img, x, y);
    SinglePixelScan(img.data, img.width, x, y);
    assert BlockWindow(x, y, 1, 1) == Window(x, y, x + 1, y + 1);
    MeanOfSingle(PixelAt(img.data, img.width, x, y));
    ModeOfSingle(PixelAt(img.data, img.width, x, y));
  }

  /** The palette element cell (x, y) becomes. */
  function MatchedCell(img: Image, pixelWidth: nat, pixelHeight: nat, colorMode: string,
                       palette: seq<Swatch>, dist: Distance, x: nat, y: nat): (c: Swatch)
    requires Fits(img, pixelWidth, pixelHeight) && x < pixelWidth && y < pixelHeight && |palette| >= 1
    ensures c in palette
  {
    var ds := Distances(dist, CellColor(img, pixelWidth, pixelHeight, colorMode, x, y), palette);
    NearestIsFirstNearest(ds);
    palette[Nearest(ds)]
  }

  /** The dispatch on `colorMode` inside the grid loop. */
  method SampleCell(img: Image, pixelWidth: nat, pixelHeight: nat, blockW: nat, blockH: nat,
                    colorMode: string, x: nat, y: nat) returns (rgb: Rgb)
    requires Fits(img, pixelWidth, pixelHeight) && x < pixelWidth && y < pixelHeight
    requires blockW == img.width / pixelWidth && blockH == img.height / pixelHeight
    ensures rgb == CellColor(img, pixelWidth, pixelHeight, colorMode, x, y)
  {
    BlockInImage(img, pixelWidth, pixelHeight, x, y);
    if colorMode == "dominant" {
      rgb := DominantColor(img.data, x, y, blockW, blockH, img.width);
    } else if colorMode == "average" {
      rgb := AverageColor(img.data, x, y, blockW, blockH, img.width);
    } else if colorMode == "center" {
      CenterInBlock(img.data, x, y, blockW, blockH, img.width);
      rgb := CenterColor(img.data, x, y, blockW, blockH, img.width);
    } else {
      rgb := DominantColor(img.data, x, y, blockW, blockH, img.width);
    }
  }

  /** The matched palette elements of row `y`, left to right. */
  function MatchedRow(img: Image, pixelWidth: nat, pixelHeight: nat, colorMode: string,
                      palette: seq<Swatch>, dist: Distance, y: nat): seq<Swatch>
    requires Fits(img, pixelWidth, pixelHeight) && y < pixelHeight && |palette| >= 1
  {
    seq(pixelWidth, x requires 0 <= x < pixelWidth => MatchedCell(img, pixelWidth, pixelHeight, colorMode, palette, dist, x, y))
  }

  /** The matched grid, row by row. */
  function MatchedGrid(img: Image, pixelWidth: nat, pixelHeight: nat, colorMode: string,
                       palette: seq<Swatch>, dist: Distance): seq<seq<Swatch>>
    requires Fits(img, pixelWidth, pixelHeight) && |palette| >= 1
  {
    seq(pixelHeight, y requires 0 <= y < pixelHeight => MatchedRow(img, pixelWidth, pixelHeight, colorMode, palette, dist, y))
  }

  /** The matched grid has `pixelHeight` rows of `pixelWidth` palette elements, cell (x, y) matched from its own block. */
  lemma MatchedGridShape(img: Image, pixelWidth: nat, pixelHeight: nat, colorMode: string,
                         palette: seq<Swatch>, dist: Distance)
    requires Fits(img, pixelWidth, pixelHeight) && |palette| >= 1
    ensures var g := MatchedGrid(img, pixelWidth, pixelHeight, colorMode, palette, dist);
      && IsGrid(g, pixelWidth, pixelHeight)
      && (forall y, x :: 0 <= y < pixelHeight && 0 <= x < pixelWidth ==>
            g[y][x] == MatchedCell(img, pixelWidth, pixelHeight, colorMode, palette, dist, x, y) && g[y][x] in palette)
      && (forall y, x :: 0 <= y < pixelHeight && 0 <= x < pixelWidth ==>
            var ds := Distances(dist, CellColor(img, pixelWidth, pixelHeight, colorMode, x, y), palette);
            Nearest(ds) < |palette| && IsFirstNearest(ds, Nearest(ds)) && g[y][x] == palette[Nearest(ds)])
  {
    forall y, x | 0 <= y < pixelHeight && 0 <= x < pixelWidth
      ensures var ds := Distances(dist, CellColor(img, pixelWidth, pixelHeight, colorMode, x, y), palette);
              Nearest(ds) < |palette| && IsFirstNearest(ds, Nearest(ds))
    {
      NearestIsFirstNearest(Distances(dist, CellColor(img, pixelWidth, pixelHeight, colorMode, x, y), palette));
    }
  }

  /** One pass of the inner grid loop: the matched palette elements of row `y`, left to right. */
  method MatchRow(img: Image, pixelWidth: nat, pixelHeight: nat, blockW: nat, blockH: nat,
                  colorMode: string, palette: seq<Swatch>, dist: Distance, y: nat) returns (row: seq<Swatch>)
    requires Fits(img, pixelWidth, pixelHeight) && y < pixelHeight && |palette| >= 1
    requires blockW == img.width / pixelWidth && blockH == img.height / pixelHeight
    ensures row == MatchedRow(img, pixelWidth, pixelHeight, colorMode, palette, dist, y)
  {
    row := [];
    var x := 0;
    while x < pixelWidth
      invariant 0 <= x <= pixelWidth && |row| == x
      invariant forall xx :: 0 <= xx < x ==>
        row[xx] == MatchedCell(img, pixelWidth, pixelHeight, colorMode, palette, dist, xx, y)
    {
      var rgb := SampleCell(img, pixelWidth, pixelHeight, blockW, blockH, colorMode, x, y);
      var minIdx := MatchIndex(dist, rgb, palette);
      row := row + [palette[minIdx]];
      x := x + 1;
    }
  }

  /** `generatePixelArt` of the first version: sample every block, match, draw. */
  method GeneratePixelArt(resized: Image, pixelWidth: nat, pixelHeight: nat, cellSize: nat,
                          colorTable: seq<Entry>, showGrid: bool, font: string, colorMode: string,
                          dist: Distance)
    returns (plan: Plan, result: seq<seq<Swatch>>)
    requires Fits(resized, pixelWidth, pixelHeight)
    requires |colorTable| >= 1
    ensures result == MatchedGrid(resized, pixelWidth, pixelHeight, colorMode, PreparePalette(colorTable), dist)
    ensures IsGrid(result, pixelWidth, pixelHeight)
    ensures plan == PlanOf(result, pixelWidth, pixelHeight, cellSize, showGrid, font)
  {
    var palette := PreparePalette(colorTable);
    var blockW := resized.width / pixelWidth;
    var blockH := resized.height / pixelHeight;
    ghost var grid := MatchedGrid(resized, pixelWidth, pixelHeight, colorMode, palette, dist);
    result := [];
    var y := 0;
    while y < pixelHeight
      invariant 0 <= y <= pixelHeight && result == grid[..y]
    {
      var row := MatchRow(resized, pixelWidth, pixelHeight, blockW, blockH, colorMode, palette, dist, y);
      assert grid[..y + 1] == grid[..y] + [row];
      result := result + [row];
      y := y + 1;
    }
    assert grid[..pixelHeight] == grid;
    MatchedGridShape(resized, pixelWidth, pixelHeight, colorMode, palette, dist);
    plan := Draw(result, pixelWidth, pixelHeight, cellSize, showGrid, font);
  }
}
