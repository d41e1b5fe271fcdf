/**
 * The current generator (utils/pixelArt.js): the image is cut into
 * `pixelWidth x pixelHeight` blocks of `floor(imgW / pixelWidth)` by
 * `floor(imgH / pixelHeight)` pixels, each block is reduced to one colour by
 * the chosen sampler (optionally ignoring a 15 % margin), the colour is
 * snapped to the nearest palette entry, and the grid is drawn. In the
 * `'original'` mode the image is first resized by the browser to one pixel
 * per cell and that pixel is taken instead.
 *
 * `blockW * 0.15` and `blockW * 4 / 5` are floating-point in the original;
 * they are written here as the integer quotients `(blockW * 15) / 100` and
 * `(blockW * 4) / 5`, which agree with the floored float results for the
 * block sizes an image can have.
 */
module PixelArt {
  import opened Pixels
  import opened Statistics
  import opened Palette
  import opened Render

  function Max(a: int, b: int): int
  {
    if a >= b then a else b
  }

  /** `Math.max(1, Math.floor(block * 0.15))` */
  function Margin(block: int): (m: int)
    ensures m >= 1
  {
    Max(1, (block * 15) / 100)
  }

  /** The window a block sampler visits: the block, or the block less its margin on every side. */
  function SampleWindow(x0: int, y0: int, blockW: int, blockH: int, excludeEdge: bool): Window
  {
    if excludeEdge then
      var mX := Margin(blockW);
      var mY := Margin(blockH);
      Window(x0 + mX, y0 + mY, x0 + blockW - mX, y0 + blockH - mY)
    else Window(x0, y0, x0 + blockW, y0 + blockH)
  }

  /** The sampled window never leaves the block. */
  lemma WindowInsideBlock(x0: int, y0: int, blockW: int, blockH: int, excludeEdge: bool)
    ensures var w := SampleWindow(x0, y0, blockW, blockH, excludeEdge);
            x0 <= w.sx && w.ex <= x0 + blockW && y0 <= w.sy && w.ey <= y0 + blockH
  {
  }

  /** A margin always leaves at least one pixel of a block of three or more. */
  lemma MarginFits(block: int)
    requires block >= 3
    ensures block - 2 * Margin(block) >= 1
  {
    if (block * 15) / 100 > 1 {
      assert (block * 15) / 100 * 100 <= block * 15;
    }
  }

  /** With edge exclusion the window is empty exactly when the block is at most two pixels wide or high. */
  lemma EdgeWindowEmptiness(x0: int, y0: int, blockW: nat, blockH: nat)
    ensures IsEmpty(SampleWindow(x0, y0, blockW, blockH, true)) <==> blockW <= 2 || blockH <= 2
  {
    if blockW >= 3 {
      MarginFits(blockW);
    } else {
      assert Margin(blockW) == 1;
    }
    if blockH >= 3 {
      MarginFits(blockH);
    } else {
      assert Margin(blockH) == 1;
    }
  }

  /** Without it the window is the block, empty only for a zero-sized block. */
  lemma PlainWindowEmptiness(x0: int, y0: int, blockW: nat, blockH: nat)
    ensures SampleWindow(x0, y0, blockW, blockH, false) == Window(x0, y0, x0 + blockW, y0 + blockH)
    ensures IsEmpty(SampleWindow(x0, y0, blockW, blockH, false)) <==> blockW == 0 || blockH == 0
  {
  }

  /** `cx` of `getCenterColor`: the middle of the block, or of the block less its margins. */
  function CenterOffset(block: int, excludeEdge: bool): int
  {
    if excludeEdge then
      var m := Margin(block);
      (block - 2 * m) / 2 + m
    else block / 2
  }

  /** `px` of `getDiagonal45Color`: four fifths across, of the block or of the block less its margins. */
  function DiagonalOffset(block: int, excludeEdge: bool): int
  {
    if excludeEdge then
      var m := Margin(block);
      ((block - 2 * m) * 4) / 5 + m
    else (block * 4) / 5
  }

  /** The margin of a block of one or more pixels is at most half the block, rounded up. */
  lemma MarginHalf(block: int)
    requires block >= 1
    ensures 2 * Margin(block) <= block + 1
  {
    if (block * 15) / 100 > 1 {
      assert (block * 15) / 100 * 100 <= block * 15;
    }
  }

  /**
   * Both offsets lie inside a block of one or more pixels, with or without
   * edge exclusion (for a one-pixel block the excluded form floors -1/2 and
   * -4/5 to -1 and adds the margin 1 back).
   */
  lemma OffsetsInBlock(block: int, excludeEdge: bool)
    requires block >= 1
    ensures 0 <= CenterOffset(block, excludeEdge) < block
    ensures 0 <= DiagonalOffset(block, excludeEdge) < block
  {
    MarginHalf(block);
  }

  /** With edge exclusion and a block of three or more, both offsets fall inside the shrunk window. */
  lemma OffsetsInWindow(block: int)
    requires block >= 3
    ensures Margin(block) <= CenterOffset(block, true) < block - Margin(block)
    ensures Margin(block) <= DiagonalOffset(block, true) < block - Margin(block)
  {
    MarginFits(block);
  }

  /** Bytes (y * imgW + x) * 4 .. + 2 of the block's pixel at offset (dx, dy) are in the buffer. */
  predicate OffsetReadable(data: seq<Byte>, imgW: int, x0: int, y0: int, dx: int, dy: int)
  {
    ByteInBounds(data, imgW, x0 + dx, y0 + dy)
  }

  /** `getCenterColor` */
  function CenterColor(data: seq<Byte>, x0: int, y0: int, blockW: int, blockH: int, imgW: int,
                       excludeEdge: bool): Rgb
    requires OffsetReadable(data, imgW, x0, y0, CenterOffset(blockW, excludeEdge), CenterOffset(blockH, excludeEdge))
  {
    PixelAt(data, imgW, x0 + CenterOffset(blockW, excludeEdge), y0 + CenterOffset(blockH, excludeEdge))
  }

  /** `getDiagonal45Color` */
  function DiagonalColor(data: seq<Byte>, x0: int, y0: int, blockW: int, blockH: int, imgW: int,
                         excludeEdge: bool): Rgb
    requires OffsetReadable(data, imgW, x0, y0, DiagonalOffset(blockW, excludeEdge), DiagonalOffset(blockH, excludeEdge))
  {
    PixelAt(data, imgW, x0 + DiagonalOffset(blockW, excludeEdge), y0 + DiagonalOffset(blockH, excludeEdge))
  }

  /** `getDominantColor`: the nested scan with the `colorCount` dictionary. */
  method DominantColor(data: seq<Byte>, x0: int, y0: int, blockW: int, blockH: int, imgW: int,
                       excludeEdge: bool) returns (dominant: Rgb)
    requires Readable(data, imgW, SampleWindow(x0, y0, blockW, blockH, excludeEdge))
    ensures dominant == Mode(Scan(data, imgW, SampleWindow(x0, y0, blockW, blockH, excludeEdge)))
  {
    var w := SampleWindow(x0, y0, blockW, blockH, excludeEdge);
    var colorCount: map<Rgb, nat> := map[];
    var maxCount: nat := 0;
    dominant := Black;
    VisitedStart(data, imgW, w);
    var y := w.sy;
    while y < w.ey
      invariant ScanPosition(w, y, w.sx)
      invariant Tally(colorCount, maxCount, dominant) == TallyOf(Visited(data, imgW, w, y, w.sx))
    {
      var x := w.sx;
      while x < w.ex
        invariant ScanPosition(w, y, x)
        invariant Tally(colorCount, maxCount, dominant) == TallyOf(Visited(data, imgW, w, y, x))
      {
        TallyVisit(data, imgW, w, y, x);
        var key := PixelAt(data, imgW, x, y);
        ghost var before := Tally(colorCount, maxCount, dominant);
        var n := CountOf(colorCount, key) + 1;
        colorCount := colorCount[key := n];
        if n > maxCount {
          maxCount := n;
          dominant := key;
        }
        TickUpdate(before, key, colorCount, maxCount, dominant);
        x := x + 1;
      }
      VisitedNextRow(data, imgW, w, y, x);
      y := y + 1;
    }
    VisitedAll(data, imgW, w, y);
  }

  /** `getAverageColor`: the nested scan summing the channels, then the rounded quotients. */
  method AverageColor(data: seq<Byte>, x0: int, y0: int, blockW: int, blockH: int, imgW: int,
                      excludeEdge: bool) returns (color: Rgb)
    requires Readable(data, imgW, SampleWindow(x0, y0, blockW, blockH, excludeEdge))
    ensures color == Mean(Scan(data, imgW, SampleWindow(x0, y0, blockW, blockH, excludeEdge)))
  {
    var w := SampleWindow(x0, y0, blockW, blockH, excludeEdge);
    var r: nat, g: nat, b: nat, count: nat := 0, 0, 0, 0;
    VisitedStart(data, imgW, w);
    var y := w.sy;
    while y < w.ey
      invariant ScanPosition(w, y, w.sx)
      invariant Sums(Visited(data, imgW, w, y, w.sx), r, g, b, count)
    {
      var x := w.sx;
      while x < w.ex
        invariant ScanPosition(w, y, x)
        invariant Sums(Visited(data, imgW, w, y, x), r, g, b, count)
      {
        SumsVisit(data, imgW, w, y, x, r, g, b, count);
        var p := PixelAt(data, imgW, x, y);
        r := r + p.r;
        g := g + p.g;
        b := b + p.b;
        count := count + 1;
        x := x + 1;
      }
      VisitedNextRow(data, imgW, w, y, x);
      y := y + 1;
    }
    VisitedAll(data, imgW, w, y);
    if count > 0 {
      MeanOfSums(Scan(data, imgW, w), r, g, b);
      color := Rgb(RoundDiv(r, count), RoundDiv(g, count), RoundDiv(b, count));
    } else {
      color := Black;
    }
  }

  /** The image a mode reads: the resized one in `'original'`, the full one otherwise. */
  predicate Fits(img: Image, pixelWidth: nat, pixelHeight: nat, colorMode: string)
  {
    && WellFormed(img)
    && if colorMode == "original" then img.width == pixelWidth && img.height == pixelHeight
       else 1 <= pixelWidth <= img.width && 1 <= pixelHeight <= img.height
  }

  /** `blockW`/`blockH`: 1 in `'original'`, `floor(imgW / pixelWidth)` otherwise. */
  function BlockSize(imgSide: nat, cells: nat, colorMode: string): nat
    requires colorMode != "original" ==> cells >= 1
  {
    if colorMode == "original" then 1 else imgSide / cells
  }

  /** The colour the generator samples for cell (x, y). */
  function CellColor(img: Image, pixelWidth: nat, pixelHeight: nat, colorMode: string, excludeEdge: bool,
                     x: nat, y: nat): Rgb
    requires Fits(img, pixelWidth, pixelHeight, colorMode)
    requires x < pixelWidth && y < pixelHeight
  {
    if colorMode == "original" then
      PixelInImage(img, x, y);
      PixelAt(img.data, pixelWidth, x, y)
    else
      var blockW, blockH := img.width / pixelWidth, img.height / pixelHeight;
      var x0, y0 := x * blockW, y * blockH;
      BlockFits(img.width, pixelWidth, x);
      BlockFits(img.height, pixelHeight, y);
      BlockReadable(img, x0, y0, blockW, blockH, excludeEdge);
      if colorMode == "diagonal45" then DiagonalColor(img.data, x0, y0, blockW, blockH, img.width, excludeEdge)
      else if colorMode == "average" then Mean(Scan(img.data, img.width, SampleWindow(x0, y0, blockW, blockH, excludeEdge)))
      else if colorMode == "center" then CenterColor(img.data, x0, y0, blockW, blockH, img.width, excludeEdge)
      else Mode(Scan(img.data, img.width, SampleWindow(x0, y0, blockW, blockH, excludeEdge)))
  }

  /** Everything a sampler reads in a block that lies inside the image can be read. */
  lemma BlockReadable(img: Image, x0: int, y0: int, blockW: int, blockH: int, excludeEdge: bool)
    requires WellFormed(img)
    requires 0 <= x0 && x0 + blockW <= img.width && 0 <= y0 && y0 + blockH <= img.height
    requires blockW >= 1 && blockH >= 1
    ensures Readable(img.data, img.width, SampleWindow(x0, y0, blockW, blockH, excludeEdge))
    ensures OffsetReadable(img.data, img.width, x0, y0, CenterOffset(blockW, excludeEdge), CenterOffset(blockH, excludeEdge))
    ensures OffsetReadable(img.data, img.width, x0, y0, DiagonalOffset(blockW, excludeEdge), DiagonalOffset(blockH, excludeEdge))
  {
    RectReadable(img, SampleWindow(x0, y0, blockW, blockH, excludeEdge));
    OffsetsInBlock(blockW, excludeEdge);
    OffsetsInBlock(blockH, excludeEdge);
    PixelInImage(img, x0 + CenterOffset(blockW, excludeEdge), y0 + CenterOffset(blockH, excludeEdge));
    PixelInImage(img, x0 + DiagonalOffset(blockW, excludeEdge), y0 + DiagonalOffset(blockH, excludeEdge));
  }

  /** A mode the generator does not know samples exactly as `'dominant'`. */
  lemma UnknownModeSamplesAsDominant(img: Image, pixelWidth: nat, pixelHeight: nat, colorMode: string,
                                     excludeEdge: bool, x: nat, y: nat)
    requires colorMode !in ["diagonal45", "dominant", "average", "center", "original"]
    requires Fits(img, pixelWidth, pixelHeight, colorMode)
    requires x < pixelWidth && y < pixelHeight
    ensures Fits(img, pixelWidth, pixelHeight, "dominant")
    ensures CellColor(img, pixelWidth, pixelHeight, colorMode, excludeEdge, x, y)
         == CellColor(img, pixelWidth, pixelHeight, "dominant", excludeEdge, x, y)
  {
    assert colorMode != "original";
  }

  /** In `'original'` mode cell (x, y) is pixel (x, y) of the image resized to the grid. */
  lemma OriginalReadsResizedPixel(img: Image, pixelWidth: nat, pixelHeight: nat, excludeEdge: bool, x: nat, y: nat)
    requires Fits(img, pixelWidth, pixelHeight, "original")
    requires x < pixelWidth && y < pixelHeight
    ensures BlockSize(img.width, pixelWidth, "original") == 1 && BlockSize(img.height, pixelHeight, "original") == 1
    ensures ByteInBounds(img.data, pixelWidth, x, y)
    ensures var i := (y * pixelWidth + x) * 4;
            CellColor(img, pixelWidth, pixelHeight, "original", excludeEdge, x, y) == Rgb(img.data[i], img.data[i + 1], img.data[i + 2])
  {
    PixelInImage(img, x, y);
  }

  /**
   * In the block modes every pixel a sampler reads is inside the image: block
   * x spans x * blockW .. x * blockW + blockW, which ends at or before imgW.
   */
  lemma BlockModesReadInside(img: Image, pixelWidth: nat, pixelHeight: nat, colorMode: string,
                             excludeEdge: bool, x: nat, y: nat)
    requires colorMode != "original" && Fits(img, pixelWidth, pixelHeight, colorMode)
    requires x < pixelWidth && y < pixelHeight
    ensures var blockW, blockH := img.width / pixelWidth, img.height / pixelHeight;
      && blockW >= 1 && blockH >= 1
      && x * blockW + blockW <= img.width && y * blockH + blockH <= img.height
      && Readable(img.data, img.width, SampleWindow(x * blockW, y * blockH, blockW, blockH, excludeEdge))
      && OffsetReadable(img.data, img.width, x * blockW, y * blockH, CenterOffset(blockW, excludeEdge), CenterOffset(blockH, excludeEdge))
      && OffsetReadable(img.data, img.width, x * blockW, y * blockH, DiagonalOffset(blockW, excludeEdge), DiagonalOffset(blockH, excludeEdge))
  {
    var blockW, blockH := img.width / pixelWidth, img.height / pixelHeight;
    BlockFits(img.width, pixelWidth, x);
    BlockFits(img.height, pixelHeight, y);
    BlockReadable(img, x * blockW, y * blockH, blockW, blockH, excludeEdge);
  }

  /** The palette element cell (x, y) becomes. */
  function MatchedCell(img: Image, pixelWidth: nat, pixelHeight: nat, colorMode: string, excludeEdge: bool,
                       palette: seq<Swatch>, dist: Distance, x: nat, y: nat): (c: Swatch)
    requires Fits(img, pixelWidth, pixelHeight, colorMode)
    requires x < pixelWidth && y < pixelHeight && |palette| >= 1
    ensures c in palette
  {
    var ds := Distances(dist, CellColor(img, pixelWidth, pixelHeight, colorMode, excludeEdge, x, y), palette);
    NearestIsFirstNearest(ds);
    palette[Nearest(ds)]
  }

  /** The matched palette elements of row `y`, left to right. */
  function MatchedRow(img: Image, pixelWidth: nat, pixelHeight: nat, colorMode: string, excludeEdge: bool,
                      palette: seq<Swatch>, dist: Distance, y: nat): seq<Swatch>
    requires Fits(img, pixelWidth, pixelHeight, colorMode) && y < pixelHeight && |palette| >= 1
  {
    seq(pixelWidth, x requires 0 <= x < pixelWidth =>
      MatchedCell(img, pixelWidth, pixelHeight, colorMode, excludeEdge, palette, dist, x, y))
  }

  /** The matched grid, row by row. */
  function MatchedGrid(img: Image, pixelWidth: nat, pixelHeight: nat, colorMode: string, excludeEdge: bool,
                       palette: seq<Swatch>, dist: Distance): seq<seq<Swatch>>
    requires Fits(img, pixelWidth, pixelHeight, colorMode) && |palette| >= 1
  {
    seq(pixelHeight, y requires 0 <= y < pixelHeight =>
      MatchedRow(img, pixelWidth, pixelHeight, colorMode, excludeEdge, palette, dist, y))
  }

  /** The matched grid has `pixelHeight` rows of `pixelWidth` palette elements, cell (x, y) matched from its own block. */
  lemma MatchedGridShape(img: Image, pixelWidth: nat, pixelHeight: nat, colorMode: string, excludeEdge: bool,
                         palette: seq<Swatch>, dist: Distance)
    requires Fits(img, pixelWidth, pixelHeight, colorMode) && |palette| >= 1
    ensures var g := MatchedGrid(img, pixelWidth, pixelHeight, colorMode, excludeEdge, palette, dist);
      && IsGrid(g, pixelWidth, pixelHeight)
      && (forall y, x :: 0 <= y < pixelHeight && 0 <= x < pixelWidth ==>
            g[y][x] == MatchedCell(img, pixelWidth, pixelHeight, colorMode, excludeEdge, palette, dist, x, y)
            && g[y][x] in palette)
      && (forall y, x :: 0 <= y < pixelHeight && 0 <= x < pixelWidth ==>
            var ds := Distances(dist, CellColor(img, pixelWidth, pixelHeight, colorMode, excludeEdge, x, y), palette);
            Nearest(ds) < |palette| && IsFirstNearest(ds, Nearest(ds)) && g[y][x] == palette[Nearest(ds)])
  {
    forall y, x | 0 <= y < pixelHeight && 0 <= x < pixelWidth
      ensures var ds := Distances(dist, CellColor(img, pixelWidth, pixelHeight, colorMode, excludeEdge, x, y), palette);
              Nearest(ds) < |palette| && IsFirstNearest(ds, Nearest(ds))
    {
      NearestIsFirstNearest(Distances(dist, CellColor(img, pixelWidth, pixelHeight, colorMode, excludeEdge, x, y), palette));
    }
  }

  /** `generatePixelArt`: sample, match and draw. */
  method GeneratePixelArt(image: Image, resized: Image, pixelWidth: nat, pixelHeight: nat, cellSize: nat,
                          colorTable: seq<Entry>, showGrid: bool, font: string, colorMode: string,
                          excludeEdge: bool, dist: Distance)
    returns (plan: Plan, result: seq<seq<Swatch>>)
    requires Fits(if colorMode == "original" then resized else image, pixelWidth, pixelHeight, colorMode)
    requires |colorTable| >= 1
    ensures result == MatchedGrid(if colorMode == "original" then resized else image, pixelWidth, pixelHeight,
                                  colorMode, excludeEdge, PreparePalette(colorTable), dist)
    ensures IsGrid(result, pixelWidth, pixelHeight)
    ensures plan == PlanOf(result, pixelWidth, pixelHeight, cellSize, showGrid, font)
  {
    ghost var img := if colorMode == "original" then resized else image;
    var data, imgW, imgH, blockW, blockH;
    if colorMode == "original" {
      data, imgW, imgH, blockW, blockH := resized.data, pixelWidth, pixelHeight, 1, 1;
    } else {
      data, imgW, imgH := image.data, image.width, image.height;
      blockW, blockH := imgW / pixelWidth, imgH / pixelHeight;
    }
    var palette := PreparePalette(colorTable);
    ghost var grid := MatchedGrid(img, pixelWidth, pixelHeight, colorMode, excludeEdge, palette, dist);
    result := [];
    var y := 0;
    while y < pixelHeight
      invariant 0 <= y <= pixelHeight && result == grid[..y]
    {
      var row := MatchRow(data, imgW, blockW, blockH, y, colorMode, excludeEdge, palette, dist,
                          pixelWidth, img, pixelHeight);
      assert grid[..y + 1] == grid[..y] + [row];
      result := result + [row];
      y := y + 1;
    }
    assert grid[..pixelHeight] == grid;
    MatchedGridShape(img, pixelWidth, pixelHeight, colorMode, excludeEdge, palette, dist);
    plan := Draw(result, pixelWidth, pixelHeight, cellSize, showGrid, font);
  }

  /** One pass of the inner grid loop: the matched palette elements of row `y`, left to right. */
  method MatchRow(data: seq<Byte>, imgW: int, blockW: int, blockH: int, y: nat,
                  colorMode: string, excludeEdge: bool, palette: seq<Swatch>, dist: Distance,
                  pixelWidth: nat, ghost img: Image, ghost pixelHeight: nat) returns (row: seq<Swatch>)
    requires Fits(img, pixelWidth, pixelHeight, colorMode) && data == img.data
    requires y < pixelHeight && |palette| >= 1
    requires colorMode == "original" ==> imgW == pixelWidth && blockW == 1 && blockH == 1
    requires colorMode != "original" ==>
      imgW == img.width && blockW == img.width / pixelWidth && blockH == img.height / pixelHeight
    ensures row == MatchedRow(img, pixelWidth, pixelHeight, colorMode, excludeEdge, palette, dist, y)
  {
    row := [];
    var x := 0;
    while x < pixelWidth
      invariant 0 <= x <= pixelWidth && |row| == x
      invariant forall xx :: 0 <= xx < x ==>
        row[xx] == MatchedCell(img, pixelWidth, pixelHeight, colorMode, excludeEdge, palette, dist, xx, y)
    {
      var rgb := SampleCell(data, imgW, blockW, blockH, x, y, colorMode, excludeEdge, img, pixelWidth, pixelHeight);
      var minIdx := MatchIndex(dist, rgb, palette);
      row := row + [palette[minIdx]];
      x := x + 1;
    }
  }

  /** The dispatch on `colorMode` inside the grid loop. */
  method SampleCell(data: seq<Byte>, imgW: int, blockW: int, blockH: int, x: nat, y: nat,
                    colorMode: string, excludeEdge: bool,
                    ghost img: Image, ghost pixelWidth: nat, ghost pixelHeight: nat) returns (rgb: Rgb)
    requires Fits(img, pixelWidth, pixelHeight, colorMode) && data == img.data
    requires x < pixelWidth && y < pixelHeight
    requires colorMode == "original" ==> imgW == pixelWidth && blockW == 1 && blockH == 1
    requires colorMode != "original" ==>
      imgW == img.width && blockW == img.width / pixelWidth && blockH == img.height / pixelHeight
    ensures rgb == CellColor(img, pixelWidth, pixelHeight, colorMode, excludeEdge, x, y)
  {
    if colorMode != "original" {
      BlockModesReadInside(img, pixelWidth, pixelHeight, colorMode, excludeEdge, x, y);
    }
    if colorMode == "diagonal45" {
      var x0, y0 := x * blockW, y * blockH;
      rgb := DiagonalColor(data, x0, y0, blockW, blockH, imgW, excludeEdge);
    } else if colorMode == "dominant" {
      var x0, y0 := x * blockW, y * blockH;
      rgb := DominantColor(data, x0, y0, blockW, blockH, imgW, excludeEdge);
    } else if colorMode == "average" {
      var x0, y0 := x * blockW, y * blockH;
      rgb := AverageColor(data, x0, y0, blockW, blockH, imgW, excludeEdge);
    } else if colorMode == "center" {
      var x0, y0 := x * blockW, y * blockH;
      rgb := CenterColor(data, x0, y0, blockW, blockH, imgW, excludeEdge);
    } else if colorMode == "original" {
      PixelInImage(img, x, y);
      var i := (y * imgW + x) * 4;
      rgb := Rgb(data[i], data[i + 1], data[i + 2]);
    } else {
      var x0, y0 := x * blockW, y * blockH;
      rgb := DominantColor(data, x0, y0, blockW, blockH, imgW, excludeEdge);
    }
  }
}
