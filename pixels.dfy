/**
 * The RGBA pixel buffer the samplers read (an ImageData `data` array) and the
 * rectangular windows their nested loops visit.
 */
module Pixels {

  /** One element of the Uint8ClampedArray behind an ImageData. */
  type Byte = x: int | 0 <= x < 256

  datatype Rgb = Rgb(r: Byte, g: Byte, b: Byte)

  /** `{ r: 0, g: 0, b: 0 }`, what the samplers return for an empty window. */
  const Black: Rgb := Rgb(0, 0, 0)

  datatype Chan = R | G | B

  function Channel(c: Rgb, k: Chan): Byte
  {
    match k
    case R => c.r
    case G => c.g
    case B => c.b
  }

  /** A decoded image: width x height pixels of four bytes (R, G, B, A), row-major from the top left. */
  datatype Image = Image(width: nat, height: nat, data: seq<Byte>)

  predicate WellFormed(img: Image)
  {
    |img.data| == img.width * img.height * 4
  }

  /** The three colour bytes of pixel (x, y) of a buffer `imgW` pixels wide lie inside `data`. */
  predicate ByteInBounds(data: seq<Byte>, imgW: int, x: int, y: int)
  {
    0 <= (y * imgW + x) * 4 && (y * imgW + x) * 4 + 2 < |data|
  }

  /** `{ r: data[i], g: data[i + 1], b: data[i + 2] }` with `i = (y * imgW + x) * 4`. */
  function PixelAt(data: seq<Byte>, imgW: int, x: int, y: int): Rgb
    requires ByteInBounds(data, imgW, x, y)
  {
    var i := (y * imgW + x) * 4;
    Rgb(data[i], data[i + 1], data[i + 2])
  }

  /** The half-open rectangle [sx, ex) x [sy, ey) of pixels a sampler visits. */
  datatype Window = Window(sx: int, sy: int, ex: int, ey: int)

  predicate IsEmpty(w: Window)
  {
    w.ex <= w.sx || w.ey <= w.sy
  }

  predicate Readable(data: seq<Byte>, imgW: int, w: Window)
  {
    forall x, y :: w.sx <= x < w.ex && w.sy <= y < w.ey ==> ByteInBounds(data, imgW, x, y)
  }

  /** Pixels (sx, y) .. (ex - 1, y), left to right. */
  function RowPixels(data: seq<Byte>, imgW: int, y: int, sx: int, ex: int): seq<Rgb>
    requires forall x :: sx <= x < ex ==> ByteInBounds(data, imgW, x, y)
    decreases ex - sx
  {
    if ex <= sx then [] else RowPixels(data, imgW, y, sx, ex - 1) + [PixelAt(data, imgW, ex - 1, y)]
  }

  /** The pixels of a window in the order the nested `for` loops visit them: row by row, left to right. */
  function Scan(data: seq<Byte>, imgW: int, w: Window): seq<Rgb>
    requires Readable(data, imgW, w)
    decreases w.ey - w.sy
  {
    if w.ey <= w.sy then []
    else Scan(data, imgW, w.(ey := w.ey - 1)) + RowPixels(data, imgW, w.ey - 1, w.sx, w.ex)
  }

  lemma {:induction false} RowLength(data: seq<Byte>, imgW: int, y: int, sx: int, ex: int)
    requires forall x :: sx <= x < ex ==> ByteInBounds(data, imgW, x, y)
    ensures |RowPixels(data, imgW, y, sx, ex)| == if ex <= sx then 0 else ex - sx
    decreases ex - sx
  {
    if sx < ex {
      RowLength(data, imgW, y, sx, ex - 1);
    }
  }

  /** A window yields one pixel per point of the rectangle, and none when the rectangle is empty. */
  lemma {:induction false} ScanLength(data: seq<Byte>, imgW: int, w: Window)
    requires Readable(data, imgW, w)
    ensures |Scan(data, imgW, w)| == if IsEmpty(w) then 0 else (w.ex - w.sx) * (w.ey - w.sy)
    decreases w.ey - w.sy
  {
    if w.sy < w.ey {
      var w' := w.(ey := w.ey - 1);
      ScanLength(data, imgW, w');
      RowLength(data, imgW, w.ey - 1, w.sx, w.ex);
      if w.sx < w.ex {
        assert (w.ex - w.sx) * (w.ey - w.sy) == (w.ex - w.sx) * (w.ey - 1 - w.sy) + (w.ex - w.sx);
      }
    }
  }

  lemma {:induction false} RowContains(data: seq<Byte>, imgW: int, y: int, sx: int, ex: int, x: int)
    requires forall x :: sx <= x < ex ==> ByteInBounds(data, imgW, x, y)
    requires sx <= x < ex
    ensures PixelAt(data, imgW, x, y) in RowPixels(data, imgW, y, sx, ex)
    decreases ex - sx
  {
    if x < ex - 1 {
      RowContains(data, imgW, y, sx, ex - 1, x);
    }
  }

  /** Every pixel of the rectangle is visited. */
  lemma {:induction false} ScanContains(data: seq<Byte>, imgW: int, w: Window, x: int, y: int)
    requires Readable(data, imgW, w)
    requires w.sx <= x < w.ex && w.sy <= y < w.ey
    ensures PixelAt(data, imgW, x, y) in Scan(data, imgW, w)
    decreases w.ey - w.sy
  {
    var w' := w.(ey := w.ey - 1);
    var row := RowPixels(data, imgW, w.ey - 1, w.sx, w.ex);
    assert Scan(data, imgW, w) == Scan(data, imgW, w') + row;
    if y == w.ey - 1 {
      RowContains(data, imgW, y, w.sx, w.ex, x);
      assert PixelAt(data, imgW, x, y) in row;
    } else {
      ScanContains(data, imgW, w', x, y);
      assert PixelAt(data, imgW, x, y) in Scan(data, imgW, w');
    }
  }

  /** A one-pixel window visits exactly that pixel. */
  lemma SinglePixelScan(data: seq<Byte>, imgW: int, x: int, y: int)
    requires ByteInBounds(data, imgW, x, y)
    ensures Readable(data, imgW, Window(x, y, x + 1, y + 1))
    ensures Scan(data, imgW, Window(x, y, x + 1, y + 1)) == [PixelAt(data, imgW, x, y)]
  {
    var w := Window(x, y, x + 1, y + 1);
    assert Scan(data, imgW, w.(ey := y)) == [];
    assert RowPixels(data, imgW, y, x, x) == [];
  }

  lemma MulMonotone(a: int, b: int, c: int)
    requires 0 <= c && a <= b
    ensures a * c <= b * c
  {
  }

  /** Every pixel inside a well-formed image can be read. */
  lemma PixelInImage(img: Image, x: int, y: int)
    requires WellFormed(img)
    requires 0 <= x < img.width && 0 <= y < img.height
    ensures ByteInBounds(img.data, img.width, x, y)
  {
    MulMonotone(y + 1, img.height, img.width);
    assert y * img.width + x < (y + 1) * img.width;
  }

  /** Block x of `floor(imgW / pixelWidth)` pixels ends inside the image. */
  lemma BlockFits(imgSide: nat, cells: nat, x: nat)
    requires 1 <= cells && x < cells
    ensures var block := imgSide / cells;
            block >= 0 && 0 <= x * block && x * block + block <= imgSide
  {
    var block := imgSide / cells;
    MulMonotone(x + 1, cells, block);
    assert cells * block <= imgSide;
  }

  /** Every window inside a well-formed image can be read. */
  lemma RectReadable(img: Image, w: Window)
    requires WellFormed(img)
    requires 0 <= w.sx && w.ex <= img.width && 0 <= w.sy && w.ey <= img.height
    ensures Readable(img.data, img.width, w)
  {
    forall x, y | w.sx <= x < w.ex && w.sy <= y < w.ey
      ensures ByteInBounds(img.data, img.width, x, y)
    {
      PixelInImage(img, x, y);
    }
  }

  /** The loop counters of a scan over `w` that is about to visit pixel (x, y). */
  predicate ScanPosition(w: Window, y: int, x: int)
  {
    && (y == w.sy || w.sy <= y <= w.ey)
    && (x == w.sx || (w.sx <= x <= w.ex && y < w.ey))
  }

  /** The pixels a scan of `w` has visited before pixel (x, y): the rows above, then row y up to x. */
  function Visited(data: seq<Byte>, imgW: int, w: Window, y: int, x: int): seq<Rgb>
    requires Readable(data, imgW, w) && ScanPosition(w, y, x)
  {
    assert Readable(data, imgW, w.(ey := y));
    Scan(data, imgW, w.(ey := y)) + RowPixels(data, imgW, y, w.sx, x)
  }

  lemma VisitedStart(data: seq<Byte>, imgW: int, w: Window)
    requires Readable(data, imgW, w)
    ensures ScanPosition(w, w.sy, w.sx) && Visited(data, imgW, w, w.sy, w.sx) == []
  {
  }

  /** Visiting pixel (x, y) appends it. */
  lemma VisitedStep(data: seq<Byte>, imgW: int, w: Window, y: int, x: int)
    requires Readable(data, imgW, w) && ScanPosition(w, y, x)
    requires y < w.ey && x < w.ex
    ensures ByteInBounds(data, imgW, x, y)
    ensures ScanPosition(w, y, x + 1)
    ensures Visited(data, imgW, w, y, x + 1) == Visited(data, imgW, w, y, x) + [PixelAt(data, imgW, x, y)]
  {
  }

  /** Finishing row y is starting row y + 1. */
  lemma VisitedNextRow(data: seq<Byte>, imgW: int, w: Window, y: int, x: int)
    requires Readable(data, imgW, w) && ScanPosition(w, y, x)
    requires y < w.ey && x >= w.ex
    ensures ScanPosition(w, y + 1, w.sx)
    ensures Visited(data, imgW, w, y + 1, w.sx) == Visited(data, imgW, w, y, x)
  {
    assert w.(ey := y + 1).(ey := y) == w.(ey := y);
    if x == w.sx {
      assert RowPixels(data, imgW, y, w.sx, w.ex) == [];
    }
  }

  /** When the rows are done the scan has visited the whole window. */
  lemma VisitedAll(data: seq<Byte>, imgW: int, w: Window, y: int)
    requires Readable(data, imgW, w) && ScanPosition(w, y, w.sx)
    requires y >= w.ey
    ensures Visited(data, imgW, w, y, w.sx) == Scan(data, imgW, w)
  {
    if w.sy <= w.ey {
      assert w.(ey := y) == w;
    }
  }
}
