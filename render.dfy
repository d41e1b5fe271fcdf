/**
 * The drawing phase shared, line for line, by the three generators: the
 * canvas is sized to the grid, every cell is filled with its palette colour
 * and labelled with its name, row by row, and then, when `showGrid` is set,
 * `pixelWidth + 1` vertical and `pixelHeight + 1` horizontal lines are
 * stroked across the whole canvas. The canvas is modelled by the list of
 * drawing commands it receives, not by the pixels they produce.
 */
module Render {
  import opened Palette

  datatype Command =
    | FillRect(style: string, x: int, y: int, w: int, h: int)
    | FillText(style: string, text: string, cx: real, cy: real)
    | StrokeLine(style: string, x0: int, y0: int, x1: int, y1: int)

  /** The canvas size, its font and the commands sent to its context, in order. */
  datatype Plan = Plan(width: int, height: int, font: string, commands: seq<Command>)

  const LabelStyle: string := "#222"
  const GridStyle: string := "#888"

  /** A grid of `h` rows each holding `w` palette elements. */
  predicate IsGrid(result: seq<seq<Swatch>>, w: nat, h: nat)
  {
    |result| == h && forall y :: 0 <= y < h ==> |result[y]| == w
  }

  /** The square of cell (x, y), filled with the cell's colour. */
  function Fill(c: Swatch, x: int, y: int, cellSize: nat): Command
  {
    FillRect(c.hex, x * cellSize, y * cellSize, cellSize, cellSize)
  }

  /** The cell's name, written at the centre of its square. */
  function Label(c: Swatch, x: int, y: int, cellSize: nat): Command
  {
    FillText(LabelStyle, c.name, (x * cellSize) as real + cellSize as real / 2.0,
                                 (y * cellSize) as real + cellSize as real / 2.0)
  }

  function CellCommands(c: Swatch, x: int, y: int, cellSize: nat): seq<Command>
  {
    [Fill(c, x, y, cellSize), Label(c, x, y, cellSize)]
  }

  /** The commands for cells 0 .. n - 1 of row `y`. */
  function RowCommands(row: seq<Swatch>, y: int, cellSize: nat, n: nat): seq<Command>
    requires n <= |row|
  {
    if n == 0 then [] else RowCommands(row, y, cellSize, n - 1) + CellCommands(row[n - 1], n - 1, y, cellSize)
  }

  /** The commands for rows 0 .. m - 1. */
  function CellPhase(result: seq<seq<Swatch>>, cellSize: nat, m: nat): seq<Command>
    requires m <= |result|
  {
    if m == 0 then []
    else CellPhase(result, cellSize, m - 1) + RowCommands(result[m - 1], m - 1, cellSize, |result[m - 1]|)
  }

  /** Vertical lines 0 .. n - 1, each from the top to the bottom of the canvas. */
  function VerticalLines(height: int, cellSize: nat, n: nat): seq<Command>
  {
    if n == 0 then []
    else VerticalLines(height, cellSize, n - 1) + [StrokeLine(GridStyle, (n - 1) * cellSize, 0, (n - 1) * cellSize, height)]
  }

  /** Horizontal lines 0 .. n - 1, each from the left to the right of the canvas. */
  function HorizontalLines(width: int, cellSize: nat, n: nat): seq<Command>
  {
    if n == 0 then []
    else HorizontalLines(width, cellSize, n - 1) + [StrokeLine(GridStyle, 0, (n - 1) * cellSize, width, (n - 1) * cellSize)]
  }

  function GridLines(pixelWidth: nat, pixelHeight: nat, cellSize: nat): seq<Command>
  {
    VerticalLines(pixelHeight * cellSize, cellSize, pixelWidth + 1)
      + HorizontalLines(pixelWidth * cellSize, cellSize, pixelHeight + 1)
  }

  /** The plan the drawing phase produces. */
  function PlanOf(result: seq<seq<Swatch>>, pixelWidth: nat, pixelHeight: nat, cellSize: nat,
                  showGrid: bool, font: string): Plan
    requires IsGrid(result, pixelWidth, pixelHeight)
  {
    Plan(pixelWidth * cellSize, pixelHeight * cellSize, font,
         CellPhase(result, cellSize, pixelHeight) + (if showGrid then GridLines(pixelWidth, pixelHeight, cellSize) else []))
  }

  /** The drawing loops of `generatePixelArt`. */
  method Draw(result: seq<seq<Swatch>>, pixelWidth: nat, pixelHeight: nat, cellSize: nat,
              showGrid: bool, font: string) returns (plan: Plan)
    requires IsGrid(result, pixelWidth, pixelHeight)
    ensures plan == PlanOf(result, pixelWidth, pixelHeight, cellSize, showGrid, font)
  {
    var width := pixelWidth * cellSize;
    var height := pixelHeight * cellSize;
    var commands := DrawCells(result, pixelWidth, pixelHeight, cellSize);
    if showGrid {
      commands := StrokeGrid(commands, pixelWidth, pixelHeight, cellSize);
    }
    plan := Plan(width, height, font, commands);
  }

  /** The fill-and-label loops over the rows and the cells of each row. */
  method DrawCells(result: seq<seq<Swatch>>, pixelWidth: nat, pixelHeight: nat, cellSize: nat)
    returns (commands: seq<Command>)
    requires IsGrid(result, pixelWidth, pixelHeight)
    ensures commands == CellPhase(result, cellSize, pixelHeight)
  {
    commands := [];
    var y := 0;
    while y < pixelHeight
      invariant 0 <= y <= pixelHeight
      invariant commands == CellPhase(result, cellSize, y)
    {
      var x := 0;
      while x < pixelWidth
        invariant 0 <= x <= pixelWidth
        invariant commands == CellPhase(result, cellSize, y) + RowCommands(result[y], y, cellSize, x)
      {
        var c := result[y][x];
        commands := commands + [FillRect(c.hex, x * cellSize, y * cellSize, cellSize, cellSize)];
        commands := commands + [FillText(LabelStyle, c.name, (x * cellSize) as real + cellSize as real / 2.0,
                                                             (y * cellSize) as real + cellSize as real / 2.0)];
        x := x + 1;
      }
      y := y + 1;
    }
  }

  /** The two line loops run when `showGrid` is set: vertical lines, then horizontal ones. */
  method StrokeGrid(cells: seq<Command>, pixelWidth: nat, pixelHeight: nat, cellSize: nat)
    returns (commands: seq<Command>)
    ensures commands == cells + GridLines(pixelWidth, pixelHeight, cellSize)
  {
    var width := pixelWidth * cellSize;
    var height := pixelHeight * cellSize;
    commands := cells;
    var x := 0;
    while x <= pixelWidth
      invariant 0 <= x <= pixelWidth + 1
      invariant commands == cells + VerticalLines(height, cellSize, x)
    {
      commands := commands + [StrokeLine(GridStyle, x * cellSize, 0, x * cellSize, height)];
      x := x + 1;
    }
    ghost var vertical := commands;
    var y := 0;
    while y <= pixelHeight
      invariant 0 <= y <= pixelHeight + 1
      invariant commands == vertical + HorizontalLines(width, cellSize, y)
    {
      commands := commands + [StrokeLine(GridStyle, 0, y * cellSize, width, y * cellSize)];
      y := y + 1;
    }
  }

  lemma {:induction false} RowCommandsAt(row: seq<Swatch>, y: int, cellSize: nat, n: nat)
    requires n <= |row|
    ensures |RowCommands(row, y, cellSize, n)| == 2 * n
    ensures forall x :: 0 <= x < n ==>
      && RowCommands(row, y, cellSize, n)[2 * x] == Fill(row[x], x, y, cellSize)
      && RowCommands(row, y, cellSize, n)[2 * x + 1] == Label(row[x], x, y, cellSize)
  {
    if n > 0 {
      RowCommandsAt(row, y, cellSize, n - 1);
    }
  }

  lemma {:induction false} CellPhaseLength(result: seq<seq<Swatch>>, w: nat, cellSize: nat, m: nat)
    requires m <= |result| && forall y :: 0 <= y < m ==> |result[y]| == w
    ensures |CellPhase(result, cellSize, m)| == 2 * (m * w)
  {
    if m > 0 {
      CellPhaseLength(result, w, cellSize, m - 1);
      RowCommandsAt(result[m - 1], m - 1, cellSize, w);
      assert m * w == (m - 1) * w + w;
    }
  }

  /** The commands for the first rows are a prefix of those for more rows. */
  lemma {:induction false} CellPhasePrefix(result: seq<seq<Swatch>>, cellSize: nat, n: nat, m: nat)
    requires n <= m <= |result|
    ensures CellPhase(result, cellSize, n) <= CellPhase(result, cellSize, m)
    decreases m - n
  {
    if n < m {
      CellPhasePrefix(result, cellSize, n, m - 1);
    }
  }

  lemma CellAt(result: seq<seq<Swatch>>, w: nat, cellSize: nat, m: nat, x: nat, y: nat)
    requires m <= |result| && forall y :: 0 <= y < m ==> |result[y]| == w
    requires x < w && y < m
    ensures 2 * (y * w + x) + 1 < |CellPhase(result, cellSize, m)|
    ensures CellPhase(result, cellSize, m)[2 * (y * w + x)] == Fill(result[y][x], x, y, cellSize)
    ensures CellPhase(result, cellSize, m)[2 * (y * w + x) + 1] == Label(result[y][x], x, y, cellSize)
  {
    var yw := y * w;
    assert |CellPhase(result, cellSize, y)| == 2 * yw by {
      CellPhaseLength(result, w, cellSize, y);
    }
    CellAtOffset(result, cellSize, m, x, y);
  }

  /** Cell (x, y) comes right after the commands of the rows above it. */
  lemma CellAtOffset(result: seq<seq<Swatch>>, cellSize: nat, m: nat, x: nat, y: nat)
    requires m <= |result| && y < m && x < |result[y]|
    ensures var i := |CellPhase(result, cellSize, y)| + 2 * x;
      && i + 1 < |CellPhase(result, cellSize, m)|
      && CellPhase(result, cellSize, m)[i] == Fill(result[y][x], x, y, cellSize)
      && CellPhase(result, cellSize, m)[i + 1] == Label(result[y][x], x, y, cellSize)
  {
    var before := CellPhase(result, cellSize, y);
    var row := RowCommands(result[y], y, cellSize, |result[y]|);
    assert CellPhase(result, cellSize, y + 1) == before + row;
    RowCommandsAt(result[y], y, cellSize, |result[y]|);
    ConcatAt(before, row, 2 * x);
    ConcatAt(before, row, 2 * x + 1);
    CellPhasePrefix(result, cellSize, y + 1, m);
  }

  /** Index `|a| + i` of `a + b` is index `i` of `b`. */
  lemma ConcatAt<T>(a: seq<T>, b: seq<T>, i: nat)
    requires i < |b|
    ensures |a| + i < |a + b| && (a + b)[|a| + i] == b[i]
  {
  }

  lemma {:induction false} LinesAt(extent: int, cellSize: nat, n: nat)
    ensures |VerticalLines(extent, cellSize, n)| == n
    ensures |HorizontalLines(extent, cellSize, n)| == n
    ensures forall i :: 0 <= i < n ==>
      VerticalLines(extent, cellSize, n)[i] == StrokeLine(GridStyle, i * cellSize, 0, i * cellSize, extent)
    ensures forall i :: 0 <= i < n ==>
      HorizontalLines(extent, cellSize, n)[i] == StrokeLine(GridStyle, 0, i * cellSize, extent, i * cellSize)
  {
    if n > 0 {
      LinesAt(extent, cellSize, n - 1);
    }
  }

  /** The canvas is exactly the grid scaled by the cell size. */
  lemma CanvasSize(result: seq<seq<Swatch>>, pixelWidth: nat, pixelHeight: nat, cellSize: nat,
                   showGrid: bool, font: string)
    requires IsGrid(result, pixelWidth, pixelHeight)
    ensures var plan := PlanOf(result, pixelWidth, pixelHeight, cellSize, showGrid, font);
            plan.width == pixelWidth * cellSize && plan.height == pixelHeight * cellSize && plan.font == font
    ensures |PlanOf(result, pixelWidth, pixelHeight, cellSize, showGrid, font).commands|
         == 2 * (pixelHeight * pixelWidth) + (if showGrid then pixelWidth + pixelHeight + 2 else 0)
  {
    CellPhaseLength(result, pixelWidth, cellSize, pixelHeight);
    LinesAt(pixelHeight * cellSize, cellSize, pixelWidth + 1);
    LinesAt(pixelWidth * cellSize, cellSize, pixelHeight + 1);
  }

  /**
   * Cell (x, y) is filled with its own colour at (x * cellSize, y * cellSize)
   * and labelled at the centre of its square, as commands 2k and 2k + 1 where
   * k = y * pixelWidth + x is its position in row-major order.
   */
  lemma CellsInRowMajorOrder(result: seq<seq<Swatch>>, pixelWidth: nat, pixelHeight: nat, cellSize: nat,
                             showGrid: bool, font: string, x: nat, y: nat)
    requires IsGrid(result, pixelWidth, pixelHeight)
    requires x < pixelWidth && y < pixelHeight
    ensures var cmds := PlanOf(result, pixelWidth, pixelHeight, cellSize, showGrid, font).commands;
            var k := y * pixelWidth + x;
            && 2 * k + 1 < |cmds|
            && cmds[2 * k] == FillRect(result[y][x].hex, x * cellSize, y * cellSize, cellSize, cellSize)
            && cmds[2 * k + 1] == FillText(LabelStyle, result[y][x].name,
                                           (x * cellSize) as real + cellSize as real / 2.0,
                                           (y * cellSize) as real + cellSize as real / 2.0)
  {
    CellAt(result, pixelWidth, cellSize, pixelHeight, x, y);
  }

  /**
   * With `showGrid`, after the cells come the `pixelWidth + 1` vertical lines
   * at `i * cellSize` and then the `pixelHeight + 1` horizontal lines at
   * `j * cellSize`, each spanning the whole canvas.
   */
  lemma GridLinesAfterCells(result: seq<seq<Swatch>>, pixelWidth: nat, pixelHeight: nat, cellSize: nat,
                            font: string)
    requires IsGrid(result, pixelWidth, pixelHeight)
    ensures var cmds := PlanOf(result, pixelWidth, pixelHeight, cellSize, true, font).commands;
            var base := 2 * (pixelHeight * pixelWidth);
            && |cmds| == base + pixelWidth + 1 + pixelHeight + 1
            && (forall i :: 0 <= i <= pixelWidth ==>
                  cmds[base + i] == StrokeLine(GridStyle, i * cellSize, 0, i * cellSize, pixelHeight * cellSize))
            && (forall j :: 0 <= j <= pixelHeight ==>
                  cmds[base + pixelWidth + 1 + j] == StrokeLine(GridStyle, 0, j * cellSize, pixelWidth * cellSize, j * cellSize))
  {
    var cells := CellPhase(result, cellSize, pixelHeight);
    var ph, pw := pixelHeight * cellSize, pixelWidth * cellSize;
    assert PlanOf(result, pixelWidth, pixelHeight, cellSize, true, font).commands
        == cells + (VerticalLines(ph, cellSize, pixelWidth + 1) + HorizontalLines(pw, cellSize, pixelHeight + 1));
    var hw := pixelHeight * pixelWidth;
    assert |cells| == 2 * hw by {
      CellPhaseLength(result, pixelWidth, cellSize, pixelHeight);
    }
    LinesAfter(cells, ph, pw, cellSize, pixelWidth + 1, pixelHeight + 1);
  }

  /** The vertical lines follow the given prefix, and the horizontal lines follow them. */
  lemma LinesAfter(cells: seq<Command>, height: int, width: int, cellSize: nat, nv: nat, nh: nat)
    ensures var cmds := cells + (VerticalLines(height, cellSize, nv) + HorizontalLines(width, cellSize, nh));
            && |cmds| == |cells| + nv + nh
            && (forall i :: 0 <= i < nv ==>
                  cmds[|cells| + i] == StrokeLine(GridStyle, i * cellSize, 0, i * cellSize, height))
            && (forall j :: 0 <= j < nh ==>
                  cmds[|cells| + nv + j] == StrokeLine(GridStyle, 0, j * cellSize, width, j * cellSize))
  {
    var v, h := VerticalLines(height, cellSize, nv), HorizontalLines(width, cellSize, nh);
    LinesAt(height, cellSize, nv);
    LinesAt(width, cellSize, nh);
    forall i | 0 <= i < nv
      ensures (cells + (v + h))[|cells| + i] == v[i]
    {
      ConcatAt(cells, v + h, i);
    }
    forall j | 0 <= j < nh
      ensures (cells + (v + h))[|cells| + nv + j] == h[j]
    {
      ConcatAt(cells, v + h, nv + j);
      ConcatAt(v, h, j);
    }
  }

  /** The cell phase only fills; every stroke comes after every fill, and without `showGrid` there is none. */
  lemma StrokesLast(result: seq<seq<Swatch>>, pixelWidth: nat, pixelHeight: nat, cellSize: nat,
                    showGrid: bool, font: string)
    requires IsGrid(result, pixelWidth, pixelHeight)
    ensures var cmds := PlanOf(result, pixelWidth, pixelHeight, cellSize, showGrid, font).commands;
            forall i, j :: 0 <= i < j < |cmds| && cmds[i].StrokeLine? ==> cmds[j].StrokeLine?
    ensures !showGrid ==>
            forall c :: c in PlanOf(result, pixelWidth, pixelHeight, cellSize, showGrid, font).commands ==> !c.StrokeLine?
  {
    CellPhaseLength(result, pixelWidth, cellSize, pixelHeight);
    var cells := CellPhase(result, cellSize, pixelHeight);
    CellPhaseFills(result, cellSize, pixelHeight);
    LinesAt(pixelHeight * cellSize, cellSize, pixelWidth + 1);
    LinesAt(pixelWidth * cellSize, cellSize, pixelHeight + 1);
    var cmds := PlanOf(result, pixelWidth, pixelHeight, cellSize, showGrid, font).commands;
    forall i, j | 0 <= i < j < |cmds| && cmds[i].StrokeLine?
      ensures cmds[j].StrokeLine?
    {
      assert i >= |cells|;
      if showGrid {
        var grid := GridLines(pixelWidth, pixelHeight, cellSize);
        assert cmds[j] == grid[j - |cells|];
      }
    }
  }

  lemma {:induction false} CellPhaseFills(result: seq<seq<Swatch>>, cellSize: nat, m: nat)
    requires m <= |result|
    ensures forall c :: c in CellPhase(result, cellSize, m) ==> !c.StrokeLine?
  {
    if m > 0 {
      CellPhaseFills(result, cellSize, m - 1);
      RowFills(result[m - 1], m - 1, cellSize, |result[m - 1]|);
    }
  }

  lemma {:induction false} RowFills(row: seq<Swatch>, y: int, cellSize: nat, n: nat)
    requires n <= |row|
    ensures forall c :: c in RowCommands(row, y, cellSize, n) ==> !c.StrokeLine?
  {
    if n > 0 {
      RowFills(row, y, cellSize, n - 1);
    }
  }
}
