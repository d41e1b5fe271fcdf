/**
 * The palette the generators match against and the nearest-colour search
 * that all three of them share: a linear scan from `minDist = Infinity`,
 * `minIdx = 0` that takes a new index only when its distance is strictly
 * smaller. The colour distance (CIEDE2000 over Lab values in the original)
 * is a parameter; it may answer NaN, written `None`, which is never smaller.
 */
module Palette {
  import opened Wrappers
  import opened Pixels
  import opened Hex

  /** A row of the colour table: `{ name, hex }`. */
  datatype Entry = Entry(name: string, hex: string)

  /** A palette element: the parsed channels spread next to `name` and `hex`. */
  datatype Swatch = Swatch(name: string, hex: string, rgb: HexRgb)

  function ToSwatch(e: Entry): Swatch
  {
    Swatch(e.name, e.hex, HexToRgb(e.hex))
  }

  /** `colorTable.map(c => ({ ...hexToRgb(c.hex), name: c.name, hex: c.hex }))` */
  function PreparePalette(table: seq<Entry>): (p: seq<Swatch>)
    ensures |p| == |table|
    ensures forall i :: 0 <= i < |p| ==> p[i].name == table[i].name && p[i].hex == table[i].hex
  {
    seq(|table|, i requires 0 <= i < |table| => ToSwatch(table[i]))
  }

  /** The colour difference between a sample and a palette colour; `None` is NaN. */
  type Distance = (Rgb, HexRgb) -> Option<real>

  /** `minDist`: Infinity until some finite distance has been seen. */
  datatype Bound = Infinity | Finite(v: real)

  /** `d < minDist` in JavaScript: false for NaN, true for every number against Infinity. */
  predicate Below(d: Option<real>, m: Bound)
  {
    d.Some? && (m.Infinity? || d.value < m.v)
  }

  /** The distances from `c` to the palette, in palette order. */
  function Distances(dist: Distance, c: Rgb, p: seq<Swatch>): (ds: seq<Option<real>>)
    ensures |ds| == |p|
    ensures forall j :: 0 <= j < |p| ==> ds[j] == dist(c, p[j].rgb)
  {
    seq(|p|, j requires 0 <= j < |p| => dist(c, p[j].rgb))
  }

  /** `(minDist, minIdx)` after the loop has looked at `ds[..n]`. */
  function MatchState(ds: seq<Option<real>>, n: nat): (Bound, nat)
    requires n <= |ds|
  {
    if n == 0 then (Infinity, 0)
    else
      var (m, i) := MatchState(ds, n - 1);
      if Below(ds[n - 1], m) then (Finite(ds[n - 1].value), n - 1) else (m, i)
  }

  /** The index the scan settles on. */
  function Nearest(ds: seq<Option<real>>): nat
  {
    MatchState(ds, |ds|).1
  }

  /**
   * `i` is the lowest index of minimal distance among the numeric distances:
   * `ds[i]` is a number, no number in `ds` is smaller, and every index before
   * `i` is NaN or strictly farther. When every distance is NaN, `i` is 0.
   */
  ghost predicate IsFirstNearest(ds: seq<Option<real>>, i: nat)
  {
    if exists j :: 0 <= j < |ds| && ds[j].Some? then
      && i < |ds| && ds[i].Some?
      && (forall j :: 0 <= j < |ds| && ds[j].Some? ==> ds[i].value <= ds[j].value)
      && (forall j :: 0 <= j < i && ds[j].Some? ==> ds[i].value < ds[j].value)
    else i == 0
  }

  /** What the scan has established after `n` steps. */
  lemma {:induction false} MatchStateInvariant(ds: seq<Option<real>>, n: nat)
    requires n <= |ds|
    ensures var (m, i) := MatchState(ds, n);
      && (m.Infinity? <==> forall j :: 0 <= j < n ==> ds[j].None?)
      && (m.Infinity? ==> i == 0)
      && (m.Finite? ==> i < n && ds[i] == Some(m.v))
      && (m.Finite? ==> forall j :: 0 <= j < n && ds[j].Some? ==> m.v <= ds[j].value)
      && (m.Finite? ==> forall j :: 0 <= j < i && ds[j].Some? ==> m.v < ds[j].value)
  {
    if n > 0 {
      MatchStateInvariant(ds, n - 1);
    }
  }

  /** The scan returns the lowest index of minimal distance, 0 when there is none. */
  lemma NearestIsFirstNearest(ds: seq<Option<real>>)
    ensures IsFirstNearest(ds, Nearest(ds))
    ensures |ds| > 0 ==> Nearest(ds) < |ds|
  {
    MatchStateInvariant(ds, |ds|);
  }

  /** There is only one lowest index of minimal distance. */
  lemma FirstNearestIsUnique(ds: seq<Option<real>>, i: nat, k: nat)
    requires IsFirstNearest(ds, i) && IsFirstNearest(ds, k)
    ensures i == k
  {
  }

  /** Hence the scan's answer is characterised exactly. */
  lemma NearestCharacterised(ds: seq<Option<real>>, i: nat)
    ensures i == Nearest(ds) <==> IsFirstNearest(ds, i)
  {
    NearestIsFirstNearest(ds);
    if IsFirstNearest(ds, i) {
      FirstNearestIsUnique(ds, i, Nearest(ds));
    }
  }

  /** The `minDist`/`minIdx` loop of the generators. */
  method MatchIndex(dist: Distance, c: Rgb, palette: seq<Swatch>) returns (minIdx: nat)
    ensures minIdx == Nearest(Distances(dist, c, palette))
    ensures IsFirstNearest(Distances(dist, c, palette), minIdx)
    ensures |palette| > 0 ==> minIdx < |palette|
  {
    ghost var ds := Distances(dist, c, palette);
    var minDist := Infinity;
    minIdx := 0;
    var j := 0;
    while j < |palette|
      invariant 0 <= j <= |palette|
      invariant (minDist, minIdx) == MatchState(ds, j)
    {
      var d := dist(c, palette[j].rgb);
      if Below(d, minDist) {
        minDist := Finite(d.value);
        minIdx := j;
      }
      j := j + 1;
    }
    NearestIsFirstNearest(ds);
  }
}
