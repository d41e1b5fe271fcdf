/**
 * What the samplers compute from the pixels of a window: the dominant colour
 * (the scan with a `colorCount` dictionary and a strictly-greater running
 * maximum) and the per-channel rounded mean.
 */
module Statistics {
  import opened Pixels

  /** The state of the dominant-colour scan: `colorCount`, `maxCount` and `dominant`. */
  datatype Tally = Tally(counts: map<Rgb, nat>, maxCount: nat, dominant: Rgb)

  function Fresh(): Tally
  {
    Tally(map[], 0, Black)
  }

  /** `colorCount[key] || 0` */
  function CountOf(counts: map<Rgb, nat>, c: Rgb): nat
  {
    if c in counts then counts[c] else 0
  }

  /** One loop step: bump the colour's count; it becomes dominant only if it beats the maximum strictly. */
  function Tick(t: Tally, c: Rgb): Tally
  {
    var n := CountOf(t.counts, c) + 1;
    if n > t.maxCount then Tally(t.counts[c := n], n, c)
    else Tally(t.counts[c := n], t.maxCount, t.dominant)
  }

  /** The loop body's update of `colorCount`, `maxCount` and `dominant` is one `Tick`. */
  lemma TickUpdate(before: Tally, c: Rgb, counts: map<Rgb, nat>, maxCount: nat, dominant: Rgb)
    requires counts == before.counts[c := CountOf(before.counts, c) + 1]
    requires CountOf(before.counts, c) + 1 > before.maxCount ==> maxCount == CountOf(before.counts, c) + 1 && dominant == c
    requires CountOf(before.counts, c) + 1 <= before.maxCount ==> maxCount == before.maxCount && dominant == before.dominant
    ensures Tally(counts, maxCount, dominant) == Tick(before, c)
  {
  }

  /** The scan state after visiting the pixels `s` in order. */
  function TallyOf(s: seq<Rgb>): Tally
  {
    if s == [] then Fresh() else Tick(TallyOf(s[..|s| - 1]), s[|s| - 1])
  }

  function Mode(s: seq<Rgb>): Rgb
  {
    TallyOf(s).dominant
  }

  /**
   * `d` occurs in `s` at least as often as any other colour, and it was the
   * first colour to reach that count: at the visit `k` where its count became
   * maximal, no colour had yet been seen that often.
   */
  ghost predicate FirstToReachMax(s: seq<Rgb>, d: Rgb)
  {
    && (forall c :: multiset(s)[c] <= multiset(s)[d])
    && exists k :: 0 <= k < |s| && s[k] == d && multiset(s[..k + 1])[d] == multiset(s)[d]
                && NoneReached(s[..k], multiset(s)[d])
  }

  /** No colour occurs `m` times among the pixels `t`. */
  ghost predicate NoneReached(t: seq<Rgb>, m: nat)
  {
    forall c :: multiset(t)[c] < m
  }

  lemma {:induction false} TallyInvariant(s: seq<Rgb>)
    ensures forall c :: CountOf(TallyOf(s).counts, c) == multiset(s)[c]
    ensures s == [] ==> TallyOf(s) == Fresh()
    ensures s != [] ==> TallyOf(s).maxCount == multiset(s)[TallyOf(s).dominant]
    ensures s != [] ==> FirstToReachMax(s, TallyOf(s).dominant)
  {
    if s != [] {
      var t, c := s[..|s| - 1], s[|s| - 1];
      assert s == t + [c];
      TallyInvariant(t);
      TickStep(t, c, TallyOf(t));
    }
  }

  /** One visit keeps the counts exact and the dominant colour first to reach the maximum. */
  lemma TickStep(t: seq<Rgb>, c: Rgb, T: Tally)
    requires forall e :: CountOf(T.counts, e) == multiset(t)[e]
    requires t == [] ==> T == Fresh()
    requires t != [] ==> T.maxCount == multiset(t)[T.dominant] && FirstToReachMax(t, T.dominant)
    ensures var U := Tick(T, c);
      && (forall e :: CountOf(U.counts, e) == multiset(t + [c])[e])
      && U.maxCount == multiset(t + [c])[U.dominant]
      && FirstToReachMax(t + [c], U.dominant)
  {
    var s := t + [c];
    assert multiset(s) == multiset(t) + multiset{c};
    var n := multiset(t)[c] + 1;
    assert CountOf(T.counts, c) + 1 == n;
    if n > T.maxCount {
      assert NoneReached(t, n) by {
        forall e
          ensures multiset(t)[e] < n
        {
          if t != [] {
            assert multiset(t)[e] <= multiset(t)[T.dominant];
          }
        }
      }
      TakeOver(t, c);
    } else {
      Keep(t, c, T.dominant);
    }
  }

  /** A colour whose new count beats every count so far becomes first to reach the maximum. */
  lemma TakeOver(t: seq<Rgb>, c: Rgb)
    requires NoneReached(t, multiset(t)[c] + 1)
    ensures FirstToReachMax(t + [c], c)
  {
    var s := t + [c];
    assert s[..|t|] == t && s[..|t| + 1] == s;
    assert multiset(s) == multiset(t) + multiset{c};
    ReachedAt(s, c, |t|);
  }

  /** `d` is first to reach the maximum when visit `k` brings it to a count nothing reached before. */
  lemma ReachedAt(s: seq<Rgb>, d: Rgb, k: nat)
    requires k < |s| && s[k] == d && multiset(s[..k + 1])[d] == multiset(s)[d]
    requires NoneReached(s[..k], multiset(s)[d])
    requires forall c :: multiset(s)[c] <= multiset(s)[d]
    ensures FirstToReachMax(s, d)
  {
  }

  /** A colour whose new count does not beat the maximum leaves the first to reach it in place. */
  lemma Keep(t: seq<Rgb>, c: Rgb, d: Rgb)
    requires FirstToReachMax(t, d) && multiset(t)[c] + 1 <= multiset(t)[d]
    ensures c != d
    ensures FirstToReachMax(t + [c], d)
  {
    var s := t + [c];
    assert multiset(s) == multiset(t) + multiset{c};
    assert multiset(s)[d] == multiset(t)[d];
    forall e
      ensures multiset(s)[e] <= multiset(s)[d]
    {
      if e != c {
        assert multiset(s)[e] == multiset(t)[e];
      }
    }
    var k :| 0 <= k < |t| && t[k] == d && multiset(t[..k + 1])[d] == multiset(t)[d]
             && NoneReached(t[..k], multiset(t)[d]);
    assert s[..k + 1] == t[..k + 1] && s[..k] == t[..k];
    ReachedAt(s, d, k);
  }

  lemma PrefixCountGrows(s: seq<Rgb>, i: int, j: int, c: Rgb)
    requires 0 <= i <= j <= |s|
    ensures multiset(s[..i])[c] <= multiset(s[..j])[c]
  {
    assert s[..j] == s[..i] + s[i..j];
  }

  /** Visiting one more pixel is one more `Tick`. */
  lemma TallyOfSnoc(s: seq<Rgb>, c: Rgb)
    ensures TallyOf(s + [c]) == Tick(TallyOf(s), c)
  {
    assert (s + [c])[..|s|] == s;
  }

  /** Visiting pixel (x, y) of a window ticks the tally of the pixels visited before it. */
  lemma TallyVisit(data: seq<Byte>, imgW: int, w: Window, y: int, x: int)
    requires Readable(data, imgW, w) && ScanPosition(w, y, x)
    requires y < w.ey && x < w.ex
    ensures ByteInBounds(data, imgW, x, y) && ScanPosition(w, y, x + 1)
    ensures TallyOf(Visited(data, imgW, w, y, x + 1))
         == Tick(TallyOf(Visited(data, imgW, w, y, x)), PixelAt(data, imgW, x, y))
  {
    VisitedStep(data, imgW, w, y, x);
    TallyOfSnoc(Visited(data, imgW, w, y, x), PixelAt(data, imgW, x, y));
  }

  /** The dominant colour of no pixels is black; otherwise it is a pixel of the window. */
  lemma ModeOccurs(s: seq<Rgb>)
    ensures s == [] ==> Mode(s) == Black
    ensures s != [] ==> Mode(s) in s
  {
    TallyInvariant(s);
  }

  /** A colour seen `m` times by visit `k1` has reached `m` before any later visit `k2`. */
  lemma ReachedOnlyOnce(s: seq<Rgb>, k1: nat, k2: nat, c: Rgb, m: nat)
    requires k1 < k2 <= |s| && NoneReached(s[..k2], m)
    ensures multiset(s[..k1 + 1])[c] < m
  {
    PrefixCountGrows(s, k1 + 1, k2, c);
    assert multiset(s[..k2])[c] < m;
  }

  /** At most one colour is the first to reach the maximum. */
  lemma FirstToReachMaxUnique(s: seq<Rgb>, d: Rgb, e: Rgb)
    requires FirstToReachMax(s, d) && FirstToReachMax(s, e)
    ensures d == e
  {
    var m := multiset(s)[e];
    assert multiset(s)[d] <= m && m <= multiset(s)[d];
    var k1 :| 0 <= k1 < |s| && s[k1] == e && multiset(s[..k1 + 1])[e] == m && NoneReached(s[..k1], m);
    var k2 :| 0 <= k2 < |s| && s[k2] == d && multiset(s[..k2 + 1])[d] == m && NoneReached(s[..k2], m);
    ReachedAtSameVisit(s, k1, k2, e, d, m);
  }

  /** Two colours that each reach count `m` at a visit where nothing had reached it before reach it at the same visit. */
  lemma ReachedAtSameVisit(s: seq<Rgb>, k1: nat, k2: nat, e: Rgb, d: Rgb, m: nat)
    requires k1 < |s| && k2 < |s| && s[k1] == e && s[k2] == d
    requires multiset(s[..k1 + 1])[e] == m && NoneReached(s[..k1], m)
    requires multiset(s[..k2 + 1])[d] == m && NoneReached(s[..k2], m)
    ensures k1 == k2 && d == e
  {
    if k1 < k2 {
      ReachedOnlyOnce(s, k1, k2, e, m);
      assert false;
    } else if k2 < k1 {
      ReachedOnlyOnce(s, k2, k1, d, m);
      assert false;
    }
  }


  /**
   * The dominant colour of a non-empty scan is exactly the colour that occurs
   * most often, ties going to the colour that reached the maximum first.
   */
  lemma ModeIsFirstToReachMax(s: seq<Rgb>, d: Rgb)
    requires s != []
    ensures d == Mode(s) <==> FirstToReachMax(s, d)
  {
    TallyInvariant(s);
    if FirstToReachMax(s, d) {
      FirstToReachMaxUnique(s, d, Mode(s));
    }
  }

  /** Sum of one channel over the pixels, as the accumulators `r`, `g`, `b` hold it. */
  function Sum(s: seq<Rgb>, k: Chan): nat
  {
    if s == [] then 0 else Sum(s[..|s| - 1], k) + Channel(s[|s| - 1], k)
  }

  /** The accumulators `r`, `g`, `b`, `count` after visiting the pixels `s`. */
  predicate Sums(s: seq<Rgb>, r: int, g: int, b: int, count: int)
  {
    r == Sum(s, R) && g == Sum(s, G) && b == Sum(s, B) && count == |s|
  }

  /** Visiting one more pixel adds its channels to the sums. */
  lemma SumsSnoc(s: seq<Rgb>, c: Rgb)
    ensures Sum(s + [c], R) == Sum(s, R) + c.r
    ensures Sum(s + [c], G) == Sum(s, G) + c.g
    ensures Sum(s + [c], B) == Sum(s, B) + c.b
  {
    assert (s + [c])[..|s|] == s;
  }

  /** Visiting pixel (x, y) of a window adds its channels to the sums of the pixels visited before it. */
  lemma SumsVisit(data: seq<Byte>, imgW: int, w: Window, y: int, x: int, r: int, g: int, b: int, count: int)
    requires Readable(data, imgW, w) && ScanPosition(w, y, x)
    requires y < w.ey && x < w.ex
    requires Sums(Visited(data, imgW, w, y, x), r, g, b, count)
    ensures ByteInBounds(data, imgW, x, y) && ScanPosition(w, y, x + 1)
    ensures var p := PixelAt(data, imgW, x, y);
            Sums(Visited(data, imgW, w, y, x + 1), r + p.r, g + p.g, b + p.b, count + 1)
  {
    VisitedStep(data, imgW, w, y, x);
    SumsSnoc(Visited(data, imgW, w, y, x), PixelAt(data, imgW, x, y));
  }

  /**
   * `Math.round(sum / count)`: the integer nearest to the quotient, a half
   * rounding up (r - 1/2 <= sum/count < r + 1/2).
   */
  function RoundDiv(sum: int, count: int): (r: int)
    requires count > 0
    ensures count * (2 * r - 1) <= 2 * sum < count * (2 * r + 1)
  {
    var q := (2 * sum + count) / (2 * count);
    assert 2 * sum + count == 2 * count * q + (2 * sum + count) % (2 * count);
    q
  }

  lemma RoundDivWithin(sum: int, count: int, lo: int, hi: int)
    requires count > 0 && count * lo <= sum <= count * hi
    ensures lo <= RoundDiv(sum, count) <= hi
  {
    var r := RoundDiv(sum, count);
    if r > hi {
      MulMonotone(2 * hi + 1, 2 * r - 1, count);
      assert false;
    }
    if r < lo {
      MulMonotone(2 * r + 1, 2 * lo - 1, count);
      assert false;
    }
  }

  lemma {:induction false} SumWithin(s: seq<Rgb>, k: Chan, lo: int, hi: int)
    requires forall i :: 0 <= i < |s| ==> lo <= Channel(s[i], k) <= hi
    ensures |s| * lo <= Sum(s, k) <= |s| * hi
  {
    if s != [] {
      var t := s[..|s| - 1];
      assert forall i :: 0 <= i < |t| ==> lo <= Channel(t[i], k) <= hi by {
        assert forall i :: 0 <= i < |t| ==> t[i] == s[i];
      }
      SumWithin(t, k, lo, hi);
      assert lo <= Channel(s[|s| - 1], k) <= hi;
      MulSucc(|t|, lo);
      MulSucc(|t|, hi);
    }
  }

  lemma MulSucc(n: int, x: int)
    ensures (n + 1) * x == n * x + x
  {
  }

  function MeanChannel(s: seq<Rgb>, k: Chan): Byte
    requires s != []
  {
    SumWithin(s, k, 0, 255);
    RoundDivWithin(Sum(s, k), |s|, 0, 255);
    RoundDiv(Sum(s, k), |s|)
  }

  /** What `getAverageColor` returns: the rounded mean per channel, black for no pixels. */
  function Mean(s: seq<Rgb>): Rgb
  {
    if s == [] then Black else Rgb(MeanChannel(s, R), MeanChannel(s, G), MeanChannel(s, B))
  }

  /** Each channel of the mean lies between that channel's smallest and largest value in the window. */
  lemma MeanWithin(s: seq<Rgb>, k: Chan, lo: int, hi: int)
    requires s != []
    requires forall i :: 0 <= i < |s| ==> lo <= Channel(s[i], k) <= hi
    ensures lo <= Channel(Mean(s), k) <= hi
  {
    SumWithin(s, k, lo, hi);
    RoundDivWithin(Sum(s, k), |s|, lo, hi);
  }

  /** The rounded quotients of the channel sums are the mean. */
  lemma MeanOfSums(s: seq<Rgb>, r: int, g: int, b: int)
    requires s != [] && r == Sum(s, R) && g == Sum(s, G) && b == Sum(s, B)
    ensures 0 <= RoundDiv(r, |s|) < 256 && 0 <= RoundDiv(g, |s|) < 256 && 0 <= RoundDiv(b, |s|) < 256
    ensures Mean(s) == Rgb(RoundDiv(r, |s|), RoundDiv(g, |s|), RoundDiv(b, |s|))
  {
    SumWithin(s, R, 0, 255);
    SumWithin(s, G, 0, 255);
    SumWithin(s, B, 0, 255);
    RoundDivWithin(r, |s|, 0, 255);
    RoundDivWithin(g, |s|, 0, 255);
    RoundDivWithin(b, |s|, 0, 255);
  }

  /** Averaging one pixel returns that pixel. */
  lemma MeanOfSingle(p: Rgb)
    ensures Mean([p]) == p
  {
    assert [p][..0] == [];
    assert Sum([p], R) == p.r && Sum([p], G) == p.g && Sum([p], B) == p.b;
  }

  /** A single pixel is its own dominant colour. */
  lemma ModeOfSingle(p: Rgb)
    ensures Mode([p]) == p
  {
    assert [p][..0] == [];
    assert TallyOf([p]) == Tick(Fresh(), p);
  }
}
