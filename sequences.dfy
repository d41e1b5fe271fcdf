/**
 * The order-preserving filter behind `Array.prototype.filter` (and the
 * filter-and-convert loop of the table loader): keep, in order, the converted
 * elements for which the conversion succeeds.
 */
module Sequences {
  import opened Wrappers

  /** The successful conversions of the elements of `s`, in order. */
  function FilterMap<T, U>(s: seq<T>, f: T -> Option<U>): seq<U>
  {
    if s == [] then []
    else
      var r := FilterMap(s[..|s| - 1], f);
      match f(s[|s| - 1])
      case Some(u) => r + [u]
      case None => r
  }

  /** The positions in `s` of the elements `FilterMap` keeps, in order. */
  function Origins<T, U>(s: seq<T>, f: T -> Option<U>): seq<nat>
  {
    if s == [] then []
    else
      var o := Origins(s[..|s| - 1], f);
      if f(s[|s| - 1]).Some? then o + [|s| - 1] else o
  }

  /** Filtering one more element appends its conversion, if any. */
  lemma FilterMapSnoc<T, U>(s: seq<T>, x: T, f: T -> Option<U>)
    ensures FilterMap(s + [x], f) == FilterMap(s, f) + (if f(x).Some? then [f(x).value] else [])
  {
    assert (s + [x])[..|s|] == s;
  }

  /** Extending a window of `s` by one element appends that element's conversion, if any. */
  lemma FilterMapExtend<T, U>(s: seq<T>, lo: nat, i: nat, f: T -> Option<U>)
    requires lo <= i < |s|
    ensures FilterMap(s[lo..i + 1], f) == FilterMap(s[lo..i], f) + (if f(s[i]).Some? then [f(s[i]).value] else [])
  {
    assert s[lo..i + 1] == s[lo..i] + [s[i]];
    FilterMapSnoc(s[lo..i], s[i], f);
  }

  /**
   * `FilterMap` keeps exactly the convertible elements, each once, in the
   * order they appear: its k-th result is the conversion of the element at
   * the k-th origin, the origins increase, and every convertible position is
   * an origin.
   */
  lemma {:induction false} FilterMapOrigins<T, U>(s: seq<T>, f: T -> Option<U>)
    ensures var r, o := FilterMap(s, f), Origins(s, f);
      && |o| == |r| <= |s|
      && (forall k :: 0 <= k < |o| ==> o[k] < |s| && f(s[o[k]]) == Some(r[k]))
      && (forall k1, k2 :: 0 <= k1 < k2 < |o| ==> o[k1] < o[k2])
      && (forall i :: 0 <= i < |s| && f(s[i]).Some? ==> i in o)
  {
    if s != [] {
      var t := s[..|s| - 1];
      FilterMapOrigins(t, f);
      assert forall i :: 0 <= i < |t| ==> s[i] == t[i];
    }
  }

  /** Every element `FilterMap` keeps is the conversion of some element of `s`. */
  lemma FilterMapFrom<T, U>(s: seq<T>, f: T -> Option<U>, u: U) returns (i: nat)
    requires u in FilterMap(s, f)
    ensures i < |s| && f(s[i]) == Some(u)
  {
    FilterMapOrigins(s, f);
    var r := FilterMap(s, f);
    var k :| 0 <= k < |r| && r[k] == u;
    i := Origins(s, f)[k];
  }

  /** An element is kept exactly when it is in `s` and converts to itself. */
  lemma FilterMapMembers<T>(s: seq<T>, f: T -> Option<T>, x: T)
    requires forall y :: f(y).Some? ==> f(y) == Some(y)
    ensures x in FilterMap(s, f) <==> x in s && f(x).Some?
  {
    FilterMapOrigins(s, f);
    var r, o := FilterMap(s, f), Origins(s, f);
    if x in s && f(x).Some? {
      var i :| 0 <= i < |s| && s[i] == x;
      assert i in o;
      var k :| 0 <= k < |o| && o[k] == i;
      assert r[k] == x;
    }
  }

  /** When every element converts to itself, nothing is dropped. */
  lemma {:induction false} FilterMapKeepsAll<T>(s: seq<T>, f: T -> Option<T>)
    requires forall i :: 0 <= i < |s| ==> f(s[i]) == Some(s[i])
    ensures FilterMap(s, f) == s
  {
    if s != [] {
      FilterMapKeepsAll(s[..|s| - 1], f);
      assert s[..|s| - 1] + [s[|s| - 1]] == s;
    }
  }

  /** Two conversions that agree on the elements of `s` keep the same elements. */
  lemma {:induction false} FilterMapAgree<T, U>(s: seq<T>, f: T -> Option<U>, g: T -> Option<U>)
    requires forall i :: 0 <= i < |s| ==> f(s[i]) == g(s[i])
    ensures FilterMap(s, f) == FilterMap(s, g)
  {
    if s != [] {
      FilterMapAgree(s[..|s| - 1], f, g);
    }
  }

  /** The rows of a grid, concatenated row by row (`Array.prototype.flat`). */
  function Flatten<T>(rows: seq<seq<T>>): seq<T>
  {
    if rows == [] then [] else Flatten(rows[..|rows| - 1]) + rows[|rows| - 1]
  }

  /** In a grid of rows of width `w`, element (x, y) sits at `y * w + x` of the flattened grid. */
  lemma {:induction false} FlattenAt<T>(rows: seq<seq<T>>, w: nat, x: nat, y: nat)
    requires forall j :: 0 <= j < |rows| ==> |rows[j]| == w
    requires x < w && y < |rows|
    ensures |Flatten(rows)| == |rows| * w
    ensures y * w + x < |Flatten(rows)| && Flatten(rows)[y * w + x] == rows[y][x]
  {
    var t := rows[..|rows| - 1];
    FlattenLength(t, w);
    if y < |rows| - 1 {
      FlattenAt(t, w, x, y);
    }
    assert |rows| * w == |t| * w + w;
  }

  lemma {:induction false} FlattenLength<T>(rows: seq<seq<T>>, w: nat)
    requires forall j :: 0 <= j < |rows| ==> |rows[j]| == w
    ensures |Flatten(rows)| == |rows| * w
  {
    if rows != [] {
      FlattenLength(rows[..|rows| - 1], w);
      assert |rows| * w == (|rows| - 1) * w + w;
    }
  }

  /** Every element of the flattened grid is some element of some row. */
  lemma {:induction false} FlattenMembers<T>(rows: seq<seq<T>>, e: T)
    ensures e in Flatten(rows) <==> exists j :: 0 <= j < |rows| && e in rows[j]
  {
    if rows != [] {
      var t := rows[..|rows| - 1];
      FlattenMembers(t, e);
      if e in rows[|rows| - 1] {
        assert 0 <= |rows| - 1 < |rows| && e in rows[|rows| - 1];
      }
      if exists j :: 0 <= j < |rows| && e in rows[j] {
        var j :| 0 <= j < |rows| && e in rows[j];
        if j < |rows| - 1 {
          assert e in t[j];
        }
      }
    }
  }
}
