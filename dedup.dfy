/**
 * The two ways the program collapses `{ name, hex }` rows with repeated
 * names: writing them one by one into a dictionary keyed by name, where the
 * last row wins (`getColorMap`, `exportColorList`), and keeping only the
 * first row of each name, in order (the used-colour list).
 */
module Dedup {
  import opened Palette

  /** The names of the rows, as a set. */
  function Names(s: seq<Entry>): set<string>
  {
    if s == [] then {} else Names(s[..|s| - 1]) + {s[|s| - 1].name}
  }

  lemma {:induction false} NamesAt(s: seq<Entry>, n: string)
    ensures n in Names(s) <==> exists i :: 0 <= i < |s| && s[i].name == n
  {
    if s != [] {
      var t := s[..|s| - 1];
      NamesAt(t, n);
      if n in Names(t) {
        var i :| 0 <= i < |t| && t[i].name == n;
        assert s[i].name == n;
      }
      if exists i :: 0 <= i < |s| && s[i].name == n {
        var i :| 0 <= i < |s| && s[i].name == n;
        if i < |t| {
          assert t[i].name == n;
        }
      }
    }
  }

  /** The dictionary after `map[name] = hex` for every row in order. */
  function LastWins(s: seq<Entry>): map<string, string>
  {
    if s == [] then map[] else LastWins(s[..|s| - 1])[s[|s| - 1].name := s[|s| - 1].hex]
  }

  lemma LastWinsSnoc(s: seq<Entry>, e: Entry)
    ensures LastWins(s + [e]) == LastWins(s)[e.name := e.hex]
  {
    assert (s + [e])[..|s|] == s;
  }

  /** The dictionary's keys are exactly the names of the rows. */
  lemma {:induction false} LastWinsKeys(s: seq<Entry>)
    ensures LastWins(s).Keys == Names(s)
  {
    if s != [] {
      LastWinsKeys(s[..|s| - 1]);
    }
  }

  /** The value under a name is the hex of the last row with that name. */
  lemma {:induction false} LastWinsValue(s: seq<Entry>, i: nat)
    requires i < |s|
    requires forall j :: i < j < |s| ==> s[j].name != s[i].name
    ensures s[i].name in LastWins(s) && LastWins(s)[s[i].name] == s[i].hex
  {
    if i < |s| - 1 {
      LastWinsValue(s[..|s| - 1], i);
    }
  }

  /** The position of the first row named `n`. */
  function FirstIndex(s: seq<Entry>, n: string): (i: nat)
    requires n in Names(s)
    ensures i < |s| && s[i].name == n
    ensures forall j :: 0 <= j < i ==> s[j].name != n
  {
    var t := s[..|s| - 1];
    if n in Names(t) then
      var i := FirstIndex(t, n);
      assert forall j :: 0 <= j <= i ==> s[j] == t[j];
      i
    else
      NamesAt(t, n);
      |s| - 1
  }

  /** The position of the last row named `n`. */
  function LastIndex(s: seq<Entry>, n: string): (i: nat)
    requires n in Names(s)
    ensures i < |s| && s[i].name == n
    ensures forall j :: i < j < |s| ==> s[j].name != n
  {
    if s[|s| - 1].name == n then |s| - 1
    else LastIndex(s[..|s| - 1], n)
  }

  /** The rows that are the first of their name, in order. */
  function FirstOccurrences(s: seq<Entry>): seq<Entry>
  {
    if s == [] then []
    else
      var d := FirstOccurrences(s[..|s| - 1]);
      if s[|s| - 1].name in Names(d) then d else d + [s[|s| - 1]]
  }

  /** No two rows of `s` share a name. */
  predicate DistinctNames(s: seq<Entry>)
  {
    forall i, j :: 0 <= i < j < |s| ==> s[i].name != s[j].name
  }

  lemma NamesSnoc(s: seq<Entry>, e: Entry)
    ensures Names(s + [e]) == Names(s) + {e.name}
  {
    assert (s + [e])[..|s|] == s;
  }


  /** The first-occurrence list has no repeated name and the same names as the rows. */
  lemma {:induction false} FirstOccurrencesNames(s: seq<Entry>)
    ensures DistinctNames(FirstOccurrences(s))
    ensures Names(FirstOccurrences(s)) == Names(s)
  {
    if s != [] {
      var t, e := s[..|s| - 1], s[|s| - 1];
      FirstOccurrencesNames(t);
      var dt := FirstOccurrences(t);
      if e.name !in Names(dt) {
        NamesSnoc(dt, e);
        forall k | 0 <= k < |dt|
          ensures dt[k].name != e.name
        {
          NamesAt(dt, dt[k].name);
        }
      }
    }
  }

  /**
   * Each entry of the first-occurrence list is the first row of its name, and
   * the entries come in the order their names first appear.
   */
  lemma {:induction false} FirstOccurrencesOrder(s: seq<Entry>)
    ensures var d := FirstOccurrences(s);
      && (forall k :: 0 <= k < |d| ==> d[k].name in Names(s) && d[k] == s[FirstIndex(s, d[k].name)])
      && (forall k1, k2 :: 0 <= k1 < k2 < |d| ==> FirstIndex(s, d[k1].name) < FirstIndex(s, d[k2].name))
  {
    if s != [] {
      var t, e := s[..|s| - 1], s[|s| - 1];
      FirstOccurrencesOrder(t);
      FirstOccurrencesNames(t);
      var dt := FirstOccurrences(t);
      forall k | 0 <= k < |dt|
        ensures dt[k].name in Names(s) && FirstIndex(s, dt[k].name) == FirstIndex(t, dt[k].name) < |t|
        ensures dt[k] == s[FirstIndex(s, dt[k].name)]
      {
        FirstIndexSnoc(s, dt[k].name);
      }
      if e.name !in Names(dt) {
        assert FirstOccurrences(s) == dt + [e];
        assert FirstIndex(s, e.name) == |s| - 1 by {
          assert e.name in Names(s) && e.name !in Names(t);
        }
      }
    }
  }

  /** A name already among the first rows keeps its first position when a row is appended. */
  lemma FirstIndexSnoc(s: seq<Entry>, n: string)
    requires s != [] && n in Names(s[..|s| - 1])
    ensures n in Names(s) && FirstIndex(s, n) == FirstIndex(s[..|s| - 1], n)
    ensures s[FirstIndex(s, n)] == s[..|s| - 1][FirstIndex(s, n)]
  {
  }
}
