/**
 * The colour-list export (src/utils/exportExcel.js) up to the sheet data:
 * the `{ name, hex }` rows are written into a dictionary keyed by name, the
 * dictionary's keys are sorted, and the sheet is a header row followed by
 * one `[name, hex]` row per key.
 */
module ExportExcel {
  import opened Palette
  import opened Dedup

  /** `a < b` for the default comparison of `Array.prototype.sort`: character by character, a proper prefix first. */
  predicate Less(a: string, b: string)
  {
    if b == [] then false
    else if a == [] then true
    else if a[0] != b[0] then a[0] < b[0]
    else Less(a[1..], b[1..])
  }

  lemma {:induction false} LessIrreflexive(a: string)
    ensures !Less(a, a)
  {
    if a != [] {
      LessIrreflexive(a[1..]);
    }
  }

  lemma {:induction false} LessTransitive(a: string, b: string, c: string)
    requires Less(a, b) && Less(b, c)
    ensures Less(a, c)
  {
    if a != [] && a[0] == b[0] && b[0] == c[0] {
      LessTransitive(a[1..], b[1..], c[1..]);
    }
  }

  /** Two different strings are ordered one way round, and only one. */
  lemma {:induction false} LessTotal(a: string, b: string)
    ensures a != b ==> Less(a, b) || Less(b, a)
    ensures !(Less(a, b) && Less(b, a))
  {
    if a != [] && b != [] && a[0] == b[0] {
      LessTotal(a[1..], b[1..]);
      if a != b {
        assert a == [a[0]] + a[1..] && b == [b[0]] + b[1..];
      }
    }
  }

  predicate Distinct(s: seq<string>)
  {
    forall i, j :: 0 <= i < j < |s| ==> s[i] != s[j]
  }

  predicate StrictlySorted(s: seq<string>)
  {
    forall i, j :: 0 <= i < j < |s| ==> Less(s[i], s[j])
  }

  /** `x` placed before the first element it is less than. */
  function Insert(x: string, s: seq<string>): seq<string>
  {
    if s == [] then [x]
    else if Less(x, s[0]) then [x] + s
    else [s[0]] + Insert(x, s[1..])
  }

  /** The keys in ascending order (`keys.sort()`), by insertion. */
  function SortStrings(s: seq<string>): seq<string>
  {
    if s == [] then [] else Insert(s[0], SortStrings(s[1..]))
  }

  lemma {:induction false} InsertSorted(x: string, s: seq<string>)
    requires StrictlySorted(s) && x !in s
    ensures var r := Insert(x, s);
      && StrictlySorted(r) && |r| == |s| + 1
      && forall y :: y in r <==> y == x || y in s
  {
    if s != [] {
      if Less(x, s[0]) {
        forall j | 0 < j < |s|
          ensures Less(x, s[j])
        {
          LessTransitive(x, s[0], s[j]);
        }
      } else {
        LessTotal(x, s[0]);
        InsertSorted(x, s[1..]);
        var r := Insert(x, s[1..]);
        forall j | 0 <= j < |r|
          ensures Less(s[0], r[j])
        {
          assert r[j] in r;
          if r[j] != x {
            var k :| 0 <= k < |s[1..]| && s[1..][k] == r[j];
            assert s[k + 1] == r[j];
          }
        }
        assert forall y :: y in s <==> y == s[0] || y in s[1..];
      }
    }
  }

  /** Sorting distinct keys gives them in strictly ascending order, each exactly once. */
  lemma {:induction false} SortSorted(s: seq<string>)
    requires Distinct(s)
    ensures var r := SortStrings(s);
      && StrictlySorted(r) && |r| == |s|
      && forall y :: y in r <==> y in s
  {
    if s != [] {
      SortSorted(s[1..]);
      InsertSorted(s[0], SortStrings(s[1..]));
      assert forall y :: y in s <==> y == s[0] || y in s[1..];
    }
  }

  lemma SameMembersEmpty(a: seq<string>, b: seq<string>)
    requires forall y :: y in a <==> y in b
    ensures a == [] <==> b == []
  {
    if a != [] {
      assert a[0] in b;
    }
    if b != [] {
      assert b[0] in a;
    }
  }

  /** Two strictly ascending sequences of the same strings are the same sequence. */
  lemma {:induction false} StrictlySortedUnique(a: seq<string>, b: seq<string>)
    requires StrictlySorted(a) && StrictlySorted(b)
    requires forall y :: y in a <==> y in b
    ensures a == b
  {
    SameMembersEmpty(a, b);
    if a != [] {
      assert a[0] in b;
      assert b[0] in a;
      var i :| 0 <= i < |b| && b[i] == a[0];
      var j :| 0 <= j < |a| && a[j] == b[0];
      if i != 0 {
        assert Less(b[0], a[0]);
        LessIrreflexive(a[0]);
        assert j != 0;
        assert Less(a[0], b[0]);
        LessTotal(a[0], b[0]);
        assert false;
      }
      forall y
        ensures y in a[1..] <==> y in b[1..]
      {
        if y in a[1..] {
          var k :| 0 <= k < |a[1..]| && a[1..][k] == y;
          assert Less(a[0], a[k + 1]);
          LessIrreflexive(a[0]);
          assert y in b;
        }
        if y in b[1..] {
          var k :| 0 <= k < |b[1..]| && b[1..][k] == y;
          assert Less(b[0], b[k + 1]);
          LessIrreflexive(b[0]);
          assert y in a;
        }
      }
      StrictlySortedUnique(a[1..], b[1..]);
      assert a == [a[0]] + a[1..] && b == [b[0]] + b[1..];
    }
  }

  /** `Object.keys(unique)`: the names in the order they were first written. */
  function Keys(s: seq<Entry>): seq<string>
  {
    if s == [] then []
    else
      var k := Keys(s[..|s| - 1]);
      if s[|s| - 1].name in k then k else k + [s[|s| - 1].name]
  }

  /** The keys are the names, each once. */
  lemma {:induction false} KeysAreNames(s: seq<Entry>)
    ensures Distinct(Keys(s)) && |Keys(s)| == |Names(s)|
    ensures forall y :: y in Keys(s) <==> y in Names(s)
  {
    if s != [] {
      var t, e := s[..|s| - 1], s[|s| - 1];
      KeysAreNames(t);
      var k := Keys(t);
      assert Names(s) == Names(t) + {e.name};
      if e.name in k {
        assert Keys(s) == k && Names(s) == Names(t);
      } else {
        var k' := k + [e.name];
        assert Keys(s) == k';
        assert |Names(s)| == |Names(t)| + 1 by {
          assert e.name !in Names(t);
        }
        assert Distinct(k') by {
          forall i, j | 0 <= i < j < |k'|
            ensures k'[i] != k'[j]
          {
            if j == |k| {
              assert k'[i] == k[i] && k[i] in k;
            } else {
              assert k'[i] == k[i] && k'[j] == k[j];
            }
          }
        }
      }
    }
  }

  /** The header row: colour number, colour value. */
  const Header: seq<string> := ["色号", "色值"]

  /** The keys of the dictionary, sorted. */
  function SortedNames(colorList: seq<Entry>): (names: seq<string>)
    ensures |names| == |Names(colorList)|
    ensures forall y :: y in names <==> y in Names(colorList)
  {
    KeysAreNames(colorList);
    SortSorted(Keys(colorList));
    SortStrings(Keys(colorList))
  }

  /** The sorted keys ascend strictly. */
  lemma SortedNamesAscending(colorList: seq<Entry>)
    ensures StrictlySorted(SortedNames(colorList))
  {
    KeysAreNames(colorList);
    SortSorted(Keys(colorList));
  }

  /** One `[name, unique[name]]` row per name, in the order of the names. */
  function Rows(names: seq<string>, unique: map<string, string>): (rows: seq<seq<string>>)
    requires forall i :: 0 <= i < |names| ==> names[i] in unique
    ensures |rows| == |names|
    ensures forall i :: 0 <= i < |names| ==> rows[i] == [names[i], unique[names[i]]]
  {
    if names == [] then []
    else Rows(names[..|names| - 1], unique) + [[names[|names| - 1], unique[names[|names| - 1]]]]
  }

  /** One more name adds its row at the end. */
  lemma RowsExtend(names: seq<string>, k: nat, unique: map<string, string>)
    requires k < |names| && forall i :: 0 <= i < |names| ==> names[i] in unique
    ensures Rows(names[..k + 1], unique) == Rows(names[..k], unique) + [[names[k], unique[names[k]]]]
  {
    assert names[..k + 1][..k] == names[..k];
  }

  /** The sheet data: the header, then `[name, unique[name]]` for every key in ascending order. */
  function Sheet(colorList: seq<Entry>): seq<seq<string>>
  {
    LastWinsKeys(colorList);
    [Header] + Rows(SortedNames(colorList), LastWins(colorList))
  }

  /** The `forEach` that writes every row into the dictionary, and the order its keys come out in. */
  method WriteDictionary(colorList: seq<Entry>) returns (unique: map<string, string>, keys: seq<string>)
    ensures unique == LastWins(colorList) && keys == Keys(colorList)
    ensures unique.Keys == Names(colorList)
  {
    unique := map[];
    keys := [];
    var i := 0;
    while i < |colorList|
      invariant 0 <= i <= |colorList|
      invariant unique == LastWins(colorList[..i]) && keys == Keys(colorList[..i])
    {
      KeysAreNames(colorList[..i]);
      LastWinsKeys(colorList[..i]);
      assert colorList[..i + 1][..i] == colorList[..i];
      var c := colorList[i];
      if c.name !in unique {
        keys := keys + [c.name];
      }
      unique := unique[c.name := c.hex];
      i := i + 1;
    }
    assert colorList[..i] == colorList;
    LastWinsKeys(colorList);
  }

  /** `exportColorList` up to the sheet data handed to the spreadsheet writer. */
  method ExportColorList(colorList: seq<Entry>) returns (sheetData: seq<seq<string>>)
    ensures sheetData == Sheet(colorList)
  {
    var unique, keys := WriteDictionary(colorList);
    var sorted := SortStrings(keys);
    assert sorted == SortedNames(colorList);
    assert forall j :: 0 <= j < |sorted| ==> sorted[j] in unique by {
      assert forall j :: 0 <= j < |sorted| ==> sorted[j] in sorted;
    }
    sheetData := PushRows(sorted, unique);
  }

  /** The `forEach` that pushes `[name, hex]` after the header for every sorted name. */
  method PushRows(sorted: seq<string>, unique: map<string, string>) returns (sheetData: seq<seq<string>>)
    requires forall j :: 0 <= j < |sorted| ==> sorted[j] in unique
    ensures sheetData == [Header] + Rows(sorted, unique)
  {
    sheetData := [Header];
    var k := 0;
    while k < |sorted|
      invariant 0 <= k <= |sorted|
      invariant sheetData == [Header] + Rows(sorted[..k], unique)
    {
      RowsExtend(sorted, k, unique);
      ghost var rows := Rows(sorted[..k], unique);
      assert sheetData + [[sorted[k], unique[sorted[k]]]] == [Header] + (rows + [[sorted[k], unique[sorted[k]]]]);
      sheetData := sheetData + [[sorted[k], unique[sorted[k]]]];
      k := k + 1;
    }
    assert sorted[..k] == sorted;
  }

  /**
   * The sheet is the header and one two-column row per distinct name, the
   * names in strictly ascending order.
   */
  lemma SheetShape(colorList: seq<Entry>)
    ensures var sheet := Sheet(colorList);
      && sheet[0] == Header && |sheet| == |Names(colorList)| + 1
      && (forall k :: 1 <= k < |sheet| ==> |sheet[k]| == 2)
      && (forall k1, k2 :: 1 <= k1 < k2 < |sheet| ==> Less(sheet[k1][0], sheet[k2][0]))
  {
    SortedNamesAscending(colorList);
  }

  /** Every name of the list has a row, and every row's name is in the list. */
  lemma SheetNames(colorList: seq<Entry>, n: string)
    ensures var sheet := Sheet(colorList);
      n in Names(colorList) <==> exists k :: 1 <= k < |sheet| && sheet[k][0] == n
  {
    var sheet, names := Sheet(colorList), SortedNames(colorList);
    if n in Names(colorList) {
      var i :| 0 <= i < |names| && names[i] == n;
      assert sheet[i + 1][0] == n;
    }
  }

  /** Each row's hex is the hex of the last row with that name in the list. */
  lemma SheetValues(colorList: seq<Entry>, k: nat)
    requires 1 <= k < |Sheet(colorList)|
    ensures var row := Sheet(colorList)[k];
      && row[0] in Names(colorList)
      && row == [row[0], colorList[LastIndex(colorList, row[0])].hex]
  {
    var n := SheetRow(colorList, k);
    LastWinsValue(colorList, LastIndex(colorList, n));
  }

  /** Row k of the sheet holds the (k - 1)-th sorted name and its value in the dictionary. */
  lemma SheetRow(colorList: seq<Entry>, k: nat) returns (n: string)
    requires 1 <= k < |Sheet(colorList)|
    ensures n in Names(colorList) && n in LastWins(colorList)
    ensures Sheet(colorList)[k] == [n, LastWins(colorList)[n]]
  {
    var names, unique := SortedNames(colorList), LastWins(colorList);
    n := names[k - 1];
    assert n in names;
    LastWinsKeys(colorList);
  }


  /**
   * The name column does not depend on the order the rows came in or on the
   * sorting algorithm: it is the only strictly ascending listing of the names.
   */
  lemma NameColumnUnique(colorList: seq<Entry>, listing: seq<string>)
    requires StrictlySorted(listing)
    requires forall y :: y in listing <==> y in Names(colorList)
    ensures |listing| + 1 == |Sheet(colorList)|
    ensures forall k :: 0 <= k < |listing| ==> Sheet(colorList)[k + 1][0] == listing[k]
  {
    SortedNamesAscending(colorList);
    StrictlySortedUnique(listing, SortedNames(colorList));
  }
}
