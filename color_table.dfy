/**
 * The colour-table loader (src/utils/colorTable.js) once the CSV text has been
 * fetched: the text is trimmed and cut into lines, the header line is
 * skipped, and every other line `name,hex[,...]` with a non-empty name and
 * hex field whose trimmed name begins with A-M or a-m becomes an entry with
 * the trimmed name and the trimmed, upper-cased hex. `getColorMap` then
 * writes the entries into a dictionary keyed by name.
 */
module ColorTable {
  import opened Wrappers
  import opened JsString
  import opened Palette
  import opened Sequences
  import opened Dedup
  import Hex

  /** `text.trim().split('\n')` */
  function Lines(text: string): (lines: seq<string>)
    ensures |lines| >= 1
  {
    Split(Trim(text), '\n')
  }

  /**
   * The entry one data line yields. Destructuring `[name, hex]` leaves `hex`
   * undefined when the line has no comma, and an empty field is falsy; the
   * test is on the untrimmed fields.
   */
  function LineEntry(line: string): Option<Entry>
  {
    var fields := Split(line, ',');
    if |fields| >= 2 && fields[0] != "" && fields[1] != "" && StartsWithAToM(Trim(fields[0])) then
      Some(Entry(Trim(fields[0]), ToUpperAscii(Trim(fields[1]))))
    else None
  }

  /** The table `loadColorTable` resolves to: the entries of the lines after the header, in order. */
  function ParseTable(text: string): seq<Entry>
  {
    FilterMap(Lines(text)[1..], LineEntry)
  }

  /** `loadColorTable` once the text is fetched. */
  method LoadColorTable(text: string) returns (result: seq<Entry>)
    ensures result == ParseTable(text)
  {
    var lines := Split(Trim(text), '\n');
    result := ParseLines(lines);
  }

  /** The loop over the data lines of `loadColorTable`. */
  method ParseLines(lines: seq<string>) returns (result: seq<Entry>)
    requires |lines| >= 1
    ensures result == FilterMap(lines[1..], LineEntry)
  {
    result := [];
    var i := 1;
    while i < |lines|
      invariant 1 <= i <= |lines|
      invariant result == FilterMap(lines[1..i], LineEntry)
    {
      FilterMapExtend(lines, 1, i, LineEntry);
      var entry := ParseLine(lines[i]);
      if entry.Some? {
        result := result + [entry.value];
      }
      i := i + 1;
    }
    assert lines[1..i] == lines[1..];
  }

  /** The body of that loop: the destructured fields, the two tests, and the entry pushed. */
  method ParseLine(line: string) returns (entry: Option<Entry>)
    ensures entry == LineEntry(line)
  {
    var fields := Split(line, ',');
    entry := None;
    if |fields| >= 2 && fields[0] != "" && fields[1] != "" {
      var name, hex := fields[0], fields[1];
      if StartsWithAToM(Trim(name)) {
        entry := Some(Entry(Trim(name), ToUpperAscii(Trim(hex))));
      }
    }
  }

  /**
   * Every entry comes from a data line (never the header, line 0), in line
   * order, and every data line that qualifies yields its entry; hence there
   * are at most as many entries as data lines.
   */
  lemma TableFromLines(text: string)
    ensures var lines, table := Lines(text), ParseTable(text);
      var o := Origins(lines[1..], LineEntry);
      && |o| == |table| <= |lines| - 1
      && (forall k :: 0 <= k < |table| ==> 1 <= o[k] + 1 < |lines| && LineEntry(lines[o[k] + 1]) == Some(table[k]))
      && (forall k1, k2 :: 0 <= k1 < k2 < |table| ==> o[k1] < o[k2])
      && (forall i :: 1 <= i < |lines| && LineEntry(lines[i]).Some? ==> i - 1 in o)
  {
    var lines := Lines(text);
    FilterMapOrigins(lines[1..], LineEntry);
    forall i | 1 <= i < |lines| && LineEntry(lines[i]).Some?
      ensures i - 1 in Origins(lines[1..], LineEntry)
    {
      assert lines[1..][i - 1] == lines[i];
    }
  }

  /** No white space at either end of a string. */
  predicate Trimmed(s: string)
  {
    s != [] ==> !IsWhiteSpace(s[0]) && !IsWhiteSpace(s[|s| - 1])
  }

  /**
   * A line's entry has a trimmed name beginning with A-M or a-m, and a hex
   * with no lower-case ASCII letter that parses to the same channels as the
   * raw second field.
   */
  lemma EntryShape(line: string)
    requires LineEntry(line).Some?
    ensures var e := LineEntry(line).value;
      && StartsWithAToM(e.name) && Trimmed(e.name)
      && (forall i :: 0 <= i < |e.hex| ==> !('a' <= e.hex[i] <= 'z'))
      && Hex.HexToRgb(e.hex) == Hex.HexToRgb(Trim(Split(line, ',')[1]))
  {
    Hex.UpperCaseParsesAlike(Trim(Split(line, ',')[1]));
  }

  /** Every entry of the table has a trimmed name beginning with A-M or a-m and a hex with no lower-case ASCII letter. */
  lemma TableEntriesShape(text: string)
    ensures forall e :: e in ParseTable(text) ==>
      && StartsWithAToM(e.name) && Trimmed(e.name)
      && (forall i :: 0 <= i < |e.hex| ==> !('a' <= e.hex[i] <= 'z'))
  {
    var data := Lines(text)[1..];
    forall e | e in ParseTable(text)
      ensures StartsWithAToM(e.name) && Trimmed(e.name)
      ensures forall i :: 0 <= i < |e.hex| ==> !('a' <= e.hex[i] <= 'z')
    {
      var i := FilterMapFrom(data, LineEntry, e);
      EntryShape(data[i]);
    }
  }

  /** A line `name,hex` whose fields hold no comma: the entry is decided by the two fields alone. */
  lemma TwoFields(name: string, hex: string)
    requires ',' !in name && ',' !in hex
    ensures LineEntry(name + "," + hex) ==
      if name != "" && hex != "" && StartsWithAToM(Trim(name)) then Some(Entry(Trim(name), ToUpperAscii(Trim(hex))))
      else None
  {
    SplitWithout(hex, ',');
    var tail := "," + hex;
    assert tail == [','] + hex;
    assert tail[1..] == hex;
    assert Split(tail, ',') == ["", hex];
    SplitAppend(name, tail, ',');
    assert name + "" == name;
    assert name + "," + hex == name + tail;
    assert Split(name + "," + hex, ',') == [name, hex];
  }

  /** Fields after the second are ignored. */
  lemma ExtraFieldsIgnored(name: string, hex: string, tail: string)
    requires ',' !in name && ',' !in hex
    ensures LineEntry(name + "," + hex + "," + tail) == LineEntry(name + "," + hex)
  {
    var rest := Split(tail, ',');
    var t1 := "," + tail;
    assert t1[0] == ',' && t1[1..] == tail;
    assert Split(t1, ',') == [""] + rest;
    SplitAppend(hex, t1, ',');
    assert hex + "" == hex;
    assert Split(hex + t1, ',') == [hex] + rest;
    var t2 := "," + (hex + t1);
    assert t2[0] == ',' && t2[1..] == hex + t1;
    assert Split(t2, ',') == [""] + ([hex] + rest);
    SplitAppend(name, t2, ',');
    assert name + "" == name;
    assert name + "," + hex + "," + tail == name + t2;
    var fields := Split(name + "," + hex + "," + tail, ',');
    assert fields[0] == name && fields[1] == hex;
    TwoFields(name, hex);
  }

  /**
   * The emptiness test is on the untrimmed hex field: a field of white space
   * passes it and the entry gets an empty hex.
   */
  lemma BlankHexKept(name: string, blank: string)
    requires ',' !in name && ',' !in blank
    requires name != "" && StartsWithAToM(Trim(name))
    requires blank != "" && AllWhiteSpace(blank)
    ensures LineEntry(name + "," + blank) == Some(Entry(Trim(name), ""))
  {
    TwoFields(name, blank);
    TrimAllWhiteSpace(blank);
  }

  /** `getColorMap`: the loaded table written into a dictionary entry by entry. */
  method GetColorMap(text: string) returns (m: map<string, string>)
    ensures m == LastWins(ParseTable(text))
    ensures m.Keys == Names(ParseTable(text))
  {
    var table := LoadColorTable(text);
    m := WriteEntries(table);
    LastWinsKeys(table);
  }

  /** The `forEach` of `getColorMap`: `map[name] = hex` for every entry in order. */
  method WriteEntries(table: seq<Entry>) returns (m: map<string, string>)
    ensures m == LastWins(table)
  {
    m := map[];
    var i := 0;
    while i < |table|
      invariant 0 <= i <= |table|
      invariant m == LastWins(table[..i])
    {
      assert LastWins(table[..i + 1]) == m[table[i].name := table[i].hex] by {
        assert table[..i + 1] == table[..i] + [table[i]];
        LastWinsSnoc(table[..i], table[i]);
      }
      m := m[table[i].name := table[i].hex];
      i := i + 1;
    }
    assert table[..i] == table;
  }
}
