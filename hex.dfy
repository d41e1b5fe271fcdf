/**
 * `hexToRgb` (identical in the three generator files): drop the first `#`,
 * then `parseInt(.., 16)` of the character pairs at 0..2, 2..4 and 4..6.
 * `parseInt` follows ECMAScript: leading white space is skipped, one sign
 * is accepted, a `0x`/`0X` prefix is dropped, and the longest run of hex
 * digits is read; no digit at all gives NaN, written `None` here.
 */
module Hex {
  import opened Wrappers
  import opened JsString
  import opened Pixels

  predicate IsHexDigit(ch: char)
  {
    '0' <= ch <= '9' || 'a' <= ch <= 'f' || 'A' <= ch <= 'F'
  }

  function DigitValue(ch: char): (v: nat)
    requires IsHexDigit(ch)
    ensures v < 16
  {
    if '0' <= ch <= '9' then (ch - '0') as nat
    else if 'a' <= ch <= 'f' then (ch - 'a') as nat + 10
    else (ch - 'A') as nat + 10
  }

  predicate AllHexDigits(s: string)
  {
    forall i :: 0 <= i < |s| ==> IsHexDigit(s[i])
  }

  /** The longest prefix of `s` made of hex digits. */
  function HexPrefix(s: string): (p: string)
    ensures |p| <= |s| && p == s[..|p|]
    ensures AllHexDigits(p)
    ensures |p| < |s| ==> !IsHexDigit(s[|p|])
  {
    if s != [] && IsHexDigit(s[0]) then
      var p := [s[0]] + HexPrefix(s[1..]);
      assert p == s[..|p|];
      p
    else ""
  }

  /** The number the hex digits denote, most significant first. */
  function DigitsValue(p: string): nat
    requires AllHexDigits(p)
  {
    if p == [] then 0 else 16 * DigitsValue(p[..|p| - 1]) + DigitValue(p[|p| - 1])
  }

  function Pow16(n: nat): nat
  {
    if n == 0 then 1 else 16 * Pow16(n - 1)
  }

  lemma {:induction false} DigitsValueBound(p: string)
    requires AllHexDigits(p)
    ensures DigitsValue(p) < Pow16(|p|)
  {
    if p != [] {
      DigitsValueBound(p[..|p| - 1]);
    }
  }

  /** What remains of the trimmed input after the sign and after a `0x` prefix. */
  function Unsigned(t: string): string
  {
    if t != [] && (t[0] == '+' || t[0] == '-') then t[1..] else t
  }

  function StripPrefix(u: string): string
  {
    if |u| >= 2 && u[0] == '0' && (u[1] == 'x' || u[1] == 'X') then u[2..] else u
  }

  /** `parseInt(s, 16)` */
  function ParseIntHex(s: string): Option<int>
  {
    ParseTrimmed(TrimStart(s))
  }

  /** `parseInt(s, 16)` once the leading white space is gone. */
  function ParseTrimmed(t: string): Option<int>
  {
    var negative := t != [] && t[0] == '-';
    var z := HexPrefix(StripPrefix(Unsigned(t)));
    if z == [] then None
    else
      var v: int := DigitsValue(z);
      Some(if negative then -v else v)
  }

  /** The three channels `hexToRgb` returns; each may be NaN. */
  datatype HexRgb = HexRgb(r: Option<int>, g: Option<int>, b: Option<int>)

  function HexToRgb(hex: string): HexRgb
  {
    var h := RemoveFirst(hex, '#');
    HexRgb(ParseIntHex(Slice(h, 0, 2)), ParseIntHex(Slice(h, 2, 4)), ParseIntHex(Slice(h, 4, 6)))
  }

  /** Two hex digits parse to the byte they denote. */
  lemma ParsePair(a: char, b: char)
    requires IsHexDigit(a) && IsHexDigit(b)
    ensures 16 * DigitValue(a) + DigitValue(b) < 256
    ensures ParseIntHex([a, b]) == Some(ByteOf(a, b))
  {
    PairUntouched(a, b);
    PairPrefix(a, b);
    PairValue(a, b);
  }

  /** Neither leading white space, a sign nor a `0x` prefix is found in two hex digits. */
  lemma PairUntouched(a: char, b: char)
    requires IsHexDigit(a) && IsHexDigit(b)
    ensures TrimStart([a, b]) == [a, b]
    ensures Unsigned([a, b]) == [a, b] && StripPrefix([a, b]) == [a, b]
  {
    assert !IsWhiteSpace(a);
  }

  /** Two hex digits are consumed whole. */
  lemma PairPrefix(a: char, b: char)
    requires IsHexDigit(a) && IsHexDigit(b)
    ensures HexPrefix([a, b]) == [a, b]
  {
    var s := [a, b];
    assert s[1..] == [b] && [b][1..] == [];
    assert HexPrefix([b]) == [b];
  }

  /** The value of two hex digits, most significant first. */
  lemma PairValue(a: char, b: char)
    requires IsHexDigit(a) && IsHexDigit(b)
    ensures DigitsValue([a, b]) == 16 * DigitValue(a) + DigitValue(b) < 256
  {
    assert [a, b][..1] == [a] && [a][..0] == [];
    assert DigitsValue([a]) == DigitValue(a);
  }

  /** The byte written by the two hex digits `a`, `b`. */
  function ByteOf(a: char, b: char): Byte
    requires IsHexDigit(a) && IsHexDigit(b)
  {
    16 * DigitValue(a) + DigitValue(b)
  }

  /**
   * A six-digit colour, with or without its leading `#`, parses to the three
   * bytes its digit pairs denote, each in 0..255.
   */
  lemma SixDigits(d: string, hash: bool)
    requires |d| == 6 && AllHexDigits(d)
    ensures HexToRgb(if hash then "#" + d else d)
         == HexRgb(Some(ByteOf(d[0], d[1])), Some(ByteOf(d[2], d[3])), Some(ByteOf(d[4], d[5])))
  {
    var hex := if hash then "#" + d else d;
    if hash {
      RemoveLeading(d, '#');
    } else {
      NoHashInDigits(d);
    }
    PairsOf(d);
    HexToRgbOf(hex, d);
  }

  lemma PairsOf(d: string)
    requires |d| == 6
    requires IsHexDigit(d[0]) && IsHexDigit(d[1]) && IsHexDigit(d[2])
    requires IsHexDigit(d[3]) && IsHexDigit(d[4]) && IsHexDigit(d[5])
    ensures ParseIntHex(Slice(d, 0, 2)) == Some(ByteOf(d[0], d[1]))
    ensures ParseIntHex(Slice(d, 2, 4)) == Some(ByteOf(d[2], d[3]))
    ensures ParseIntHex(Slice(d, 4, 6)) == Some(ByteOf(d[4], d[5]))
  {
    assert ParseIntHex(Slice(d, 0, 2)) == Some(ByteOf(d[0], d[1])) by {
      PairAt(d, 0, d[0], d[1]);
    }
    assert ParseIntHex(Slice(d, 2, 4)) == Some(ByteOf(d[2], d[3])) by {
      PairAt(d, 2, d[2], d[3]);
    }
    assert ParseIntHex(Slice(d, 4, 6)) == Some(ByteOf(d[4], d[5])) by {
      PairAt(d, 4, d[4], d[5]);
    }
  }

  lemma PairAt(d: string, i: nat, a: char, b: char)
    requires i + 1 < |d| && d[i] == a && d[i + 1] == b && IsHexDigit(a) && IsHexDigit(b)
    ensures ParseIntHex(Slice(d, i, i + 2)) == Some(ByteOf(a, b))
  {
    SliceTwo(d, i);
    ParsePair(a, b);
  }

  lemma NoHashInDigits(d: string)
    requires AllHexDigits(d)
    ensures RemoveFirst(d, '#') == d
  {
  }

  lemma HexToRgbOf(hex: string, h: string)
    requires RemoveFirst(hex, '#') == h
    ensures HexToRgb(hex) == HexRgb(ParseIntHex(Slice(h, 0, 2)), ParseIntHex(Slice(h, 2, 4)), ParseIntHex(Slice(h, 4, 6)))
  {
  }

  lemma SliceTwo(d: string, i: nat)
    requires i + 1 < |d|
    ensures Slice(d, i, i + 2) == [d[i], d[i + 1]]
  {
    assert Slice(d, i, i + 2) == d[i..i + 2];
  }

  /** A parsed channel is NaN or lies in -15..255. */
  predicate InChannelRange(v: Option<int>)
  {
    v.Some? ==> -15 <= v.value <= 255
  }

  /** Whatever the input, every channel is NaN or lies in -15..255: at most two digits, possibly negated. */
  lemma ChannelRange(hex: string)
    ensures var c := HexToRgb(hex);
            InChannelRange(c.r) && InChannelRange(c.g) && InChannelRange(c.b)
  {
    var h := RemoveFirst(hex, '#');
    HexToRgbOf(hex, h);
    PairRange(h, 0, 2);
    PairRange(h, 2, 4);
    PairRange(h, 4, 6);
  }

  /** The characters from `from` to `to`, two apart, parse to NaN or a value in -15..255. */
  lemma PairRange(h: string, from: nat, to: nat)
    requires to == from + 2
    ensures InChannelRange(ParseIntHex(Slice(h, from, to)))
  {
    var s := Slice(h, from, to);
    assert |s| <= 2;
    SliceParseRange(s);
  }

  lemma SliceParseRange(s: string)
    requires |s| <= 2
    ensures InChannelRange(ParseIntHex(s))
  {
    var t := TrimStart(s);
    var u := Unsigned(t);
    var z := HexPrefix(StripPrefix(u));
    DigitsValueBound(z);
    assert Pow16(2) == 256;
    if t != [] && t[0] == '-' {
      assert |z| <= 1;
      assert Pow16(1) == 16;
    }
    if |z| == 0 {
      assert Pow16(0) == 1;
    }
  }

  /** The digit `parseInt` reads for each value below 16, as the palette files write it (upper case). */
  function HexDigit(v: nat): (ch: char)
    requires v < 16
    ensures IsHexDigit(ch) && DigitValue(ch) == v
  {
    if v < 10 then ('0' as int + v) as char else ('A' as int + v - 10) as char
  }

  /** `#RRGGBB` for a colour. */
  function FormatHex(c: Rgb): string
  {
    "#" + [HexDigit(c.r / 16), HexDigit(c.r % 16), HexDigit(c.g / 16), HexDigit(c.g % 16),
           HexDigit(c.b / 16), HexDigit(c.b % 16)]
  }

  /** Parsing a formatted colour gives the colour back. */
  lemma HexRoundTrip(c: Rgb)
    ensures HexToRgb(FormatHex(c)) == HexRgb(Some(c.r), Some(c.g), Some(c.b))
  {
    var d := [HexDigit(c.r / 16), HexDigit(c.r % 16), HexDigit(c.g / 16), HexDigit(c.g % 16),
              HexDigit(c.b / 16), HexDigit(c.b % 16)];
    assert FormatHex(c) == "#" + d;
    assert AllHexDigits(d);
    assert ByteOf(d[0], d[1]) == c.r && ByteOf(d[2], d[3]) == c.g && ByteOf(d[4], d[5]) == c.b;
    SixDigits(d, true);
  }

  /** Upper-casing the ASCII letters of a hex colour does not change what it parses to. */
  lemma UpperCaseParsesAlike(hex: string)
    ensures HexToRgb(ToUpperAscii(hex)) == HexToRgb(hex)
  {
    var h := RemoveFirst(hex, '#');
    var H := RemoveFirst(ToUpperAscii(hex), '#');
    UpperRemoveFirst(hex);
    assert H == ToUpperAscii(h);
    UpperSlice(h, 0, 2);
    UpperSlice(h, 2, 4);
    UpperSlice(h, 4, 6);
    UpperParse(Slice(h, 0, 2));
    UpperParse(Slice(h, 2, 4));
    UpperParse(Slice(h, 4, 6));
  }

  lemma UpperRemoveFirst(s: string)
    ensures RemoveFirst(ToUpperAscii(s), '#') == ToUpperAscii(RemoveFirst(s, '#'))
  {
    UpperIndexOf(s);
    if '#' in s {
      var i := IndexOf(s, '#');
      var S := ToUpperAscii(s);
      assert S[..i] == ToUpperAscii(s[..i]);
      assert S[i + 1..] == ToUpperAscii(s[i + 1..]);
    }
  }

  /** Upper-casing neither adds nor moves a `#`. */
  lemma {:induction false} UpperIndexOf(s: string)
    ensures '#' in ToUpperAscii(s) <==> '#' in s
    ensures '#' in s ==> IndexOf(ToUpperAscii(s), '#') == IndexOf(s, '#')
  {
    var S := ToUpperAscii(s);
    if s != [] {
      assert S[0] == '#' <==> s[0] == '#';
      assert S[1..] == ToUpperAscii(s[1..]);
      UpperIndexOf(s[1..]);
      assert '#' in s <==> s[0] == '#' || '#' in s[1..] by {
        assert s == [s[0]] + s[1..];
      }
      assert '#' in S <==> S[0] == '#' || '#' in S[1..] by {
        assert S == [S[0]] + S[1..];
      }
    }
  }

  lemma UpperSlice(s: string, from: nat, to: nat)
    requires from <= to
    ensures Slice(ToUpperAscii(s), from, to) == ToUpperAscii(Slice(s, from, to))
  {
  }

  lemma UpperParse(s: string)
    ensures ParseIntHex(ToUpperAscii(s)) == ParseIntHex(s)
  {
    UpperTrimStart(s);
    UpperParseTrimmed(TrimStart(s));
  }

  lemma UpperParseTrimmed(t: string)
    ensures ParseTrimmed(ToUpperAscii(t)) == ParseTrimmed(t)
  {
    var T := ToUpperAscii(t);
    var u := Unsigned(t);
    var z := HexPrefix(StripPrefix(u));
    assert HexPrefix(StripPrefix(Unsigned(T))) == ToUpperAscii(z) by {
      UpperUnsigned(t);
      UpperStripPrefix(u);
      UpperHexPrefix(StripPrefix(u));
    }
    UpperDigitsValue(z);
    UpperKeepsEmpty(z);
    UpperKeepsMinus(t);
  }

  lemma UpperKeepsEmpty(s: string)
    ensures ToUpperAscii(s) == [] <==> s == []
  {
  }

  lemma UpperKeepsMinus(t: string)
    ensures (ToUpperAscii(t) != [] && ToUpperAscii(t)[0] == '-') <==> (t != [] && t[0] == '-')
  {
  }

  lemma UpperUnsigned(t: string)
    ensures Unsigned(ToUpperAscii(t)) == ToUpperAscii(Unsigned(t))
  {
    if t != [] {
      assert ToUpperAscii(t)[1..] == ToUpperAscii(t[1..]);
    }
  }

  lemma UpperStripPrefix(u: string)
    ensures StripPrefix(ToUpperAscii(u)) == ToUpperAscii(StripPrefix(u))
  {
    if |u| >= 2 {
      assert ToUpperAscii(u)[2..] == ToUpperAscii(u[2..]);
    }
  }

  lemma {:induction false} UpperTrimStart(s: string)
    ensures TrimStart(ToUpperAscii(s)) == ToUpperAscii(TrimStart(s))
  {
    if s != [] {
      var S := ToUpperAscii(s);
      assert S[1..] == ToUpperAscii(s[1..]);
      assert IsWhiteSpace(S[0]) == IsWhiteSpace(s[0]);
      if IsWhiteSpace(s[0]) {
        UpperTrimStart(s[1..]);
        assert TrimStart(S) == TrimStart(S[1..]);
        assert TrimStart(s) == TrimStart(s[1..]);
      }
    }
  }

  lemma {:induction false} UpperHexPrefix(s: string)
    ensures HexPrefix(ToUpperAscii(s)) == ToUpperAscii(HexPrefix(s))
  {
    if s != [] {
      assert ToUpperAscii(s)[1..] == ToUpperAscii(s[1..]);
      UpperHexPrefix(s[1..]);
      if IsHexDigit(s[0]) {
        assert ToUpperAscii(HexPrefix(s)) == [UpperChar(s[0])] + ToUpperAscii(HexPrefix(s[1..]));
      }
    }
  }

  lemma {:induction false} UpperDigitsValue(p: string)
    requires AllHexDigits(p)
    ensures AllHexDigits(ToUpperAscii(p))
    ensures DigitsValue(ToUpperAscii(p)) == DigitsValue(p)
  {
    if p != [] {
      var P := ToUpperAscii(p);
      assert P[..|P| - 1] == ToUpperAscii(p[..|p| - 1]);
      UpperDigitsValue(p[..|p| - 1]);
    }
  }
}
