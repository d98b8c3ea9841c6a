/** The few pieces of Python 2 string behaviour the core relies on:
    `str.split` with a one-character separator, `int()` of a decimal string,
    and the `%02d` / `%0.2d` integer formats. */
module Text {
  import opened Wrappers

  /** `s.split(sep)` for a one-character separator: always at least one piece. */
  function Split(s: string, sep: char): (parts: seq<string>)
    ensures |parts| >= 1
    ensures forall i :: 0 <= i < |parts| ==> sep !in parts[i]
    ensures Join(parts, sep) == s
    decreases |s|
  {
    if |s| == 0 then [""]
    else if s[0] == sep then
      var rest := Split(s[1..], sep);
      assert s == [sep] + s[1..];
      [""] + rest
    else
      var rest := Split(s[1..], sep);
      assert s == [s[0]] + s[1..];
      JoinCons(s[0], rest, sep);
      [[s[0]] + rest[0]] + rest[1..]
  }

  /** `sep.join(parts)`, the inverse of Split. */
  function Join(parts: seq<string>, sep: char): string
    requires |parts| >= 1
    decreases |parts|
  {
    if |parts| == 1 then parts[0] else parts[0] + [sep] + Join(parts[1..], sep)
  }

  lemma JoinCons(c: char, parts: seq<string>, sep: char)
    requires |parts| >= 1
    ensures Join([[c] + parts[0]] + parts[1..], sep) == [c] + Join(parts, sep)
  {
    var ps := [[c] + parts[0]] + parts[1..];
    assert ps[1..] == parts[1..];
  }

  /** Four pieces joined, written out. */
  lemma Join4(a: string, b: string, c: string, d: string, sep: char)
    ensures Join([a, b, c, d], sep) == a + [sep] + b + [sep] + c + [sep] + d
  {
    assert [a, b, c, d][1..] == [b, c, d];
    assert [b, c, d][1..] == [c, d];
    assert [c, d][1..] == [d];
    assert Join([c, d], sep) == c + [sep] + d;
    assert Join([b, c, d], sep) == b + [sep] + (c + [sep] + d);
    assert Join([a, b, c, d], sep) == a + [sep] + (b + [sep] + (c + [sep] + d));
    assert a + [sep] + (b + [sep] + (c + [sep] + d)) == a + [sep] + b + [sep] + c + [sep] + d;
  }

  /** Splitting a join of separator-free pieces gives the pieces back. */
  lemma {:induction false} SplitJoin(parts: seq<string>, sep: char)
    requires |parts| >= 1
    requires forall i :: 0 <= i < |parts| ==> sep !in parts[i]
    ensures Split(Join(parts, sep), sep) == parts
    decreases |parts|, |parts[0]|
  {
    if |parts[0]| > 0 {
      var p0 := parts[0];
      var tail := [p0[1..]] + parts[1..];
      assert tail[1..] == parts[1..];
      assert Join(parts, sep) == [p0[0]] + Join(tail, sep) by {
        if |parts| > 1 {
          assert Join(tail, sep) == p0[1..] + [sep] + Join(parts[1..], sep);
          assert p0 == [p0[0]] + p0[1..];
        } else {
          assert p0 == [p0[0]] + p0[1..];
        }
      }
      assert sep !in tail[0];
      SplitJoin(tail, sep);
      var s := Join(parts, sep);
      assert s[0] == p0[0] && s[1..] == Join(tail, sep);
      assert [[p0[0]] + tail[0]] + tail[1..] == parts;
    } else if |parts| > 1 {
      SplitJoin(parts[1..], sep);
      var s := Join(parts, sep);
      assert s == [sep] + Join(parts[1..], sep);
      assert s[1..] == Join(parts[1..], sep);
      assert [""] + parts[1..] == parts;
    }
  }

  predicate IsDigit(c: char) { '0' <= c <= '9' }

  predicate AllDigits(s: string) { forall i :: 0 <= i < |s| ==> IsDigit(s[i]) }

  /** Python's whitespace for byte strings: space, tab, LF, VT, FF, CR. */
  predicate IsSpace(c: char) { c == ' ' || c == '\t' || c == '\n' || c == '\r' || c == 11 as char || c == 12 as char }

  /** `s.strip()`: drops leading and trailing whitespace. */
  function Strip(s: string): (t: string)
    ensures |t| <= |s|
    ensures |t| > 0 ==> !IsSpace(t[0]) && !IsSpace(t[|t| - 1])
    decreases |s|
  {
    if |s| > 0 && IsSpace(s[0]) then Strip(s[1..])
    else if |s| > 0 && IsSpace(s[|s| - 1]) then Strip(s[..|s| - 1])
    else s
  }

  /** Decimal value of a digit string, most significant digit first. */
  function DigitsValue(s: string): nat
    requires AllDigits(s)
  {
    if |s| == 0 then 0 else DigitsValue(s[..|s| - 1]) * 10 + (s[|s| - 1] as int - '0' as int)
  }

  /** Leading whitespace dropped. */
  function DropSpaces(s: string): (t: string)
    ensures |t| <= |s|
    ensures |t| > 0 ==> !IsSpace(t[0])
  {
    if |s| > 0 && IsSpace(s[0]) then DropSpaces(s[1..]) else s
  }

  /** `int(s)` on a byte string in base 10 (Python 2 reads it with
      `strtol`): whitespace around the number, an optional sign, more
      whitespace after the sign, then one or more digits; anything else
      raises ValueError, here `None`. */
  function ParseInt(s: string): (r: Option<int>)
    ensures r.Some? ==> |Strip(s)| > 0
  {
    var t := Strip(s);
    if |t| > 0 && (t[0] == '-' || t[0] == '+') then
      var ds := DropSpaces(t[1..]);
      if |ds| > 0 && AllDigits(ds) then
        var v: int := DigitsValue(ds);
        Some(if t[0] == '-' then -v else v)
      else None
    else if |t| > 0 && AllDigits(t) then Some(DigitsValue(t))
    else None
  }

  function DigitChar(d: nat): (c: char)
    requires d < 10
    ensures IsDigit(c) && c as int - '0' as int == d
  {
    ('0' as int + d) as char
  }

  /** The shortest decimal representation of a natural number. */
  function ShowNat(n: nat): (s: string)
    ensures |s| >= 1 && AllDigits(s)
  {
    if n < 10 then [DigitChar(n)] else ShowNat(n / 10) + [DigitChar(n % 10)]
  }

  lemma {:induction false} ShowNatValue(n: nat)
    ensures DigitsValue(ShowNat(n)) == n
  {
    if n >= 10 {
      var s := ShowNat(n);
      assert s[..|s| - 1] == ShowNat(n / 10);
      ShowNatValue(n / 10);
    }
  }

  lemma {:induction false} LeadingZeroValue(s: string)
    requires AllDigits(s)
    ensures AllDigits("0" + s) && DigitsValue("0" + s) == DigitsValue(s)
  {
    if |s| > 0 {
      var z := "0" + s;
      assert z[..|z| - 1] == "0" + s[..|s| - 1];
      LeadingZeroValue(s[..|s| - 1]);
    }
  }

  /** `'%02d' % n` for n >= 0: at least two digits, zero-padded. */
  function Pad2(n: nat): (s: string)
    ensures |s| >= 2 && AllDigits(s)
  {
    if n < 10 then "0" + ShowNat(n) else ShowNat(n)
  }

  /** `'%0.2d' % v`: a minus sign for negative values, then at least two digits. */
  function FormatPrec2(v: int): (s: string)
    ensures |s| >= 2
  {
    if v < 0 then "-" + Pad2(-v) else Pad2(v)
  }

  /** A string that neither starts nor ends with whitespace is its own strip. */
  lemma StripKeeps(s: string)
    requires |s| > 0 && !IsSpace(s[0]) && !IsSpace(s[|s| - 1])
    ensures Strip(s) == s
  {
  }

  lemma Pad2Value(n: nat)
    ensures DigitsValue(Pad2(n)) == n
  {
    ShowNatValue(n);
    if n < 10 {
      LeadingZeroValue(ShowNat(n));
    }
  }

  /** Python's `int()` reads a padded field back as the number it shows. */
  lemma ParsePad2(n: nat)
    ensures ParseInt(Pad2(n)) == Some(n)
  {
    var s := Pad2(n);
    assert IsDigit(s[0]) && IsDigit(s[|s| - 1]);
    StripKeeps(s);
    Pad2Value(n);
  }

  /** `int('-' + digits)` is minus their value. */
  lemma ParseNegative(p: string, x: int)
    requires |p| > 0 && AllDigits(p) && DigitsValue(p) == x
    ensures ParseInt("-" + p) == Some(-x)
  {
    var s := "-" + p;
    assert IsDigit(p[|p| - 1]) && s[|s| - 1] == p[|p| - 1];
    StripKeeps(s);
    assert s[1..] == p && !IsSpace(p[0]);
  }

  /** `int()` of a stripped string that starts with a minus sign. */
  lemma ParseMinus(s: string, p: string, x: int)
    requires |Strip(s)| > 0 && Strip(s)[0] == '-' && DropSpaces(Strip(s)[1..]) == p
    requires |p| > 0 && AllDigits(p) && DigitsValue(p) == x
    ensures ParseInt(s) == Some(-x)
  {
  }

  lemma DropOneSpace(p: string)
    requires |p| > 0 && !IsSpace(p[0])
    ensures DropSpaces(" " + p) == p
  {
    assert (" " + p)[1..] == p;
  }

  /** Whitespace between the sign and the digits is skipped. */
  lemma SpaceAfterSign(p: string, x: int)
    requires |p| > 0 && AllDigits(p) && DigitsValue(p) == x
    ensures ParseInt("- " + p) == Some(-x)
  {
    var s := "- " + p;
    assert IsDigit(p[|p| - 1]) && s[|s| - 1] == p[|p| - 1];
    StripKeeps(s);
    assert s[1..] == " " + p;
    assert IsDigit(p[0]);
    DropOneSpace(p);
    ParseMinus(s, p, x);
  }

  /** ... and a signed field as well: `int('%0.2d' % v) == v`. */
  lemma ParseFormatPrec2(v: int)
    ensures ParseInt(FormatPrec2(v)) == Some(v)
  {
    if v < 0 {
      Pad2Value(-v);
      ParseNegative(Pad2(-v), -v);
    } else {
      ParsePad2(v);
    }
  }

  /** A formatted field holds no `:`. */
  lemma FormatPrec2NoColon(v: int)
    ensures ':' !in FormatPrec2(v)
  {
    var s := FormatPrec2(v);
    if v < 0 {
      assert s == "-" + Pad2(-v);
      assert forall i :: 0 <= i < |s| ==> s[i] == '-' || IsDigit(s[i]);
    } else {
      assert AllDigits(s);
    }
  }
}
