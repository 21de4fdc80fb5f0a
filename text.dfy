/**
 * The few Python string operations the bot relies on: `str.split(sep)`,
 * `sep.join`, `str.strip()`, `str.isdigit()`, `int(s)` and `float(s)`,
 * over `string` (a sequence of Unicode scalar values).
 */
module Text {
  import opened Wrappers

  // ---------------------------------------------------------------------
  // Digits: str.isdigit() and int()
  // ---------------------------------------------------------------------

  /** A decimal digit. Python's isdigit also accepts non-ASCII digits; this model does not. */
  predicate IsDigitChar(c: char) {
    '0' <= c <= '9'
  }

  predicate AllDigits(s: string) {
    forall i :: 0 <= i < |s| ==> IsDigitChar(s[i])
  }

  /** `s.isdigit()`: false on the empty string. */
  predicate IsDigits(s: string) {
    |s| > 0 && AllDigits(s)
  }

  function DigitValue(c: char): nat
    requires IsDigitChar(c)
  {
    c as int - '0' as int
  }

  function DigitChar(d: nat): char
    requires d < 10
  {
    ('0' as int + d) as char
  }

  /** `int(s)` for a string of decimal digits (leading zeros allowed, as in Python). */
  function DigitsValue(s: string): nat
    requires AllDigits(s)
  {
    if s == [] then 0 else DigitsValue(s[..|s| - 1]) * 10 + DigitValue(s[|s| - 1])
  }

  /** `str(n)`: the decimal rendering of a natural number. */
  function ShowNat(n: nat): (s: string)
    ensures IsDigits(s)
    ensures |s| > 1 ==> s[0] != '0'
  {
    if n < 10 then [DigitChar(n)] else ShowNat(n / 10) + [DigitChar(n % 10)]
  }

  /** int(str(n)) == n. */
  lemma {:induction false} ShowNatRoundTrip(n: nat)
    ensures DigitsValue(ShowNat(n)) == n
  {
    if n >= 10 {
      var s := ShowNat(n);
      assert s[..|s| - 1] == ShowNat(n / 10);
      ShowNatRoundTrip(n / 10);
    }
  }

  /** A digit string is worth zero exactly when every digit is '0' ("0", "00", ...). */
  lemma {:induction false} DigitsValueZero(s: string)
    requires AllDigits(s)
    ensures DigitsValue(s) == 0 <==> forall i :: 0 <= i < |s| ==> s[i] == '0'
  {
    if s != [] {
      var p := s[..|s| - 1];
      DigitsValueZero(p);
      if DigitsValue(s) == 0 {
        forall i | 0 <= i < |s| ensures s[i] == '0' {
          if i < |s| - 1 { assert s[i] == p[i]; }
        }
      } else if forall i :: 0 <= i < |s| ==> s[i] == '0' {
        assert false;
      }
    }
  }

  // ---------------------------------------------------------------------
  // str.split(sep) and sep.join(parts)
  // ---------------------------------------------------------------------

  /** Position of the first occurrence of `c` (Python's `s.find(c)` when it is found). */
  function IndexOf(s: string, c: char): (i: nat)
    requires c in s
    ensures i < |s| && s[i] == c
    ensures c !in s[..i]
  {
    if s[0] == c then 0
    else
      assert c in s[1..] by {
        var k :| 0 <= k < |s| && s[k] == c;
        assert s[1..][k - 1] == c;
      }
      1 + IndexOf(s[1..], c)
  }

  /** `s.split(sep)` with a one-character separator: never empty, and keeps empty pieces. */
  function Split(s: string, sep: char): (parts: seq<string>)
    ensures |parts| > 0
    ensures forall i :: 0 <= i < |parts| ==> sep !in parts[i]
    decreases |s|
  {
    if sep !in s then [s]
    else
      var i := IndexOf(s, sep);
      [s[..i]] + Split(s[i + 1..], sep)
  }

  /** `sep.join(parts)`. */
  function Join(parts: seq<string>, sep: char): string
    requires |parts| > 0
  {
    if |parts| == 1 then parts[0] else parts[0] + [sep] + Join(parts[1..], sep)
  }

  /** Joining the pieces of a split gives back the string. */
  lemma {:induction false} JoinSplit(s: string, sep: char)
    ensures Join(Split(s, sep), sep) == s
    decreases |s|
  {
    if sep in s {
      var i := IndexOf(s, sep);
      JoinSplit(s[i + 1..], sep);
      assert Split(s, sep)[1..] == Split(s[i + 1..], sep);
      assert s == s[..i] + [sep] + s[i + 1..];
    }
  }

  /** Splitting a join of separator-free pieces gives back the pieces. */
  lemma {:induction false} SplitJoin(parts: seq<string>, sep: char)
    requires |parts| > 0
    requires forall i :: 0 <= i < |parts| ==> sep !in parts[i]
    ensures Split(Join(parts, sep), sep) == parts
  {
    var p := parts[0];
    if |parts| > 1 {
      var rest := Join(parts[1..], sep);
      var s := p + [sep] + rest;
      assert s[|p|] == sep;
      assert s[..|p|] == p;
      assert IndexOf(s, sep) == |p| by {
        var k := IndexOf(s, sep);
        if k < |p| {
          assert false;
        } else if k > |p| {
          assert false;
        }
      }
      assert s[|p| + 1..] == rest;
      SplitJoin(parts[1..], sep);
    }
  }

  // ---------------------------------------------------------------------
  // str.strip()
  // ---------------------------------------------------------------------

  /** Python's str.isspace() for one character. */
  predicate IsSpace(c: char) {
    || c == ' '
    || '\t' <= c <= '\r'
    || '\U{1C}' <= c <= '\U{1F}'
    || c == '\U{85}' || c == '\U{A0}' || c == '\U{1680}'
    || '\U{2000}' <= c <= '\U{200A}'
    || c == '\U{2028}' || c == '\U{2029}' || c == '\U{202F}' || c == '\U{205F}' || c == '\U{3000}'
  }

  /** `s.lstrip()`: drops the leading whitespace and nothing else. */
  function StripLeft(s: string): (r: string)
    ensures |r| <= |s| && r == s[|s| - |r|..]
    ensures forall i :: 0 <= i < |s| - |r| ==> IsSpace(s[i])
    ensures r == [] || !IsSpace(r[0])
  {
    if |s| > 0 && IsSpace(s[0]) then StripLeft(s[1..]) else s
  }

  /** `s.rstrip()`: drops the trailing whitespace and nothing else. */
  function StripRight(s: string): (r: string)
    ensures |r| <= |s| && r == s[..|r|]
    ensures forall i :: |r| <= i < |s| ==> IsSpace(s[i])
    ensures r == [] || !IsSpace(r[|r| - 1])
  {
    if |s| > 0 && IsSpace(s[|s| - 1]) then StripRight(s[..|s| - 1]) else s
  }

  /** `s.strip()`. */
  function Strip(s: string): (r: string)
    ensures r == [] || (!IsSpace(r[0]) && !IsSpace(r[|r| - 1]))
  {
    var l := StripLeft(s);
    var r := StripRight(l);
    assert r != [] ==> r[0] == l[0];
    r
  }

  /** What strip keeps sits in `s` right where lstrip stops, character for character. */
  lemma StripSlice(s: string)
    ensures var r, lo := Strip(s), |s| - |StripLeft(s)|;
      lo + |r| <= |s| && forall j :: 0 <= j < |r| ==> r[j] == s[lo + j]
  {
    var l, r := StripLeft(s), Strip(s);
    assert r == StripRight(l);
  }

  /** What rstrip removes from a suffix of `s` is whitespace of `s`. */
  lemma StripRightOfSuffix(s: string, lo: nat)
    requires lo <= |s|
    ensures forall i :: lo + |StripRight(s[lo..])| <= i < |s| ==> IsSpace(s[i])
  {
    var l := s[lo..];
    var r := StripRight(l);
    forall i | lo + |r| <= i < |s| ensures IsSpace(s[i]) {
      assert IsSpace(l[i - lo]);
    }
  }

  /** What strip removes around that slice is whitespace only. */
  lemma StripRemovesSpace(s: string)
    ensures var r, lo := Strip(s), |s| - |StripLeft(s)|;
      && (forall i :: 0 <= i < lo ==> IsSpace(s[i]))
      && (forall i :: lo + |r| <= i < |s| ==> IsSpace(s[i]))
  {
    var l := StripLeft(s);
    var lo := |s| - |l|;
    assert Strip(s) == StripRight(s[lo..]);
    StripRightOfSuffix(s, lo);
  }

  /** A string with no whitespace at either end is its own strip; in particular strip is idempotent. */
  lemma StripTrimmed(s: string)
    requires s == [] || (!IsSpace(s[0]) && !IsSpace(s[|s| - 1]))
    ensures Strip(s) == s
  {
  }

  // ---------------------------------------------------------------------
  // float(s) on plain decimal numerals
  // ---------------------------------------------------------------------

  /** The value of the digits after the decimal point: 0.d1d2… is (d1 + 0.d2…) / 10. */
  function FractionValue(frac: string): real
    requires AllDigits(frac)
  {
    if frac == [] then 0.0 else (DigitValue(frac[0]) as real + FractionValue(frac[1..])) / 10.0
  }

  /** An unsigned decimal numeral: digits, optionally a '.' and more digits, with at least one digit in all. */
  function ParseUnsigned(s: string): Option<real> {
    if '.' in s then
      var i := IndexOf(s, '.');
      var whole, frac := s[..i], s[i + 1..];
      if AllDigits(whole) && AllDigits(frac) && |whole| + |frac| > 0 then
        Some(DigitsValue(whole) as real + FractionValue(frac))
      else None
    else if IsDigits(s) then Some(DigitsValue(s) as real)
    else None
  }

  /** `float(s)` when it succeeds on a plain decimal numeral with an optional sign; None where Python raises ValueError. */
  function ParseDecimal(s: string): Option<real> {
    if |s| > 0 && s[0] == '-' then
      match ParseUnsigned(s[1..])
      case Some(v) => Some(-v)
      case None => None
    else if |s| > 0 && s[0] == '+' then ParseUnsigned(s[1..])
    else ParseUnsigned(s)
  }

  function Abs(x: real): (r: real)
    ensures r >= 0.0 && (r == x || r == -x)
  {
    if x < 0.0 then -x else x
  }

  /** Every numeral needs a digit: "", ".", "-", "+." and words are refused. */
  lemma ParseDecimalNeedsDigit(s: string)
    requires ParseDecimal(s).Some?
    ensures exists i :: 0 <= i < |s| && IsDigitChar(s[i])
  {
    var t := if |s| > 0 && (s[0] == '-' || s[0] == '+') then s[1..] else s;
    assert ParseUnsigned(t).Some?;
    var j: nat;
    if '.' in t {
      var k := IndexOf(t, '.');
      if |t[..k]| > 0 { j := 0; assert t[..k][0] == t[0]; }
      else { j := k + 1; assert t[k + 1..][0] == t[k + 1]; }
    } else {
      j := 0;
    }
    assert IsDigitChar(t[j]);
    if t != s { assert s[j + 1] == t[j]; }
  }

  /** A digit string reads as the integer it spells, with either sign. */
  lemma {:induction false} ParseDecimalDigits(s: string)
    requires IsDigits(s)
    ensures ParseDecimal(s) == Some(DigitsValue(s) as real)
    ensures ParseDecimal("-" + s) == Some(-(DigitsValue(s) as real))
    ensures ParseDecimal("+" + s) == Some(DigitsValue(s) as real)
  {
    assert s[0] != '-' && s[0] != '+';
    assert '.' !in s by {
      assert forall i :: 0 <= i < |s| ==> s[i] != '.';
    }
    assert ("-" + s)[1..] == s;
    assert ("+" + s)[1..] == s;
  }

  /** A numeral with a fractional part, `whole.frac`, reads as the whole part plus the value of the fraction digits. */
  lemma ParseDecimalFraction(whole: string, frac: string)
    requires AllDigits(whole) && AllDigits(frac) && |whole| + |frac| > 0
    ensures ParseDecimal(whole + "." + frac) == Some(DigitsValue(whole) as real + FractionValue(frac))
  {
    var s := whole + "." + frac;
    assert s[0] != '-' && s[0] != '+' by {
      if whole != [] { assert s[0] == whole[0]; } else { assert s[0] == '.'; }
    }
    ParseDecimalUnsigned(s);
    ParseUnsignedSplit(s, whole, frac);
  }

  /** The unsigned numeral `whole.frac`, read at its '.', which is the first one. */
  lemma ParseUnsignedSplit(s: string, whole: string, frac: string)
    requires s == whole + "." + frac
    requires AllDigits(whole) && AllDigits(frac) && |whole| + |frac| > 0
    ensures ParseUnsigned(s) == Some(DigitsValue(whole) as real + FractionValue(frac))
  {
    var n := |whole|;
    assert forall j :: 0 <= j < n ==> s[j] == whole[j];
    FirstIndex(s, '.', n);
    assert s[..n] == whole;
    assert s[n + 1..] == frac;
    assert '.' in s;
  }

  /** The position of the first occurrence is the one with no occurrence before it. */
  lemma FirstIndex(s: string, c: char, i: nat)
    requires i < |s| && s[i] == c && forall j :: 0 <= j < i ==> s[j] != c
    ensures IndexOf(s, c) == i
  {
    var k := IndexOf(s, c);
    forall j | 0 <= j < k ensures s[j] != c {
      assert s[..k][j] == s[j];
    }
  }

  /** Without a leading sign, `float` reads the text as an unsigned numeral. */
  lemma ParseDecimalUnsigned(s: string)
    requires s == [] || (s[0] != '-' && s[0] != '+')
    ensures ParseDecimal(s) == ParseUnsigned(s)
  {
  }

  /** The price in `/set coke=1.5`: "1.5" reads as 1.5. */
  lemma ParseDecimalOneAndHalf()
    ensures ParseDecimal("1.5") == Some(1.5)
  {
    assert "1.5" == "1" + "." + "5";
    ParseDecimalFraction("1", "5");
    assert DigitsValue("1") == 1 by { assert "1"[..0] == ""; }
    assert FractionValue("5") == 0.5 by { assert "5"[1..] == ""; }
  }

  /** float(str(n)) == n. */
  lemma ParseDecimalShowNat(n: nat)
    ensures ParseDecimal(ShowNat(n)) == Some(n as real)
  {
    ParseDecimalDigits(ShowNat(n));
    ShowNatRoundTrip(n);
  }
}
