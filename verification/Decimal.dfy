/** Decimal text for integers: Python's `str(n)` and `int(s)`, the pair the
    tracker uses to turn segment ids into document keys and back. */
module Decimal {
  import opened Wrappers
  import Text

  predicate IsDigit(c: char)
  {
    '0' <= c <= '9'
  }

  predicate AllDigits(s: string)
  {
    forall k | 0 <= k < |s| :: IsDigit(s[k])
  }

  function DigitChar(d: nat): (c: char)
    requires d < 10
    ensures IsDigit(c)
  {
    (('0' as int) + d) as char
  }

  function DigitValue(c: char): (d: nat)
    requires IsDigit(c)
    ensures d < 10
  {
    (c as int) - ('0' as int)
  }

  /** The shortest decimal spelling of a natural number (no leading zeros). */
  function NatToDigits(n: nat): (s: string)
    ensures |s| >= 1
    ensures AllDigits(s)
    ensures s[0] == '0' <==> n == 0
    decreases n
  {
    if n < 10 then [DigitChar(n)] else NatToDigits(n / 10) + [DigitChar(n % 10)]
  }

  /** The number a string of decimal digits denotes (leading zeros allowed). */
  function DigitsValue(s: string): nat
    requires AllDigits(s)
    decreases |s|
  {
    if s == [] then 0 else DigitsValue(s[..|s| - 1]) * 10 + DigitValue(s[|s| - 1])
  }

  lemma {:induction false} DigitsRoundTrip(n: nat)
    ensures DigitsValue(NatToDigits(n)) == n
    decreases n
  {
    if n >= 10 {
      var s := NatToDigits(n / 10);
      var t := s + [DigitChar(n % 10)];
      assert t[..|t| - 1] == s;
      DigitsRoundTrip(n / 10);
    }
  }

  /** Python's `str(n)` for an int: a minus sign for negatives, then the digits. */
  function IntToString(n: int): (s: string)
    ensures |s| >= 1
    ensures n >= 0 ==> AllDigits(s)
    ensures n < 0 ==> s[0] == '-' && AllDigits(s[1..])
    ensures n == 0 ==> s == "0"
    ensures n > 0 ==> s[0] != '0'
    ensures n < 0 ==> |s| >= 2 && s[1] != '0'
    ensures Text.IsStripped(Text.IntSpaces, s)
  {
    if n < 0 then "-" + NatToDigits(-n) else NatToDigits(n)
  }

  /** Python's `int(s)`: surrounding whitespace (`int()`'s own set, see
      `Text.Spaces`) is ignored, then an optional `+` or `-` sign and one or
      more ASCII digits; `None` stands for the `ValueError` Python raises on
      anything else. */
  function ParseInt(s: string): (r: Option<int>)
    ensures r.Some? <==> IsIntLiteral(Text.Strip(Text.IntSpaces, s))
    ensures r.Some? && Text.Strip(Text.IntSpaces, s)[0] == '-' ==>
      r.value + DigitsValue(Unsigned(Text.Strip(Text.IntSpaces, s))) == 0
    ensures r.Some? && Text.Strip(Text.IntSpaces, s)[0] != '-' ==>
      r.value == DigitsValue(Unsigned(Text.Strip(Text.IntSpaces, s)))
  {
    ParseSigned(Text.Strip(Text.IntSpaces, s))
  }

  /** A literal without its sign, if it has one. */
  function Unsigned(t: string): string
  {
    if |t| > 0 && (t[0] == '-' || t[0] == '+') then t[1..] else t
  }

  /** What `int()` accepts once whitespace is stripped: an optional sign,
      then one or more ASCII digits. */
  predicate IsIntLiteral(t: string)
  {
    |Unsigned(t)| > 0 && AllDigits(Unsigned(t))
  }

  /** Whitespace around a literal does not change what `int()` reads. */
  lemma ParseIntIgnoresSpace(s: string, pre: string, post: string)
    requires forall k | 0 <= k < |pre| :: Text.IsSpace(Text.IntSpaces, pre[k])
    requires forall k | 0 <= k < |post| :: Text.IsSpace(Text.IntSpaces, post[k])
    ensures ParseInt(pre + s + post) == ParseInt(s)
  {
    Text.StripPadded(Text.IntSpaces, s, pre, post);
  }

  /** A file separator (U+001C) in front of a key makes `int()` fail, although
      `str.isspace()` counts it as whitespace and `strip()` would remove it. */
  lemma ParseIntRejectsSeparator(n: int)
    ensures Text.IsUnicodeSpace('\U{1C}')
    ensures ParseInt("\U{1C}" + IntToString(n)) == None
  {
    var t := "\U{1C}" + IntToString(n);
    SeparatorKeyStripped(IntToString(n));
    assert Unsigned(t) == t && !IsDigit(t[0]);
  }

  /** `int()` strips nothing from a key with a file separator in front. */
  lemma SeparatorKeyStripped(s: string)
    requires |s| > 0 && Text.IsStripped(Text.IntSpaces, s)
    ensures Text.Strip(Text.IntSpaces, "\U{1C}" + s) == "\U{1C}" + s
  {
    var t := "\U{1C}" + s;
    assert t[|t| - 1] == s[|s| - 1];
    assert !Text.IsSpace(Text.IntSpaces, t[0]);
    Text.StripStripped(Text.IntSpaces, t);
  }

  /** An optional sign followed by at least one digit, and nothing else. */
  function ParseSigned(body: string): (r: Option<int>)
    ensures r.Some? <==> IsIntLiteral(body)
    ensures r.Some? && body[0] == '-' ==> r.value + DigitsValue(Unsigned(body)) == 0
    ensures r.Some? && body[0] != '-' ==> r.value == DigitsValue(Unsigned(body))
  {
    if |body| > 0 && (body[0] == '-' || body[0] == '+') then
      var digits := body[1..];
      if |digits| > 0 && AllDigits(digits) then
        var magnitude: int := DigitsValue(digits);
        Some(if body[0] == '-' then -magnitude else magnitude)
      else
        None
    else if |body| > 0 && AllDigits(body) then
      Some(DigitsValue(body))
    else
      None
  }

  /** `int(str(n)) == n` for every integer, negative ones included. */
  lemma {:induction false} ParseIntToString(n: int)
    ensures ParseInt(IntToString(n)) == Some(n)
  {
    var s := IntToString(n);
    assert Text.Strip(Text.IntSpaces, s) == s by {
      Text.StripStripped(Text.IntSpaces, s);
    }
    assert ParseInt(s) == ParseSigned(s);
    if n < 0 {
      assert s == "-" + NatToDigits(-n);
      ParseNegative(-n);
    } else {
      assert s == NatToDigits(n);
      ParseNatural(n);
    }
  }

  lemma {:induction false} ParseNatural(n: nat)
    ensures ParseSigned(NatToDigits(n)) == Some(n)
  {
    var s := NatToDigits(n);
    assert IsDigit(s[0]);
    DigitsRoundTrip(n);
  }

  lemma {:induction false} ParseNegative(n: nat)
    requires n > 0
    ensures ParseSigned("-" + NatToDigits(n)) == Some(0 - n as int)
  {
    var d := NatToDigits(n);
    var s := "-" + d;
    assert s[1..] == d;
    DigitsRoundTrip(n);
  }

  /** Distinct ids give distinct keys. */
  lemma IntToStringInjective(a: int, b: int)
    requires IntToString(a) == IntToString(b)
    ensures a == b
  {
    ParseIntToString(a);
    ParseIntToString(b);
  }

  /** A leading zero does not change the value of a digit string. */
  lemma {:induction false} LeadingZeroValue(d: string)
    requires AllDigits(d)
    ensures DigitsValue("0" + d) == DigitsValue(d)
    decreases |d|
  {
    if d != [] {
      var z := "0" + d;
      assert z[..|z| - 1] == "0" + d[..|d| - 1];
      LeadingZeroValue(d[..|d| - 1]);
    }
  }

  /** `int()` is not injective: a key with a leading zero denotes the same
      id as the key `str()` writes, so a stored document may hold two keys
      for one segment. */
  lemma {:induction false} ParseIntNotInjective(n: nat)
    ensures "0" + IntToString(n) != IntToString(n)
    ensures ParseInt("0" + IntToString(n)) == ParseInt(IntToString(n)) == Some(n)
  {
    var s := IntToString(n);
    var z := "0" + s;
    assert |z| != |s|;
    ParseIntToString(n);
    assert Text.Strip(Text.IntSpaces, z) == z by {
      assert !Text.IsSpace(Text.IntSpaces, '0');
      assert z[|z| - 1] == s[|s| - 1];
      Text.StripStripped(Text.IntSpaces, z);
    }
    assert ParseSigned(z) == Some(n) by {
      ParseZeroPadded(s);
      DigitsRoundTrip(n);
    }
  }

  /** A digit string with a zero in front reads as the same number. */
  lemma ParseZeroPadded(d: string)
    requires AllDigits(d)
    ensures ParseSigned("0" + d) == Some(DigitsValue(d))
  {
    var z := "0" + d;
    assert AllDigits(z) by {
      forall k | 0 <= k < |z|
        ensures IsDigit(z[k])
      {
        if k > 0 {
          assert z[k] == d[k - 1];
        }
      }
    }
    LeadingZeroValue(d);
  }
}
