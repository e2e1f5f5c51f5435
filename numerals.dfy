/** JavaScript's conversions between integers and strings that the
    application relies on: `parseInt(s, 10)`, `Number(s)` on a string, and
    `Number.prototype.toString(radix)` on an integer. Integers here are
    unbounded; JavaScript's numbers are doubles, exact on integers up to 2^53. */
module Numerals {
  import opened Wrappers
  import Text

  /** The value of a digit character in radices up to 36 (letters in either
      case), and 36 for a character that is a digit in no radix. */
  function DigitValue(c: char): (v: nat)
    ensures v <= 36
    ensures v < 10 <==> '0' <= c <= '9'
  {
    if '0' <= c <= '9' then c as int - '0' as int
    else if 'a' <= c <= 'z' then c as int - 'a' as int + 10
    else if 'A' <= c <= 'Z' then c as int - 'A' as int + 10
    else 36
  }

  type Radix = r: int | 2 <= r <= 36 witness 10

  /** The digit `toString` writes for the value `d`: lower-case letters above 9. */
  function DigitChar(d: nat): (c: char)
    requires d < 36
    ensures DigitValue(c) == d && c != '-'
  {
    if d < 10 then ('0' as int + d) as char else ('a' as int + d - 10) as char
  }

  /** A non-empty string of digits of the radix. */
  predicate IsDigits(ds: string, radix: Radix) {
    |ds| > 0 && forall i | 0 <= i < |ds| :: DigitValue(ds[i]) < radix
  }

  /** The natural number a string of digits denotes, most significant first. */
  function DigitsValue(ds: string, radix: Radix): nat
    requires forall i | 0 <= i < |ds| :: DigitValue(ds[i]) < radix
  {
    if ds == [] then 0
    else
      var front := ds[..|ds| - 1];
      assert forall i | 0 <= i < |front| :: front[i] == ds[i];
      var v := DigitsValue(front, radix);
      ScaledIsNat(v, radix);
      v * radix + DigitValue(ds[|ds| - 1])
  }

  lemma ScaledIsNat(v: nat, radix: Radix)
    ensures v * radix >= 0
  {
  }

  /** The digits of a natural number, most significant first, as `toString` writes them. */
  function Digits(n: nat, radix: Radix): string
    decreases n
  {
    if n < radix then [DigitChar(n)]
    else
      DivMod(n, radix);
      Digits(n / radix, radix) + [DigitChar(n % radix)]
  }

  /** `Number.prototype.toString(radix)` on an integer: a minus sign before the
      digits of a negative number. */
  function ToRadix(n: int, radix: Radix): string {
    if n < 0 then "-" + Digits(-n, radix) else Digits(n, radix)
  }

  /** The integer that a string denotes in the radix: digits (letters in either
      case) with an optional leading minus sign; None for any other string. */
  function ValueIn(s: string, radix: Radix): Option<int> {
    if |s| > 0 && s[0] == '-' && IsDigits(s[1..], radix) then Some(-(DigitsValue(s[1..], radix) as int))
    else if IsDigits(s, radix) then Some(DigitsValue(s, radix))
    else None
  }

  lemma DivMod(n: nat, radix: Radix)
    ensures n == (n / radix) * radix + n % radix && 0 <= n % radix < radix
    ensures n >= radix ==> 0 < n / radix < n
  {
  }

  lemma {:induction false} DigitsRoundTrip(n: nat, radix: Radix)
    ensures IsDigits(Digits(n, radix), radix) && DigitsValue(Digits(n, radix), radix) == n
    decreases n
  {
    if n >= radix {
      var q, d := n / radix, n % radix;
      DivMod(n, radix);
      DigitsRoundTrip(q, radix);
      var front := Digits(q, radix);
      var ds := front + [DigitChar(d)];
      assert Digits(n, radix) == ds;
      assert forall i | 0 <= i < |ds| :: DigitValue(ds[i]) < radix by {
        assert forall i | 0 <= i < |front| :: ds[i] == front[i];
      }
      assert ds[..|ds| - 1] == front;
      calc {
        DigitsValue(ds, radix);
        DigitsValue(front, radix) * radix + d;
        q * radix + d;
      }
    }
  }

  /** What `toString(radix)` writes denotes the integer it was given. */
  lemma ToRadixRoundTrip(n: int, radix: Radix)
    ensures ValueIn(ToRadix(n, radix), radix) == Some(n)
  {
    var m := if n < 0 then -n else n;
    DigitsRoundTrip(m, radix);
    ValueInOfDigits(Digits(m, radix), radix, m);
  }

  /** A string of digits, and the same string after a minus sign, denote
      the digits' value and its negation. */
  lemma ValueInOfDigits(ds: string, radix: Radix, m: nat)
    requires IsDigits(ds, radix) && DigitsValue(ds, radix) == m
    ensures ValueIn(ds, radix) == Some(m) && ValueIn("-" + ds, radix) == Some(-(m as int))
  {
    assert ds[0] != '-' by {
      assert DigitValue(ds[0]) < radix;
    }
    var s := "-" + ds;
    assert s[0] == '-' && s[1..] == ds;
  }

  /** Strings whose characters pairwise denote the same digits denote the same number. */
  lemma {:induction false} SameDigitsSameValue(a: string, b: string, radix: Radix)
    requires |a| == |b|
    requires forall i | 0 <= i < |a| :: DigitValue(a[i]) == DigitValue(b[i]) < radix
    ensures DigitsValue(a, radix) == DigitsValue(b, radix)
    decreases |a|
  {
    if a != [] {
      SameDigitsSameValue(a[..|a| - 1], b[..|b| - 1], radix);
    }
  }

  lemma UpperKeepsDigitValues(s: string)
    ensures forall i | 0 <= i < |s| :: DigitValue(Text.ToUpper(s)[i]) == DigitValue(s[i])
  {
  }

  /** Upper-casing a numeral does not change the integer it denotes. */
  lemma ValueInUpper(s: string, radix: Radix)
    ensures ValueIn(Text.ToUpper(s), radix) == ValueIn(s, radix)
  {
    var u := Text.ToUpper(s);
    UpperKeepsDigitValues(s);
    if |s| > 0 {
      var s1, u1 := s[1..], u[1..];
      assert forall i | 0 <= i < |s1| :: DigitValue(u1[i]) == DigitValue(s1[i]);
      assert u[0] == '-' <==> s[0] == '-';
      assert IsDigits(u1, radix) <==> IsDigits(s1, radix);
      assert IsDigits(u, radix) <==> IsDigits(s, radix);
      if IsDigits(s1, radix) {
        SameDigitsSameValue(s1, u1, radix);
      }
      if IsDigits(s, radix) {
        SameDigitsSameValue(s, u, radix);
      }
    }
  }

  /** The longest prefix of decimal digits. */
  function DecimalPrefix(s: string): (p: string)
    ensures |p| <= |s| && p == s[..|p|]
    ensures forall i | 0 <= i < |p| :: '0' <= p[i] <= '9'
    ensures |p| < |s| ==> !('0' <= s[|p|] <= '9')
  {
    if s != [] && '0' <= s[0] <= '9' then [s[0]] + DecimalPrefix(s[1..]) else ""
  }

  /** `parseInt(s, 10)`: leading white space is skipped, then an optional sign,
      then the longest run of decimal digits is read and the rest ignored; None
      (NaN) when that run is empty. */
  function ParseInt(s: string): Option<int> {
    var t := Text.TrimStart(s);
    if |t| > 0 && t[0] == '-' then
      match LeadingDecimal(t[1..]) { case None => None case Some(v) => Some(-v) }
    else if |t| > 0 && t[0] == '+' then LeadingDecimal(t[1..])
    else LeadingDecimal(t)
  }

  /** The value of the longest run of decimal digits at the start of `s`, if any. */
  function LeadingDecimal(s: string): Option<int> {
    var ds := DecimalPrefix(s);
    if ds == [] then None else Some(DigitsValue(ds, 10))
  }

  /** `Number(s)` on a string: surrounding white space is ignored, the empty
      string is 0, and an optional sign followed by decimal digits is their
      value. Every other string is None, JavaScript's NaN. */
  function StringToNumber(s: string): Option<int> {
    var t := Text.Trim(s);
    if t == [] then Some(0)
    else if t[0] == '-' && IsDigits(t[1..], 10) then Some(-(DigitsValue(t[1..], 10) as int))
    else if t[0] == '+' && IsDigits(t[1..], 10) then Some(DigitsValue(t[1..], 10))
    else if IsDigits(t, 10) then Some(DigitsValue(t, 10))
    else None
  }

  /** `toString(10)` writes a minus sign or a digit first, and a digit last. */
  lemma DecimalShape(n: int)
    ensures var s := ToRadix(n, 10);
      |s| > 0 && (s[0] == '-' || '0' <= s[0] <= '9') && '0' <= s[|s| - 1] <= '9'
      && (n >= 0 ==> '0' <= s[0] <= '9')
  {
    var m := if n < 0 then -n else n;
    DigitsRoundTrip(m, 10);
    var ds := Digits(m, 10);
    assert DigitValue(ds[0]) < 10 && DigitValue(ds[|ds| - 1]) < 10;
  }

  lemma TrimNumeral(n: int)
    ensures Text.Trim(ToRadix(n, 10)) == ToRadix(n, 10)
  {
    DecimalShape(n);
    Text.TrimUnpadded(ToRadix(n, 10));
  }

  /** `Number(String(n))` is `n`: a numeric key rendered as a decimal string
      converts back to the same number. */
  lemma NumberOfDecimal(n: int)
    ensures StringToNumber(ToRadix(n, 10)) == Some(n)
  {
    TrimNumeral(n);
    ToRadixRoundTrip(n, 10);
  }

  /** `parseInt(String(n), 10)` is `n`. */
  lemma ParseIntOfDecimal(n: int)
    ensures ParseInt(ToRadix(n, 10)) == Some(n)
  {
    var m := if n < 0 then -n else n;
    LeadingDecimalOfNumeral(m);
    ParseIntOfNumeral(Digits(m, 10), m);
  }

  /** A string starting with a decimal digit whose leading run is worth `m`
      parses as `m`, and after a minus sign as `-m`. */
  lemma ParseIntOfNumeral(ds: string, m: nat)
    requires ds != [] && '0' <= ds[0] <= '9' && LeadingDecimal(ds) == Some(m)
    ensures ParseInt(ds) == Some(m) && ParseInt("-" + ds) == Some(-(m as int))
  {
    ParseIntOfMinus(ds, m);
    ParseIntOfUnsigned(ds);
  }

  /** The decimal digits of `m` read back as `m`, starting with a digit. */
  lemma LeadingDecimalOfNumeral(m: nat)
    ensures var ds := Digits(m, 10); ds != [] && '0' <= ds[0] <= '9' && LeadingDecimal(ds) == Some(m)
  {
    DigitsRoundTrip(m, 10);
    var ds := Digits(m, 10);
    assert forall i | 0 <= i < |ds| :: '0' <= ds[i] <= '9' by {
      assert forall i | 0 <= i < |ds| :: DigitValue(ds[i]) < 10;
    }
    DecimalPrefixOfDigits(ds);
  }

  /** A leading minus sign negates what follows it. */
  lemma ParseIntOfMinus(rest: string, v: int)
    requires LeadingDecimal(rest) == Some(v)
    ensures ParseInt("-" + rest) == Some(-v)
  {
    var s := "-" + rest;
    assert s[0] == '-' && s[1..] == rest;
    Text.TrimStartUnpadded(s);
  }

  /** With a digit first, `parseInt` reads the leading run of digits. */
  lemma ParseIntOfUnsigned(s: string)
    requires s != [] && '0' <= s[0] <= '9'
    ensures ParseInt(s) == LeadingDecimal(s)
  {
    Text.TrimStartUnpadded(s);
  }

  lemma {:induction false} DecimalPrefixOfDigits(ds: string)
    requires forall i | 0 <= i < |ds| :: '0' <= ds[i] <= '9'
    ensures DecimalPrefix(ds) == ds
    decreases |ds|
  {
    if ds != [] {
      DecimalPrefixOfDigits(ds[1..]);
    }
  }

  /** A string holding a character that is neither a decimal digit, a sign
      nor white space is NaN to `Number` (in this reading of it): a file name
      such as "a.txt" is never a number. */
  lemma NamedIdIsNaN(s: string, i: int)
    requires 0 <= i < |s| && !('0' <= s[i] <= '9') && s[i] != '-' && s[i] != '+' && !Text.IsSpace(s[i])
    ensures StringToNumber(s) == None
  {
    var t := Text.Trim(s);
    var a := |s| - |Text.TrimStart(s)|;
    Text.TrimKeepsNonSpace(s, i);
    var j := i - a;
    assert !IsDigits(t, 10) by {
      assert DigitValue(t[j]) >= 10;
    }
    if j > 0 {
      assert !IsDigits(t[1..], 10) by {
        assert t[1..][j - 1] == s[i];
      }
    }
  }
}
