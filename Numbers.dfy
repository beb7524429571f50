/** Decimal text and numbers: `str(int)` and the part of Python's `float(str)` that the
    backend's price strings exercise (an optional sign, digits, at most one decimal point). */
module Numbers {
  import opened Wrappers
  import opened Text

  predicate AllDigits(s: string) {
    forall i :: 0 <= i < |s| ==> IsDigit(s[i])
  }

  predicate HasDigit(s: string) {
    exists i :: 0 <= i < |s| && IsDigit(s[i])
  }

  predicate IsDigitOrDot(c: char) { IsDigit(c) || c == '.' }

  function DigitValue(c: char): nat
    requires IsDigit(c)
  {
    c as int - '0' as int
  }

  function DigitChar(d: nat): (c: char)
    requires d < 10
    ensures IsDigit(c) && DigitValue(c) == d
  {
    ('0' as int + d) as char
  }

  function Pow10(n: nat): (p: nat)
    ensures p > 0
  {
    if n == 0 then 1 else 10 * Pow10(n - 1)
  }

  /** The value of a string of decimal digits, most significant first. */
  function DigitsValue(s: string): nat
    requires AllDigits(s)
    decreases |s|
  {
    if s == [] then 0 else 10 * DigitsValue(s[..|s| - 1]) + DigitValue(s[|s| - 1])
  }

  /** `str(n)` for a natural number. */
  function NatToString(n: nat): (s: string)
    ensures |s| > 0 && AllDigits(s)
  {
    if n < 10 then [DigitChar(n)] else NatToString(n / 10) + [DigitChar(n % 10)]
  }

  /** `str(i)` for an integer: a minus sign before the digits of a negative number. */
  function IntToString(i: int): string {
    if i < 0 then "-" + NatToString(-i) else NatToString(i)
  }

  /** The position of the first '.', or `|s|` when there is none. */
  function IndexOfDot(s: string): (k: nat)
    ensures k <= |s|
    ensures k < |s| ==> s[k] == '.'
    ensures forall i :: 0 <= i < k ==> s[i] != '.'
  {
    if s == [] || s[0] == '.' then 0 else 1 + IndexOfDot(s[1..])
  }

  /** The value of the decimal with digits `whole` before the point and `frac` after it. */
  function DecimalValue(whole: string, frac: string): (v: real)
    requires AllDigits(whole) && AllDigits(frac)
    ensures v >= DigitsValue(whole) as real
    ensures frac == [] ==> v == DigitsValue(whole) as real
  {
    DigitsValue(whole) as real + DigitsValue(frac) as real / Pow10(|frac|) as real
  }

  /** `float(s)` for an unsigned decimal: digits, at most one point, at least one digit
      (so "12", "12.", ".5" and "12.50" parse; "", "." and "1.2.3" do not). */
  function ParseUnsigned(s: string): (r: Option<real>)
    ensures r.Some? ==> r.value >= 0.0
  {
    var k := IndexOfDot(s);
    var whole := s[..k];
    var frac := if k < |s| then s[k + 1..] else [];
    if AllDigits(whole) && AllDigits(frac) && |whole| + |frac| > 0 then
      Some(DecimalValue(whole, frac))
    else
      None
  }

  /** `float(s)`, failing with None where Python raises ValueError. */
  function ParseFloat(s: string): (r: Option<real>)
    ensures (|s| == 0 || s[0] != '-') && r.Some? ==> r.value >= 0.0
  {
    if |s| > 0 && (s[0] == '-' || s[0] == '+') then
      match ParseUnsigned(s[1..])
      case Some(v) => Some(if s[0] == '-' then -v else v)
      case None => None
    else
      ParseUnsigned(s)
  }

  lemma {:induction false} NatToStringValue(n: nat)
    ensures DigitsValue(NatToString(n)) == n
  {
    if n >= 10 {
      var s := NatToString(n);
      NatToStringValue(n / 10);
      assert s[..|s| - 1] == NatToString(n / 10);
    }
  }

  /** A non-empty run of digits parses to its value, with no fraction. */
  lemma ParseDigits(s: string)
    requires |s| > 0 && AllDigits(s)
    ensures ParseUnsigned(s) == Some(DigitsValue(s) as real)
  {
    var k := IndexOfDot(s);
    assert k == |s|;
    assert s[..k] == s;
  }

  /** Printing an integer and parsing it back gives the integer: `float(str(i)) == i`. */
  lemma ParseIntToString(i: int)
    ensures ParseFloat(IntToString(i)) == Some(i as real)
  {
    var n: nat := if i < 0 then -i else i;
    var digits := NatToString(n);
    NatToStringValue(n);
    ParseDigits(digits);
    if i < 0 {
      var printed := IntToString(i);
      assert printed == "-" + digits;
      assert printed[0] == '-' && printed[1..] == digits;
    } else {
      assert IsDigit(digits[0]);
    }
  }

  /** What `ParseUnsigned` checks, with the value left aside. */
  lemma ParseUnsignedShape(s: string)
    ensures ParseUnsigned(s).Some? <==>
      var k := IndexOfDot(s);
      AllDigits(s[..k]) && AllDigits(if k < |s| then s[k + 1..] else []) &&
      k + (if k < |s| then |s| - k - 1 else 0) > 0
  {
  }

  /** With a point at `k`: the checks hold exactly when there is a digit and no second point. */
  lemma AcceptsWithPoint(s: string, k: nat)
    requires forall i :: 0 <= i < |s| ==> IsDigitOrDot(s[i])
    requires k < |s| && s[k] == '.' && forall i :: 0 <= i < k ==> s[i] != '.'
    ensures AllDigits(s[..k]) && AllDigits(s[k + 1..]) && |s| - 1 > 0 <==>
      HasDigit(s) && multiset(s)['.'] <= 1
  {
    var whole, frac := s[..k], s[k + 1..];
    assert AllDigits(whole);
    assert multiset(whole)['.'] == 0;
    assert s == whole + ['.'] + frac;
    assert multiset(s)['.'] == multiset(frac)['.'] + 1;
    assert AllDigits(frac) <==> multiset(frac)['.'] == 0 by {
      if !AllDigits(frac) {
        var i :| 0 <= i < |frac| && !IsDigit(frac[i]);
        assert frac[i] == s[k + 1 + i];
        assert frac[i] in multiset(frac);
      }
    }
    assert AllDigits(frac) ==> (HasDigit(s) <==> |s| - 1 > 0) by {
      if HasDigit(s) {
        var i :| 0 <= i < |s| && IsDigit(s[i]);
        assert i != k;
      }
      if k > 0 {
        assert IsDigit(s[0]);
      } else if |frac| > 0 && AllDigits(frac) {
        assert frac[0] == s[k + 1] && IsDigit(s[k + 1]);
      }
    }
  }

  /** With no point: the checks hold exactly when there is a digit. */
  lemma AcceptsWithoutPoint(s: string)
    requires forall i :: 0 <= i < |s| ==> IsDigitOrDot(s[i])
    requires forall i :: 0 <= i < |s| ==> s[i] != '.'
    ensures AllDigits(s) && |s| > 0 <==> HasDigit(s) && multiset(s)['.'] <= 1
  {
    assert '.' !in multiset(s);
    if |s| > 0 {
      assert IsDigit(s[0]);
    }
  }

  /** For a string of digits and points, parsing succeeds exactly when there is at least
      one digit and at most one point. */
  lemma ParseUnsignedAccepts(s: string)
    requires forall i :: 0 <= i < |s| ==> IsDigitOrDot(s[i])
    ensures ParseUnsigned(s).Some? <==> HasDigit(s) && multiset(s)['.'] <= 1
  {
    var k := IndexOfDot(s);
    ParseUnsignedShape(s);
    if k < |s| {
      AcceptsWithPoint(s, k);
    } else {
      assert s[..k] == s;
      AcceptsWithoutPoint(s);
    }
  }
}
