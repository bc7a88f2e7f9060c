/**
 * The JavaScript string built-ins the core relies on:
 * `"0".repeat(n)`, `x.padStart(w, "0")`, `x.indexOf(c)`, `parseInt` applied to
 * a run of decimal digits, and `String(n)` for an integer `n`.
 * A JavaScript string is a sequence of UTF-16 code units; a `string` here is a
 * sequence of Unicode scalar values. The two coincide only on text without
 * characters outside the Basic Multilingual Plane, which take two code units
 * there and one `char` here.
 */
module StringOps {

  function Max(a: int, b: int): int
  {
    if a >= b then a else b
  }

  /** `"0".repeat(n)`. */
  function Zeros(n: nat): (r: string)
    ensures |r| == n
    ensures forall i :: 0 <= i < n ==> r[i] == '0'
  {
    seq(n, _ => '0')
  }

  predicate AllZeros(s: string)
  {
    forall i :: 0 <= i < |s| ==> s[i] == '0'
  }

  /** `x.padStart(width, "0")`: never truncates, fills with '0' on the left up to `width`. */
  function PadStartZeros(x: string, width: int): (r: string)
    ensures |r| == Max(width, |x|)
  {
    if |x| >= width then x else Zeros(width - |x|) + x
  }

  /** Padding puts exactly the missing number of '0's in front. */
  lemma PadStartZerosParts(x: string, width: int)
    ensures PadStartZeros(x, width) == Zeros(Max(width - |x|, 0)) + x
  {
    if |x| >= width {
      assert Zeros(0) + x == x;
    }
  }

  /** Padding adds only '0's: a character other than '0' is in the padded text only if it is in the text. */
  lemma PadStartZerosAdds(x: string, width: int, c: char)
    requires c != '0' && c !in x
    ensures c !in PadStartZeros(x, width)
  {
    PadStartZerosParts(x, width);
    assert c !in Zeros(Max(width - |x|, 0));
  }

  /** Zero-padding a digit string gives a digit string of the same value. */
  lemma PadStartZerosValue(x: string, width: int)
    requires IsDigits(x)
    ensures IsDigits(PadStartZeros(x, width)) && DigitsValue(PadStartZeros(x, width)) == DigitsValue(x)
  {
    if |x| < width {
      LeadingZerosValue(width - |x|, x);
    }
  }

  /** `x.indexOf(c, from)`: the first index at or after `from` holding `c`, or -1. */
  function IndexOfFrom(x: string, c: char, from: nat): (r: int)
    ensures -1 <= r < |x|
    ensures r < 0 <==> forall j :: from <= j < |x| ==> x[j] != c
    ensures 0 <= r ==> from <= r && x[r] == c && forall j :: from <= j < r ==> x[j] != c
    decreases |x| - from
  {
    if from >= |x| then -1
    else if x[from] == c then from
    else IndexOfFrom(x, c, from + 1)
  }

  /** `x.indexOf(c)`: the first index holding `c`, or -1. */
  function IndexOf(x: string, c: char): (r: int)
    ensures -1 <= r < |x|
    ensures r < 0 <==> c !in x
    ensures 0 <= r ==> x[r] == c && forall j :: 0 <= j < r ==> x[j] != c
  {
    IndexOfFrom(x, c, 0)
  }

  /** The first occurrence of c is at k. */
  lemma IndexOfAt(x: string, c: char, k: nat)
    requires k < |x| && x[k] == c && forall j :: 0 <= j < k ==> x[j] != c
    ensures IndexOf(x, c) == k
  {
  }

  predicate IsDigit(ch: char)
  {
    '0' <= ch <= '9'
  }

  predicate IsDigits(s: string)
  {
    forall i :: 0 <= i < |s| ==> IsDigit(s[i])
  }

  function DigitValue(ch: char): (d: nat)
    requires IsDigit(ch)
    ensures d < 10
  {
    (ch as int) - ('0' as int)
  }

  function DigitChar(d: nat): (ch: char)
    requires d < 10
    ensures IsDigit(ch) && DigitValue(ch) == d
  {
    (('0' as int) + d) as char
  }

  /** `parseInt(s)` for a non-empty run of decimal digits (exact, unbounded); 0 for the empty string, where `parseInt` gives NaN. */
  function DigitsValue(s: string): nat
    requires IsDigits(s)
  {
    if s == [] then 0 else 10 * DigitsValue(s[..|s| - 1]) + DigitValue(s[|s| - 1])
  }

  /** The decimal digits of `n`, without leading zeros: `String(n)` for a natural number below 10^21. */
  function NatToDecimal(n: nat): (r: string)
    ensures |r| >= 1 && IsDigits(r)
    ensures r[0] == '0' ==> r == "0"
  {
    if n < 10 then [DigitChar(n)] else NatToDecimal(n / 10) + [DigitChar(n % 10)]
  }

  /** `String(n)` for an integer `n` of magnitude below 10^21. */
  function IntToDecimal(n: int): (r: string)
    ensures |r| >= 1
    ensures 0 <= n <==> IsDigits(r)
  {
    if n < 0 then
      var r := "-" + NatToDecimal(-n);
      assert !IsDigit(r[0]);
      r
    else NatToDecimal(n)
  }

  /** `parseInt(String(n)) == n`: the decimal form reads back as the number. */
  lemma {:induction false} DecimalRoundTrip(n: nat)
    ensures DigitsValue(NatToDecimal(n)) == n
  {
    if n >= 10 {
      DecimalRoundTrip(n / 10);
      var s := NatToDecimal(n);
      assert s[..|s| - 1] == NatToDecimal(n / 10);
    }
  }

  /** Leading zeros do not change the value `parseInt` reads. */
  lemma {:induction false} LeadingZerosValue(k: nat, s: string)
    requires IsDigits(s)
    ensures IsDigits(Zeros(k) + s) && DigitsValue(Zeros(k) + s) == DigitsValue(s)
  {
    var t := Zeros(k) + s;
    assert IsDigits(t) by {
      forall i | 0 <= i < |t| ensures IsDigit(t[i]) {
        if i < k { assert t[i] == Zeros(k)[i]; } else { assert t[i] == s[i - k]; }
      }
    }
    if s == [] {
      assert t == Zeros(k);
      if k > 0 {
        LeadingZerosValue(k - 1, s);
        assert Zeros(k - 1) + s == Zeros(k - 1);
        assert Zeros(k)[..k - 1] == Zeros(k - 1);
      }
    } else {
      var s' := s[..|s| - 1];
      LeadingZerosValue(k, s');
      assert t[..|t| - 1] == Zeros(k) + s';
      assert t[|t| - 1] == s[|s| - 1];
    }
  }
}
