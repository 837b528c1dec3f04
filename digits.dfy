/**
 * Positional digit strings, as Python renders integers with `str`, `:x` and
 * the integer part of fixed-point formats: most significant digit first,
 * lower-case letters for digits above 9.
 */
module Digits {

  /** The character for digit d (0-9 then a-f). */
  function DigitChar(d: nat): (c: char)
    requires d < 16
    ensures DigitValue(c) == d
  {
    if d < 10 then ('0' as int + d) as char else ('a' as int + d - 10) as char
  }

  /** The digit a character stands for; 16 for a character that is no digit. */
  function DigitValue(c: char): (d: nat)
    ensures d <= 16
  {
    if '0' <= c <= '9' then c as int - '0' as int
    else if 'a' <= c <= 'f' then c as int - 'a' as int + 10
    else 16
  }

  /** Every character of s is a digit in the given base. */
  predicate AllDigits(s: string, base: nat) {
    forall k :: 0 <= k < |s| ==> DigitValue(s[k]) < base
  }

  /** The shortest rendering of n in the base: "0" for zero, no leading zeros otherwise. */
  function DigitString(n: nat, base: nat): (s: string)
    requires 2 <= base <= 16
    ensures |s| >= 1 && AllDigits(s, base)
    ensures n >= base <==> |s| >= 2
    ensures |s| >= 2 ==> s[0] != '0'
    decreases n
  {
    if n < base then [DigitChar(n)]
    else DigitString(n / base, base) + [DigitChar(n % base)]
  }

  /** The number a digit string denotes (digits read most significant first). */
  function DigitsValue(s: string, base: nat): nat
    requires AllDigits(s, base)
  {
    if s == [] then 0
    else DigitsValue(s[..|s| - 1], base) * base + DigitValue(s[|s| - 1])
  }

  /** Reading back the rendering of n gives n. */
  lemma {:induction false} DigitStringRoundTrip(n: nat, base: nat)
    requires 2 <= base <= 16
    ensures DigitsValue(DigitString(n, base), base) == n
    decreases n
  {
    var s := DigitString(n, base);
    if n >= base {
      var q, d := n / base, n % base;
      DivisionShrinks(n, base);
      DigitStringRoundTrip(q, base);
      assert s[..|s| - 1] == DigitString(q, base);
      assert DigitValue(s[|s| - 1]) == d;
      assert DigitsValue(s, base) == q * base + d;
    }
  }

  lemma DivisionShrinks(n: nat, base: nat)
    requires 2 <= base <= n
    ensures n / base < n && n == (n / base) * base + n % base
  {
  }

  /** A digit string of length k denotes less than base^k. */
  lemma {:induction false} DigitsValueBound(s: string, base: nat)
    requires 2 <= base <= 16 && AllDigits(s, base)
    ensures DigitsValue(s, base) < Power(base, |s|)
    decreases |s|
  {
    if s != [] {
      var init := s[..|s| - 1];
      DigitsValueBound(init, base);
      var v, p := DigitsValue(init, base), Power(base, |init|);
      assert DigitsValue(s, base) < v * base + base;
      assert Power(base, |s|) == base * p;
      MultiplyIsMonotone(v + 1, p, base);
      assert (v + 1) * base == v * base + base;
    }
  }

  lemma MultiplyIsMonotone(a: nat, b: nat, c: nat)
    requires a <= b
    ensures a * c <= b * c
  {
  }

  function Power(base: nat, k: nat): (r: nat)
    ensures base >= 1 ==> r >= 1
  {
    if k == 0 then 1 else base * Power(base, k - 1)
  }

  /** n rendered with at least `width` digits, zero-padded on the left. */
  function ZeroPadded(n: nat, base: nat, width: nat): (s: string)
    requires 2 <= base <= 16
    ensures |s| >= width && |s| >= 1 && AllDigits(s, base)
    ensures |DigitString(n, base)| <= width ==> |s| == width
    ensures DigitsValue(s, base) == n
  {
    var digits := DigitString(n, base);
    DigitStringRoundTrip(n, base);
    if |digits| >= width then digits
    else
      LeadingZerosAddNothing(width - |digits|, digits, base);
      Zeros(width - |digits|) + digits
  }

  function Zeros(k: nat): (s: string)
    ensures |s| == k && forall i :: 0 <= i < k ==> s[i] == '0'
  {
    if k == 0 then [] else Zeros(k - 1) + ['0']
  }

  /** Zeros in front of a digit string do not change the number it denotes. */
  lemma {:induction false} LeadingZerosAddNothing(k: nat, s: string, base: nat)
    requires 2 <= base <= 16 && AllDigits(s, base)
    ensures AllDigits(Zeros(k) + s, base)
    ensures DigitsValue(Zeros(k) + s, base) == DigitsValue(s, base)
    decreases |s| + k
  {
    var z := Zeros(k);
    assert AllDigits(z + s, base) by {
      forall i | 0 <= i < |z + s| ensures DigitValue((z + s)[i]) < base {
        if i < k { assert (z + s)[i] == '0'; }
        else { assert (z + s)[i] == s[i - k]; }
      }
    }
    if s == [] {
      if k > 0 {
        assert z + s == Zeros(k - 1) + ['0'];
        LeadingZerosAddNothing(k - 1, [], base);
        assert Zeros(k - 1) + [] == Zeros(k - 1);
      }
    } else {
      var init := s[..|s| - 1];
      LeadingZerosAddNothing(k, init, base);
      assert (z + s)[..|z + s| - 1] == z + init;
    }
  }
}
