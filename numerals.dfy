/**
 * Positional numerals in radices up to 16, as JavaScript's Number.prototype.toString(radix)
 * writes them and parseInt reads them: digits '0'-'9' then 'a'-'f' (read in either case).
 */
module Numerals {

  predicate IsHexDigit(c: char) {
    ('0' <= c <= '9') || ('a' <= c <= 'f') || ('A' <= c <= 'F')
  }

  predicate IsUpperHexLetter(c: char) {
    'A' <= c <= 'F'
  }

  /** The value of one digit character; 'a' and 'A' are both 10. */
  function DigitValue(c: char): (d: nat)
    requires IsHexDigit(c)
    ensures d < 16
    ensures d < 10 <==> '0' <= c <= '9'
  {
    if '0' <= c <= '9' then c as int - '0' as int
    else if 'a' <= c <= 'f' then c as int - 'a' as int + 10
    else c as int - 'A' as int + 10
  }

  /** The lower-case digit character for d. */
  function DigitChar(d: nat): (c: char)
    requires d < 16
    ensures IsHexDigit(c) && !IsUpperHexLetter(c)
    ensures DigitValue(c) == d
  {
    if d < 10 then ('0' as int + d) as char else ('a' as int + d - 10) as char
  }

  /** A lower-case digit character is the one DigitChar writes for its value. */
  lemma DigitCharOfValue(c: char)
    requires IsHexDigit(c) && !IsUpperHexLetter(c)
    ensures DigitChar(DigitValue(c)) == c
  {
  }

  predicate IsDigitIn(c: char, radix: nat) {
    IsHexDigit(c) && DigitValue(c) < radix
  }

  predicate AllDigits(s: string, radix: nat) {
    forall i :: 0 <= i < |s| ==> IsDigitIn(s[i], radix)
  }

  predicate LowerCase(s: string) {
    forall i :: 0 <= i < |s| ==> !IsUpperHexLetter(s[i])
  }

  /** No superfluous leading zero: "0" itself, or a first digit other than '0'. */
  predicate Canonical(s: string) {
    |s| == 1 || (|s| > 1 && s[0] != '0')
  }

  /** The value of a digit string, most significant digit first. */
  function Value(s: string, radix: nat): nat
    requires AllDigits(s, radix)
    decreases |s|
  {
    if s == [] then 0 else Value(s[..|s| - 1], radix) * radix + DigitValue(s[|s| - 1])
  }

  /**
   * Number.prototype.toString(radix) on a non-negative integer: lower-case digits, most
   * significant first, without leading zeros, reading back as n.
   */
  function ToStringRadix(n: nat, radix: nat): (s: string)
    requires 2 <= radix <= 16
    ensures AllDigits(s, radix) && LowerCase(s) && Canonical(s)
    ensures s[0] == '0' <==> n == 0
    ensures Value(s, radix) == n
    ensures n < radix <==> |s| == 1
    decreases n
  {
    if n < radix then [DigitChar(n)]
    else
      QuotientBounds(n, radix);
      DivSplit(n, radix);
      var prefix := ToStringRadix(n / radix, radix);
      var s := prefix + [DigitChar(n % radix)];
      assert s[..|s| - 1] == prefix && s[0] == prefix[0];
      assert Value(s, radix) == Value(prefix, radix) * radix + n % radix;
      s
  }

  /** Euclidean division of n by m splits n into quotient and remainder. */
  lemma DivSplit(n: int, m: int)
    requires m > 0 && n >= 0
    ensures n == (n / m) * m + n % m && 0 <= n % m < m
  {
  }

  lemma MulAtLeast(a: int, m: int)
    requires a >= 1 && m > 0
    ensures a * m >= m
  {
  }

  /** Quotient and remainder are determined by q * m + r with 0 <= r < m. */
  lemma DivModUnique(q: int, r: int, m: int)
    requires m > 0 && 0 <= r < m && q >= 0
    ensures (q * m + r) / m == q && (q * m + r) % m == r
  {
    var v := q * m + r;
    var q', r' := v / m, v % m;
    DivSplit(v, m);
    if q' < q {
      MulAtLeast(q - q', m);
    } else if q' > q {
      MulAtLeast(q' - q, m);
    }
  }

  /** Dividing a number of at least m by m >= 2 gives a positive, strictly smaller quotient. */
  lemma QuotientBounds(n: int, m: int)
    requires 2 <= m <= n
    ensures 1 <= n / m < n
  {
    DivSplit(n, m);
    MulMonotone(n / m, 2, m);
  }

  lemma MulMonotone(a: int, b: int, c: int)
    requires a >= 0 && b <= c
    ensures a * b <= a * c
  {
  }

  /** A single digit is worth its own value. */
  lemma ValueOfOneDigit(s: string, radix: nat)
    requires |s| == 1 && AllDigits(s, radix)
    ensures Value(s, radix) == DigitValue(s[0])
  {
  }

  /** A leading zero does not change the value. */
  lemma {:induction false} ValueLeadingZero(s: string, radix: nat)
    requires AllDigits(s, radix) && radix > 0
    ensures AllDigits("0" + s, radix) && Value("0" + s, radix) == Value(s, radix)
    decreases |s|
  {
    var z := "0" + s;
    assert AllDigits(z, radix) by {
      forall i | 0 <= i < |z| ensures IsDigitIn(z[i], radix) {
        if i > 0 { assert z[i] == s[i - 1]; }
      }
    }
    if s == [] {
      ValueOfOneDigit(z, radix);
    } else {
      var init := s[..|s| - 1];
      assert z[..|z| - 1] == "0" + init;
      assert AllDigits(init, radix) by {
        forall i | 0 <= i < |init| ensures IsDigitIn(init[i], radix) {
          assert init[i] == s[i];
        }
      }
      ValueLeadingZero(init, radix);
    }
  }

  /** A canonical digit string of two or more digits is worth at least the radix. */
  lemma {:induction false} CanonicalValueAtLeastRadix(s: string, radix: nat)
    requires AllDigits(s, radix) && |s| >= 2 && s[0] != '0' && radix >= 2
    ensures Value(s, radix) >= radix
    decreases |s|
  {
    var init := s[..|s| - 1];
    assert AllDigits(init, radix) by {
      forall i | 0 <= i < |init| ensures IsDigitIn(init[i], radix) {
        assert init[i] == s[i];
      }
    }
    if |init| == 1 {
      ValueOfOneDigit(init, radix);
      assert DigitValue(init[0]) >= 1;
    } else {
      CanonicalValueAtLeastRadix(init, radix);
    }
    MulAtLeast(Value(init, radix), radix);
  }

  /**
   * ToStringRadix is the only canonical lower-case spelling of a value: writing back the value
   * of such a string gives the string itself.
   */
  lemma {:induction false} ToStringRadixOfValue(s: string, radix: nat)
    requires 2 <= radix <= 16
    requires AllDigits(s, radix) && LowerCase(s) && Canonical(s)
    ensures ToStringRadix(Value(s, radix), radix) == s
    decreases |s|
  {
    if |s| == 1 {
      ValueOfOneDigit(s, radix);
      DigitCharOfValue(s[0]);
      assert ToStringRadix(Value(s, radix), radix) == [s[0]];
    } else {
      var init := s[..|s| - 1];
      var last := s[|s| - 1];
      assert AllDigits(init, radix) && LowerCase(init) by {
        forall i | 0 <= i < |init| ensures IsDigitIn(init[i], radix) && !IsUpperHexLetter(init[i]) {
          assert init[i] == s[i];
        }
      }
      assert Canonical(init) by {
        assert init[0] == s[0];
      }
      var q, d := Value(init, radix), DigitValue(last);
      var v := Value(s, radix);
      assert v == q * radix + d;
      CanonicalValueAtLeastRadix(s, radix);
      DivModUnique(q, d, radix);
      assert ToStringRadix(v, radix) == ToStringRadix(q, radix) + [DigitChar(d)];
      ToStringRadixOfValue(init, radix);
      DigitCharOfValue(last);
      assert s == init + [last];
    }
  }
}
