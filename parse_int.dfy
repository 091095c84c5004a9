/**
 * JavaScript's parseInt(string, 16) (ECMAScript, section 19.2.5, "parseInt (string, radix)"),
 * on a string that is already a string: skip leading white space, take an optional sign, drop an
 * optional "0x" or "0X", and read the longest run of hexadecimal digits that follows. No digits
 * at all gives NaN, written None here.
 */
module JsParseInt {
  import opened Wrappers
  import opened Numerals

  /** The WhiteSpace and LineTerminator code points that parseInt skips before the number. */
  predicate IsJsWhitespace(c: char) {
    var u := c as int;
    u == 0x09 || u == 0x0A || u == 0x0B || u == 0x0C || u == 0x0D || u == 0x20 || u == 0xA0
    || u == 0x1680 || (0x2000 <= u <= 0x200A) || u == 0x2028 || u == 0x2029 || u == 0x202F
    || u == 0x205F || u == 0x3000 || u == 0xFEFF
  }

  predicate AllWhitespace(s: string) {
    forall i :: 0 <= i < |s| ==> IsJsWhitespace(s[i])
  }

  /** The string with its leading white space removed. */
  function TrimStart(s: string): (r: string)
    ensures |r| <= |s|
  {
    if s != [] && IsJsWhitespace(s[0]) then
      TrimStart(s[1..])
    else
      s
  }

  /** TrimStart removes a prefix of white space, and no more than that prefix. */
  lemma {:induction false} TrimStartShape(s: string)
    ensures TrimStart(s) == s[|s| - |TrimStart(s)|..]
    ensures forall i :: 0 <= i < |s| - |TrimStart(s)| ==> IsJsWhitespace(s[i])
    ensures TrimStart(s) == [] || !IsJsWhitespace(TrimStart(s)[0])
    decreases |s|
  {
    if s != [] && IsJsWhitespace(s[0]) {
      TrimStartShape(s[1..]);
      assert forall i :: 1 <= i < |s| ==> s[1..][i - 1] == s[i];
    }
  }

  /** Whether a '-' sign stands first, and the string past a leading '+' or '-'. */
  function StripSign(s: string): (bool, string)
  {
    if |s| > 0 && (s[0] == '-' || s[0] == '+') then (s[0] == '-', s[1..]) else (false, s)
  }

  predicate HasHexPrefix(s: string) {
    |s| >= 2 && s[0] == '0' && (s[1] == 'x' || s[1] == 'X')
  }

  /** With radix 16, parseInt drops one leading "0x" or "0X". */
  function StripHexPrefix(s: string): string
  {
    if HasHexPrefix(s) then s[2..] else s
  }

  /** The length of the longest prefix of hexadecimal digits, in either case. */
  function HexPrefixLength(s: string): (n: nat)
    ensures n <= |s|
  {
    if s != [] && IsHexDigit(s[0]) then
      1 + HexPrefixLength(s[1..])
    else
      0
  }

  /** The run is made of hexadecimal digits and is followed by none. */
  lemma {:induction false} HexPrefixShape(s: string)
    ensures forall i :: 0 <= i < HexPrefixLength(s) ==> IsHexDigit(s[i])
    ensures HexPrefixLength(s) == |s| || !IsHexDigit(s[HexPrefixLength(s)])
    decreases |s|
  {
    if s != [] && IsHexDigit(s[0]) {
      HexPrefixShape(s[1..]);
      assert forall i :: 1 <= i < |s| ==> s[1..][i - 1] == s[i];
    }
  }

  /**
   * parseInt(s, 16). A negative zero compares equal to zero under ==, so "-0" reads as 0.
   * JavaScript rounds values above 2^53 to a double; this model keeps them exact. A string
   * without any hexadecimal digit is NaN, and a value read without a '-' is never negative.
   */
  function ParseInt16(s: string): (r: Option<int>)
    ensures r.Some? ==> exists i :: 0 <= i < |s| && IsHexDigit(s[i])
    ensures r.Some? && '-' !in s ==> r.value >= 0
  {
    var trimmed := TrimStart(s);
    TrimStartShape(s);
    var (negative, unsigned) := StripSign(trimmed);
    var digits := StripHexPrefix(unsigned);
    assert digits == s[|s| - |digits|..];
    assert negative ==> s[|s| - |trimmed|] == '-';
    var n := HexPrefixLength(digits);
    if n == 0 then None
    else
      HexPrefixShape(digits);
      assert IsHexDigit(s[|s| - |digits|]);
      assert AllDigits(digits[..n], 16) by {
        forall i | 0 <= i < n ensures IsDigitIn(digits[..n][i], 16) {
          assert digits[..n][i] == digits[i];
        }
      }
      var magnitude: int := Value(digits[..n], 16);
      Some(if negative then -magnitude else magnitude)
  }

  /**
   * A user's answer as parseInt(problem.userAnswer, 16) reads it. An answer never entered is
   * null, which parseInt first turns into the string "null": NaN.
   */
  function ParseAnswer(answer: Option<string>): (r: Option<int>)
    ensures answer.None? ==> r == None
  {
    match answer
    case None => None
    case Some(text) => ParseInt16(text)
  }

  /** The null answer reads exactly as the string "null" does. */
  lemma NullAnswerIsNaN()
    ensures ParseAnswer(None) == ParseInt16("null")
  {
    NullIsNaN();
  }

  /**
   * Text that offers no digit to read after its white space, sign and "0x" prefix is NaN: what
   * follows is empty or starts with a character that is no hexadecimal digit. Without a sign or
   * a prefix that character must also be neither white space nor a sign, which parseInt would
   * otherwise skip or take as the sign.
   */
  lemma NoDigitIsNaN(ws: string, sign: string, prefix: string, rest: string)
    requires AllWhitespace(ws)
    requires sign == "" || sign == "+" || sign == "-"
    requires prefix == "" || prefix == "0x" || prefix == "0X"
    requires rest == [] || !IsHexDigit(rest[0])
    requires sign == "" && prefix == "" && rest != [] ==>
      !IsJsWhitespace(rest[0]) && rest[0] != '+' && rest[0] != '-'
    ensures ParseInt16(ws + sign + prefix + rest) == None
  {
    var body := prefix + rest;
    var t := sign + body;
    assert ws + sign + prefix + rest == ws + t;
    assert t == [] || !IsJsWhitespace(t[0]) by {
      if sign != "" {
        assert t[0] == sign[0];
      } else if prefix != "" {
        assert t[0] == '0';
      }
    }
    TrimStartSkips(ws, t);
    assert StripSign(t) == (sign == "-", body) by {
      if sign == "" {
        assert t == body;
      } else {
        assert t[0] == sign[0] && t[1..] == body;
      }
    }
    assert StripHexPrefix(body) == rest by {
      if prefix == "" {
        assert body == rest;
      } else {
        assert HasHexPrefix(body) && body[2..] == rest;
      }
    }
    ParseInt16NoRun(ws + t, sign == "-", body);
  }

  /** ParseInt16 is NaN when no digit follows the sign and the prefix. */
  lemma ParseInt16NoRun(s: string, negative: bool, unsigned: string)
    requires StripSign(TrimStart(s)) == (negative, unsigned)
    requires HexPrefixLength(StripHexPrefix(unsigned)) == 0
    ensures ParseInt16(s) == None
  {
  }

  /** parseInt("null", 16) is NaN: 'n' is not a hexadecimal digit. */
  lemma NullIsNaN()
    ensures ParseInt16("null") == None
  {
    NoDigitIsNaN("", "", "", "null");
    assert "" + "" + "" + "null" == "null";
  }

  /** "0x" with no digit after it is NaN: the prefix is dropped and no digit remains. */
  lemma BarePrefixIsNaN()
    ensures ParseInt16("0x") == None && ParseInt16("-0X") == None && ParseInt16("0xg") == None
  {
    NoDigitIsNaN("", "", "0x", "");
    assert "" + "" + "0x" + "" == "0x";
    NoDigitIsNaN("", "-", "0X", "");
    assert "" + "-" + "0X" + "" == "-0X";
    NoDigitIsNaN("", "", "0x", "g");
    assert "" + "" + "0x" + "g" == "0xg";
  }

  /** A sign followed by white space or by a second sign is NaN: parseInt takes one sign only. */
  lemma StrandedSignIsNaN()
    ensures ParseInt16("- 5") == None && ParseInt16("+-5") == None
  {
    NoDigitIsNaN("", "-", "", " 5");
    assert "" + "-" + "" + " 5" == "- 5";
    NoDigitIsNaN("", "+", "", "-5");
    assert "" + "+" + "" + "-5" == "+-5";
  }

  /** Leading white space is skipped up to the first other character. */
  lemma {:induction false} TrimStartSkips(ws: string, t: string)
    requires AllWhitespace(ws)
    requires t == [] || !IsJsWhitespace(t[0])
    ensures TrimStart(ws + t) == t
    decreases |ws|
  {
    if ws != [] {
      assert (ws + t)[0] == ws[0];
      assert (ws + t)[1..] == ws[1..] + t;
      TrimStartSkips(ws[1..], t);
    }
  }

  /** The hexadecimal digit run ends where the digits d end. */
  lemma {:induction false} HexPrefixOf(d: string, rest: string)
    requires AllDigits(d, 16)
    requires rest == [] || !IsHexDigit(rest[0])
    ensures HexPrefixLength(d + rest) == |d|
    decreases |d|
  {
    if d == [] {
      assert d + rest == rest;
    } else {
      var s := d + rest;
      assert s[0] == d[0] && s[1..] == d[1..] + rest;
      assert AllDigits(d[1..], 16) by {
        forall i | 0 <= i < |d| - 1 ensures IsDigitIn(d[1..][i], 16) {
          assert d[1..][i] == d[i + 1];
        }
      }
      HexPrefixOf(d[1..], rest);
    }
  }

  /**
   * Every spelling parseInt accepts with a result: white space, an optional sign, an optional
   * "0x"/"0X", a non-empty run of hexadecimal digits in either case, then anything that does
   * not continue the run. The result is the run's value, negated after a '-'. The one excluded
   * shape is a lone digit "0" followed by 'x' or 'X' without a prefix, which is itself a prefix.
   */
  lemma ParseInt16Spelled(ws: string, sign: string, prefix: string, d: string, rest: string)
    requires AllWhitespace(ws)
    requires sign == "" || sign == "+" || sign == "-"
    requires prefix == "" || prefix == "0x" || prefix == "0X"
    requires |d| > 0 && AllDigits(d, 16)
    requires rest == [] || !IsHexDigit(rest[0])
    requires prefix == "" && d == "0" ==> rest == [] || (rest[0] != 'x' && rest[0] != 'X')
    ensures ParseInt16(ws + sign + prefix + d + rest)
         == Some(if sign == "-" then -(Value(d, 16) as int) else Value(d, 16))
  {
    var body := prefix + d + rest;
    var t := sign + body;
    var s := ws + sign + prefix + d + rest;
    ConcatShape(ws, sign, prefix, d, rest);
    SignedStart(sign, body, prefix, d, rest);
    TrimStartSkips(ws, t);
    PrefixStripped(prefix, d, rest);
    SignStripped(sign, body);
    HexPrefixOf(d, rest);
    assert (d + rest)[..|d|] == d;
    assert StripSign(TrimStart(s)) == (sign == "-", body);
    ParseInt16Steps(s, sign == "-", body, d + rest, d);
  }

  lemma ConcatShape(ws: string, sign: string, prefix: string, d: string, rest: string)
    ensures ws + sign + prefix + d + rest == ws + (sign + (prefix + d + rest))
  {
  }

  /** ParseInt16 read off its three stages. */
  lemma ParseInt16Steps(s: string, negative: bool, unsigned: string, digits: string, run: string)
    requires StripSign(TrimStart(s)) == (negative, unsigned)
    requires StripHexPrefix(unsigned) == digits
    requires 0 < |run| == HexPrefixLength(digits) && run == digits[..|run|]
    ensures AllDigits(run, 16)
    ensures ParseInt16(s) == Some(if negative then -(Value(run, 16) as int) else Value(run, 16))
  {
    HexPrefixShape(digits);
    assert forall i | 0 <= i < |run| :: run[i] == digits[i];
  }

  lemma SignedStart(sign: string, body: string, prefix: string, d: string, rest: string)
    requires sign == "" || sign == "+" || sign == "-"
    requires prefix == "" || prefix == "0x" || prefix == "0X"
    requires |d| > 0 && AllDigits(d, 16)
    requires body == prefix + d + rest
    ensures !IsJsWhitespace((sign + body)[0])
  {
  }

  lemma SignStripped(sign: string, body: string)
    requires sign == "" || sign == "+" || sign == "-"
    requires body == [] || (body[0] != '+' && body[0] != '-')
    ensures StripSign(sign + body) == (sign == "-", body)
  {
    if sign == "" {
      assert sign + body == body;
    } else {
      assert (sign + body)[0] == sign[0];
      assert (sign + body)[1..] == body;
    }
  }

  lemma PrefixStripped(prefix: string, d: string, rest: string)
    requires prefix == "" || prefix == "0x" || prefix == "0X"
    requires |d| > 0 && AllDigits(d, 16)
    requires prefix == "" && d == "0" ==> rest == [] || (rest[0] != 'x' && rest[0] != 'X')
    ensures var body := prefix + d + rest; (body[0] != '+' && body[0] != '-')
    ensures StripHexPrefix(prefix + d + rest) == d + rest
  {
    var body := prefix + d + rest;
    if prefix == "" {
      assert body == d + rest;
    } else {
      assert body[0] == '0' && body[1] == prefix[1];
      assert body[2..] == d + rest;
    }
  }

  /** A single hexadecimal digit, in either case, reads as its value. */
  lemma ParseOneDigit(c: char)
    requires IsHexDigit(c)
    ensures ParseInt16([c]) == Some(DigitValue(c))
  {
    ParseInt16Spelled("", "", "", [c], "");
    assert "" + "" + "" + [c] + "" == [c];
    ValueOfOneDigit([c], 16);
  }

  /** The answer key's spelling, toString(16) of a non-negative answer, parses back to it. */
  lemma ParseInt16OfToString(n: nat)
    ensures ParseInt16(ToStringRadix(n, 16)) == Some(n)
  {
    var d := ToStringRadix(n, 16);
    ParseInt16Spelled("", "", "", d, "");
    assert "" + "" + "" + d + "" == d;
  }
}
