/** Exactness of the lexer's numeric tests (pkg/query/cli_statements.go): parameter numbers against
    PostgreSQL's largest integer, and Unicode escapes against RFC 2781 and RFC 3629. */
module CliNumerals {
  import opened AsciiBytes
  import opened Common
  import opened CliScanner
  import Utf8

  lemma {:induction false} ValueBelow(t: string)
    requires AllDigits(t)
    ensures ValueOf(t) < Pow(10, |t|)
  {
    if t != [] {
      ValueBelow(t[1..]);
      Monotone(DigitOf(t[0]), 9, Pow(10, |t| - 1));
    }
  }

  lemma {:induction false} TrimKeepsValue(t: string)
    requires AllDigits(t)
    ensures AllDigits(TrimZeros(t)) && ValueOf(TrimZeros(t)) == ValueOf(t)
  {
    if t != [] && t[0] == '0' {
      TrimKeepsValue(t[1..]);
    }
  }

  lemma {:induction false} Scale(a: nat, b: nat, p: nat)
    requires a > b
    ensures a * p >= b * p + p
    decreases a
  {
    assert a * p == (a - 1) * p + p;
    if a > b + 1 {
      Scale(a - 1, b, p);
    }
  }

  /** On digit strings of equal length, comparing text is comparing numbers. */
  lemma {:induction false} TextOrderIsNumeric(a: string, b: string)
    requires AllDigits(a) && AllDigits(b) && |a| == |b|
    ensures Greater(a, b) <==> ValueOf(a) > ValueOf(b)
  {
    if a != [] {
      TextOrderIsNumeric(a[1..], b[1..]);
      ValueBelow(a[1..]);
      ValueBelow(b[1..]);
      var p := Pow(10, |a| - 1);
      if a[0] > b[0] {
        Scale(DigitOf(a[0]), DigitOf(b[0]), p);
      } else if a[0] < b[0] {
        Scale(DigitOf(b[0]), DigitOf(a[0]), p);
      }
    }
  }

  lemma {:induction false} PowGrows(m: nat, n: nat)
    requires m <= n
    ensures Pow(10, m) <= Pow(10, n)
  {
    if m < n {
      PowGrows(m, n - 1);
    }
  }

  lemma TenDigits()
    ensures Pow(10, 9) == 1000000000 && Pow(10, 10) == 10000000000
  {
    assert Pow(10, 3) == 1000;
    assert Pow(10, 6) == 10 * (10 * (10 * Pow(10, 3)));
    assert Pow(10, 9) == 10 * (10 * (10 * Pow(10, 6)));
  }

  const MAX_PARAMETER := "2147483647"

  lemma LastFive()
    ensures AllDigits("83647") && ValueOf("83647") == 83647
  {
    var t := "83647";
    assert t[1..] == "3647" && t[1..][1..] == "647" && "647"[1..] == "47" && "47"[1..] == "7" && "7"[1..] == [];
    assert Pow(10, 0) == 1 && Pow(10, 1) == 10 && Pow(10, 2) == 100 && Pow(10, 3) == 1000 && Pow(10, 4) == 10000;
    assert ValueOf("7") == 7;
    assert ValueOf("47") == 47;
    assert ValueOf("647") == 647;
    assert ValueOf("3647") == 3647;
  }

  lemma LastSeven()
    ensures AllDigits("7483647") && ValueOf("7483647") == 7483647
  {
    LastFive();
    assert "7483647"[1..] == "483647" && "483647"[1..] == "83647";
    assert Pow(10, 3) == 1000 && Pow(10, 5) == 100000 && Pow(10, 6) == 1000000;
    assert ValueOf("483647") == 483647;
  }

  lemma ValueCons(c: char, rest: string)
    requires Digit(c) && AllDigits(rest)
    ensures AllDigits([c] + rest) && ValueOf([c] + rest) == DigitOf(c) * Pow(10, |rest|) + ValueOf(rest)
  {
    assert ([c] + rest)[1..] == rest;
  }

  lemma MaxParameterValue()
    ensures AllDigits(MAX_PARAMETER) && ValueOf(MAX_PARAMETER) == 2147483647
  {
    hide ValueOf;
    LastSeven();
    TenDigits();
    var tail := "7483647";
    assert MAX_PARAMETER == ['2'] + (['1'] + (['4'] + tail));
    assert Pow(10, 9) == 10 * (10 * Pow(10, 7)) && Pow(10, 8) == 10 * Pow(10, 7);
    ValueCons('4', tail);
    ValueCons('1', ['4'] + tail);
    ValueCons('2', ['1'] + (['4'] + tail));
  }

  lemma {:induction false} LongNumbersAreLarge(t: string)
    requires AllDigits(t) && |t| > 10 && t[0] != '0'
    ensures ValueOf(t) >= 10000000000
  {
    TenDigits();
    PowGrows(10, |t| - 1);
    Scale(DigitOf(t[0]), 0, Pow(10, |t| - 1));
  }

  /** The test by length and text accepts exactly the numbers up to 2147483647, whatever the number of
      leading zeros. */
  lemma {:induction false} ParameterRangeIsExact(digits: string)
    requires AllDigits(digits)
    ensures ParameterInRange(digits) <==> ValueOf(digits) <= 2147483647
  {
    var t := TrimZeros(digits);
    TrimKeepsValue(digits);
    TenDigits();
    MaxParameterValue();
    ValueBelow(t);
    if |t| == 10 {
      TextOrderIsNumeric(t, MAX_PARAMETER);
    } else if |t| < 10 {
      PowGrows(|t|, 9);
    } else {
      LongNumbersAreLarge(t);
    }
  }

  /** `$n` is a token if and only if no identifier follows the digits and n is at most 2147483647. */
  lemma {:induction false} ParameterTokenIsExact(s: string, i: nat)
    requires i + 1 < |s| && s[i] == '$' && Digit(s[i + 1])
    ensures var end := DigitsEnd(s, i + 1);
      && AllDigits(s[i + 1..end])
      && Next(s, i) == if (end < |s| && IdentStart(s[end])) || ValueOf(s[i + 1..end]) > 2147483647 then None
                       else Some(Token(i, end, "", false))
  {
    assert DigitsEnd(s, i + 1) == DigitsEnd(s, i + 2);
    ParameterRangeIsExact(s[i + 1..DigitsEnd(s, i + 1)]);
    assert Next(s, i) == Fresh(s, i);
  }

  // ---------------------------------------------------------------------------------------------
  // Unicode escapes

  lemma {:induction false} Monotone(a: nat, b: nat, p: nat)
    requires a <= b
    ensures a * p <= b * p
  {
    if a < b {
      Scale(b, a, p);
    }
  }

  lemma Associates(a: nat, b: nat, c: nat)
    ensures b * a * c == a * (b * c)
  {
  }

  /** The digits of an escape fit the source's 32-bit accumulator: nothing wraps around. */
  lemma {:induction false} HexDigitsFit(s: string, i: nat, digits: nat, value: nat)
    requires i <= |s| && HexDigits(s, i, digits, value).Some?
    ensures HexDigits(s, i, digits, value).value < (value + 1) * Pow(16, digits)
    decreases digits
  {
    if digits > 0 {
      HexDigitsFit(s, i + 1, digits - 1, value * 16 + HexValue(s[i]));
      var p := Pow(16, digits - 1);
      Monotone(value * 16 + HexValue(s[i]) + 1, 16 * (value + 1), p);
      Associates(value + 1, 16, p);
    }
  }

  /** Eight hexadecimal digits stay below 2^32. */
  lemma UnicodeEscapeFits(s: string, i: nat)
    requires i <= |s| && HexDigits(s, i, 8, 0).Some?
    ensures HexDigits(s, i, 8, 0).value < 0x1_0000_0000
  {
    HexDigitsFit(s, i, 8, 0);
    assert Pow(16, 4) == 0x10000 && Pow(16, 8) == 16 * (16 * (16 * (16 * Pow(16, 4))));
  }

  /** An accepted Unicode escape means one nonzero Unicode scalar value, written as one well-formed
      UTF-8 sequence; a surrogate pair is the pair RFC 2781 section 2.1 assigns to that value. */
  lemma {:induction false} UnicodeEscapeIsScalar(s: string, i: nat) returns (v: nat)
    requires i + 1 < |s| && s[i] == '\\' && (s[i + 1] == 'u' || s[i + 1] == 'U')
    requires Escape(s, i).Some?
    ensures 0 < v && Utf8.IsScalar(v)
    ensures Escape(s, i).value.1 == Utf8.Encode(v)
    ensures Utf8.Valid(Utf8.Encode(v)) && Utf8.Decode(Utf8.Encode(v)) == v
    ensures var (next, first) := UnicodeEscape(s, i).value;
      if HighSurrogate(first)
      then v >= 0x10000 && first == 0xD800 + (v - 0x10000) / 0x400
           && UnicodeEscape(s, next) == Some((Escape(s, i).value.0, 0xDC00 + (v - 0x10000) % 0x400))
      else v == first && Escape(s, i).value.0 == next
  {
    v := UnicodeScalar(s, i).value.1;
    Utf8.EncodeIsWellFormed(v);
    var (next, first) := UnicodeEscape(s, i).value;
    if HighSurrogate(first) {
      var (last, second) := UnicodeEscape(s, next).value;
      assert v - 0x10000 == (first - 0xD800) * 0x400 + (second - 0xDC00);
    }
  }
}
