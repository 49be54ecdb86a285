/** Classes of bytes and strings of digits, which several of the modelled scanners share. */
module AsciiBytes {

  /** White space: blank, tab, newline, carriage return, form feed and vertical tab. */
  predicate Space(c: char) { c == ' ' || c == '\t' || c == '\n' || c == '\r' || c == '\U{0C}' || c == '\U{0B}' }

  predicate Digit(c: char) { '0' <= c <= '9' }

  predicate Letter(c: char) { 'a' <= c <= 'z' || 'A' <= c <= 'Z' }

  function Upper(c: char): char {
    if 'a' <= c <= 'z' then (c as int - 32) as char else c
  }

  function Lower(c: char): char {
    if 'A' <= c <= 'Z' then (c as int + 32) as char else c
  }

  // ---------------------------------------------------------------------------------------------
  // Digit strings

  predicate AllDigits(t: string) { forall k :: 0 <= k < |t| ==> Digit(t[k]) }

  function DigitsEnd(s: string, i: nat): (j: nat)
    requires i <= |s|
    ensures i <= j <= |s|
    ensures forall k :: i <= k < j ==> Digit(s[k])
    ensures j < |s| ==> !Digit(s[j])
    decreases |s| - i
  {
    if i < |s| && Digit(s[i]) then DigitsEnd(s, i + 1) else i
  }

  function Pow(b: nat, n: nat): nat {
    if n == 0 then 1 else b * Pow(b, n - 1)
  }

  function DigitOf(c: char): (d: nat)
    requires Digit(c)
    ensures d <= 9
  {
    c as int - '0' as int
  }

  /** The number a digit string writes, of any length. */
  function ValueOf(t: string): nat
    requires AllDigits(t)
  {
    if t == [] then 0 else DigitOf(t[0]) * Pow(10, |t| - 1) + ValueOf(t[1..])
  }
}
