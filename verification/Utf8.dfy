/** UTF-8 as RFC 3629 defines it, on byte strings: a string here holds one byte per character. */
module Utf8 {

  predicate Continuation(c: char) {
    '\U{80}' <= c <= '\U{BF}'
  }

  /** The length of the well-formed sequence that starts at `i`, or 0 (RFC 3629 section 4). */
  function RuneLength(s: string, i: nat): (n: nat)
    requires i < |s|
    ensures i + n <= |s|
  {
    var c := s[i];
    if c < '\U{80}' then 1
    else if '\U{C2}' <= c <= '\U{DF}' && i + 1 < |s| && Continuation(s[i + 1]) then 2
    else if '\U{E0}' <= c <= '\U{EF}' && i + 2 < |s| && Continuation(s[i + 1]) && Continuation(s[i + 2])
      && (c == '\U{E0}' ==> '\U{A0}' <= s[i + 1]) && (c == '\U{ED}' ==> s[i + 1] <= '\U{9F}') then 3
    else if '\U{F0}' <= c <= '\U{F4}' && i + 3 < |s| && Continuation(s[i + 1]) && Continuation(s[i + 2])
      && Continuation(s[i + 3])
      && (c == '\U{F0}' ==> '\U{90}' <= s[i + 1]) && (c == '\U{F4}' ==> s[i + 1] <= '\U{8F}') then 4
    else 0
  }

  predicate ValidFrom(s: string, i: nat)
    requires i <= |s|
    decreases |s| - i
  {
    i == |s| || (RuneLength(s, i) > 0 && ValidFrom(s, i + RuneLength(s, i)))
  }

  predicate Valid(s: string) {
    ValidFrom(s, 0)
  }

  predicate IsScalar(v: int) {
    0 <= v <= 0xD7FF || 0xE000 <= v <= 0x10FFFF
  }

  function Byte(n: nat): char
    requires n < 256
  {
    n as char
  }

  /** utf8.AppendRune for a scalar value (RFC 3629 section 3). */
  function Encode(v: nat): (r: string)
    requires IsScalar(v)
    ensures 1 <= |r| <= 4
  {
    if v < 0x80 then [Byte(v)]
    else if v < 0x800 then [Byte(0xC0 + v / 64), Byte(0x80 + v % 64)]
    else if v < 0x10000 then [Byte(0xE0 + v / 4096), Byte(0x80 + v / 64 % 64), Byte(0x80 + v % 64)]
    else [Byte(0xF0 + v / 262144), Byte(0x80 + v / 4096 % 64), Byte(0x80 + v / 64 % 64), Byte(0x80 + v % 64)]
  }

  /** The scalar value written by one well-formed sequence. */
  function Decode(s: string): nat
    requires s != [] && RuneLength(s, 0) == |s|
  {
    var c := s[0] as int;
    match |s|
    case 1 => c
    case 2 => (c - 0xC0) * 64 + (s[1] as int - 0x80)
    case 3 => (c - 0xE0) * 4096 + (s[1] as int - 0x80) * 64 + (s[2] as int - 0x80)
    case _ => (c - 0xF0) * 262144 + (s[1] as int - 0x80) * 4096 + (s[2] as int - 0x80) * 64 + (s[3] as int - 0x80)
  }

  lemma TwoBytes(v: nat)
    requires 0x80 <= v < 0x800
    ensures RuneLength(Encode(v), 0) == |Encode(v)| && Decode(Encode(v)) == v
  {
  }

  lemma ThreeBytes(v: nat)
    requires 0x800 <= v < 0x10000 && IsScalar(v)
    ensures RuneLength(Encode(v), 0) == |Encode(v)| && Decode(Encode(v)) == v
  {
    assert v == v / 4096 * 4096 + v / 64 % 64 * 64 + v % 64;
  }

  lemma FourDigits(v: nat) returns (a: nat, b: nat, c: nat, d: nat)
    requires 0x10000 <= v && IsScalar(v)
    ensures a == v / 262144 && b == v / 4096 % 64 && c == v / 64 % 64 && d == v % 64
    ensures v == a * 262144 + b * 4096 + c * 64 + d && b < 64 && c < 64 && d < 64
    ensures a <= 4 && (a == 0 ==> 16 <= b) && (a == 4 ==> b <= 15)
  {
    a, b, c, d := v / 262144, v / 4096 % 64, v / 64 % 64, v % 64;
    assert v / 64 / 64 == v / 4096 && v / 4096 / 64 == a;
  }

  lemma FourByteSequence(a: nat, b: nat, c: nat, d: nat)
    requires a <= 4 && b < 64 && c < 64 && d < 64 && (a == 0 ==> 16 <= b) && (a == 4 ==> b <= 15)
    ensures var s := [Byte(0xF0 + a), Byte(0x80 + b), Byte(0x80 + c), Byte(0x80 + d)];
      RuneLength(s, 0) == 4 && Decode(s) == a * 262144 + b * 4096 + c * 64 + d
  {
  }

  lemma FourBytes(v: nat)
    requires 0x10000 <= v && IsScalar(v)
    ensures RuneLength(Encode(v), 0) == |Encode(v)| && Decode(Encode(v)) == v
  {
    hide RuneLength, Decode;
    var a, b, c, d := FourDigits(v);
    FourByteSequence(a, b, c, d);
  }

  /** Every scalar value is encodable, and its encoding is one well-formed sequence for it. */
  lemma {:induction false} EncodeIsWellFormed(v: nat)
    requires IsScalar(v)
    ensures RuneLength(Encode(v), 0) == |Encode(v)| && Decode(Encode(v)) == v && Valid(Encode(v))
  {
    if 0x80 <= v {
      hide Encode, Decode;
      if v < 0x800 {
        TwoBytes(v);
      } else if v < 0x10000 {
        ThreeBytes(v);
      } else {
        FourBytes(v);
      }
    }
    assert ValidFrom(Encode(v), |Encode(v)|);
  }

  /** A multi-byte sequence holds no ASCII byte, so validity can be cut at any ASCII byte. */
  lemma {:induction false} CutAtAscii(s: string, i: nat, b: nat)
    requires i <= b < |s| && s[b] < '\U{80}' && ValidFrom(s, i)
    ensures ValidFrom(s, b) && ValidFrom(s, b + 1)
    decreases b - i
  {
    var n := RuneLength(s, i);
    if i < b {
      assert i + n <= b;
      CutAtAscii(s, i + n, b);
    }
  }

  lemma {:induction false} ValidPrefix(s: string, a: nat, b: nat, i: nat)
    requires a <= i <= b <= |s| && ValidFrom(s, i) && (b == |s| || s[b] < '\U{80}')
    ensures ValidFrom(s[a..b], i - a)
    decreases b - i
  {
    if i < b {
      var n := RuneLength(s, i);
      assert i + n <= b;
      assert RuneLength(s[a..b], i - a) == n;
      ValidPrefix(s, a, b, i + n);
    }
  }

  /** A slice of valid text between ASCII delimiters is valid. */
  lemma {:induction false} SliceIsValid(s: string, a: nat, b: nat)
    requires Valid(s) && a <= b <= |s|
    requires a == 0 || s[a - 1] < '\U{80}'
    requires b == |s| || s[b] < '\U{80}'
    ensures Valid(s[a..b])
  {
    if a > 0 {
      CutAtAscii(s, 0, a - 1);
    }
    ValidPrefix(s, a, b, a);
  }

  // ---------------------------------------------------------------------------------------------
  // Valid text is encoded text

  predicate Scalars(vs: seq<nat>) { forall k :: 0 <= k < |vs| ==> IsScalar(vs[k]) }

  function EncodeAll(vs: seq<nat>): string
    requires Scalars(vs)
  {
    if vs == [] then "" else Encode(vs[0]) + EncodeAll(vs[1..])
  }

  ghost predicate Encodes(vs: seq<nat>, s: string) { Scalars(vs) && EncodeAll(vs) == s }

  lemma DecodeTwo(s: string)
    requires |s| == 2 && RuneLength(s, 0) == 2
    ensures IsScalar(Decode(s)) && Encode(Decode(s)) == s
  {
    var v := Decode(s);
    assert v / 64 == s[0] as int - 0xC0 && v % 64 == s[1] as int - 0x80;
  }

  lemma DecodeThree(s: string)
    requires |s| == 3 && RuneLength(s, 0) == 3
    ensures IsScalar(Decode(s)) && Encode(Decode(s)) == s
  {
    var a, b, c := s[0] as int - 0xE0, s[1] as int - 0x80, s[2] as int - 0x80;
    var v := Decode(s);
    assert v == a * 4096 + b * 64 + c;
    assert v / 64 == a * 64 + b && v % 64 == c;
    assert v / 4096 == a && v / 64 % 64 == b;
  }

  lemma FourParts(a: nat, b: nat, c: nat, d: nat)
    requires b < 64 && c < 64 && d < 64
    ensures var v := a * 262144 + b * 4096 + c * 64 + d;
      v / 262144 == a && v / 4096 % 64 == b && v / 64 % 64 == c && v % 64 == d
  {
    var v := a * 262144 + b * 4096 + c * 64 + d;
    assert v % 64 == d && v / 64 == a * 4096 + b * 64 + c;
    assert v / 64 % 64 == c && v / 4096 == a * 64 + b;
  }

  lemma DecodeFour(s: string)
    requires |s| == 4 && RuneLength(s, 0) == 4
    ensures IsScalar(Decode(s)) && Encode(Decode(s)) == s
  {
    FourParts(s[0] as int - 0xF0, s[1] as int - 0x80, s[2] as int - 0x80, s[3] as int - 0x80);
  }

  /** A well-formed sequence is the encoding of the scalar it stands for. */
  lemma DecodeIsEncoded(s: string)
    requires s != [] && RuneLength(s, 0) == |s|
    ensures IsScalar(Decode(s)) && Encode(Decode(s)) == s
  {
    hide Encode, Decode;
    match |s|
    case 1 => DecodeOne(s);
    case 2 => DecodeTwo(s);
    case 3 => DecodeThree(s);
    case _ => DecodeFour(s);
  }

  lemma DecodeOne(s: string)
    requires |s| == 1 && RuneLength(s, 0) == 1
    ensures IsScalar(Decode(s)) && Encode(Decode(s)) == s
  {
  }

  lemma RuneAlone(s: string, i: nat)
    requires i < |s| && RuneLength(s, i) > 0
    ensures var n := RuneLength(s, i); RuneLength(s[i..i + n], 0) == n
  {
  }

  lemma RuneInside(s: string, i: nat, r: string)
    requires r != "" && RuneLength(r, 0) == |r| && i + |r| <= |s| && s[i..i + |r|] == r
    ensures RuneLength(s, i) == |r|
  {
    assert forall k :: i <= k < i + |r| ==> s[k] == r[k - i];
  }

  lemma {:induction false} ValidDecodes(s: string, i: nat) returns (vs: seq<nat>)
    requires i <= |s| && ValidFrom(s, i)
    ensures Encodes(vs, s[i..])
    decreases |s| - i
  {
    hide RuneLength, Encode, Decode;
    if i == |s| {
      vs := [];
    } else {
      var n := RuneLength(s, i);
      var r := s[i..i + n];
      RuneAlone(s, i);
      DecodeIsEncoded(r);
      var rest := ValidDecodes(s, i + n);
      vs := [Decode(r)] + rest;
      assert vs[1..] == rest && s[i..] == r + s[i + n..];
    }
  }

  lemma {:induction false} EncodedIsValid(s: string, i: nat, vs: seq<nat>)
    requires i <= |s| && Encodes(vs, s[i..])
    ensures ValidFrom(s, i)
    decreases |vs|
  {
    hide RuneLength, Encode, Decode;
    if vs != [] {
      var r := Encode(vs[0]);
      EncodeIsWellFormed(vs[0]);
      assert s[i..] == r + EncodeAll(vs[1..]);
      assert s[i..i + |r|] == s[i..][..|r|] == r && s[i + |r|..] == s[i..][|r|..];
      RuneInside(s, i, r);
      EncodedIsValid(s, i + |r|, vs[1..]);
    }
  }

  /** A text is valid if and only if it is the encodings of scalar values, one after the other. */
  lemma ValidIsEncoded(s: string)
    ensures Valid(s) <==> exists vs :: Encodes(vs, s)
  {
    hide Encodes, ValidFrom;
    assert s[0..] == s;
    if Valid(s) {
      var vs := ValidDecodes(s, 0);
    }
    if vs :| Encodes(vs, s) {
      EncodedIsValid(s, 0, vs);
    }
  }
}
