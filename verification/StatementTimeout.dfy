/** Statement timeouts (pkg/session/profile.go and profile_machine.go): from the profile's text to the
    milliseconds a machine session runs with. */
module StatementTimeout {
  import opened AsciiBytes
  import opened Common

  predicate Digits(t: string) { t != "" && AllDigits(t) }

  datatype Unit = Ms | S | Min | H | D

  function UnitText(u: Unit): string {
    match u
    case Ms => "ms"
    case S => "s"
    case Min => "min"
    case H => "h"
    case D => "d"
  }

  function Milliseconds(u: Unit): (m: nat)
    ensures m >= 1
  {
    match u
    case Ms => 1
    case S => 1000
    case Min => 60000
    case H => 3600000
    case D => 86400000
  }

  function UnitOf(t: string): (r: Option<Unit>)
    ensures r.Some? ==> UnitText(r.value) == t
    ensures r.None? ==> forall u: Unit :: UnitText(u) != t
  {
    if t == "ms" then Some(Ms) else if t == "s" then Some(S) else if t == "min" then Some(Min)
    else if t == "h" then Some(H) else if t == "d" then Some(D) else None
  }

  predicate Forbidden(c: char) {
    c == '\'' || c == ';' || c == '"' || c == '\\' || c == '\0' || c == '\r' || c == '\n' || c == '\t'
  }

  /** White space that may stand between number and unit; the rest of the class is forbidden anyway. */
  predicate Blank(c: char) { c == ' ' || c == '\U{0C}' }

  predicate Blanks(t: string) { forall k :: 0 <= k < |t| ==> Blank(t[k]) }

  /** A timeout as the profile may write it: digits, blanks and a unit. */
  predicate Reads(raw: string, number: string, blanks: string, u: Unit) {
    Digits(number) && Blanks(blanks) && raw == number + blanks + UnitText(u)
  }

  function BlanksEnd(t: string): (i: nat)
    ensures i <= |t| && (forall k :: 0 <= k < i ==> Blank(t[k])) && (i < |t| ==> !Blank(t[i]))
  {
    if t != "" && Blank(t[0]) then 1 + BlanksEnd(t[1..]) else 0
  }

  /** The grammar has one reading, so matching it is splitting. */
  function Canonicalize(raw: string): Option<string> {
    if !Clean(raw) then None
    else if raw == "0" then Some("0")
    else
      var i := DigitsEnd(raw, 0);
      var unit := raw[i..][BlanksEnd(raw[i..])..];
      if i == 0 || UnitOf(unit).None? then None else Some(raw[..i] + unit)
  }

  method CanonicalizeStatementTimeout(raw: string) returns (r: Option<string>)
    ensures r == Canonicalize(raw)
  {
    hide UnitOf, BlanksEnd;
    for k := 0 to |raw|
      invariant Clean(raw[..k])
    {
      if Forbidden(raw[k]) {
        return None;
      }
    }
    assert raw[..|raw|] == raw;
    if raw == "0" {
      return Some("0");
    }
    var i := 0;
    while i < |raw| && Digit(raw[i])
      invariant i <= |raw| && DigitsEnd(raw, i) == DigitsEnd(raw, 0)
    {
      i := i + 1;
    }
    var unit := raw[i..][BlanksEnd(raw[i..])..];
    r := if i == 0 || UnitOf(unit).None? then None else Some(raw[..i] + unit);
  }

  const MAX_UINT64 := 0xFFFF_FFFF_FFFF_FFFF

  /** strconv.ParseUint(t, 10, 64) on digits: an error exactly when the number does not fit. */
  function ParseUint(t: string): Option<nat>
    requires Digits(t)
  {
    if ValueOf(t) > MAX_UINT64 then None else Some(ValueOf(t))
  }

  /** The product, unless it would pass the ceiling; tested without computing it. */
  function Limited(n: nat, m: nat, ceiling: nat): (r: nat)
    requires m >= 1
    ensures r <= ceiling && (r == n * m || n * m > ceiling)
  {
    Below(n, ceiling, m);
    if n > ceiling / m then ceiling else n * m
  }

  /** MachineStatementMilliseconds; every intermediate value fits 64 bits. */
  function MachineStatementMilliseconds(raw: string, ceiling: nat): (r: nat)
    requires 0 < ceiling <= 0x7FFF_FFFF
    ensures r <= ceiling
  {
    var canonical := Canonicalize(raw);
    if raw == "" || canonical.None? || canonical.value == "0" then ceiling
    else
      var index := DigitsEnd(canonical.value, 0);
      if index == |canonical.value| || index == 0 then ceiling
      else
        var n := ParseUint(canonical.value[..index]);
        var unit := UnitOf(canonical.value[index..]);
        if n.None? || n.value == 0 || unit.None? then ceiling
        else Limited(n.value, Milliseconds(unit.value), ceiling)
  }

  lemma {:induction false} Below(n: nat, ceiling: nat, m: nat)
    requires m >= 1
    ensures n <= ceiling / m <==> n * m <= ceiling
  {
    var q := ceiling / m;
    assert q * m <= ceiling < q * m + m;
    if n <= q {
      Times(n, q, m);
    } else {
      Times(q + 1, n, m);
    }
  }

  lemma {:induction false} Times(a: nat, b: nat, m: nat)
    requires a <= b
    ensures a * m <= b * m
  {
    assert b * m == a * m + (b - a) * m;
  }

  lemma {:induction false} DigitsAreTaken(number: string, rest: string, i: nat)
    requires AllDigits(number) && (rest != "" ==> !Digit(rest[0])) && i <= |number|
    ensures DigitsEnd(number + rest, i) == |number|
    decreases |number| - i
  {
    if i < |number| {
      DigitsAreTaken(number, rest, i + 1);
    }
  }

  lemma {:induction false} BlanksAreTaken(blanks: string, rest: string)
    requires Blanks(blanks) && (rest != "" ==> !Blank(rest[0]))
    ensures BlanksEnd(blanks + rest) == |blanks|
    decreases |blanks|
  {
    if blanks != "" {
      assert (blanks + rest)[1..] == blanks[1..] + rest;
      BlanksAreTaken(blanks[1..], rest);
    } else {
      assert blanks + rest == rest;
    }
  }

  lemma UnitIsClean(u: Unit)
    ensures var t := UnitText(u);
      t != "" && !Digit(t[0]) && !Blank(t[0]) && Clean(t) && UnitOf(t) == Some(u)
  {
  }

  lemma CanonicalForm(raw: string, number: string, blanks: string, u: Unit)
    requires Reads(raw, number, blanks, u)
    ensures Canonicalize(raw) == Some(number + UnitText(u))
  {
    UnitIsClean(u);
    var rest := blanks + UnitText(u);
    assert raw == number + rest;
    assert rest[0] == if blanks == "" then UnitText(u)[0] else blanks[0];
    DigitsAreTaken(number, rest, 0);
    assert raw[|number|..] == rest && raw[..|number|] == number;
    BlanksAreTaken(blanks, UnitText(u));
    assert rest[|blanks|..] == UnitText(u);
    ReadsClean(raw, number, blanks, u);
  }

  predicate Clean(t: string) { forall k :: 0 <= k < |t| ==> !Forbidden(t[k]) }

  lemma ReadsClean(raw: string, number: string, blanks: string, u: Unit)
    requires Reads(raw, number, blanks, u)
    ensures Clean(raw) && |raw| >= 2
  {
    UnitIsClean(u);
    assert Clean(number) && Clean(blanks) && Clean(UnitText(u));
  }

  /** A positive timeout of any length runs for the smaller of its exact length and the ceiling; zero, which
      means no limit, for the ceiling. */
  lemma TimeoutIsExact(raw: string, number: string, blanks: string, u: Unit, ceiling: nat)
    requires Reads(raw, number, blanks, u) && 0 < ceiling <= 0x7FFF_FFFF
    ensures var exact := ValueOf(number) * Milliseconds(u);
      MachineStatementMilliseconds(raw, ceiling)
      == if ValueOf(number) == 0 || exact > ceiling then ceiling else exact
  {
    hide Canonicalize, DigitsEnd, BlanksEnd, Clean, ValueOf;
    CanonicalForm(raw, number, blanks, u);
    UnitIsClean(u);
    var canonical := number + UnitText(u);
    DigitsAreTaken(number, UnitText(u), 0);
    assert canonical[..|number|] == number && canonical[|number|..] == UnitText(u);
    assert |canonical| >= 2;
    Below(ValueOf(number), ceiling, Milliseconds(u));
    if ValueOf(number) > MAX_UINT64 {
      Times(1, Milliseconds(u), ValueOf(number));
    }
  }

  /** The next smaller unit, and how many of it make one. */
  function Smaller(u: Unit): (r: (Unit, nat))
    requires u != Ms
  {
    match u
    case S => (Ms, 1000)
    case Min => (S, 60)
    case H => (Min, 60)
    case D => (H, 24)
  }

  /** A timeout in milliseconds is the number it is written with. */
  lemma MillisecondsAsWritten(raw: string, number: string, blanks: string, ceiling: nat)
    requires Reads(raw, number, blanks, Ms) && 0 < ceiling <= 0x7FFF_FFFF
    ensures MachineStatementMilliseconds(raw, ceiling)
      == if ValueOf(number) == 0 || ValueOf(number) > ceiling then ceiling else ValueOf(number)
  {
    hide Canonicalize, DigitsEnd, BlanksEnd, Clean, ValueOf, MachineStatementMilliseconds, Reads;
    TimeoutIsExact(raw, number, blanks, Ms, ceiling);
  }

  /** A second is a thousand milliseconds, a minute sixty seconds, an hour sixty minutes and a day twenty-four
      hours: the same timeout in the next smaller unit runs for the same time. */
  lemma UnitsAgree(raw: string, number: string, blanks: string, u: Unit,
                   other: string, count: string, between: string, ceiling: nat)
    requires u != Ms && 0 < ceiling <= 0x7FFF_FFFF
    requires Reads(raw, number, blanks, u) && Reads(other, count, between, Smaller(u).0)
    requires ValueOf(count) == ValueOf(number) * Smaller(u).1
    ensures MachineStatementMilliseconds(raw, ceiling) == MachineStatementMilliseconds(other, ceiling)
  {
    hide Canonicalize, DigitsEnd, BlanksEnd, Clean, ValueOf, MachineStatementMilliseconds;
    TimeoutIsExact(raw, number, blanks, u, ceiling);
    TimeoutIsExact(other, count, between, Smaller(u).0, ceiling);
    var n, v := ValueOf(number), Smaller(u);
    assert n * Milliseconds(u) == n * v.1 * Milliseconds(v.0);
  }

  /** Everything else runs for the ceiling: text is accepted only in that form, or as a bare zero. */
  lemma OtherTextIsCeiling(raw: string, ceiling: nat)
    requires 0 < ceiling <= 0x7FFF_FFFF
    requires forall number, blanks, u :: !Reads(raw, number, blanks, u)
    ensures MachineStatementMilliseconds(raw, ceiling) == ceiling
    ensures raw != "0" ==> Canonicalize(raw).None?
  {
    if raw != "0" && Canonicalize(raw).Some? {
      var i := DigitsEnd(raw, 0);
      var j := BlanksEnd(raw[i..]);
      var u := UnitOf(raw[i..][j..]).value;
      assert raw == raw[..i] + raw[i..][..j] + raw[i..][j..];
      assert Reads(raw, raw[..i], raw[i..][..j], u);
    }
  }
}
