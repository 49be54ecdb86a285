/** The lexer of pkg/query/cli_statements.go: a position and the end of a cached run of trimmed signs.
    The cache is proved to change nothing: every token is the one a fresh start at its position gives. */
module CliLexer {
  import opened AsciiBytes
  import opened Common
  import opened CliScanner
  import Utf8

  // ---------------------------------------------------------------------------------------------
  // The cached operator suffix

  /** From `pos` to `end` there are only signs, none starts a comment, and they are the rest of one
      operator run. */
  predicate SuffixAt(s: string, pos: nat, end: nat) {
    pos < end ==>
      && end <= |s|
      && (forall k :: pos <= k < end ==> Sign(s[k]) && !LineComment(s, k))
      && (forall k :: pos < k <= end ==> RunEnd(s, k) == end)
  }

  lemma {:induction false} RunEndInside(s: string, i: nat, k: nat)
    requires i <= k <= |s| && k <= RunEnd(s, i)
    ensures RunEnd(s, k) == RunEnd(s, i)
    decreases k - i
  {
    if i < k {
      RunEndInside(s, i + 1, k);
    }
  }

  /** Trimming signs off an operator leaves a suffix the lexer may emit byte by byte. */
  lemma {:induction false} TrimmedSuffix(s: string, i: nat)
    requires i < |s| && Operator(s[i]) && !HasNonSql(s, i, RunEnd(s, i + 1))
    ensures SuffixAt(s, OperatorEnd(s, i), RunEnd(s, i + 1))
  {
    var end, run := OperatorEnd(s, i), RunEnd(s, i + 1);
    forall k | end < k <= run ensures RunEnd(s, k) == run {
      RunEndInside(s, i + 1, k);
    }
  }

  /** Below the cached end, rescanning from the position gives the same one-byte token: no comment, no
      longer operator and no length limit intervenes. */
  lemma {:induction false} SuffixIsFresh(s: string, pos: nat, end: nat)
    requires pos < end && SuffixAt(s, pos, end)
    ensures Next(s, pos) == Fresh(s, pos) == Some(Token(pos, pos + 1, "", false))
    ensures SuffixAt(s, pos + 1, end)
  {
    assert RunEnd(s, pos + 1) == end;
    assert !HasNonSql(s, pos, end);
    TrimAllSigns(s, pos, end);
  }

  lemma {:induction false} TrimAllSigns(s: string, i: nat, end: nat)
    requires i < end <= |s| && forall k :: i < k < end ==> Sign(s[k])
    ensures TrimSigns(s, i, end) == i + 1
  {
    if end > i + 1 {
      TrimAllSigns(s, i, end - 1);
    }
  }

  // ---------------------------------------------------------------------------------------------
  // Scanning loops

  method ScanLine(s: string, i: nat) returns (j: nat)
    requires i <= |s|
    ensures j == LineEnd(s, i)
  {
    j := i;
    while j < |s| && s[j] != '\n' && s[j] != '\r'
      invariant i <= j <= |s| && LineEnd(s, j) == LineEnd(s, i)
    {
      j := j + 1;
    }
  }

  method ScanBlock(s: string, i: nat) returns (r: Option<nat>)
    requires i <= |s|
    ensures r == BlockEnd(s, i, 1)
  {
    var j, depth := i, 1;
    while j < |s| && depth > 0
      invariant i <= j <= |s| && depth >= 0 && BlockEnd(s, j, depth) == BlockEnd(s, i, 1)
    {
      if BlockComment(s, j) {
        depth, j := depth + 1, j + 2;
      } else if Pair(s, j, '*', '/') {
        depth, j := depth - 1, j + 2;
      } else {
        j := j + 1;
      }
    }
    return if depth != 0 then None else Some(j);
  }

  method ScanTrivia(s: string, i: nat) returns (r: Option<nat>)
    requires i <= |s|
    ensures r == SkipTrivia(s, i)
  {
    var j := i;
    while j < |s|
      invariant i <= j <= |s| && SkipTrivia(s, j) == SkipTrivia(s, i)
    {
      if Space(s[j]) {
        j := j + 1;
      } else if LineComment(s, j) {
        j := ScanLine(s, j + 2);
      } else if BlockComment(s, j) {
        var end := ScanBlock(s, j + 2);
        if end.None? {
          return None;
        }
        j := end.value;
      } else {
        break;
      }
    }
    return Some(j);
  }

  /** The digits of `$n` and the tests on them. */
  method ScanParameter(s: string, start: nat) returns (r: Option<nat>)
    requires start + 1 < |s| && s[start] == '$' && Digit(s[start + 1])
    ensures r == ParameterEnd(s, start)
  {
    var end := start + 2;
    while end < |s| && Digit(s[end])
      invariant start + 2 <= end <= |s| && DigitsEnd(s, end) == DigitsEnd(s, start + 2)
    {
      end := end + 1;
    }
    if end < |s| && IdentStart(s[end]) {
      return None;
    }
    return if ParameterInRange(s[start + 1..end]) then Some(end) else None;
  }

  method ScanTag(s: string, i: nat) returns (j: nat)
    requires i <= |s|
    ensures j == TagEnd(s, i)
  {
    j := i;
    if j < |s| && IdentStart(s[j]) {
      j := j + 1;
      while j < |s| && IdentContinue(s[j]) && s[j] != '$'
        invariant i < j <= |s| && TagRest(s, j) == TagRest(s, i + 1)
      {
        j := j + 1;
      }
    }
  }

  method ScanIdentifier(s: string, i: nat) returns (j: nat)
    requires i <= |s|
    ensures j == IdentEnd(s, i)
  {
    j := i;
    while j < |s| && IdentContinue(s[j])
      invariant i <= j <= |s| && IdentEnd(s, j) == IdentEnd(s, i)
    {
      j := j + 1;
    }
  }

  method ScanContinuation(s: string, i: nat) returns (r: Option<nat>)
    requires i <= |s|
    ensures r == QuoteContinuation(s, i, false)
  {
    var j, newline := i, false;
    while j < |s|
      invariant i <= j <= |s| && QuoteContinuation(s, j, newline) == QuoteContinuation(s, i, false)
    {
      if Space(s[j]) {
        newline := newline || s[j] == '\r' || s[j] == '\n';
        j := j + 1;
      } else if LineComment(s, j) {
        j := ScanLine(s, j + 2);
      } else {
        break;
      }
    }
    return if newline && j < |s| && s[j] == '\'' then Some(j) else None;
  }

  method ScanUnicodeEscape(s: string, start: nat) returns (r: Option<(nat, nat)>)
    requires start <= |s|
    ensures r == UnicodeEscape(s, start)
  {
    if start + 1 >= |s| || s[start] != '\\' || (s[start + 1] != 'u' && s[start + 1] != 'U') {
      return None;
    }
    var digits := if s[start + 1] == 'U' then 8 else 4;
    var i: nat, value: nat := start + 2, 0;
    for n := 0 to digits
      invariant 0 <= n <= digits && i == start + 2 + n <= |s|
      invariant HexDigits(s, i, digits - n, value) == HexDigits(s, start + 2, digits, 0)
    {
      if i >= |s| || !Hex(s[i]) {
        return None;
      }
      value := value * 16 + HexValue(s[i]);
      i := i + 1;
    }
    if value == 0 || value > 0x10FFFF {
      return None;
    }
    return Some((i, value));
  }

  method ScanEscape(s: string, start: nat) returns (r: Option<(nat, string)>)
    requires start < |s| && s[start] == '\\'
    ensures r == Escape(s, start)
  {
    var i := start + 1;
    if i >= |s| {
      return None;
    }
    var c := s[i];
    if c == 'u' || c == 'U' {
      var first := ScanUnicodeEscape(s, i - 1);
      if first.None? {
        return None;
      }
      var (next, value) := first.value;
      if 0xD800 <= value <= 0xDBFF {
        var second := ScanUnicodeEscape(s, next);
        if second.None? || second.value.1 < 0xDC00 || second.value.1 > 0xDFFF {
          return None;
        }
        next, value := second.value.0, 0x10000 + (value - 0xD800) * 0x400 + second.value.1 - 0xDC00;
      } else if 0xDC00 <= value <= 0xDFFF {
        return None;
      }
      return Some((next, Utf8.Encode(value)));
    }
    if '0' <= c <= '7' {
      var value: nat, count: nat := 0, 0;
      while i < |s| && count < 3 && '0' <= s[i] <= '7'
        invariant i <= |s| && count <= 3 && value < 256
        invariant OctalByte(s, i, 3 - count, value) == OctalByte(s, start + 1, 3, 0)
      {
        value := (value * 8 + (s[i] as int - '0' as int)) % 256;
        i, count := i + 1, count + 1;
      }
      return Some((i, [Utf8.Byte(value)]));
    }
    if c == 'x' && i + 1 < |s| && Hex(s[i + 1]) {
      i := i + 1;
      var value: nat, count: nat := 0, 0;
      while i < |s| && count < 2 && Hex(s[i])
        invariant i <= |s| && count <= 2 && value < 256
        invariant HexByte(s, i, 2 - count, value) == HexByte(s, start + 2, 2, 0)
      {
        value := (value * 16 + HexValue(s[i])) % 256;
        i, count := i + 1, count + 1;
      }
      return Some((i, [Utf8.Byte(value)]));
    }
    return Some((i + 1, [Named(c)]));
  }

  /** cliLexer.quoted, with the bytes it collects in escape mode. */
  method ScanQuoted(s: string, at: nat, q: Quoting) returns (r: Option<(nat, string)>)
    requires at < |s|
    ensures r == Quoted(s, at + 1, at + 1, q, "")
  {
    var i, decoded := at + 1, "";
    while i < |s|
      invariant at + 1 <= i <= |s|
      invariant Quoted(s, at + 1, i, q, decoded) == Quoted(s, at + 1, at + 1, q, "")
    {
      assert decoded + [] == decoded;
      if s[i] == q.quote {
        if q.doubled && i + 1 < |s| && s[i + 1] == q.quote {
          if q.escapes {
            decoded := decoded + [q.quote];
          }
          i := i + 2;
          continue;
        }
        if q.quote == '"' && i == at + 1 {
          return None;
        }
        if q.quote == '\'' {
          var next := ScanContinuation(s, i + 1);
          if next.Some? {
            i := next.value + 1;
            continue;
          }
        }
        if q.escapes && (!Utf8.Valid(decoded) || '\0' in decoded) {
          return None;
        }
        return Some((i + 1, decoded));
      }
      if q.escapes && s[i] == '\\' {
        var escaped := ScanEscape(s, i);
        if escaped.None? {
          return None;
        }
        i, decoded := escaped.value.0, decoded + escaped.value.1;
      } else {
        if q.escapes {
          decoded := decoded + [s[i]];
        }
        i := i + 1;
      }
    }
    return None;
  }

  // ---------------------------------------------------------------------------------------------
  // The lexer

  lemma FreshIsPlain(s: string, i: nat)
    requires i < |s| && Opening(s, i).None? && !NumberStart(s, i)
    requires !(s[i] == '$' && i + 1 < |s| && Digit(s[i + 1]))
    ensures Fresh(s, i) == PlainToken(s, i)
  {
    hide Opening, NumberStart, PlainToken;
  }

  /** The run of operator bytes after the first, up to a comment. */
  method ScanRun(s: string, i: nat) returns (end: nat, nonSql: bool)
    requires i < |s|
    ensures end == RunEnd(s, i + 1) && (nonSql <==> HasNonSql(s, i, end))
  {
    end, nonSql := i + 1, NonSql(s[i]);
    while end < |s| && Operator(s[end])
      invariant i < end <= |s| && RunEnd(s, end) == RunEnd(s, i + 1)
      invariant nonSql <==> HasNonSql(s, i, end)
    {
      if BlockComment(s, end) || LineComment(s, end) {
        break;
      }
      nonSql := nonSql || NonSql(s[end]);
      end := end + 1;
    }
  }

  /** Trailing signs are given back, the first byte never. */
  method ScanSigns(s: string, i: nat, runEnd: nat) returns (end: nat)
    requires i < runEnd <= |s|
    ensures end == TrimSigns(s, i, runEnd)
  {
    end := runEnd;
    while end > i + 1 && Sign(s[end - 1])
      invariant i < end <= runEnd && TrimSigns(s, i, end) == TrimSigns(s, i, runEnd)
    {
      end := end - 1;
    }
  }

  class Lexer {
    const sql: string
    var pos: nat
    var operatorSuffixEnd: nat

    predicate Valid()
      reads this
    {
      pos <= |sql| && SuffixAt(sql, pos, operatorSuffixEnd)
    }

    constructor (sql: string)
      ensures Valid() && this.sql == sql && pos == 0
    {
      this.sql, pos, operatorSuffixEnd := sql, 0, 0;
    }

    /** cliLexer.next: skips white space and comments, then reads one token. */
    method NextToken() returns (r: Option<Token>)
      requires Valid()
      modifies this
      ensures r == Next(sql, old(pos))
      ensures r.Some? ==> Valid() && pos == r.value.end
    {
      if pos < operatorSuffixEnd {
        SuffixIsFresh(sql, pos, operatorSuffixEnd);
      }
      var start := ScanTrivia(sql, pos);
      if start.None? {
        return None;
      }
      pos := start.value;
      if pos == |sql| {
        return Some(Token(pos, pos, "", false));
      }
      r := ReadToken();
    }

    /** cliLexer.token. */
    method ReadToken() returns (r: Option<Token>)
      requires Valid() && pos < |sql|
      modifies this
      ensures r == Fresh(sql, old(pos))
      ensures r.Some? ==> Valid() && pos == r.value.end
    {
      var s, start := sql, pos;
      if start < operatorSuffixEnd {
        SuffixIsFresh(s, start, operatorSuffixEnd);
        pos := pos + 1;
        return Some(Token(start, pos, "", false));
      }
      var end: Option<nat> := None;
      var identifier := false;
      var opening := Opening(s, start);
      if opening.Some? {
        var (at, q) := opening.value;
        var quoted := ScanQuoted(s, at, q);
        end, identifier := if quoted.None? then None else Some(quoted.value.0), q.quote == '"';
      } else if NumberStart(s, start) {
        end := NumberEnd(s, start);
      } else if s[start] == '$' && start + 1 < |s| && Digit(s[start + 1]) {
        end := ScanParameter(s, start);
      } else {
        r := ReadUnquoted();
        return;
      }
      if end.None? {
        return None;
      }
      pos := end.value;
      return Some(Token(start, pos, "", identifier));
    }

    /** The branches of cliLexer.token for dollar quotes, operators, words and single bytes. */
    method ReadUnquoted() returns (r: Option<Token>)
      requires Valid() && operatorSuffixEnd <= pos < |sql|
      requires Opening(sql, pos).None? && !NumberStart(sql, pos)
      requires !(sql[pos] == '$' && pos + 1 < |sql| && Digit(sql[pos + 1]))
      modifies this
      ensures r == Fresh(sql, old(pos))
      ensures r.Some? ==> Valid() && pos == r.value.end
    {
      hide NumberStart, Opening, Fresh, OperatorEnd, Index, TagEnd, UpperAll, Ascii, IdentEnd;
      FreshIsPlain(sql, pos);
      var s, start := sql, pos;
      if s[start] == '$' {
        var j := ScanTag(s, start + 1);
        if j < |s| && s[j] == '$' {
          var delimiter := s[start..j + 1];
          var found := Index(s, j + 1, delimiter);
          if found.None? {
            return None;
          }
          pos := found.value + |delimiter|;
          return Some(Token(start, pos, "", false));
        }
      }
      if Operator(s[start]) {
        r := ReadOperator();
        return;
      }
      if IdentStart(s[start]) {
        pos := ScanIdentifier(s, start + 1);
        return Some(Token(start, pos, if Ascii(s[start..pos]) then UpperAll(s[start..pos]) else "", true));
      }
      pos := start + 1;
      return Some(Token(start, pos, s[start..start + 1], false));
    }

    /** The operator branch of cliLexer.token: the run, the signs given back, the length limit and the
        cached suffix. */
    method ReadOperator() returns (r: Option<Token>)
      requires Valid() && operatorSuffixEnd <= pos < |sql| && Operator(sql[pos])
      modifies this
      ensures r == if OperatorEnd(sql, old(pos)) - old(pos) >= 64 then None
                   else Some(Token(old(pos), OperatorEnd(sql, old(pos)), "", false))
      ensures r.Some? ==> Valid() && pos == r.value.end
    {
      hide RunEnd, TrimSigns, HasNonSql;
      var s, i := sql, pos;
      var runEnd, nonSql := ScanRun(s, i);
      var end := runEnd;
      if !nonSql {
        end := ScanSigns(s, i, runEnd);
        TrimmedSuffix(s, i);
      }
      if end - i >= 64 {
        return None;
      }
      if end < runEnd {
        operatorSuffixEnd := runEnd;
      }
      pos := end;
      return Some(Token(i, end, "", false));
    }
  }
}
