/** The printers of SQL text (pkg/drivers/pg/encoder.go and identifier.go) and their round trip through
    the statement lexer (PostgreSQL documentation, section 4.1.2). */
module PgQuoting {
  import opened Common
  import opened CliScanner
  import opened CliWindows
  import Utf8

  // ---------------------------------------------------------------------------------------------
  // The printers

  /** The body of an E-string: quotes and backslashes doubled. */
  function EBody(v: string): string {
    if v == [] then []
    else (if v[0] == '\'' then "''" else if v[0] == '\\' then "\\\\" else [v[0]]) + EBody(v[1..])
  }

  function EString(v: string): string { "E" + ("'" + (EBody(v) + "'")) }

  /** The body of a quoted identifier: double quotes doubled. */
  function IdentBody(v: string): string {
    if v == [] then [] else (if v[0] == '"' then "\"\"" else [v[0]]) + IdentBody(v[1..])
  }

  function Ident(v: string): string { "\"" + IdentBody(v) + "\"" }

  lemma {:induction false} EBodyLast(v: string, c: char)
    ensures EBody(v + [c]) == EBody(v) + EBody([c])
  {
    if v == [] {
      assert v + [c] == [c];
    } else {
      assert (v + [c])[1..] == v[1..] + [c];
      EBodyLast(v[1..], c);
    }
  }

  lemma {:induction false} IdentBodyLast(v: string, c: char)
    ensures IdentBody(v + [c]) == IdentBody(v) + IdentBody([c])
  {
    if v == [] {
      assert v + [c] == [c];
    } else {
      assert (v + [c])[1..] == v[1..] + [c];
      IdentBodyLast(v[1..], c);
    }
  }

  /** encodeEString. */
  method EncodeEString(v: string) returns (b: string)
    ensures b == EString(v)
  {
    b := "E'";
    for i := 0 to |v|
      invariant b == "E'" + EBody(v[..i])
    {
      assert v[..i + 1] == v[..i] + [v[i]];
      EBodyLast(v[..i], v[i]);
      if v[i] == '\'' {
        b := b + "''";
      } else if v[i] == '\\' {
        b := b + "\\\\";
      } else {
        b := b + [v[i]];
      }
    }
    assert v[..|v|] == v;
    b := b + "'";
    assert "E'" == "E" + "'";
  }

  /** QuoteIdent. */
  method QuoteIdent(v: string) returns (b: string)
    ensures b == Ident(v)
  {
    b := "\"";
    for i := 0 to |v|
      invariant b == "\"" + IdentBody(v[..i])
    {
      assert v[..i + 1] == v[..i] + [v[i]];
      IdentBodyLast(v[..i], v[i]);
      b := b + if v[i] == '"' then "\"\"" else [v[i]];
    }
    assert v[..|v|] == v;
    b := b + "\"";
  }

  /** QuoteQualified. */
  function Qualified(schema: string, name: string): string {
    if schema == "" then Ident(name) else Ident(schema) + "." + Ident(name)
  }

  // ---------------------------------------------------------------------------------------------
  // Reading the bodies back

  const E_QUOTING := Quoting('\'', true, true)
  const IDENT_QUOTING := Quoting('"', false, true)

  lemma OccursSplits(s: string, i: nat, a: string, b: string)
    requires Occurs(s, i, a + b)
    ensures Occurs(s, i, a) && Occurs(s, i + |a|, b)
  {
    assert (a + b)[..|a|] == a && (a + b)[|a|..] == b;
    assert s[i..i + |a + b|][..|a|] == s[i..i + |a|];
    assert s[i..i + |a + b|][|a|..] == s[i + |a|..i + |a| + |b|];
  }

  lemma OccursFirst(s: string, i: nat, t: string)
    requires Occurs(s, i, t) && t != []
    ensures i < |s| && s[i] == t[0]
  {
    assert s[i..i + |t|][0] == s[i];
  }

  lemma {:induction false} EByteIsRead(s: string, first: nat, i: nat, c: char)
    requires Occurs(s, i, EBody([c]))
    ensures i < |s| && QuotedAt(s, first, i, E_QUOTING) == More(i + |EBody([c])|, [c])
  {
    assert EBody([c])[0] == s[i];
    assert [c][1..] == [];
    if c == '\'' || c == '\\' {
      assert EBody([c])[1] == s[i + 1];
    }
  }

  /** The lexer reads a printed body byte by byte and means the printed bytes. */
  lemma {:induction false} EBodyIsRead(s: string, first: nat, i: nat, v: string, decoded: string)
    requires Occurs(s, i, EBody(v))
    ensures Quoted(s, first, i, E_QUOTING, decoded) == Quoted(s, first, i + |EBody(v)|, E_QUOTING, decoded + v)
    decreases |v|
  {
    hide QuotedAt, Occurs;
    if v == [] {
      assert decoded + v == decoded;
    } else {
      var c, rest := v[0], v[1..];
      assert EBody([c]) + EBody(rest) == EBody(v) by { assert [c][1..] == []; }
      OccursSplits(s, i, EBody([c]), EBody(rest));
      EByteIsRead(s, first, i, c);
      EBodyIsRead(s, first, i + |EBody([c])|, rest, decoded + [c]);
      assert decoded + [c] + rest == decoded + v;
    }
  }

  lemma {:induction false} IdentByteIsRead(s: string, first: nat, i: nat, c: char)
    requires Occurs(s, i, IdentBody([c]))
    ensures i < |s| && QuotedAt(s, first, i, IDENT_QUOTING) == More(i + |IdentBody([c])|, [])
  {
    assert IdentBody([c])[0] == s[i];
    assert [c][1..] == [];
    if c == '"' {
      assert IdentBody([c])[1] == s[i + 1];
    }
  }

  lemma {:induction false} IdentBodyIsRead(s: string, first: nat, i: nat, v: string)
    requires Occurs(s, i, IdentBody(v))
    ensures Quoted(s, first, i, IDENT_QUOTING, "") == Quoted(s, first, i + |IdentBody(v)|, IDENT_QUOTING, "")
    decreases |v|
  {
    if v != [] {
      var c, rest := v[0], v[1..];
      assert IdentBody([c]) + IdentBody(rest) == IdentBody(v) by { assert [c][1..] == []; }
      OccursSplits(s, i, IdentBody([c]), IdentBody(rest));
      IdentByteIsRead(s, first, i, c);
      IdentBodyIsRead(s, first, i + |IdentBody([c])|, rest);
      assert "" + [] == "";
    }
  }

  // ---------------------------------------------------------------------------------------------
  // Round trips

  /** What follows neither doubles the closing quote nor continues the string after a newline. */
  predicate EndsEString(s: string, e: nat)
    requires e <= |s|
  {
    !(e < |s| && s[e] == '\'') && QuoteContinuation(s, e, false).None?
  }

  lemma {:induction false} ClosingQuote(s: string, first: nat, e: nat, v: string)
    requires 0 < e <= |s| && s[e - 1] == '\''
    ensures EndsEString(s, e) && Utf8.Valid(v) && '\0' !in v ==> Quoted(s, first, e - 1, E_QUOTING, v) == Some((e, v))
    ensures var r := Quoted(s, first, e - 1, E_QUOTING, v);
      r.Some? && r.value.0 == e ==> EndsEString(s, e) && Utf8.Valid(v) && '\0' !in v
  {
  }

  lemma EStart(s: string, i: nat)
    requires Pair(s, i, 'E', '\'')
    ensures Opening(s, i) == Some((i + 1, E_QUOTING)) && Next(s, i) == Fresh(s, i)
  {
    assert TriviaAt(s, i) == Stop;
  }

  lemma IdentQuoteStart(s: string, i: nat)
    requires i < |s| && s[i] == '"'
    ensures Opening(s, i) == Some((i, IDENT_QUOTING)) && Next(s, i) == Fresh(s, i)
  {
    assert TriviaAt(s, i) == Stop;
  }

  lemma BodyLength(v: string)
    ensures v == "" <==> IdentBody(v) == ""
  {
  }

  lemma EStringParts(s: string, i: nat, v: string, e: nat)
    requires Occurs(s, i, EString(v)) && e == i + |EString(v)|
    ensures i + 3 <= e <= |s| && Pair(s, i, 'E', '\'') && s[e - 1] == '\''
    ensures Occurs(s, i + 2, EBody(v)) && i + 2 + |EBody(v)| == e - 1
  {
    var rest := EBody(v) + "'";
    OccursSplits(s, i, "E", "'" + rest);
    OccursSplits(s, i + 1, "'", rest);
    OccursSplits(s, i + 2, EBody(v), "'");
    OccursFirst(s, i, "E");
    OccursFirst(s, i + 1, "'");
    OccursFirst(s, e - 1, "'");
  }

  /** What the lexer sees of a printed literal: its opening, its body, its closing quote. */
  lemma {:induction false} EStringIsRead(s: string, i: nat, v: string) returns (e: nat)
    requires Occurs(s, i, EString(v))
    ensures e == i + |EString(v)| && i + 3 <= e <= |s| && s[e - 1] == '\''
    ensures Opening(s, i) == Some((i + 1, E_QUOTING)) && Next(s, i) == Fresh(s, i)
    ensures Quoted(s, i + 2, i + 2, E_QUOTING, "") == Quoted(s, i + 2, e - 1, E_QUOTING, v)
  {
    hide Quoted, Occurs, Fresh;
    e := i + |EString(v)|;
    EStringParts(s, i, v, e);
    EStart(s, i);
    EBodyIsRead(s, i + 2, i + 2, v, "");
    assert "" + v == v;
  }

  lemma FreshQuoted(s: string, i: nat, at: nat, q: Quoting)
    requires i < |s| && Opening(s, i) == Some((at, q)) && at < |s|
    ensures Fresh(s, i) == match Quoted(s, at + 1, at + 1, q, "")
      case None => None
      case Some((end, _)) => Some(Token(i, end, "", q.quote == '"'))
  {
  }

  /** A printed literal at a token boundary is one string token that means exactly `v`, if and only if
      the value is NUL-free UTF-8 and what follows does not extend the literal. */
  lemma {:induction false} EStringRoundTrip(s: string, i: nat, v: string) returns (e: nat)
    requires Occurs(s, i, EString(v))
    ensures e == i + |EString(v)| <= |s|
    ensures Next(s, i) == Some(Token(i, e, "", false)) <==> EndsEString(s, e) && Utf8.Valid(v) && '\0' !in v
    ensures Next(s, i) == Some(Token(i, e, "", false)) ==> Quoted(s, i + 2, i + 2, E_QUOTING, "") == Some((e, v))
  {
    hide Occurs, Quoted, EndsEString, Opening, Fresh, Next, EString, Utf8.Valid;
    e := EStringIsRead(s, i, v);
    FreshQuoted(s, i, i + 1, E_QUOTING);
    ClosingQuote(s, i + 2, e, v);
  }

  lemma {:induction false} ClosingDoubleQuote(s: string, first: nat, e: nat)
    requires 0 < e <= |s| && s[e - 1] == '"'
    ensures first != e - 1 && !(e < |s| && s[e] == '"') ==> Quoted(s, first, e - 1, IDENT_QUOTING, "") == Some((e, ""))
    ensures first == e - 1 && !(e < |s| && s[e] == '"') ==> Quoted(s, first, e - 1, IDENT_QUOTING, "") == None
    ensures var r := Quoted(s, first, e - 1, IDENT_QUOTING, "");
      r.Some? && r.value.0 == e ==> first != e - 1 && !(e < |s| && s[e] == '"')
  {
  }

  lemma {:induction false} IdentIsRead(s: string, i: nat, v: string) returns (e: nat)
    requires Occurs(s, i, Ident(v))
    ensures e == i + |Ident(v)| && i + 2 <= e <= |s| && s[e - 1] == '"'
    ensures v == "" <==> i + 1 == e - 1
    ensures Opening(s, i) == Some((i, IDENT_QUOTING)) && Next(s, i) == Fresh(s, i)
    ensures Quoted(s, i + 1, i + 1, IDENT_QUOTING, "") == Quoted(s, i + 1, e - 1, IDENT_QUOTING, "")
  {
    hide Quoted, Occurs;
    e := i + |Ident(v)|;
    assert Ident(v) == "\"" + (IdentBody(v) + "\"");
    OccursSplits(s, i, "\"", IdentBody(v) + "\"");
    OccursSplits(s, i + 1, IdentBody(v), "\"");
    assert "\""[0] == s[i] && "\""[0] == s[e - 1];
    IdentQuoteStart(s, i);
    IdentBodyIsRead(s, i + 1, i + 1, v);
    BodyLength(v);
  }

  /** A printed identifier at a token boundary is one identifier token, if and only if the name is not
      empty and no double quote follows. The empty name without one is rejected. */
  lemma {:induction false} IdentRoundTrip(s: string, i: nat, v: string) returns (e: nat)
    requires Occurs(s, i, Ident(v))
    ensures e == i + |Ident(v)| <= |s|
    ensures Next(s, i) == Some(Token(i, e, "", true)) <==> v != "" && !(e < |s| && s[e] == '"')
    ensures v == "" && !(e < |s| && s[e] == '"') ==> Next(s, i) == None
  {
    hide Occurs;
    e := IdentIsRead(s, i, v);
    FreshQuoted(s, i, i, IDENT_QUOTING);
    ClosingDoubleQuote(s, i + 1, e);
  }

  /** Different values print differently. */
  lemma {:induction false} EStringInjective(v: string, w: string)
    requires EString(v) == EString(w)
    ensures v == w
  {
    var s := EString(v);
    assert s[2..|s| - 1] == EBody(v) && s[2..|s| - 1] == EBody(w);
    EBodyInjective(v, w);
  }

  lemma {:induction false} EBodyInjective(v: string, w: string)
    requires EBody(v) == EBody(w)
    ensures v == w
    decreases |v|
  {
    if v != [] && w != [] {
      var x, y := EBody(v), EBody(w);
      assert x[0] == v[0] && y[0] == w[0];
      var n := if v[0] == '\'' || v[0] == '\\' then 2 else 1;
      assert x[n..] == EBody(v[1..]) && y[n..] == EBody(w[1..]);
      EBodyInjective(v[1..], w[1..]);
    }
  }

  /** A qualified name is read as an identifier, a point and an identifier. */
  lemma {:induction false} QualifiedIsThreeTokens(schema: string, name: string)
    requires schema != "" && name != ""
    ensures var n, q := |Ident(schema)|, Qualified(schema, name);
      Tokens(q, 0) == Some([Token(0, n, "", true), Token(n, n + 1, ".", false), Token(n + 1, |q|, "", true)])
  {
    hide Next, Occurs, Ident;
    var n, q := |Ident(schema)|, Qualified(schema, name);
    QualifiedParts(schema, name);
    var e := IdentRoundTrip(q, 0, schema);
    PointToken(q, n);
    e := IdentRoundTrip(q, n + 1, name);
    ThreeTokens(q, Token(0, n, "", true), Token(n, n + 1, ".", false), Token(n + 1, |q|, "", true));
  }

  lemma QualifiedParts(schema: string, name: string)
    requires schema != ""
    ensures var n, q := |Ident(schema)|, Qualified(schema, name);
      && n + 1 < |q| == n + 1 + |Ident(name)| && Occurs(q, 0, Ident(schema)) && Occurs(q, n + 1, Ident(name))
      && q[n] == '.' && q[n + 1] == '"'
  {
    hide IdentBody;
    var n, q := |Ident(schema)|, Qualified(schema, name);
    assert q == Ident(schema) + ("." + Ident(name));
    assert Occurs(q, 0, q) by { assert q[0..0 + |q|] == q; }
    OccursSplits(q, 0, Ident(schema), "." + Ident(name));
    OccursSplits(q, n, ".", Ident(name));
    OccursFirst(q, n, ".");
    OccursFirst(q, n + 1, Ident(name));
  }

  lemma ThreeTokens(s: string, a: Token, b: Token, c: Token)
    requires a.start < a.end == b.start < b.end == c.start < c.end == |s|
    requires Next(s, 0) == Some(a) && Next(s, a.end) == Some(b) && Next(s, b.end) == Some(c)
    ensures Tokens(s, 0) == Some([a, b, c])
  {
    assert SkipTrivia(s, |s|) == Some(|s|);
    TokensNone(s, |s|);
    TokensCons(s, b.end, c);
    TokensCons(s, a.end, b);
    TokensCons(s, 0, a);
    assert [a] + ([b] + ([c] + [])) == [a, b, c];
  }

  lemma PointToken(s: string, i: nat)
    requires i + 1 < |s| && s[i] == '.' && s[i + 1] == '"'
    ensures Next(s, i) == Some(Token(i, i + 1, ".", false))
  {
    assert Opening(s, i).None? && !NumberStart(s, i);
    assert s[i..i + 1] == ".";
  }
}
