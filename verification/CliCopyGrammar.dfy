/** The COPY statements the splitter accepts (cliCopyPrefix in pkg/query/cli_statements.go), as a grammar on
    tokens that knows nothing of the states the code goes through:

      COPY [BINARY] name ['(' ... ')'] FROM|TO endpoint ...
      COPY '(' ... ')' FROM|TO endpoint ...

    where a name is identifiers joined by points, each with any number of UESCAPE clauses, and the endpoint is
    neither STDIN nor STDOUT. The code also takes a query after which FROM stands. */
module CliCopyGrammar {
  import opened Common
  import opened CliScanner
  import opened CliStatements

  // ---------------------------------------------------------------------------------------------
  // The grammar

  function Delta(t: Token): int { if t.word == "(" then 1 else if t.word == ")" then -1 else 0 }

  /** Parentheses opened and not closed. */
  function Depth(ts: seq<Token>): int {
    if ts == [] then 0 else Depth(ts[..|ts| - 1]) + Delta(ts[|ts| - 1])
  }

  /** A parenthesis and everything up to the one that closes it. */
  ghost predicate Group(ts: seq<Token>) {
    && |ts| >= 2 && ts[0].word == "(" && Depth(ts) == 0
    && forall n :: 0 < n < |ts| ==> Depth(ts[..n]) > 0
  }

  /** A string constant, or any other token that is neither a word nor punctuation. */
  predicate Constant(t: Token) { !t.identifier && t.word == "" }

  predicate Identifier(t: Token) { t.identifier && Delta(t) == 0 }

  predicate NameRest(ts: seq<Token>)
    decreases |ts|
  {
    || ts == []
    || (|ts| >= 2 && ts[0].word == "UESCAPE" && Constant(ts[1]) && NameRest(ts[2..]))
    || (|ts| >= 2 && ts[0].word == "." && Identifier(ts[1]) && NameRest(ts[2..]))
  }

  predicate Name(ts: seq<Token>) { ts != [] && Identifier(ts[0]) && NameRest(ts[1..]) }

  /** A relation: BINARY is a keyword in front of the name, and never the name. */
  predicate Relation(ts: seq<Token>) {
    if ts != [] && ts[0].word == "BINARY" then Name(ts[1..]) else Name(ts)
  }

  /** What is copied: a query, or a relation with or without columns. */
  ghost predicate Copied(ts: seq<Token>) {
    Group(ts) || exists j :: 0 < j <= |ts| && Relation(ts[..j]) && (j == |ts| || Group(ts[j..]))
  }

  predicate Direction(t: Token) { t.word == "FROM" || t.word == "TO" }

  predicate StandardStream(t: Token) { t.word == "STDIN" || t.word == "STDOUT" }

  /** The tokens after COPY are a source, a direction and an endpoint that is no standard stream; anything may
      follow. */
  ghost predicate CopiesAt(ts: seq<Token>, n: nat) {
    n + 2 <= |ts| && Copied(ts[..n]) && Direction(ts[n]) && !StandardStream(ts[n + 1])
  }

  ghost predicate CopyFile(ts: seq<Token>) { exists n: nat :: CopiesAt(ts, n) }

  /** The beginning of such a statement, or one with anything behind it. */
  ghost predicate Viable(ts: seq<Token>) { exists more :: CopyFile(ts + more) }

  /** The lexer's words and quoted identifiers are no parentheses. */
  predicate Lexed(t: Token) { t.identifier ==> Delta(t) == 0 }

  // ---------------------------------------------------------------------------------------------
  // Depth

  lemma {:induction false} DepthAppend(a: seq<Token>, b: seq<Token>)
    ensures Depth(a + b) == Depth(a) + Depth(b)
    decreases |b|
  {
    if b == [] {
      assert a + b == a;
    } else {
      var n := |b| - 1;
      DepthAppend(a, b[..n]);
      assert (a + b)[..|a + b| - 1] == a + b[..n];
    }
  }

  lemma DepthOne(t: Token)
    ensures Depth([t]) == Delta(t)
  {
    assert [t][..0] == [];
  }

  lemma DepthSnoc(ts: seq<Token>, t: Token)
    ensures Depth(ts + [t]) == Depth(ts) + Delta(t)
  {
    assert (ts + [t])[..|ts|] == ts;
  }

  lemma {:induction false} NameRestDepth(ts: seq<Token>)
    requires NameRest(ts)
    ensures Depth(ts) == 0
    decreases |ts|
  {
    if ts != [] {
      NameRestDepth(ts[2..]);
      DepthOne(ts[0]);
      DepthOne(ts[1]);
      DepthAppend([ts[0]], [ts[1]]);
      DepthAppend([ts[0]] + [ts[1]], ts[2..]);
      assert ts == [ts[0]] + [ts[1]] + ts[2..];
    }
  }

  lemma NameDepth(ts: seq<Token>)
    requires Name(ts)
    ensures Depth(ts) == 0
  {
    NameRestDepth(ts[1..]);
    DepthOne(ts[0]);
    DepthAppend([ts[0]], ts[1..]);
    assert ts == [ts[0]] + ts[1..];
  }

  lemma RelationDepth(ts: seq<Token>)
    requires Relation(ts)
    ensures Depth(ts) == 0
  {
    if ts[0].word == "BINARY" {
      NameDepth(ts[1..]);
      DepthOne(ts[0]);
      DepthAppend([ts[0]], ts[1..]);
      assert ts == [ts[0]] + ts[1..];
    } else {
      NameDepth(ts);
    }
  }

  // ---------------------------------------------------------------------------------------------
  // The code's states

  /** The tokens after COPY, fed one by one. */
  function CopyRun(c: CopyPrefix, parens: int, ts: seq<Token>): Option<CopyPrefix>
    decreases |ts|
  {
    if ts == [] then Some(c)
    else
      match CopyConsumed(c, ts[0], parens)
      case None => None
      case Some(next) => CopyRun(next, parens + Delta(ts[0]), ts[1..])
  }

  const COPY_START := CopyPrefix(CopyStart, 0)

  lemma {:induction false} RunAppend(c: CopyPrefix, parens: int, a: seq<Token>, b: seq<Token>)
    ensures CopyRun(c, parens, a + b)
      == match CopyRun(c, parens, a)
         case None => None
         case Some(d) => CopyRun(d, parens + Depth(a), b)
    decreases |a|
  {
    if a == [] {
      assert a + b == b;
    } else {
      assert (a + b)[1..] == a[1..] + b && (a + b)[0] == a[0];
      var next := CopyConsumed(c, a[0], parens);
      if next.Some? {
        RunAppend(next.value, parens + Delta(a[0]), a[1..], b);
        DepthOne(a[0]);
        DepthAppend([a[0]], a[1..]);
        assert a == [a[0]] + a[1..];
      }
    }
  }

  lemma RunSnoc(c: CopyPrefix, parens: int, a: seq<Token>, t: Token)
    ensures CopyRun(c, parens, a + [t])
      == match CopyRun(c, parens, a)
         case None => None
         case Some(d) => CopyConsumed(d, t, parens + Depth(a))
  {
    RunAppend(c, parens, a, [t]);
    assert [t][1..] == [];
  }

  // ---------------------------------------------------------------------------------------------
  // The grammar is accepted

  lemma {:induction false} NameRestRuns(c: CopyPrefix, parens: int, ts: seq<Token>)
    requires c.state == CopyAfterName && NameRest(ts)
    ensures CopyRun(c, parens, ts) == Some(c)
    decreases |ts|
  {
    if ts != [] {
      var p := parens + Delta(ts[0]);
      assert ts[1..][0] == ts[1] && ts[1..][1..] == ts[2..];
      NameRestRuns(c, p + Delta(ts[1]), ts[2..]);
    }
  }

  lemma NameRuns(c: CopyPrefix, parens: int, ts: seq<Token>)
    requires Name(ts)
    requires c.state == CopyName || (c.state == CopyStart && ts[0].word != "BINARY")
    ensures CopyRun(c, parens, ts) == Some(c.(state := CopyAfterName))
  {
    NameRestRuns(c.(state := CopyAfterName), parens + Delta(ts[0]), ts[1..]);
  }

  lemma RelationRuns(ts: seq<Token>)
    requires Relation(ts)
    ensures CopyRun(COPY_START, 0, ts) == Some(CopyPrefix(CopyAfterName, 0)) && Depth(ts) == 0
  {
    RelationDepth(ts);
    if ts[0].word == "BINARY" {
      assert ts[1..][0] == ts[1];
      NameRuns(CopyPrefix(CopyName, 0), 0, ts[1..]);
    } else {
      NameRuns(COPY_START, 0, ts);
    }
  }

  lemma {:induction false} InsideGroup(depth: int, g: seq<Token>, k: nat)
    requires Group(g) && 0 < k < |g|
    ensures CopyRun(CopyPrefix(CopyGroup, depth), depth + Depth(g[..k]), g[k..]) == Some(CopyPrefix(CopyDirection, depth))
    decreases |g| - k
  {
    assert g[..k + 1] == g[..k] + [g[k]];
    DepthSnoc(g[..k], g[k]);
    assert g[k..][1..] == g[k + 1..];
    if k + 1 < |g| {
      InsideGroup(depth, g, k + 1);
    } else {
      assert g[..k + 1] == g && g[k + 1..] == [];
    }
  }

  lemma GroupRuns(c: CopyPrefix, parens: int, g: seq<Token>)
    requires Group(g) && (c.state == CopyStart || c.state == CopyAfterName)
    ensures CopyRun(c, parens, g) == Some(CopyPrefix(CopyDirection, parens))
  {
    DepthOne(g[0]);
    assert g[..1] == [g[0]];
    InsideGroup(parens, g, 1);
  }

  lemma GroupDepth(g: seq<Token>)
    requires Group(g)
    ensures Depth(g) == 0
  {
  }

  lemma NothingRuns(c: CopyPrefix, parens: int)
    ensures CopyRun(c, parens, []) == Some(c) && Depth([]) == 0
  {
  }

  lemma CopiedRuns(ts: seq<Token>) returns (d: CopyPrefix)
    requires Copied(ts)
    ensures CopyRun(COPY_START, 0, ts) == Some(d) && Depth(ts) == 0
    ensures d.state == CopyDirection || d.state == CopyAfterName
  {
    hide Group, Relation, Depth, CopyRun;
    if Group(ts) {
      GroupRuns(COPY_START, 0, ts);
      GroupDepth(ts);
      d := CopyPrefix(CopyDirection, 0);
    } else {
      var j :| 0 < j <= |ts| && Relation(ts[..j]) && (j == |ts| || Group(ts[j..]));
      assert ts == ts[..j] + ts[j..];
      RelationRuns(ts[..j]);
      d := CopyPrefix(CopyAfterName, 0);
      RunAppend(COPY_START, 0, ts[..j], ts[j..]);
      DepthAppend(ts[..j], ts[j..]);
      if j < |ts| {
        GroupRuns(d, 0, ts[j..]);
        GroupDepth(ts[j..]);
        d := CopyPrefix(CopyDirection, 0);
      } else {
        assert ts[j..] == [];
        NothingRuns(d, 0);
      }
    }
  }

  /** Up to the endpoint the grammar decides what the code does: it stops exactly at a standard stream. */
  lemma EndpointDecides(ts: seq<Token>, n: nat)
    requires n + 2 <= |ts| && Copied(ts[..n]) && Direction(ts[n])
    ensures CopyRun(COPY_START, 0, ts).Some? <==> !StandardStream(ts[n + 1])
  {
    hide Copied, Depth, CopyRun, CopyConsumed;
    var d := CopiedRuns(ts[..n]);
    var rest := ts[n..];
    assert ts == ts[..n] + rest;
    RunAppend(COPY_START, 0, ts[..n], rest);
    assert rest[0] == ts[n] && rest[1] == ts[n + 1];
    EndpointRuns(d, rest);
  }

  lemma EndpointRuns(d: CopyPrefix, rest: seq<Token>)
    requires d.state == CopyDirection || d.state == CopyAfterName
    requires |rest| >= 2 && Direction(rest[0])
    ensures CopyRun(d, 0, rest).Some? <==> !StandardStream(rest[1])
  {
    assert rest[1..][0] == rest[1];
    if !StandardStream(rest[1]) {
      DoneRuns(CopyPrefix(CopyDone, d.depth), Delta(rest[0]) + Delta(rest[1]), rest[1..][1..]);
    }
  }

  lemma {:induction false} DoneRuns(c: CopyPrefix, parens: int, ts: seq<Token>)
    requires c.state == CopyDone
    ensures CopyRun(c, parens, ts) == Some(c)
    decreases |ts|
  {
    if ts != [] {
      DoneRuns(c, parens + Delta(ts[0]), ts[1..]);
    }
  }

  // ---------------------------------------------------------------------------------------------
  // Nothing else is

  /** An open parenthesis and what follows it. */
  ghost predicate OpenGroup(g: seq<Token>) {
    g != [] && g[0].word == "(" && forall n :: 0 < n <= |g| ==> Depth(g[..n]) > 0
  }

  /** A parenthesis is open behind nothing, or behind a relation. */
  ghost predicate OpenAt(u: seq<Token>, j: nat) { j < |u| && (j == 0 || Relation(u[..j])) && OpenGroup(u[j..]) }

  ghost predicate ClosedAt(u: seq<Token>, j: nat) { j < |u| && (j == 0 || Relation(u[..j])) && Group(u[j..]) }

  /** What the tokens so far are, in each of the code's states. */
  ghost predicate Means(c: CopyPrefix, u: seq<Token>) {
    match c.state
    case NoCopy => false
    case CopyStart => u == []
    case CopyName =>
      u != [] && ((|u| == 1 && u[0].word == "BINARY") || (u[|u| - 1].word == "." && Relation(u[..|u| - 1])))
    case CopyAfterName => Relation(u)
    case CopyNameEscape => u != [] && u[|u| - 1].word == "UESCAPE" && Relation(u[..|u| - 1])
    case CopyGroup =>
      c.depth == 0 && exists j: nat :: OpenAt(u, j)
    case CopyDirection => exists j: nat :: ClosedAt(u, j)
    case CopyEndpoint => u != [] && Direction(u[|u| - 1]) && Copied(u[..|u| - 1])
    case CopyDone => CopyFile(u)
  }

  lemma {:induction false} NameRestAppend(a: seq<Token>, b: seq<Token>)
    requires NameRest(a) && NameRest(b)
    ensures NameRest(a + b)
    decreases |a|
  {
    if a == [] {
      assert a + b == b;
    } else {
      NameRestAppend(a[2..], b);
      assert (a + b)[2..] == a[2..] + b && (a + b)[0] == a[0] && (a + b)[1] == a[1];
    }
  }

  lemma NameExtends(u: seq<Token>, a: Token, b: Token)
    requires Name(u) && NameRest([a, b])
    ensures Name(u + [a] + [b])
  {
    var v := u + [a] + [b];
    NameRestAppend(u[1..], [a, b]);
    assert v[1..] == u[1..] + [a, b] && v[0] == u[0];
  }

  lemma RelationExtends(u: seq<Token>, a: Token, b: Token)
    requires Relation(u) && NameRest([a, b])
    ensures Relation(u + [a] + [b])
  {
    var v := u + [a] + [b];
    assert v[0] == u[0];
    if u[0].word == "BINARY" {
      NameExtends(u[1..], a, b);
      assert v[1..] == u[1..] + [a] + [b];
    } else {
      NameExtends(u, a, b);
    }
  }

  lemma {:induction false} OpenGroupSnoc(g: seq<Token>, t: Token)
    requires OpenGroup(g)
    ensures Depth(g) + Delta(t) > 0 ==> OpenGroup(g + [t])
    ensures Depth(g) + Delta(t) == 0 ==> Group(g + [t])
  {
    var h := g + [t];
    DepthSnoc(g, t);
    assert g[..|g|] == g;
    forall n | 0 < n <= |g| ensures Depth(h[..n]) > 0 {
      assert h[..n] == g[..n];
    }
    assert h[..|h|] == h;
  }

  lemma OneOpens(t: Token)
    requires t.word == "("
    ensures OpenGroup([t])
  {
    DepthOne(t);
    assert [t][..1] == [t];
  }

  lemma CopiedIsParts(u: seq<Token>, j: nat)
    requires ClosedAt(u, j)
    ensures Copied(u)
  {
    if j == 0 {
      assert u[0..] == u;
    }
  }

  lemma OpenGroupIsOpen(g: seq<Token>)
    requires OpenGroup(g)
    ensures Depth(g) > 0
  {
    assert g[..|g|] == g;
  }

  lemma GroupGrows(u: seq<Token>, j: nat, t: Token)
    requires OpenAt(u, j)
    ensures Depth(u) > 0
    ensures if Depth(u) + Delta(t) > 0 then OpenAt(u + [t], j) else ClosedAt(u + [t], j)
  {
    hide Relation, Group, OpenGroup, Depth;
    assert (u + [t])[..j] == u[..j];
    assert u == u[..j] + u[j..] && (u + [t])[j..] == u[j..] + [t];
    DepthAppend(u[..j], u[j..]);
    if j > 0 {
      RelationDepth(u[..j]);
    } else {
      DepthNone(u[..j]);
    }
    OpenGroupIsOpen(u[j..]);
    OpenGroupSnoc(u[j..], t);
  }

  lemma GroupStateStep(c: CopyPrefix, u: seq<Token>, t: Token)
    requires c.state == CopyGroup && Means(c, u) && CopyConsumed(c, t, Depth(u)).Some?
    ensures Means(CopyConsumed(c, t, Depth(u)).value, u + [t])
  {
    hide OpenAt, ClosedAt, Depth, Relation, Copied, CopyFile;
    var j: nat :| OpenAt(u, j);
    GroupGrows(u, j, t);
  }

  lemma DepthNone(u: seq<Token>)
    requires u == []
    ensures Depth(u) == 0
  {
  }

  lemma StepMeans(c: CopyPrefix, u: seq<Token>, t: Token)
    requires Means(c, u) && CopyConsumed(c, t, Depth(u)).Some?
    requires Lexed(t)
    ensures Means(CopyConsumed(c, t, Depth(u)).value, u + [t])
  {
    hide Depth, OpenAt, ClosedAt, Copied, CopyFile, Relation, NameRest;
    var v := u + [t];
    assert v[..|u|] == u && v[|u|] == t;
    match c.state
    case CopyStart => StartStep(c, u, t);
    case CopyName => NameStep(c, u, t);
    case CopyAfterName => AfterNameStep(c, u, t);
    case CopyNameEscape =>
      var word := u[|u| - 1];
      PairExtends(word, t);
      RelationExtends(u[..|u| - 1], word, t);
      assert u[..|u| - 1] + [word] + [t] == v;
    case CopyGroup => GroupStateStep(c, u, t);
    case CopyDirection =>
      var j: nat :| ClosedAt(u, j);
      CopiedIsParts(u, j);
    case CopyEndpoint => EndpointStep(u, t);
    case CopyDone => DoneStep(u, t);
    case NoCopy =>
  }

  lemma PairExtends(a: Token, b: Token)
    requires (a.word == "UESCAPE" && Constant(b)) || (a.word == "." && Identifier(b))
    ensures NameRest([a, b])
  {
    assert [a, b][2..] == [];
  }

  lemma StartStep(c: CopyPrefix, u: seq<Token>, t: Token)
    requires c.state == CopyStart && u == [] && Lexed(t) && CopyConsumed(c, t, Depth(u)).Some?
    ensures Means(CopyConsumed(c, t, Depth(u)).value, u + [t])
  {
    var v := u + [t];
    assert v == [t] && v[0..] == [t] && v[1..] == [];
    if t.word == "(" {
      OneOpens(t);
      assert OpenAt(v, 0);
    }
  }

  lemma NameStep(c: CopyPrefix, u: seq<Token>, t: Token)
    requires c.state == CopyName && Means(c, u) && Identifier(t)
    ensures Relation(u + [t])
  {
    var v := u + [t];
    if |u| == 1 && u[0].word == "BINARY" {
      assert v[1..] == [t] && [t][1..] == [];
    } else {
      var dot := u[|u| - 1];
      PairExtends(dot, t);
      RelationExtends(u[..|u| - 1], dot, t);
      assert u[..|u| - 1] + [dot] + [t] == v;
    }
  }

  lemma AfterNameStep(c: CopyPrefix, u: seq<Token>, t: Token)
    requires c.state == CopyAfterName && Relation(u) && CopyConsumed(c, t, Depth(u)).Some?
    ensures Means(CopyConsumed(c, t, Depth(u)).value, u + [t])
  {
    RelationDepth(u);
    var v := u + [t];
    assert v[..|u|] == u && v[|u|..] == [t] && u[..|u|] == u;
    if t.word == "(" {
      OneOpens(t);
      assert OpenAt(v, |u|);
    }
  }

  lemma EndpointStep(u: seq<Token>, t: Token)
    requires u != [] && Direction(u[|u| - 1]) && Copied(u[..|u| - 1]) && !StandardStream(t)
    ensures CopyFile(u + [t])
  {
    var v, n := u + [t], |u| - 1;
    assert v[..n] == u[..n] && v[n] == u[n] && v[n + 1] == t;
    assert CopiesAt(v, n);
  }

  lemma DoneStep(u: seq<Token>, t: Token)
    requires CopyFile(u)
    ensures CopyFile(u + [t])
  {
    var n: nat :| CopiesAt(u, n);
    var v := u + [t];
    assert v[..n] == u[..n] && v[n] == u[n] && v[n + 1] == u[n + 1];
    assert CopiesAt(v, n);
  }

  lemma StartMeans()
    ensures Means(COPY_START, [])
  {
  }

  lemma {:induction false} RunMeans(u: seq<Token>)
    requires CopyRun(COPY_START, 0, u).Some? && forall x :: x in u ==> Lexed(x)
    ensures Means(CopyRun(COPY_START, 0, u).value, u)
    decreases |u|
  {
    hide Means, CopyConsumed, Depth;
    if u == [] {
      StartMeans();
    } else {
      var n := |u| - 1;
      assert u == u[..n] + [u[n]];
      RunSnoc(COPY_START, 0, u[..n], u[n]);
      RunMeans(u[..n]);
      assert u[n] in u;
      StepMeans(CopyRun(COPY_START, 0, u[..n]).value, u[..n], u[n]);
    }
  }

  // ---------------------------------------------------------------------------------------------
  // Every accepted beginning goes on

  const SOME_WORD := Token(0, 1, "X", true)
  const SOME_FROM := Token(0, 1, "FROM", true)
  const SOME_CONSTANT := Token(0, 1, "", false)
  const SOME_CLOSE := Token(0, 1, ")", false)

  lemma CopiedGoesOn(u: seq<Token>)
    requires Copied(u)
    ensures Viable(u)
  {
    var more := [SOME_FROM, SOME_WORD];
    var v := u + more;
    assert v[..|u|] == u && v[|u|] == SOME_FROM && v[|u| + 1] == SOME_WORD;
    assert CopiesAt(v, |u|);
  }

  lemma ViablePrefix(u: seq<Token>, more: seq<Token>)
    requires Viable(u + more)
    ensures Viable(u)
  {
    var rest :| CopyFile(u + more + rest);
    assert u + more + rest == u + (more + rest);
  }

  lemma RelationIsCopied(u: seq<Token>)
    requires Relation(u)
    ensures Copied(u)
  {
    assert u[..|u|] == u;
  }

  lemma {:induction false} OpenGroupCloses(u: seq<Token>, j: nat)
    requires OpenAt(u, j)
    ensures Viable(u)
    decreases Depth(u[j..])
  {
    var v := u + [SOME_CLOSE];
    assert v[..j] == u[..j] && v[j..] == u[j..] + [SOME_CLOSE];
    assert u[j..][..|u| - j] == u[j..];
    OpenGroupSnoc(u[j..], SOME_CLOSE);
    DepthSnoc(u[j..], SOME_CLOSE);
    if Depth(u[j..]) == 1 {
      CopiedIsParts(v, j);
      CopiedGoesOn(v);
    } else {
      OpenGroupCloses(v, j);
    }
    ViablePrefix(u, [SOME_CLOSE]);
  }

  lemma MeansViable(c: CopyPrefix, u: seq<Token>)
    requires Means(c, u)
    ensures Viable(u)
  {
    hide OpenAt, ClosedAt, Depth, Copied, Viable, CopyFile;
    match c.state
    case CopyStart =>
      assert [SOME_WORD][1..] == [] && u + [SOME_WORD] == [SOME_WORD];
      WordGoesOn(u);
    case CopyName =>
      if |u| == 1 && u[0].word == "BINARY" {
        var v := u + [SOME_WORD];
        assert v[1..] == [SOME_WORD] && [SOME_WORD][1..] == [] && v[0] == u[0];
        WordGoesOn(u);
      } else {
        var dot := u[|u| - 1];
        assert [dot, SOME_WORD][2..] == [];
        RelationExtends(u[..|u| - 1], dot, SOME_WORD);
        assert u[..|u| - 1] + [dot] + [SOME_WORD] == u + [SOME_WORD];
        WordGoesOn(u);
      }
    case CopyAfterName =>
      RelationIsCopied(u);
      CopiedGoesOn(u);
    case CopyNameEscape =>
      var word := u[|u| - 1];
      assert [word, SOME_CONSTANT][2..] == [];
      RelationExtends(u[..|u| - 1], word, SOME_CONSTANT);
      assert u[..|u| - 1] + [word] + [SOME_CONSTANT] == u + [SOME_CONSTANT];
      RelationIsCopied(u + [SOME_CONSTANT]);
      CopiedGoesOn(u + [SOME_CONSTANT]);
      ViablePrefix(u, [SOME_CONSTANT]);
    case CopyGroup =>
      var j: nat :| OpenAt(u, j);
      OpenGroupCloses(u, j);
    case CopyDirection =>
      var j: nat :| ClosedAt(u, j);
      CopiedIsParts(u, j);
      CopiedGoesOn(u);
    case CopyEndpoint =>
      EndpointStep(u, SOME_WORD);
      DoneGoesOn(u + [SOME_WORD]);
      ViablePrefix(u, [SOME_WORD]);
    case CopyDone => DoneGoesOn(u);
    case NoCopy =>
  }

  lemma WordGoesOn(u: seq<Token>)
    requires Relation(u + [SOME_WORD])
    ensures Viable(u)
  {
    RelationIsCopied(u + [SOME_WORD]);
    CopiedGoesOn(u + [SOME_WORD]);
    ViablePrefix(u, [SOME_WORD]);
  }

  lemma DoneGoesOn(u: seq<Token>)
    requires CopyFile(u)
    ensures Viable(u)
  {
    assert u + [] == u;
  }

  /** The code accepts the tokens after COPY exactly when they can be continued to a COPY from or to a file or a
      program, with anything behind it. */
  lemma CopyIsViable(ts: seq<Token>)
    requires forall t :: t in ts ==> Lexed(t)
    ensures CopyRun(COPY_START, 0, ts).Some? <==> Viable(ts)
  {
    if CopyRun(COPY_START, 0, ts).Some? {
      RunMeans(ts);
      MeansViable(CopyRun(COPY_START, 0, ts).value, ts);
    }
    if Viable(ts) {
      var more :| CopyFile(ts + more);
      ViableRuns(ts, more);
    }
  }

  lemma ViableRuns(ts: seq<Token>, more: seq<Token>)
    requires CopyFile(ts + more)
    ensures CopyRun(COPY_START, 0, ts).Some?
  {
    var n: nat :| CopiesAt(ts + more, n);
    EndpointDecides(ts + more, n);
    RunAppend(COPY_START, 0, ts, more);
  }

  /** A COPY from STDIN or to STDOUT, however it goes on, is not accepted. */
  lemma StandardStreamIsRefused(ts: seq<Token>, n: nat)
    requires n + 2 <= |ts| && Copied(ts[..n]) && Direction(ts[n]) && StandardStream(ts[n + 1])
    requires forall t :: t in ts ==> Lexed(t)
    ensures !Viable(ts)
  {
    EndpointDecides(ts, n);
    CopyIsViable(ts);
  }

  /** The code asks for less than PostgreSQL does: a COPY may end behind its name, and a query may be followed by
      FROM. */
  lemma UnfinishedIsAccepted(name: seq<Token>, query: seq<Token>, endpoint: Token)
    requires Relation(name) && Group(query) && !StandardStream(endpoint)
    ensures CopyRun(COPY_START, 0, name).Some?
    ensures CopyRun(COPY_START, 0, query + [SOME_FROM, endpoint]).Some?
  {
    hide CopyRun, Group, Relation;
    RelationRuns(name);
    var ts, n := query + [SOME_FROM, endpoint], |query|;
    assert ts[..n] == query && ts[n] == SOME_FROM && ts[n + 1] == endpoint;
    EndpointDecides(ts, n);
  }
}
