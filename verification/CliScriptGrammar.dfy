/** What the splitter takes for a script (AnalyzeCLIStatements in pkg/query/cli_statements.go), as a grammar that
    knows nothing of its counters and contexts. Statements end at a semicolon outside parentheses; a CREATE
    [OR REPLACE] FUNCTION or PROCEDURE whose text comes to BEGIN ATOMIC outside parentheses goes on through a body
    of statements, each with its semicolon, to the END that starts an element of the body. */
module CliScriptGrammar {
  import opened Common
  import opened CliScanner
  import opened CliStatements
  import opened CliCopyGrammar

  // ---------------------------------------------------------------------------------------------
  // The grammar

  datatype Stmt = Simple(tokens: seq<Token>) | Routine(head: seq<Token>, body: Body, tail: seq<Token>)

  datatype Body = End | Empty(separator: Token, rest: Body) | Cons(stmt: Stmt, separator: Token, rest: Body)

  datatype Script = Nothing | Last(stmt: Stmt) | Skip(separator: Token, rest: Script)
                  | Then(stmt: Stmt, separator: Token, rest: Script)

  function FlatStmt(s: Stmt): seq<Token> {
    match s
    case Simple(tokens) => tokens
    case Routine(head, body, tail) => head + (FlatBody(body) + tail)
  }

  function FlatBody(b: Body): seq<Token> {
    match b
    case End => []
    case Empty(sep, rest) => [sep] + FlatBody(rest)
    case Cons(stmt, sep, rest) => FlatStmt(stmt) + ([sep] + FlatBody(rest))
  }

  function Flat(p: Script): seq<Token> {
    match p
    case Nothing => []
    case Last(stmt) => FlatStmt(stmt)
    case Skip(sep, rest) => [sep] + Flat(rest)
    case Then(stmt, sep, rest) => FlatStmt(stmt) + ([sep] + Flat(rest))
  }

  predicate RoutineWord(t: Token) { t.word == "FUNCTION" || t.word == "PROCEDURE" }

  predicate RoutineHead(u: seq<Token>) {
    || (|u| >= 2 && u[0].word == "CREATE" && RoutineWord(u[1]))
    || (|u| >= 4 && u[0].word == "CREATE" && u[1].word == "OR" && u[2].word == "REPLACE" && RoutineWord(u[3]))
  }

  /** The token at `n` is the ATOMIC of a routine's BEGIN ATOMIC. */
  predicate Opens(u: seq<Token>, n: nat)
    requires n < |u|
  {
    RoutineHead(u) && n > 0 && u[n - 1].word == "BEGIN" && u[n].word == "ATOMIC" && Depth(u[..n]) == 0
  }

  predicate Separates(u: seq<Token>, n: nat)
    requires n < |u|
  {
    u[n].word == ";" && Depth(u[..n]) == 0
  }

  /** No separator among the tokens. */
  ghost predicate Inner(u: seq<Token>) { forall n :: 0 <= n < |u| ==> !Separates(u, n) }

  ghost predicate Unopened(u: seq<Token>) { forall n :: 0 <= n < |u| ==> !Opens(u, n) }

  /** No parenthesis is closed that was not opened. */
  ghost predicate Nested(u: seq<Token>) { forall n :: 0 <= n <= |u| ==> Depth(u[..n]) >= 0 }

  ghost predicate CopyAllowed(u: seq<Token>) { u != [] && u[0].word == "COPY" ==> Viable(u[1..]) }

  ghost predicate GoodSimple(u: seq<Token>, inBody: bool) {
    && u != [] && Inner(u) && Unopened(u) && Nested(u) && Depth(u) == 0 && CopyAllowed(u)
    && (inBody ==> u[0].word != "END")
  }

  ghost predicate GoodHead(h: seq<Token>) {
    h != [] && Opens(h, |h| - 1) && Unopened(h[..|h| - 1]) && Inner(h) && Nested(h)
  }

  ghost predicate GoodTail(u: seq<Token>) { u != [] && u[0].word == "END" && Inner(u) && Nested(u) && Depth(u) == 0 }

  ghost predicate GoodStmt(s: Stmt, inBody: bool) {
    match s
    case Simple(tokens) => GoodSimple(tokens, inBody)
    case Routine(head, body, tail) => GoodHead(head) && GoodBody(body) && GoodTail(tail)
  }

  ghost predicate GoodBody(b: Body) {
    match b
    case End => true
    case Empty(sep, rest) => sep.word == ";" && GoodBody(rest)
    case Cons(stmt, sep, rest) => GoodStmt(stmt, true) && sep.word == ";" && GoodBody(rest)
  }

  ghost predicate Good(p: Script) {
    match p
    case Nothing => true
    case Last(stmt) => GoodStmt(stmt, false)
    case Skip(sep, rest) => sep.word == ";" && Good(rest)
    case Then(stmt, sep, rest) => GoodStmt(stmt, false) && sep.word == ";" && Good(rest)
  }

  /** The ranges of a script that starts and ends there: each statement from behind the last separator up to its
      own, or to the end. */
  function Spans(p: Script, start: nat, end: nat): seq<Range> {
    match p
    case Nothing => []
    case Last(_) => [Range(start, end)]
    case Skip(sep, rest) => Spans(rest, sep.start + 1, end)
    case Then(_, sep, rest) => [Range(start, sep.start)] + Spans(rest, sep.start + 1, end)
  }

  // ---------------------------------------------------------------------------------------------
  // Feeding many tokens

  function FedAll(m: Splitter, ts: seq<Token>): Option<(Splitter, seq<Range>)>
    decreases |ts|
  {
    if ts == [] then Some((m, []))
    else
      match Fed(m, ts[0])
      case None => None
      case Some((next, done)) =>
        match FedAll(next, ts[1..])
        case None => None
        case Some((last, more)) => Some((last, done + more))
  }

  lemma {:induction false} FedAppend(m: Splitter, a: seq<Token>, b: seq<Token>)
    ensures FedAll(m, a + b)
      == match FedAll(m, a)
         case None => None
         case Some((n, done)) =>
           match FedAll(n, b)
           case None => None
           case Some((last, more)) => Some((last, done + more))
    decreases |a|
  {
    hide Fed;
    if a == [] {
      assert a + b == b;
      if FedAll(m, b).Some? {
        assert [] + FedAll(m, b).value.1 == FedAll(m, b).value.1;
      }
    } else {
      assert (a + b)[1..] == a[1..] + b && (a + b)[0] == a[0];
      if Fed(m, a[0]).Some? {
        var (next, done) := Fed(m, a[0]).value;
        FedAppend(next, a[1..], b);
        if FedAll(next, a[1..]).Some? {
          var (n, d) := FedAll(next, a[1..]).value;
          if FedAll(n, b).Some? {
            assert done + (d + FedAll(n, b).value.1) == done + d + FedAll(n, b).value.1;
          }
        }
      }
    }
  }

  lemma FedSnoc(m: Splitter, a: seq<Token>, t: Token)
    ensures FedAll(m, a + [t])
      == match FedAll(m, a)
         case None => None
         case Some((n, done)) =>
           match Fed(n, t)
           case None => None
           case Some((last, more)) => Some((last, done + more))
  {
    hide Fed;
    FedAppend(m, a, [t]);
    assert [t][1..] == [];
    if FedAll(m, a).Some? && Fed(FedAll(m, a).value.0, t).Some? {
      var more := Fed(FedAll(m, a).value.0, t).value.1;
      assert more + [] == more;
    }
  }

  lemma {:induction false} SplitAppend(m: Splitter, a: seq<Token>, b: seq<Token>, end: nat)
    ensures Split(m, a + b, end)
      == match FedAll(m, a)
         case None => None
         case Some((n, done)) => Prepended(done, Split(n, b, end))
    decreases |a|
  {
    hide Fed;
    if a == [] {
      assert a + b == b;
      PrependedNone(Split(m, b, end));
    } else {
      assert (a + b)[1..] == a[1..] + b && (a + b)[0] == a[0];
      if Fed(m, a[0]).Some? {
        var (next, done) := Fed(m, a[0]).value;
        SplitAppend(next, a[1..], b, end);
        if FedAll(next, a[1..]).Some? {
          var (n, d) := FedAll(next, a[1..]).value;
          PrependedTwice(done, d, Split(n, b, end));
        }
      }
    }
  }

  // ---------------------------------------------------------------------------------------------
  // One statement without a body

  /** The words the code remembers: the first four, separators inside parentheses aside. */
  function FirstWords(u: seq<Token>): (w: seq<string>)
    ensures |w| <= 4
    decreases |u|
  {
    if u == [] then []
    else
      var w := FirstWords(u[..|u| - 1]);
      if u[|u| - 1].word == ";" || |w| == 4 then w else w + [u[|u| - 1].word]
  }

  predicate RoutineWords(w: seq<string>) {
    || (|w| >= 2 && w[0] == "CREATE" && (w[1] == "FUNCTION" || w[1] == "PROCEDURE"))
    || (|w| >= 4 && w[0] == "CREATE" && w[1] == "OR" && w[2] == "REPLACE" && (w[3] == "FUNCTION" || w[3] == "PROCEDURE"))
  }

  lemma {:induction false} WordsAre(u: seq<Token>, j: nat)
    requires j <= |u| && j <= 4 && forall i :: 0 <= i < j ==> u[i].word != ";"
    ensures |FirstWords(u)| >= j && forall i :: 0 <= i < j ==> FirstWords(u)[i] == u[i].word
    decreases |u|
  {
    if j > 0 {
      var n := |u| - 1;
      if j <= n {
        WordsAre(u[..n], j);
      } else {
        WordsAre(u[..n], j - 1);
        FewWords(u[..n]);
      }
    }
  }

  lemma {:induction false} FewWords(u: seq<Token>)
    ensures |FirstWords(u)| <= |u|
    decreases |u|
  {
    if u != [] {
      FewWords(u[..|u| - 1]);
    }
  }

  lemma DepthOfOne(u: seq<Token>)
    requires |u| >= 1
    ensures Depth(u[..0]) == 0 && Depth(u[..1]) == Delta(u[0])
  {
    assert u[..1] == [u[0]];
    DepthOne(u[0]);
  }

  lemma DepthStep(u: seq<Token>, n: nat)
    requires n < |u|
    ensures Depth(u[..n + 1]) == Depth(u[..n]) + Delta(u[n])
  {
    assert u[..n + 1] == u[..n] + [u[n]];
    DepthSnoc(u[..n], u[n]);
  }

  lemma NoSeparatorAt(u: seq<Token>, n: nat)
    requires Inner(u) && n < |u|
    ensures u[n].word == ";" ==> Depth(u[..n]) != 0
  {
    assert !Separates(u, n);
  }

  /** Separators inside parentheses never come before the words of a routine's head. */
  lemma HeadIsWords(u: seq<Token>)
    requires Inner(u)
    ensures RoutineHead(u) <==> RoutineWords(FirstWords(u))
  {
    hide Depth, FirstWords, Inner;
    FewWords(u);
    if u != [] {
      DepthOfOne(u);
      NoSeparatorAt(u, 0);
      WordsAre(u, 1);
      if |u| >= 2 && u[0].word == "CREATE" {
        NoSeparatorAt(u, 1);
        WordsAre(u, 2);
        if |u| >= 3 && u[1].word == "OR" {
          ThirdAndFourth(u);
        }
      }
    }
  }

  lemma ThirdAndFourth(u: seq<Token>)
    requires Inner(u) && |u| >= 3 && u[0].word == "CREATE" && u[1].word == "OR"
    ensures RoutineHead(u) <==> RoutineWords(FirstWords(u))
  {
    hide Depth, FirstWords, Inner;
    FewWords(u);
    DepthOfOne(u);
    DepthStep(u, 1);
    NoSeparatorAt(u, 2);
    WordsAre(u, 3);
    if |u| >= 4 && u[2].word == "REPLACE" {
      DepthStep(u, 2);
      NoSeparatorAt(u, 3);
      WordsAre(u, 4);
    }
  }

  /** The context the code has after the tokens of a statement. */
  predicate InContext(c: Context, u: seq<Token>) {
    && c.prefix == FirstWords(u)
    && c.routine == RoutineWords(FirstWords(u))
    && (c.pendingBegin <==> c.routine && u != [] && u[|u| - 1].word == "BEGIN" && Depth(u[..|u| - 1]) == 0)
    && (if u != [] && u[0].word == "COPY" then CopyRun(COPY_START, 0, u[1..]) == Some(c.copy)
        else c.copy == CopyPrefix(NoCopy, 0))
  }

  /** Inside parentheses a COPY is in its query or its columns, or past its endpoint. */
  predicate CopyInside(c: CopyPrefix, depth: int) {
    && (depth > 0 && c.state != NoCopy ==> c.state == CopyGroup || c.state == CopyDone)
    && (c.state == CopyGroup ==> c.depth == 0)
  }

  /** Where the splitter is in a statement that started with fresh variables `m`. */
  predicate After(m: Splitter, n: Splitter, u: seq<Token>) {
    && n.start == m.start && n.bodies == m.bodies && n.hasToken == (m.hasToken || u != []) && n.parens as int == Depth(u)
    && InContext(n.context, u) && CopyInside(n.context.copy, Depth(u))
  }

  /** The tokens are no COPY, or one the code accepts. */
  predicate CopyRuns(u: seq<Token>) { u != [] && u[0].word == "COPY" ==> CopyRun(COPY_START, 0, u[1..]).Some? }

  lemma WordsStep(w: seq<string>, x: string)
    requires |w| < 4
    ensures RoutineWords(w + [x]) <==> RoutineWords(w) || StartsRoutine(w + [x])
  {
    assert forall i :: 0 <= i < |w| ==> (w + [x])[i] == w[i];
  }

  lemma FirstWordsSnoc(u: seq<Token>, t: Token)
    ensures var w := FirstWords(u);
      FirstWords(u + [t]) == if t.word == ";" || |w| == 4 then w else w + [t.word]
  {
    assert (u + [t])[..|u|] == u;
  }

  lemma SomeWords(u: seq<Token>)
    requires Inner(u) && u != []
    ensures FirstWords(u) != []
  {
    hide FirstWords;
    DepthOfOne(u);
    NoSeparatorAt(u, 0);
    WordsAre(u, 1);
  }

  /** COPY keeps to its query or columns while a parenthesis is open. */
  lemma CopyStaysInside(c: CopyPrefix, t: Token, depth: nat)
    requires CopyInside(c, depth) && c.state != NoCopy && Lexed(t) && CopyConsumed(c, t, depth).Some?
    requires depth + Delta(t) >= 0
    ensures CopyInside(CopyConsumed(c, t, depth).value, depth + Delta(t))
    ensures CopyConsumed(c, t, depth).value.state != NoCopy
  {
  }

  lemma CopySnoc(u: seq<Token>, t: Token)
    requires u != [] && u[0].word == "COPY" && CopyRun(COPY_START, 0, u[1..]).Some?
    ensures CopyRun(COPY_START, 0, (u + [t])[1..]) == CopyConsumed(CopyRun(COPY_START, 0, u[1..]).value, t, Depth(u))
  {
    hide CopyConsumed, CopyRun, Depth;
    assert (u + [t])[1..] == u[1..] + [t];
    RunSnoc(COPY_START, 0, u[1..], t);
    assert u == [u[0]] + u[1..];
    DepthAppend([u[0]], u[1..]);
    DepthOne(u[0]);
  }

  /** One token of a statement, as the context sees it. */
  lemma ContextStep(c: Context, u: seq<Token>, t: Token, parens: nat)
    requires InContext(c, u) && CopyInside(c.copy, Depth(u)) && parens == Depth(u) && t.word != ";"
    requires u != [] ==> FirstWords(u) != []
    ensures Consumed(c, t, parens).Some? <==> CopyRuns(u + [t])
    ensures Consumed(c, t, parens).Some? ==>
      && InContext(Consumed(c, t, parens).value.0, u + [t])
      && Consumed(c, t, parens).value.0.copy
         == (if u == [] then (if t.word == "COPY" then COPY_START else CopyPrefix(NoCopy, 0))
             else if c.copy.state == NoCopy then c.copy else CopyConsumed(c.copy, t, Depth(u)).value)
      && (Consumed(c, t, parens).value.1
          <==> RoutineWords(FirstWords(u)) && u != [] && u[|u| - 1].word == "BEGIN" && Depth(u[..|u| - 1]) == 0
               && t.word == "ATOMIC" && Depth(u) == 0)
  {
    hide CopyConsumed, CopyRun, Depth, FirstWords, CopyInside;
    var v := u + [t];
    assert v[|u|] == t && v[..|u|] == u && (u != [] ==> v[0] == u[0]);
    FirstWordsSnoc(u, t);
    NoWords();
    if |FirstWords(u)| < 4 {
      WordsStep(FirstWords(u), t.word);
    }
    if u == [] {
      assert v[1..] == [];
      NothingRuns(COPY_START, 0);
    } else if u[0].word == "COPY" {
      CopyIsMarked(u);
      CopySnoc(u, t);
    }
  }

  lemma NoWords()
    ensures FirstWords([]) == []
  {
  }

  lemma {:induction false} CopyIsMarked(u: seq<Token>)
    requires u != [] && u[0].word == "COPY" && CopyRun(COPY_START, 0, u[1..]).Some?
    ensures CopyRun(COPY_START, 0, u[1..]).value.state != NoCopy
    decreases |u|
  {
    var r := u[1..];
    if r != [] {
      var init := u[..|u| - 1];
      assert r == init[1..] + [u[|u| - 1]];
      RunSnoc(COPY_START, 0, init[1..], u[|u| - 1]);
      CopyIsMarked(init);
    }
  }

  lemma SeparatorInside(m: Splitter, n: Splitter, u: seq<Token>, t: Token)
    requires After(m, n, u) && t.word == ";" && Depth(u) > 0 && u != []
    ensures Fed(n, t) == Some((n, [])) && After(m, n, u + [t]) && CopyRuns(u + [t])
  {
    hide CopyRun, Depth, FirstWords, RoutineWords;
    var v := u + [t];
    assert v[|u|] == t && v[..|u|] == u && v[0] == u[0];
    FirstWordsSnoc(u, t);
    DepthSnoc(u, t);
    DepthStep(u, |u| - 1);
    assert u[..|u|] == u;
    if u[0].word == "COPY" {
      CopySnoc(u, t);
      CopyIsMarked(u);
    }
  }

  lemma OpensIsWords(u: seq<Token>, t: Token)
    requires Inner(u + [t])
    ensures Opens(u + [t], |u|)
      <==> RoutineWords(FirstWords(u)) && u != [] && u[|u| - 1].word == "BEGIN" && Depth(u[..|u| - 1]) == 0
           && t.word == "ATOMIC" && Depth(u) == 0
  {
    hide Depth, FirstWords, Inner;
    var v := u + [t];
    HeadIsWords(v);
    FirstWordsSnoc(u, t);
    assert v[|u|] == t && v[..|u|] == u && (u != [] ==> v[|u| - 1] == u[|u| - 1]);
    if |FirstWords(u)| < 4 {
      WordsStep(FirstWords(u), t.word);
    }
    if u != [] {
      DepthStep(u, |u| - 1);
      assert u[..|u|] == u;
    }
  }

  lemma TokenFeeds(m: Splitter, n: Splitter, u: seq<Token>, t: Token)
    requires After(m, n, u) && Inner(u + [t]) && Lexed(t) && !Opens(u + [t], |u|)
    requires (u != [] ==> FirstWords(u) != []) && (u == [] && m.bodies > 0 ==> t.word != "END")
    ensures Fed(n, t).Some? <==> Depth(u + [t]) >= 0 && CopyRuns(u + [t])
    ensures Fed(n, t).Some? ==> Fed(n, t).value.1 == [] && After(m, Fed(n, t).value.0, u + [t])
  {
    hide Depth, FirstWords, Inner, Opens, CopyConsumed, CopyRun, RoutineWords, Consumed, InContext, CopyInside, CopyRuns;
    var v := u + [t];
    DepthSnoc(u, t);
    NoSeparatorAt(v, |u|);
    assert v[|u|] == t && v[..|u|] == u;
    if t.word == ";" {
      if u == [] {
        DepthNone(u);
      } else {
        SeparatorInside(m, n, u, t);
      }
    } else {
      PrefixIsWords(n.context, u);
      ContextStep(n.context, u, t, n.parens);
      OpensIsWords(u, t);
      if Consumed(n.context, t, n.parens).Some? {
        var next := Consumed(n.context, t, n.parens).value.0;
        assert Fed(n, t).Some? <==> Depth(v) >= 0;
        if Depth(v) >= 0 {
          CopySomeStep(n.context, u, t, n.parens);
          InsideStep(n.context.copy, u, t);
          assert CopyInside(next.copy, Depth(v));
          assert Fed(n, t).value.0.context == next;
        }
      }
    }
  }

  lemma CopySomeStep(c: Context, u: seq<Token>, t: Token, parens: nat)
    requires InContext(c, u) && Consumed(c, t, parens).Some? && parens == Depth(u) && (u != [] ==> FirstWords(u) != [])
    ensures u == [] || c.copy.state == NoCopy || CopyConsumed(c.copy, t, Depth(u)).Some?
  {
    hide CopyConsumed, CopyRun, Depth, FirstWords, RoutineWords;
  }

  lemma PrefixIsWords(c: Context, u: seq<Token>)
    requires InContext(c, u)
    ensures c.prefix == FirstWords(u)
  {
  }

  lemma InsideStep(c: CopyPrefix, u: seq<Token>, t: Token)
    requires CopyInside(c, Depth(u)) && Lexed(t) && Depth(u) >= 0 && Depth(u) + Delta(t) >= 0
    ensures var next := if u == [] then (if t.word == "COPY" then COPY_START else CopyPrefix(NoCopy, 0))
        else if c.state == NoCopy then c
        else if CopyConsumed(c, t, Depth(u)).Some? then CopyConsumed(c, t, Depth(u)).value else COPY_START;
      (u == [] || c.state == NoCopy || CopyConsumed(c, t, Depth(u)).Some?) ==> CopyInside(next, Depth(u + [t]))
  {
    hide Depth;
    DepthSnoc(u, t);
    if u == [] {
      DepthNone(u);
    } else if c.state != NoCopy && CopyConsumed(c, t, Depth(u)).Some? {
      CopyStaysInside(c, t, Depth(u));
    }
  }

  // ---------------------------------------------------------------------------------------------
  // A stretch of tokens without separators and openings

  ghost predicate AllLexed(u: seq<Token>) { forall t :: t in u ==> Lexed(t) }

  lemma OpensPrefix(u: seq<Token>, k: nat, n: nat)
    requires n < k <= |u|
    ensures Opens(u[..k], n) <==> Opens(u, n)
  {
    assert u[..k][..n] == u[..n];
    if n < 3 && RoutineHead(u) {
      assert u[..k][n] == u[n];
    }
  }

  lemma PrefixIsInner(u: seq<Token>, k: nat)
    requires k <= |u| && Inner(u)
    ensures Inner(u[..k])
  {
    hide Depth;
    forall n | 0 <= n < k ensures !Separates(u[..k], n) {
      assert u[..k][..n] == u[..n] && !Separates(u, n);
    }
  }

  lemma PrefixIsUnopened(u: seq<Token>, k: nat)
    requires k <= |u| && Unopened(u)
    ensures Unopened(u[..k])
  {
    hide Depth, Opens;
    forall n | 0 <= n < k ensures !Opens(u[..k], n) {
      OpensPrefix(u, k, n);
    }
  }

  lemma NestedSnoc(u: seq<Token>, t: Token)
    ensures Nested(u + [t]) <==> Nested(u) && Depth(u + [t]) >= 0
  {
    hide Depth;
    var v := u + [t];
    assert v[..|v|] == v;
    assert forall n :: 0 <= n <= |u| ==> v[..n] == u[..n];
  }

  lemma NestedNone(u: seq<Token>)
    requires u == []
    ensures Nested(u)
  {
    assert u[..0] == u;
  }

  lemma CopyRunsBefore(u: seq<Token>, t: Token)
    requires CopyRuns(u + [t])
    ensures CopyRuns(u)
  {
    var v := u + [t];
    if u != [] && u[0].word == "COPY" {
      assert v[1..] == u[1..] + [t] && v[0] == u[0];
      RunSnoc(COPY_START, 0, u[1..], t);
    }
  }

  lemma AtStart(m: Splitter)
    requires m.context == FRESH && m.parens == 0
    ensures After(m, m, [])
  {
  }

  /** Tokens with no separator and no opening among them are taken exactly when their parentheses nest and, behind
      COPY, the COPY is one the code takes. */
  lemma {:induction false} SegmentFeeds(m: Splitter, u: seq<Token>)
    requires m.context == FRESH && m.parens == 0 && AllLexed(u) && Inner(u) && Unopened(u)
    requires u != [] && m.bodies > 0 ==> u[0].word != "END"
    ensures FedAll(m, u).Some? <==> Nested(u) && CopyRuns(u)
    ensures FedAll(m, u).Some? ==> FedAll(m, u).value.1 == [] && After(m, FedAll(m, u).value.0, u)
    decreases |u|
  {
    hide Fed, Depth, After, CopyRuns, Nested, Inner, Unopened, Opens;
    if u == [] {
      AtStart(m);
      NestedNone(u);
      NoCopyRuns(u);
    } else {
      var k := |u| - 1;
      var a, t := u[..k], u[k];
      assert u == a + [t];
      PrefixIsInner(u, k);
      PrefixIsUnopened(u, k);
      SegmentFeeds(m, a);
      FedSnoc(m, a, t);
      NestedSnoc(a, t);
      NotOpenedAt(u, k);
      if FedAll(m, a).Some? {
        if a != [] {
          SomeWords(a);
        }
        TokenFeeds(m, FedAll(m, a).value.0, a, t);
      } else if CopyRuns(u) {
        CopyRunsBefore(a, t);
      }
    }
  }

  lemma NoCopyRuns(u: seq<Token>)
    requires u == []
    ensures CopyRuns(u)
  {
  }

  lemma NotOpenedAt(u: seq<Token>, n: nat)
    requires Unopened(u) && n < |u|
    ensures !Opens(u, n)
  {
  }

  lemma CopyRunsAllowed(u: seq<Token>)
    requires AllLexed(u)
    ensures CopyRuns(u) <==> CopyAllowed(u)
  {
    if u != [] && u[0].word == "COPY" {
      CopyIsViable(u[1..]);
    }
  }

  // ---------------------------------------------------------------------------------------------
  // A routine's head and tail

  lemma HeadFeeds(m: Splitter, h: seq<Token>)
    requires m.context == FRESH && m.parens == 0 && AllLexed(h) && h != []
    requires Opens(h, |h| - 1) && Inner(h) && Unopened(h[..|h| - 1])
    ensures FedAll(m, h).Some? <==> Nested(h)
    ensures Nested(h) ==> FedAll(m, h) == Some((m.(hasToken := true, bodies := m.bodies + 1), []))
  {
    hide Depth, CopyRuns, Nested, Inner, Unopened, Opens, Fed, After, InContext, Consumed;
    var k := |h| - 1;
    var a, t := h[..k], h[k];
    assert h == a + [t];
    PrefixIsInner(h, k);
    HeadWords(h);
    SegmentFeeds(m, a);
    FedSnoc(m, a, t);
    NestedSnoc(a, t);
    DepthSnoc(a, t);
    if FedAll(m, a).Some? {
      SomeWords(a);
      OpeningFeeds(m, FedAll(m, a).value.0, a, t);
    }
  }

  lemma HeadWords(h: seq<Token>)
    requires h != [] && Opens(h, |h| - 1)
    ensures |h| >= 3 && h[0].word == "CREATE" && CopyRuns(h[..|h| - 1]) && Delta(h[|h| - 1]) == 0
    ensures Depth(h[..|h| - 1]) == 0 && h[..|h| - 1] != [] && h[..|h| - 1][0] == h[0]
  {
  }

  lemma OpeningFeeds(m: Splitter, n: Splitter, u: seq<Token>, t: Token)
    requires After(m, n, u) && m.context == FRESH && m.parens == 0 && Inner(u + [t]) && Opens(u + [t], |u|)
    requires u != [] && FirstWords(u) != []
    ensures Fed(n, t) == Some((m.(hasToken := true, bodies := m.bodies + 1), []))
  {
    hide Depth, FirstWords, Inner, CopyConsumed, CopyRun, RoutineWords, Consumed, InContext, CopyInside, CopyRuns, Opens;
    var v := u + [t];
    PrefixIsWords(n.context, u);
    OpensIsWords(u, t);
    HeadWords(v);
    assert v[..|u|] == u;
    CopyRunsStill(u, t);
    ContextStep(n.context, u, t, n.parens);
  }

  lemma CopyRunsStill(u: seq<Token>, t: Token)
    requires u != [] && u[0].word != "COPY"
    ensures CopyRuns(u + [t])
  {
    assert (u + [t])[0] == u[0];
  }

  /** Behind the END of a body no routine and no COPY starts. */
  predicate Ending(m: Splitter, n: Splitter, u: seq<Token>) {
    && n.start == m.start && n.bodies == m.bodies - 1 && n.hasToken && n.parens as int == Depth(u)
    && n.context.prefix != [] && n.context.prefix[0] == "" && !n.context.routine && n.context.copy.state == NoCopy
  }

  lemma EndFeeds(m: Splitter, t: Token)
    requires m.context == FRESH && m.parens == 0 && m.bodies > 0 && t.word == "END"
    ensures Fed(m, t).Some? && Fed(m, t).value.1 == [] && Ending(m, Fed(m, t).value.0, [t])
  {
    DepthOne(t);
  }

  lemma EndingFeeds(m: Splitter, n: Splitter, u: seq<Token>, t: Token)
    requires Ending(m, n, u) && Inner(u + [t])
    ensures Fed(n, t).Some? <==> Depth(u + [t]) >= 0
    ensures Fed(n, t).Some? ==> Fed(n, t).value.1 == [] && Ending(m, Fed(n, t).value.0, u + [t])
  {
    hide Depth, Inner;
    var v := u + [t];
    DepthSnoc(u, t);
    NoSeparatorAt(v, |u|);
    assert v[|u|] == t && v[..|u|] == u;
    assert |n.context.prefix| < 4 ==> (n.context.prefix + [t.word])[0] == "";
  }

  lemma {:induction false} TailFeeds(m: Splitter, u: seq<Token>)
    requires m.context == FRESH && m.parens == 0 && m.bodies > 0 && u != [] && u[0].word == "END" && Inner(u)
    ensures FedAll(m, u).Some? <==> Nested(u)
    ensures FedAll(m, u).Some? ==> FedAll(m, u).value.1 == [] && Ending(m, FedAll(m, u).value.0, u)
    decreases |u|
  {
    hide Fed, Depth, Ending, Nested, Inner;
    var k := |u| - 1;
    var a, t := u[..k], u[k];
    assert u == a + [t];
    FedSnoc(m, a, t);
    NestedSnoc(a, t);
    if k == 0 {
      EndFeeds(m, t);
      NestedNone(a);
      DepthOne(t);
    } else {
      PrefixIsInner(u, k);
      TailFeeds(m, a);
      if FedAll(m, a).Some? {
        EndingFeeds(m, FedAll(m, a).value.0, a, t);
      }
    }
  }

  // ---------------------------------------------------------------------------------------------
  // A well-formed script is taken

  /** Where a whole statement leaves the splitter. */
  predicate Stands(m: Splitter, n: Splitter) { n == m.(hasToken := true, context := n.context) }

  lemma LexedParts(a: seq<Token>, b: seq<Token>)
    requires AllLexed(a + b)
    ensures AllLexed(a) && AllLexed(b)
  {
    assert forall t :: t in a ==> t in a + b;
    assert forall t :: t in b ==> t in a + b;
  }

  lemma SimpleFeeds(m: Splitter, u: seq<Token>)
    requires m.context == FRESH && m.parens == 0 && AllLexed(u) && GoodSimple(u, m.bodies > 0)
    ensures FedAll(m, u).Some? && FedAll(m, u).value.1 == [] && Stands(m, FedAll(m, u).value.0)
  {
    hide Fed, Depth, Nested, Inner, Unopened, InContext, CopyInside, CopyRuns, CopyAllowed;
    CopyRunsAllowed(u);
    SegmentFeeds(m, u);
  }

  lemma EndingStands(m: Splitter, n: Splitter, u: seq<Token>)
    requires Ending(m.(hasToken := true, bodies := m.bodies + 1), n, u) && Depth(u) == 0 && m.parens == 0
    ensures Stands(m, n)
  {
  }

  lemma {:induction false} StmtFeeds(m: Splitter, s: Stmt)
    requires m.context == FRESH && m.parens == 0 && AllLexed(FlatStmt(s)) && GoodStmt(s, m.bodies > 0)
    ensures FedAll(m, FlatStmt(s)).Some? && FedAll(m, FlatStmt(s)).value.1 == []
    ensures Stands(m, FedAll(m, FlatStmt(s)).value.0)
    decreases s
  {
    hide Fed, FedAll, Depth, Ending, Nested, Inner, Unopened, AllLexed, GoodSimple, Stands;
    match s
    case Simple(tokens) => SimpleFeeds(m, tokens);
    case Routine(head, body, tail) =>
      LexedParts(head, FlatBody(body) + tail);
      LexedParts(FlatBody(body), tail);
      HeadFeeds(m, head);
      var inside := m.(hasToken := true, bodies := m.bodies + 1);
      BodyFeeds(inside, body);
      TailFeeds(inside, tail);
      FedAppend(inside, FlatBody(body), tail);
      FedAppend(m, head, FlatBody(body) + tail);
      EndingStands(m, FedAll(inside, tail).value.0, tail);
  }

  lemma InnerSeparator(m: Splitter, n: Splitter, sep: Token)
    requires Stands(m, n) && m.context == FRESH && m.parens == 0 && m.bodies > 0 && sep.word == ";" && m.hasToken
    ensures Fed(n, sep) == Some((m, []))
  {
  }

  lemma FedCons(m: Splitter, t: Token, rest: seq<Token>)
    requires Fed(m, t) == Some((m, []))
    ensures FedAll(m, [t] + rest) == FedAll(m, rest)
  {
    hide Fed;
    assert ([t] + rest)[1..] == rest;
    if FedAll(m, rest).Some? {
      assert [] + FedAll(m, rest).value.1 == FedAll(m, rest).value.1;
    }
  }

  lemma {:induction false} BodyFeeds(m: Splitter, b: Body)
    requires m.context == FRESH && m.parens == 0 && m.bodies > 0 && m.hasToken && AllLexed(FlatBody(b)) && GoodBody(b)
    ensures FedAll(m, FlatBody(b)) == Some((m, []))
    decreases b
  {
    hide Fed, AllLexed, GoodSimple, Stands, FlatStmt;
    match b
    case End =>
    case Empty(sep, rest) =>
      LexedParts([sep], FlatBody(rest));
      BodyFeeds(m, rest);
      EmptyFeeds(m, sep);
      FedCons(m, sep, FlatBody(rest));
    case Cons(stmt, sep, rest) =>
      LexedParts(FlatStmt(stmt), [sep] + FlatBody(rest));
      LexedParts([sep], FlatBody(rest));
      StmtFeeds(m, stmt);
      BodyFeeds(m, rest);
      var n := FedAll(m, FlatStmt(stmt)).value.0;
      InnerSeparator(m, n, sep);
      FedAppend(m, FlatStmt(stmt), [sep] + FlatBody(rest));
      SeparatorFeeds(n, m, sep, FlatBody(rest));
  }

  lemma EmptyFeeds(m: Splitter, sep: Token)
    requires m.context == FRESH && m.parens == 0 && m.bodies > 0 && sep.word == ";"
    ensures Fed(m, sep) == Some((m, []))
  {
  }

  lemma SeparatorFeeds(n: Splitter, m: Splitter, sep: Token, rest: seq<Token>)
    requires Fed(n, sep) == Some((m, []))
    ensures FedAll(n, [sep] + rest) == FedAll(m, rest)
  {
    hide Fed;
    assert ([sep] + rest)[1..] == rest;
    if FedAll(m, rest).Some? {
      assert [] + FedAll(m, rest).value.1 == FedAll(m, rest).value.1;
    }
  }

  /** The loop's variables between two statements of a script. */
  function Between(start: nat): Splitter { START.(start := start) }

  lemma OuterSeparator(start: nat, n: Splitter, sep: Token)
    requires sep.word == ";" && (n == Between(start) || Stands(Between(start), n))
    ensures Fed(n, sep) == Some((Between(sep.start + 1), if n.hasToken then [Range(start, sep.start)] else []))
  {
  }

  lemma SplitCons(n: Splitter, m: Splitter, sep: Token, done: seq<Range>, rest: seq<Token>, end: nat)
    requires Fed(n, sep) == Some((m, done))
    ensures Split(n, [sep] + rest, end) == Prepended(done, Split(m, rest, end))
  {
    hide Fed;
    assert ([sep] + rest)[1..] == rest;
  }

  lemma NothingMore(start: nat, n: Splitter, end: nat)
    requires n == Between(start) || Stands(Between(start), n)
    ensures Split(n, [], end) == Some(if n.hasToken then [Range(start, end)] else [])
  {
  }

  /** Every script of the grammar is taken, with its statements' ranges. */
  lemma {:induction false} GoodSplits(p: Script, start: nat, end: nat)
    requires Good(p) && AllLexed(Flat(p))
    ensures Split(Between(start), Flat(p), end) == Some(Spans(p, start, end))
    decreases p
  {
    hide Fed, Split, FedAll, AllLexed, GoodStmt, FlatStmt;
    var m := Between(start);
    match p
    case Nothing => NothingMore(start, m, end);
    case Last(stmt) =>
      StmtFeeds(m, stmt);
      var n := FedAll(m, FlatStmt(stmt)).value.0;
      SplitAppend(m, FlatStmt(stmt), [], end);
      assert FlatStmt(stmt) + [] == FlatStmt(stmt);
      NothingMore(start, n, end);
      PrependedNone(Split(n, [], end));
    case Skip(sep, rest) =>
      LexedParts([sep], Flat(rest));
      GoodSplits(rest, sep.start + 1, end);
      OuterSeparator(start, m, sep);
      SplitCons(m, Between(sep.start + 1), sep, [], Flat(rest), end);
      PrependedNone(Some(Spans(rest, sep.start + 1, end)));
    case Then(stmt, sep, rest) =>
      LexedParts(FlatStmt(stmt), [sep] + Flat(rest));
      LexedParts([sep], Flat(rest));
      StmtFeeds(m, stmt);
      GoodSplits(rest, sep.start + 1, end);
      var n := FedAll(m, FlatStmt(stmt)).value.0;
      OuterSeparator(start, n, sep);
      SplitAppend(m, FlatStmt(stmt), [sep] + Flat(rest), end);
      PrependedNone(Split(n, [sep] + Flat(rest), end));
      SplitCons(n, Between(sep.start + 1), sep, [Range(start, sep.start)], Flat(rest), end);
  }

  // ---------------------------------------------------------------------------------------------
  // Whatever is taken is a well-formed script

  /** The first token that separates or opens, or the end. */
  predicate StopsAt(ts: seq<Token>, n: nat) {
    n == |ts| || (n < |ts| && (Separates(ts, n) || Opens(ts, n)))
  }

  lemma FirstStop(ts: seq<Token>) returns (n: nat)
    ensures n <= |ts| && StopsAt(ts, n) && Inner(ts[..n]) && Unopened(ts[..n])
  {
    hide Depth, Opens, Separates;
    n := 0;
    while n < |ts| && !StopsAt(ts, n)
      invariant n <= |ts|
      invariant forall i :: 0 <= i < n ==> !StopsAt(ts, i)
    {
      n := n + 1;
    }
    forall i | 0 <= i < n ensures !Separates(ts[..n], i) && !Opens(ts[..n], i) {
      assert !StopsAt(ts, i);
      SeparatesPrefix(ts, n, i);
      OpensPrefix(ts, n, i);
    }
  }

  lemma SeparatesPrefix(u: seq<Token>, k: nat, n: nat)
    requires n < k <= |u|
    ensures Separates(u[..k], n) <==> Separates(u, n)
  {
    hide Depth;
    assert u[..k][..n] == u[..n];
  }

  /** The first separator, or the end. */
  lemma FirstSeparator(ts: seq<Token>) returns (n: nat)
    ensures n <= |ts| && (n < |ts| ==> Separates(ts, n)) && Inner(ts[..n])
  {
    hide Depth, Separates;
    n := 0;
    while n < |ts| && !Separates(ts, n)
      invariant n <= |ts|
      invariant forall i :: 0 <= i < n ==> !Separates(ts, i)
    {
      n := n + 1;
    }
    forall i | 0 <= i < n ensures !Separates(ts[..n], i) {
      SeparatesPrefix(ts, n, i);
    }
  }

  /** What is left behind a statement: nothing, outside bodies, or its separator. */
  predicate Remains(m: Splitter, rest: seq<Token>) {
    if rest == [] then m.bodies == 0 else rest[0].word == ";"
  }

  lemma NothingLeft(n: Splitter, end: nat)
    requires Split(n, [], end).Some?
    ensures n.parens == 0 && n.bodies == 0
  {
  }

  lemma SplitParts(m: Splitter, a: seq<Token>, b: seq<Token>, end: nat)
    requires Split(m, a + b, end).Some?
    ensures FedAll(m, a).Some? && Split(FedAll(m, a).value.0, b, end).Some?
  {
    hide Fed, FedAll, Split;
    SplitAppend(m, a, b, end);
  }

  lemma Cut(ts: seq<Token>, n: nat)
    requires n <= |ts|
    ensures ts == ts[..n] + ts[n..] && (n < |ts| ==> ts[n..] != [] && ts[n..][0] == ts[n])
    ensures AllLexed(ts) ==> AllLexed(ts[..n]) && AllLexed(ts[n..])
    ensures n > 0 ==> ts[..n] != [] && ts[..n][0] == ts[0]
  {
  }

  lemma ParseSimple(m: Splitter, ts: seq<Token>, n: nat, end: nat) returns (rest: seq<Token>)
    requires m.context == FRESH && m.parens == 0 && AllLexed(ts) && Split(m, ts, end).Some?
    requires 0 < n <= |ts| && (n < |ts| ==> Separates(ts, n)) && Inner(ts[..n]) && Unopened(ts[..n])
    requires m.bodies > 0 ==> ts[0].word != "END"
    ensures GoodSimple(ts[..n], m.bodies > 0) && ts == ts[..n] + rest && Remains(m, rest) && |rest| < |ts|
  {
    hide Fed, FedAll, Split, Depth, Nested, Inner, Unopened, CopyRuns, CopyAllowed, InContext, CopyInside, AllLexed;
    Cut(ts, n);
    rest := ts[n..];
    SplitParts(m, ts[..n], rest, end);
    SegmentFeeds(m, ts[..n]);
    CopyRunsAllowed(ts[..n]);
    if n == |ts| {
      NothingLeft(FedAll(m, ts[..n]).value.0, end);
    }
  }

  lemma {:induction false} ParseStmt(m: Splitter, ts: seq<Token>, end: nat) returns (s: Stmt, rest: seq<Token>)
    requires m.context == FRESH && m.parens == 0 && AllLexed(ts) && Split(m, ts, end).Some?
    requires ts != [] && ts[0].word != ";" && (m.bodies > 0 ==> ts[0].word != "END")
    ensures GoodStmt(s, m.bodies > 0) && ts == FlatStmt(s) + rest && Remains(m, rest) && |rest| < |ts|
    decreases |ts|, 0
  {
    hide Fed, FedAll, Split, Depth, Nested, Inner, Unopened, Ending, AllLexed, GoodSimple, Opens;
    var n := FirstStop(ts);
    Cut(ts, n);
    if n == |ts| || Separates(ts, n) {
      FirstIsNone(ts, n);
      rest := ParseSimple(m, ts, n, end);
      s := Simple(ts[..n]);
    } else {
      var h := ts[..n + 1];
      Cut(ts, n + 1);
      var inside := ParseHead(m, ts, n, end);
      var b, more := ParseBody(inside, ts[n + 1..], end);
      var tail, left := ParseTail(inside, b, ts[n + 1..], more, end);
      s, rest := Routine(h, b, tail), left;
      assert h + (FlatBody(b) + tail) + left == h + (FlatBody(b) + (tail + left));
    }
  }

  lemma FirstIsNone(ts: seq<Token>, n: nat)
    requires ts != [] && ts[0].word != ";" && n <= |ts| && (n == |ts| || Separates(ts, n))
    ensures n > 0
  {
  }

  lemma ParseHead(m: Splitter, ts: seq<Token>, n: nat, end: nat) returns (inside: Splitter)
    requires m.context == FRESH && m.parens == 0 && AllLexed(ts) && Split(m, ts, end).Some?
    requires n < |ts| && Opens(ts, n) && Inner(ts[..n]) && Unopened(ts[..n])
    ensures inside == m.(hasToken := true, bodies := m.bodies + 1)
    ensures GoodHead(ts[..n + 1]) && Split(inside, ts[n + 1..], end).Some?
  {
    hide Fed, FedAll, Split, Depth, Nested, Unopened, AllLexed;
    inside := m.(hasToken := true, bodies := m.bodies + 1);
    var h := ts[..n + 1];
    Cut(ts, n + 1);
    OpensPrefix(ts, n + 1, n);
    assert h[..n] == ts[..n] && h[n] == ts[n];
    OpeningIsInner(h);
    SplitParts(m, h, ts[n + 1..], end);
    HeadFeeds(m, h);
  }

  lemma OpeningIsInner(h: seq<Token>)
    requires h != [] && Opens(h, |h| - 1) && Inner(h[..|h| - 1])
    ensures Inner(h)
  {
    hide Depth, RoutineHead;
    forall n | 0 <= n < |h| ensures !Separates(h, n) {
      if n < |h| - 1 {
        SeparatesPrefix(h, |h| - 1, n);
      }
    }
  }

  lemma ParseTail(m: Splitter, b: Body, ts: seq<Token>, more: seq<Token>, end: nat)
    returns (tail: seq<Token>, rest: seq<Token>)
    requires m.context == FRESH && m.parens == 0 && m.bodies > 0 && m.hasToken && AllLexed(ts) && Split(m, ts, end).Some?
    requires GoodBody(b) && ts == FlatBody(b) + more && more != [] && more[0].word == "END"
    ensures GoodTail(tail) && more == tail + rest && |rest| < |more|
    ensures if rest == [] then m.bodies == 1 else rest[0].word == ";"
  {
    hide Fed, FedAll, Split, Depth, Nested, Inner, AllLexed, GoodBody, FlatBody;
    LexedParts(FlatBody(b), more);
    BodyFeeds(m, b);
    SplitParts(m, FlatBody(b), more, end);
    var n := FirstSeparator(more);
    FirstIsNone(more, n);
    Cut(more, n);
    tail, rest := more[..n], more[n..];
    SplitParts(m, tail, rest, end);
    TailFeeds(m, tail);
    if n == |more| {
      NothingLeft(FedAll(m, tail).value.0, end);
    }
  }

  lemma {:induction false} ParseBody(m: Splitter, ts: seq<Token>, end: nat) returns (b: Body, rest: seq<Token>)
    requires m.context == FRESH && m.parens == 0 && m.bodies > 0 && m.hasToken && AllLexed(ts) && Split(m, ts, end).Some?
    ensures GoodBody(b) && ts == FlatBody(b) + rest && |rest| <= |ts| && rest != [] && rest[0].word == "END"
    decreases |ts|, 1
  {
    hide Fed, FedAll, Split, AllLexed, GoodStmt, FlatStmt;
    if ts == [] {
      NothingLeft(m, end);
      assert false;
    } else if ts[0].word == ";" {
      Cut(ts, 1);
      EmptyFeeds(m, ts[0]);
      SplitCons(m, m, ts[0], [], ts[1..], end);
      assert [ts[0]] + ts[1..] == ts;
      var more, left := ParseBody(m, ts[1..], end);
      b, rest := Empty(ts[0], more), left;
      assert [ts[0]] + FlatBody(more) + left == [ts[0]] + (FlatBody(more) + left);
    } else if ts[0].word == "END" {
      b, rest := End, ts;
    } else {
      var s, left := ParseStmt(m, ts, end);
      var sep := left[0];
      var after := left[1..];
      LexedParts(FlatStmt(s), left);
      Cut(left, 1);
      assert left == [sep] + after;
      StmtFeeds(m, s);
      SplitParts(m, FlatStmt(s), left, end);
      var n := FedAll(m, FlatStmt(s)).value.0;
      InnerSeparator(m, n, sep);
      SplitCons(n, m, sep, [], after, end);
      var more, last := ParseBody(m, after, end);
      b, rest := Cons(s, sep, more), last;
      assert FlatStmt(s) + ([sep] + FlatBody(more)) + last == FlatStmt(s) + ([sep] + (FlatBody(more) + last));
    }
  }

  /** Every script the code takes is one of the grammar. */
  lemma {:induction false} Parse(start: nat, ts: seq<Token>, end: nat) returns (p: Script)
    requires AllLexed(ts) && Split(Between(start), ts, end).Some?
    ensures Good(p) && Flat(p) == ts
    decreases |ts|
  {
    hide Fed, FedAll, Split, AllLexed, GoodStmt, FlatStmt, Stands;
    var m := Between(start);
    if ts == [] {
      p := Nothing;
    } else if ts[0].word == ";" {
      Cut(ts, 1);
      OuterSeparator(start, m, ts[0]);
      SplitCons(m, Between(ts[0].start + 1), ts[0], [], ts[1..], end);
      assert [ts[0]] + ts[1..] == ts;
      var more := Parse(ts[0].start + 1, ts[1..], end);
      p := Skip(ts[0], more);
    } else {
      var s, left := ParseStmt(m, ts, end);
      if left == [] {
        p := Last(s);
        assert FlatStmt(s) + left == FlatStmt(s);
      } else {
        var sep, after := left[0], left[1..];
        LexedParts(FlatStmt(s), left);
        Cut(left, 1);
        assert left == [sep] + after;
        StmtFeeds(m, s);
        SplitParts(m, FlatStmt(s), left, end);
        var n := FedAll(m, FlatStmt(s)).value.0;
        OuterSeparator(start, n, sep);
        StandsHasToken(m, n);
        SplitCons(n, Between(sep.start + 1), sep, [Range(start, sep.start)], after, end);
        var more := Parse(sep.start + 1, after, end);
        p := Then(s, sep, more);
      }
    }
  }

  lemma StandsHasToken(m: Splitter, n: Splitter)
    requires Stands(m, n)
    ensures n.hasToken
  {
  }

  ghost predicate Derives(p: Script, ts: seq<Token>) { Good(p) && Flat(p) == ts }

  /** The splitter takes exactly the scripts of the grammar, and its ranges are those of the script's statements. */
  lemma SplitIsGrammar(ts: seq<Token>, end: nat, r: seq<Range>)
    requires AllLexed(ts)
    ensures Split(START, ts, end) == Some(r) <==> exists p :: Derives(p, ts) && Spans(p, 0, end) == r
  {
    hide Split, Good, Flat, Spans, AllLexed;
    assert Between(0) == START;
    if Split(START, ts, end) == Some(r) {
      var p := Parse(0, ts, end);
      GoodSplits(p, 0, end);
      assert Derives(p, ts);
    }
    if p :| Derives(p, ts) && Spans(p, 0, end) == r {
      GoodSplits(p, 0, end);
    }
  }

  // ---------------------------------------------------------------------------------------------
  // Scripts as text

  lemma WordIsNoParenthesis(s: string, i: nat)
    requires i < |s|
    ensures Lexed(WordToken(s, i))
  {
    hide IdentEnd;
    WordStart(s, i);
  }

  lemma FreshIsLexed(s: string, i: nat)
    requires i < |s| && Fresh(s, i).Some?
    ensures Lexed(Fresh(s, i).value)
  {
    hide Opening, NumberStart, NumberEnd, ParameterEnd, Quoted, DollarQuote, DollarEnd, OperatorEnd, WordToken;
    WordIsNoParenthesis(s, i);
  }

  lemma {:induction false} TokensAreLexed(s: string, i: nat)
    requires i <= |s| && Tokens(s, i).Some?
    ensures AllLexed(Tokens(s, i).value)
    decreases |s| - i
  {
    hide Fresh, SkipTrivia, Lexed;
    var t := Next(s, i).value;
    if t.end != t.start {
      TokensAreLexed(s, t.end);
      FreshIsLexed(s, t.start);
    }
  }

  /** The tokens of the text are a script of the grammar. */
  ghost predicate Scripted(s: string, p: Script) { Tokens(s, 0).Some? && Derives(p, Tokens(s, 0).value) }

  /** The range's text has the kind. */
  predicate KindAt(s: string, ranges: seq<Range>, k: nat, kindOf: string -> StatementKind, kind: StatementKind) {
    k < |ranges| && ranges[k].start <= ranges[k].end <= |s| && kindOf(s[ranges[k].start..ranges[k].end]) == kind
  }

  ghost predicate SomeOf(s: string, ranges: seq<Range>, kindOf: string -> StatementKind, kind: StatementKind) {
    exists k: nat :: KindAt(s, ranges, k, kindOf, kind)
  }

  /** The analysis lists the ranges with the kinds of their texts, and asks for an approval exactly when that is
      wanted and one of the texts needs it. */
  ghost predicate Describes(a: Analysis, s: string, ranges: seq<Range>, confirmWrites: bool, confirmDDL: bool,
                            kindOf: string -> StatementKind) {
    && |a.statements| == |ranges|
    && (forall k :: 0 <= k < |ranges| ==>
          var x := a.statements[k]; x.start == ranges[k].start && x.end == ranges[k].end && KindAt(s, ranges, k, kindOf, x.kind))
    && (a.writesApproval <==> confirmWrites && SomeOf(s, ranges, kindOf, KindDML))
    && (a.ddlApproval <==> confirmDDL && SomeOf(s, ranges, kindOf, KindDDL))
  }

  lemma SomeOfClassified(s: string, ranges: seq<Range>, kindOf: string -> StatementKind, kind: StatementKind)
    requires forall k :: 0 <= k < |ranges| ==> ranges[k].start <= ranges[k].end <= |s|
    ensures HasKind(Classified(s, ranges, kindOf), kind) <==> SomeOf(s, ranges, kindOf, kind)
  {
    var c := Classified(s, ranges, kindOf);
    if HasKind(c, kind) {
      var k :| 0 <= k < |c| && c[k].kind == kind;
      assert KindAt(s, ranges, k, kindOf, kind);
    }
    if SomeOf(s, ranges, kindOf, kind) {
      var k: nat :| KindAt(s, ranges, k, kindOf, kind);
      assert c[k].kind == kind;
    }
  }

  lemma ClassifiedDescribes(s: string, ranges: seq<Range>, confirmWrites: bool, confirmDDL: bool,
                            kindOf: string -> StatementKind)
    requires forall k :: 0 <= k < |ranges| ==> ranges[k].start <= ranges[k].end <= |s|
    ensures var c := Classified(s, ranges, kindOf);
      Describes(Analysis(c, confirmWrites && HasKind(c, KindDML), confirmDDL && HasKind(c, KindDDL)), s, ranges,
                confirmWrites, confirmDDL, kindOf)
  {
    hide SomeOf, HasKind;
    SomeOfClassified(s, ranges, kindOf, KindDML);
    SomeOfClassified(s, ranges, kindOf, KindDDL);
  }

  lemma ScriptSplits(s: string, p: Script)
    requires Scripted(s, p)
    ensures SplitFrom(s, 0, START) == Some(Spans(p, 0, |s|))
  {
    hide Split, Good, Flat, Spans, Tokens;
    assert Between(0) == START;
    TokensAreLexed(s, 0);
    GoodSplits(p, 0, |s|);
  }

  lemma SplitHasScript(s: string)
    requires SplitFrom(s, 0, START).Some?
    ensures exists p :: Scripted(s, p)
  {
    hide Split, Good, Flat, Spans, Tokens;
    assert Between(0) == START;
    TokensAreLexed(s, 0);
    var p := Parse(0, Tokens(s, 0).value, |s|);
    assert Scripted(s, p);
  }

  /** What an analysis answers, for every text: acceptable text whose tokens are a script of the grammar with a
      statement, and no more than one when there are parameters, is described statement by statement; text without
      a statement is invalid, and anything else is unsupported. */
  lemma AnalysisIsGrammar(s: string, parameters: int, confirmWrites: bool, confirmDDL: bool,
                          kindOf: string -> StatementKind)
    ensures var r := Analyzed(s, parameters, confirmWrites, confirmDDL, kindOf);
      && (!Acceptable(s, parameters) ==> r == Err(InvalidInput))
      && (Acceptable(s, parameters) && (forall p :: !Scripted(s, p)) ==> r == Err(Unsupported))
      && (forall p :: Acceptable(s, parameters) && Scripted(s, p) ==>
            var ranges := Spans(p, 0, |s|);
            if ranges == [] then r == Err(InvalidInput)
            else if parameters > 0 && |ranges| > 1 then r == Err(Unsupported)
            else r.Ok? && Describes(r.value, s, ranges, confirmWrites, confirmDDL, kindOf))
  {
    hide SplitFrom, Acceptable, Scripted, Describes, HasKind, Classified, Spans;
    if Acceptable(s, parameters) {
      RangesInBounds(s);
      forall p | Scripted(s, p)
        ensures SplitFrom(s, 0, START) == Some(Spans(p, 0, |s|))
      {
        ScriptSplits(s, p);
      }
      if SplitFrom(s, 0, START).Some? {
        SplitHasScript(s);
        ClassifiedDescribes(s, SplitFrom(s, 0, START).value, confirmWrites, confirmDDL, kindOf);
      }
    }
  }
}
