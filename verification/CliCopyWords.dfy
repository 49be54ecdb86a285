/** COPY statements written in words, from their text to the answer of AnalyzeCLIStatements
    (pkg/query/cli_statements.go): the lexer and the grammar together. */
module CliCopyWords {
  import opened AsciiBytes
  import opened Common
  import opened CliScanner
  import opened CliStatements
  import opened CliCopyGrammar
  import opened CliScriptGrammar
  import opened CliLexemes

  /** Tokens without separators, parentheses and routines that stand for themselves. */
  lemma WordsSplit(u: seq<Token>, end: nat)
    requires AllLexed(u) && u != [] && u[0].word == "COPY"
    requires forall k :: 0 <= k < |u| ==> u[k].word != ";" && Delta(u[k]) == 0
    ensures Split(START, u, end) == if CopyAllowed(u) then Some([Range(0, end)]) else None
  {
    hide Fed, FedAll, Split, Depth, CopyAllowed, InContext, CopyInside, CopyRuns, Nested, AllLexed;
    assert Inner(u) && Unopened(u);
    FlatDepth(u, |u|);
    assert u[..|u|] == u;
    forall n | 0 <= n <= |u| ensures Depth(u[..n]) == 0 {
      FlatDepth(u, n);
    }
    FlatIsNested(u);
    SegmentFeeds(START, u);
    CopyRunsAllowed(u);
    SplitAppend(START, u, [], end);
    assert u + [] == u;
    if FedAll(START, u).Some? {
      var n := FedAll(START, u).value.0;
      NothingMore(0, n.(context := FRESH), end);
      PrependedNone(Split(n, [], end));
      EndOnly(n, end);
    }
  }

  lemma FlatIsNested(u: seq<Token>)
    requires forall n :: 0 <= n <= |u| ==> Depth(u[..n]) == 0
    ensures Nested(u)
  {
    hide Depth;
  }

  lemma EndOnly(n: Splitter, end: nat)
    requires n.parens == 0 && n.bodies == 0 && n.start == 0 && n.hasToken
    ensures Split(n, [], end) == Some([Range(0, end)])
  {
  }

  lemma {:induction false} FlatDepth(u: seq<Token>, n: nat)
    requires n <= |u| && forall k :: 0 <= k < |u| ==> Delta(u[k]) == 0
    ensures Depth(u[..n]) == 0
    decreases n
  {
    if n > 0 {
      FlatDepth(u, n - 1);
      assert u[..n] == u[..n - 1] + [u[n - 1]];
      DepthSnoc(u[..n - 1], u[n - 1]);
    }
  }

  /** `COPY name FROM word` and `COPY name TO word`, in any case and as text: unsupported exactly when the last word
      is STDIN or STDOUT. */
  lemma CopyInWords(copy: string, name: string, direction: string, endpoint: string,
                    confirmWrites: bool, confirmDDL: bool, kindOf: string -> StatementKind)
    requires PlainWord(copy) && PlainWord(name) && PlainWord(direction) && PlainWord(endpoint)
    requires UpperAll(copy) == "COPY" && UpperAll(name) != "BINARY" && UpperAll(direction) in {"FROM", "TO"}
    requires Acceptable(Joined([copy, name, direction, endpoint]), 0)
    ensures var s := Joined([copy, name, direction, endpoint]);
      var r := Analyzed(s, 0, confirmWrites, confirmDDL, kindOf);
      if UpperAll(endpoint) in {"STDIN", "STDOUT"} then r == Err(Unsupported)
      else r.Ok? && |r.value.statements| == 1 && r.value.statements[0] == Statement(0, |s|, kindOf(s))
  {
    hide Joined, PlainWord, UpperAll, Acceptable, Tokens, Split, CopyAllowed;
    var words := [copy, name, direction, endpoint];
    var s := Joined(words);
    assert s[0..|s|] == s;
    assert forall k :: 0 <= k < |words| ==> PlainWord(words[k]);
    WordsAreTokens(s, 0, words);
    var ts := Tokens(s, 0).value;
    TokensAreLexed(s, 0);
    forall k | 0 <= k < |ts| ensures ts[k].word != ";" && Delta(ts[k]) == 0 {
      WordStays(words[k]);
    }
    WordsSplit(ts, |s|);
    NamedCopy(ts);
    RangesInBounds(s);
  }

  lemma WordStays(w: string)
    requires PlainWord(w)
    ensures UpperAll(w) != ";" && UpperAll(w) != "(" && UpperAll(w) != ")"
  {
    assert UpperAll(w)[0] == Upper(w[0]);
  }

  lemma NamedCopy(ts: seq<Token>)
    requires |ts| == 4 && AllLexed(ts) && ts[0].word == "COPY" && Identifier(ts[1]) && ts[1].word != "BINARY" && Direction(ts[2])
    ensures CopyAllowed(ts) <==> !StandardStream(ts[3])
  {
    hide Viable, AllLexed;
    var u := ts[1..];
    assert u[..1][1..] == [] && u[..1][0] == ts[1];
    RelationIsCopied(u[..1]);
    EndpointDecides(u, 1);
    TailIsLexed(ts);
    CopyIsViable(u);
  }

  lemma TailIsLexed(ts: seq<Token>)
    requires ts != [] && AllLexed(ts)
    ensures forall t :: t in ts[1..] ==> Lexed(t)
  {
  }
}
