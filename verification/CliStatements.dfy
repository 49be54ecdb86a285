/** Splitting a script into statements: the token loop of AnalyzeCLIStatements and its statement
    context (pkg/query/cli_statements.go). The heuristic that classifies a statement's text is not
    modelled: it is the parameter `kindOf`. */
module CliStatements {
  import opened AsciiBytes
  import opened Common
  import opened CliScanner
  import CliLexer
  import Utf8

  datatype StatementKind = KindDML | KindDDL | KindOther(code: nat)

  datatype Statement = Statement(start: nat, end: nat, kind: StatementKind)

  datatype Analysis = Analysis(statements: seq<Statement>, writesApproval: bool, ddlApproval: bool)

  datatype Error = InvalidInput | Unsupported

  const MAX_INPUT := 1048576

  // ---------------------------------------------------------------------------------------------
  // COPY prefixes

  datatype CopyState =
    | NoCopy | CopyStart | CopyName | CopyAfterName | CopyNameEscape | CopyGroup | CopyDirection | CopyEndpoint | CopyDone

  datatype CopyPrefix = CopyPrefix(state: CopyState, depth: int)

  /** cliCopyPrefix.consume. */
  function CopyConsumed(c: CopyPrefix, t: Token, parens: int): Option<CopyPrefix> {
    match c.state
    case NoCopy => Some(c)
    case CopyStart =>
      if t.word == "BINARY" then Some(c.(state := CopyName))
      else if t.word == "(" then Some(CopyPrefix(CopyGroup, parens))
      else if !t.identifier then None
      else Some(c.(state := CopyAfterName))
    case CopyName => if !t.identifier then None else Some(c.(state := CopyAfterName))
    case CopyAfterName =>
      if t.word == "UESCAPE" then Some(c.(state := CopyNameEscape))
      else if t.word == "." then Some(c.(state := CopyName))
      else if t.word == "(" then Some(CopyPrefix(CopyGroup, parens))
      else if t.word == "FROM" || t.word == "TO" then Some(c.(state := CopyEndpoint))
      else None
    case CopyNameEscape => if t.identifier || t.word != "" then None else Some(c.(state := CopyAfterName))
    case CopyGroup => Some(if t.word == ")" && parens == c.depth + 1 then c.(state := CopyDirection) else c)
    case CopyDirection => if t.word != "FROM" && t.word != "TO" then None else Some(c.(state := CopyEndpoint))
    case CopyEndpoint => if t.word == "STDIN" || t.word == "STDOUT" then None else Some(c.(state := CopyDone))
    case CopyDone => Some(c)
  }

  // ---------------------------------------------------------------------------------------------
  // Statement context

  /** cliStatementContext; `prefix` holds the first words, its length is the source's count. */
  datatype Context = Context(prefix: seq<string>, routine: bool, pendingBegin: bool, copy: CopyPrefix)

  const FRESH := Context([], false, false, CopyPrefix(NoCopy, 0))

  predicate NamesRoutine(word: string) { word == "FUNCTION" || word == "PROCEDURE" }

  predicate StartsRoutine(prefix: seq<string>) {
    || (|prefix| == 2 && prefix[0] == "CREATE" && NamesRoutine(prefix[1]))
    || (|prefix| == 4 && prefix[0] == "CREATE" && prefix[1] == "OR" && prefix[2] == "REPLACE" && NamesRoutine(prefix[3]))
  }

  /** cliStatementContext.consume: the new context, and whether an atomic routine body opens. */
  function Consumed(c: Context, t: Token, parens: int): Option<(Context, bool)> {
    var copy := if c.prefix == [] && t.word == "COPY" then c.copy.(state := CopyStart) else c.copy;
    var prefix := if |c.prefix| < 4 then c.prefix + [t.word] else c.prefix;
    var routine := c.routine || (|c.prefix| < 4 && StartsRoutine(prefix));
    var consumed :=
      if copy.state != NoCopy && (|prefix| != 1 || t.word != "COPY") then CopyConsumed(copy, t, parens) else Some(copy);
    match consumed
    case None => None
    case Some(next) =>
      var opens := routine && parens == 0 && c.pendingBegin && t.word == "ATOMIC";
      Some((Context(prefix, routine, routine && parens == 0 && t.word == "BEGIN", next), opens))
  }

  // ---------------------------------------------------------------------------------------------
  // The token loop

  datatype Range = Range(start: nat, end: nat)

  /** The loop's variables. */
  datatype Splitter = Splitter(start: nat, hasToken: bool, parens: nat, bodies: nat, context: Context)

  const START := Splitter(0, false, 0, 0, FRESH)

  /** One token: the new variables, and the statement a ';' completes. */
  function Fed(m: Splitter, t: Token): Option<(Splitter, seq<Range>)> {
    if t.word == ";" then
      if m.parens != 0 then Some((m, []))
      else if m.bodies == 0 then
        Some((m.(start := t.start + 1, hasToken := false, context := FRESH),
              if m.hasToken then [Range(m.start, t.start)] else []))
      else Some((m.(context := FRESH), []))
    else if m.bodies > 0 && m.parens == 0 && m.context.prefix == [] && t.word == "END" then
      Some((m.(hasToken := true, bodies := m.bodies - 1, context := m.context.(prefix := [""])), []))
    else
      match Consumed(m.context, t, m.parens)
      case None => None
      case Some((context, opens)) =>
        var bodies := if opens then m.bodies + 1 else m.bodies;
        var next := if opens then FRESH else context;
        if t.word == ")" && m.parens == 0 then None
        else
          var parens := if t.word == "(" then m.parens + 1 else if t.word == ")" then m.parens - 1 else m.parens;
          Some((m.(hasToken := true, parens := parens, bodies := bodies, context := next), []))
  }

  /** The statements of the remaining tokens of a text that ends at `end`. */
  function Split(m: Splitter, ts: seq<Token>, end: nat): Option<seq<Range>>
    decreases |ts|
  {
    if ts == [] then
      if m.parens != 0 || m.bodies != 0 then None
      else Some(if m.hasToken then [Range(m.start, end)] else [])
    else
      match Fed(m, ts[0])
      case None => None
      case Some((next, done)) =>
        match Split(next, ts[1..], end)
        case None => None
        case Some(rest) => Some(done + rest)
  }

  /** Lexing and splitting from a position on. */
  function SplitFrom(s: string, i: nat, m: Splitter): Option<seq<Range>>
    requires i <= |s|
  {
    match Tokens(s, i)
    case None => None
    case Some(ts) => Split(m, ts, |s|)
  }

  function Classified(s: string, ranges: seq<Range>, kindOf: string -> StatementKind): (r: seq<Statement>)
    requires forall k :: 0 <= k < |ranges| ==> ranges[k].start <= ranges[k].end <= |s|
    ensures |r| == |ranges|
  {
    seq(|ranges|, k requires 0 <= k < |ranges| =>
      Statement(ranges[k].start, ranges[k].end, kindOf(s[ranges[k].start..ranges[k].end])))
  }

  predicate Acceptable(s: string, parameters: int) {
    |s| <= MAX_INPUT && parameters >= 0 && Utf8.Valid(s) && '\0' !in s
  }

  predicate HasKind(statements: seq<Statement>, kind: StatementKind) {
    exists k :: 0 <= k < |statements| && statements[k].kind == kind
  }

  /** AnalyzeCLIStatements, without cancellation. */
  function Analyzed(s: string, parameters: int, confirmWrites: bool, confirmDDL: bool, kindOf: string -> StatementKind)
    : Result<Analysis, Error>
  {
    if !Acceptable(s, parameters) then Err(InvalidInput)
    else
      match SplitFrom(s, 0, START)
      case None => Err(Unsupported)
      case Some(ranges) =>
        if ranges == [] then Err(InvalidInput)
        else if parameters > 0 && |ranges| > 1 then Err(Unsupported)
        else
          RangesInBounds(s);
          var statements := Classified(s, ranges, kindOf);
          Ok(Analysis(statements, confirmWrites && HasKind(statements, KindDML), confirmDDL && HasKind(statements, KindDDL)))
  }

  // ---------------------------------------------------------------------------------------------
  // Ranges are ordered and in bounds

  /** Tokens in order from `i`, inside a text of length `end`. */
  predicate InOrder(ts: seq<Token>, i: nat, end: nat)
    decreases |ts|
  {
    if ts == [] then i <= end
    else i <= ts[0].start < ts[0].end <= end && InOrder(ts[1..], ts[0].end, end)
  }

  lemma {:induction false} TokensInOrder(s: string, i: nat)
    requires i <= |s| && Tokens(s, i).Some?
    ensures InOrder(Tokens(s, i).value, i, |s|)
    decreases |s| - i
  {
    var t := Next(s, i).value;
    if t.end != t.start {
      TokensInOrder(s, t.end);
      assert Tokens(s, i).value[1..] == Tokens(s, t.end).value;
    }
  }

  predicate Ordered(ranges: seq<Range>, i: nat, end: nat)
    decreases |ranges|
  {
    if ranges == [] then true
    else i <= ranges[0].start < ranges[0].end <= end && Ordered(ranges[1..], ranges[0].end + 1, end)
  }

  lemma {:induction false} OrderedLater(ranges: seq<Range>, i: nat, j: nat, end: nat)
    requires i <= j && Ordered(ranges, j, end)
    ensures Ordered(ranges, i, end)
  {
  }

  /** A completed statement ends at its separator and the next one starts after it, so statements are
      non-empty, in bounds, disjoint and separated by at least one byte. */
  lemma {:induction false} SplitOrdered(m: Splitter, ts: seq<Token>, i: nat, end: nat)
    requires InOrder(ts, i, end) && m.start <= i && (m.hasToken ==> m.start < i)
    requires forall k :: 0 <= k < |ts| && ts[k].word == ";" ==> ts[k].end == ts[k].start + 1
    requires Split(m, ts, end).Some?
    ensures Ordered(Split(m, ts, end).value, m.start, end)
    decreases |ts|
  {
    if ts != [] {
      var (next, done) := Fed(m, ts[0]).value;
      forall k | 0 <= k < |ts[1..]| && ts[1..][k].word == ";" ensures ts[1..][k].end == ts[1..][k].start + 1 {
        assert ts[1..][k] == ts[k + 1];
      }
      SplitOrdered(next, ts[1..], ts[0].end, end);
      var rest := Split(next, ts[1..], end).value;
      if done != [] {
        assert (done + rest)[1..] == rest;
      } else {
        assert done + rest == rest;
        OrderedLater(rest, m.start, next.start, end);
      }
    }
  }

  /** Only a ';' in the text has that word. */
  lemma {:induction false} SemicolonTokens(s: string, i: nat)
    requires i < |s| && Fresh(s, i).Some? && Fresh(s, i).value.word == ";"
    ensures s[i] == ';' && Fresh(s, i).value == Token(i, i + 1, ";", false)
  {
    hide Opening, NumberStart, NumberEnd, ParameterEnd, Quoted, DollarQuote, DollarEnd, OperatorEnd;
    WordStart(s, i);
  }

  lemma WordStart(s: string, i: nat)
    requires i < |s|
    ensures IdentStart(s[i]) && WordToken(s, i).word != "" ==> WordToken(s, i).word[0] == Upper(s[i])
    ensures !IdentStart(s[i]) ==> WordToken(s, i).word == [s[i]]
  {
    hide IdentEnd;
    assert s[i..i + 1] == [s[i]];
  }

  lemma {:induction false} AllSemicolons(s: string, i: nat)
    requires i <= |s| && Tokens(s, i).Some?
    ensures forall k :: 0 <= k < |Tokens(s, i).value| && Tokens(s, i).value[k].word == ";" ==>
      var t := Tokens(s, i).value[k]; t.end == t.start + 1 && t.end <= |s| && s[t.start] == ';'
    decreases |s| - i
  {
    var t := Next(s, i).value;
    if t.end != t.start {
      AllSemicolons(s, t.end);
      if t.word == ";" {
        SemicolonTokens(s, t.start);
      }
    }
  }

  lemma {:induction false} OrderedBounds(ranges: seq<Range>, i: nat, end: nat)
    requires Ordered(ranges, i, end)
    ensures forall k :: 0 <= k < |ranges| ==> i <= ranges[k].start < ranges[k].end <= end
    ensures forall j, k :: 0 <= j < k < |ranges| ==> ranges[j].end < ranges[k].start
    decreases |ranges|
  {
    if ranges != [] {
      OrderedBounds(ranges[1..], ranges[0].end + 1, end);
    }
  }

  lemma {:induction false} RangesInBounds(s: string)
    ensures var r := SplitFrom(s, 0, START);
      r.Some? ==> Ordered(r.value, 0, |s|) && forall k :: 0 <= k < |r.value| ==> r.value[k].start < r.value[k].end <= |s|
  {
    if SplitFrom(s, 0, START).Some? {
      TokensInOrder(s, 0);
      AllSemicolons(s, 0);
      SplitOrdered(START, Tokens(s, 0).value, 0, |s|);
      OrderedBounds(SplitFrom(s, 0, START).value, 0, |s|);
    }
  }

  // ---------------------------------------------------------------------------------------------
  // The loop

  method AnalyzeCLIStatements(s: string, parameters: int, confirmWrites: bool, confirmDDL: bool,
                              kindOf: string -> StatementKind)
    returns (r: Result<Analysis, Error>)
    ensures r == Analyzed(s, parameters, confirmWrites, confirmDDL, kindOf)
  {
    if |s| > MAX_INPUT || parameters < 0 || !Utf8.Valid(s) || '\0' in s {
      return Err(InvalidInput);
    }
    var ranges := SplitRanges(s);
    if ranges.None? {
      return Err(Unsupported);
    }
    RangesInBounds(s);
    var statements: seq<Statement> := [];
    var writes, ddl := false, false;
    for k := 0 to |ranges.value|
      invariant statements == Classified(s, ranges.value, kindOf)[..k]
      invariant writes <==> confirmWrites && HasKind(statements, KindDML)
      invariant ddl <==> confirmDDL && HasKind(statements, KindDDL)
    {
      var range := ranges.value[k];
      var kind := kindOf(s[range.start..range.end]);
      ghost var before := statements;
      statements := statements + [Statement(range.start, range.end, kind)];
      assert statements[k].kind == kind;
      assert forall j :: 0 <= j < k ==> statements[j] == before[j];
      writes := writes || (confirmWrites && kind == KindDML);
      ddl := ddl || (confirmDDL && kind == KindDDL);
    }
    assert statements == Classified(s, ranges.value, kindOf);
    if |statements| == 0 {
      return Err(InvalidInput);
    }
    if parameters > 0 && |statements| > 1 {
      return Err(Unsupported);
    }
    return Ok(Analysis(statements, writes, ddl));
  }

  /** `done` followed by what is still to come. */
  function Prepended(done: seq<Range>, rest: Option<seq<Range>>): Option<seq<Range>> {
    match rest case None => None case Some(more) => Some(done + more)
  }

  /** The token loop, with the source's early errors. */
  method SplitRanges(s: string) returns (r: Option<seq<Range>>)
    ensures r == SplitFrom(s, 0, START)
  {
    var lexer := new CliLexer.Lexer(s);
    var m, done: seq<Range> := START, [];
    PrependedNone(SplitFrom(s, 0, START));
    while true
      invariant lexer.Valid() && lexer.sql == s
      invariant Prepended(done, SplitFrom(s, lexer.pos, m)) == SplitFrom(s, 0, START)
      decreases |s| - lexer.pos
    {
      ghost var at := lexer.pos;
      var token := lexer.NextToken();
      if token.None? {
        return None;
      }
      if token.value.end == token.value.start {
        FeedEnd(s, at, m);
        assert done + [] == done;
        if m.parens != 0 || m.bodies != 0 {
          return None;
        }
        return Some(if m.hasToken then done + [Range(m.start, |s|)] else done);
      }
      FeedOne(s, at, m, token.value);
      var fed := Fed(m, token.value);
      if fed.None? {
        return None;
      }
      PrependedTwice(done, fed.value.1, SplitFrom(s, lexer.pos, fed.value.0));
      m, done := fed.value.0, done + fed.value.1;
    }
  }

  lemma PrependedNone(rest: Option<seq<Range>>)
    ensures Prepended([], rest) == rest
  {
    if rest.Some? {
      assert [] + rest.value == rest.value;
    }
  }

  lemma PrependedTwice(a: seq<Range>, b: seq<Range>, rest: Option<seq<Range>>)
    ensures Prepended(a, Prepended(b, rest)) == Prepended(a + b, rest)
  {
    if rest.Some? {
      assert a + (b + rest.value) == a + b + rest.value;
    }
  }

  lemma FeedEnd(s: string, i: nat, m: Splitter)
    requires i <= |s| && Next(s, i).Some? && Next(s, i).value.start == Next(s, i).value.end
    ensures SplitFrom(s, i, m) == Split(m, [], |s|)
  {
  }

  lemma {:induction false} FeedOne(s: string, i: nat, m: Splitter, t: Token)
    requires i <= |s| && Next(s, i) == Some(t) && t.start < t.end
    ensures SplitFrom(s, i, m) == match Fed(m, t)
      case None => None
      case Some((next, done)) => Prepended(done, SplitFrom(s, t.end, next))
  {
    if Tokens(s, t.end).Some? {
      assert Tokens(s, i).value[1..] == Tokens(s, t.end).value;
    }
  }
}
