/** What the lexer of the statement splitter (pkg/query/cli_statements.go) makes of text that was written on purpose:
    comments, dollar quotes, strings, operators, numbers and words, as sections 4.1.1 to 4.1.5 of the PostgreSQL
    documentation have them. */
module CliLexemes {
  import opened AsciiBytes
  import opened Common
  import opened CliScanner
  import CliStatements
  import opened CliWindows
  import opened PgQuoting

  // ---------------------------------------------------------------------------------------------
  // Comments

  /** The inside of a block comment: text, and comments inside it. */
  datatype Inside = NoMore | Text(text: string, rest: Inside) | Comment(inner: Inside, rest: Inside)

  function Printed(c: Inside): string {
    match c
    case NoMore => ""
    case Text(text, rest) => text + Printed(rest)
    case Comment(inner, rest) => "/*" + (Printed(inner) + ("*/" + Printed(rest)))
  }

  /** Text in which no comment starts or ends, not even together with what follows it. */
  predicate Unmarked(t: string) {
    && (forall k :: 0 <= k < |t| ==> !BlockComment(t, k) && !Pair(t, k, '*', '/'))
    && (t != "" ==> t[|t| - 1] != '*' && t[|t| - 1] != '/')
  }

  predicate Proper(c: Inside) {
    match c
    case NoMore => true
    case Text(text, rest) => Unmarked(text) && Proper(rest)
    case Comment(inner, rest) => Proper(inner) && Proper(rest)
  }

  lemma {:induction false} TextIsPassed(s: string, i: nat, t: string, k: nat, depth: nat)
    requires Occurs(s, i, t) && Unmarked(t) && k <= |t| && depth > 0
    ensures BlockEnd(s, i + k, depth) == BlockEnd(s, i + |t|, depth)
    decreases |t| - k
  {
    if k < |t| {
      assert s[i + k] == s[i..i + |t|][k];
      if k + 1 < |t| {
        assert s[i + k + 1] == s[i..i + |t|][k + 1];
        assert !BlockComment(t, k) && !Pair(t, k, '*', '/');
      }
      TextIsPassed(s, i, t, k + 1, depth);
    }
  }

  lemma {:induction false} InsideIsPassed(s: string, i: nat, c: Inside, depth: nat)
    requires Occurs(s, i, Printed(c)) && Proper(c) && depth > 0
    ensures BlockEnd(s, i, depth) == BlockEnd(s, i + |Printed(c)|, depth)
    decreases c
  {
    hide Occurs, Unmarked, BlockEnd;
    match c
    case NoMore =>
    case Text(text, rest) =>
      OccursSplits(s, i, text, Printed(rest));
      TextIsPassed(s, i, text, 0, depth);
      InsideIsPassed(s, i + |text|, rest, depth);
    case Comment(inner, rest) =>
      var p := Printed(inner);
      CommentParts(s, i, p, Printed(rest));
      OneDeeper(s, i, depth);
      OneHigher(s, i + 2 + |p|, depth + 1);
      InsideIsPassed(s, i + 2, inner, depth + 1);
      InsideIsPassed(s, i + 2 + |p| + 2, rest, depth);
  }

  lemma CommentParts(s: string, i: nat, p: string, rest: string)
    requires Occurs(s, i, "/*" + (p + ("*/" + rest)))
    ensures BlockComment(s, i) && Occurs(s, i + 2, p) && Pair(s, i + 2 + |p|, '*', '/') && Occurs(s, i + 4 + |p|, rest)
  {
    hide Occurs;
    OccursSplits(s, i, "/*", p + ("*/" + rest));
    OccursSplits(s, i + 2, p, "*/" + rest);
    OccursSplits(s, i + 2 + |p|, "*/", rest);
    TwoBytes(s, i, '/', '*');
    TwoBytes(s, i + 2 + |p|, '*', '/');
  }

  lemma OneDeeper(s: string, i: nat, depth: nat)
    requires BlockComment(s, i) && depth > 0
    ensures BlockEnd(s, i, depth) == BlockEnd(s, i + 2, depth + 1)
  {
  }

  lemma OneHigher(s: string, i: nat, depth: nat)
    requires Pair(s, i, '*', '/') && depth > 0
    ensures BlockEnd(s, i, depth) == BlockEnd(s, i + 2, depth - 1)
  {
  }

  lemma TwoBytes(s: string, i: nat, a: char, b: char)
    requires Occurs(s, i, [a, b])
    ensures Pair(s, i, a, b) && i + 2 <= |s|
  {
    assert s[i..i + 2][0] == s[i] && s[i..i + 2][1] == s[i + 1];
  }

  /** What separates tokens. */
  datatype Trivium = Blank(c: char) | Line(text: string) | Block(inside: Inside)

  function TriviumText(t: Trivium): string {
    match t
    case Blank(c) => [c]
    case Line(text) => "--" + text
    case Block(inside) => "/*" + (Printed(inside) + "*/")
  }

  /** A line comment has no newline in it, and goes up to one or to the end of the text. */
  predicate TriviumAt(s: string, i: nat, t: Trivium) {
    && Occurs(s, i, TriviumText(t))
    && match t
       case Blank(c) => Space(c)
       case Line(text) =>
         (forall k :: 0 <= k < |text| ==> !Newline(text[k]))
         && (i + |TriviumText(t)| < |s| ==> Newline(s[i + |TriviumText(t)|]))
       case Block(inside) => Proper(inside)
  }

  /** White space and comments are skipped whole, whatever is in them and however deep they are nested. */
  lemma TriviumIsSkipped(s: string, i: nat, t: Trivium)
    requires TriviumAt(s, i, t)
    ensures SkipTrivia(s, i) == SkipTrivia(s, i + |TriviumText(t)|)
  {
    hide TriviaAt, Occurs, Proper;
    match t
    case Blank(c) => BlankIsSkipped(s, i, c);
    case Line(text) => LineIsSkipped(s, i, text);
    case Block(inside) => BlockIsClosed(s, i, inside);
  }

  lemma BlankIsSkipped(s: string, i: nat, c: char)
    requires Occurs(s, i, [c]) && Space(c)
    ensures TriviaAt(s, i) == Go(i + 1)
  {
    assert s[i..i + 1][0] == s[i];
  }

  lemma LineIsSkipped(s: string, i: nat, text: string)
    requires TriviumAt(s, i, Line(text))
    ensures TriviaAt(s, i) == Go(i + 2 + |text|)
  {
    hide BlockEnd, Occurs, LineEnd;
    var e := i + 2 + |text|;
    OccursSplits(s, i, "--", text);
    TwoBytes(s, i, '-', '-');
    OccursBytes(s, i + 2, text);
    LineEndIs(s, i + 2, e);
  }

  lemma LineEndIs(s: string, i: nat, e: nat)
    requires i <= e <= |s| && (forall k :: i <= k < e ==> !Newline(s[k])) && (e < |s| ==> Newline(s[e]))
    ensures LineEnd(s, i) == e
  {
    assert LineEnd(s, i) <= e;
  }

  lemma OccursBytes(s: string, i: nat, t: string)
    requires Occurs(s, i, t)
    ensures forall k :: i <= k < i + |t| ==> s[k] == t[k - i]
  {
    forall k | i <= k < i + |t| ensures s[k] == t[k - i] {
      assert s[k] == s[i..i + |t|][k - i];
    }
  }

  lemma BlockIsClosed(s: string, i: nat, inside: Inside)
    requires TriviumAt(s, i, Block(inside))
    ensures TriviaAt(s, i) == Go(i + |TriviumText(Block(inside))|)
  {
    hide Occurs, Proper, TriviaAt, Printed;
    BlockParts(s, i, Printed(inside));
    BlockIsPassed(s, i, inside);
  }

  lemma BlockParts(s: string, i: nat, p: string)
    requires Occurs(s, i, "/*" + (p + "*/"))
    ensures BlockComment(s, i) && Occurs(s, i + 2, p) && Pair(s, i + 2 + |p|, '*', '/')
  {
    hide Occurs;
    OccursSplits(s, i, "/*", p + "*/");
    OccursSplits(s, i + 2, p, "*/");
    TwoBytes(s, i, '/', '*');
    TwoBytes(s, i + 2 + |p|, '*', '/');
  }

  lemma BlockIsPassed(s: string, i: nat, inside: Inside)
    requires BlockComment(s, i) && Occurs(s, i + 2, Printed(inside)) && Proper(inside)
    requires Pair(s, i + 2 + |Printed(inside)|, '*', '/')
    ensures TriviaAt(s, i) == Go(i + 4 + |Printed(inside)|)
  {
    hide Occurs, Proper, BlockEnd, TriviaAt, Printed;
    InsideIsPassed(s, i + 2, inside, 1);
    ClosesHere(s, i + 2 + |Printed(inside)|);
    BlockIsTrivia(s, i);
  }

  lemma BlockIsTrivia(s: string, i: nat)
    requires BlockComment(s, i)
    ensures TriviaAt(s, i) == match BlockEnd(s, i + 2, 1) case None => Unclosed case Some(j) => Go(j)
  {
    hide BlockEnd;
  }

  lemma ClosesHere(s: string, i: nat)
    requires Pair(s, i, '*', '/')
    ensures BlockEnd(s, i, 1) == Some(i + 2)
  {
  }

  /** A comment that is not closed is an error. */
  lemma UnclosedIsRefused(s: string, i: nat, inside: Inside)
    requires Occurs(s, i, "/*" + Printed(inside)) && Proper(inside) && i + 2 + |Printed(inside)| == |s|
    ensures Next(s, i) == None
  {
    hide Occurs, Proper, BlockEnd, TriviaAt, Printed;
    OccursSplits(s, i, "/*", Printed(inside));
    TwoBytes(s, i, '/', '*');
    InsideIsPassed(s, i + 2, inside, 1);
    NeverCloses(s);
    BlockIsTrivia(s, i);
  }

  lemma NeverCloses(s: string)
    ensures BlockEnd(s, |s|, 1) == None
  {
  }

  // ---------------------------------------------------------------------------------------------
  // Dollar quotes

  predicate Tag(t: string) {
    t != "" ==> IdentStart(t[0]) && forall k :: 0 <= k < |t| ==> IdentContinue(t[k]) && t[k] != '$'
  }

  lemma {:induction false} FirstOccurrence(s: string, i: nat, t: string, k: nat)
    requires i <= k && Occurs(s, k, t) && forall j :: i <= j < k ==> !Occurs(s, j, t)
    ensures i <= |s| && Index(s, i, t) == Some(k)
    decreases k - i
  {
    if i < k {
      FirstOccurrence(s, i + 1, t, k);
    }
  }

  lemma {:induction false} NoOccurrence(s: string, i: nat, t: string)
    requires i <= |s| && forall j :: i <= j <= |s| ==> !Occurs(s, j, t)
    ensures Index(s, i, t) == None
    decreases |s| - i
  {
    if i < |s| {
      NoOccurrence(s, i + 1, t);
    }
  }

  lemma DollarOpens(s: string, i: nat, tag: string)
    requires Tag(tag) && Occurs(s, i, "$" + tag + "$")
    ensures i < |s| && DollarQuote(s, i) && TagEnd(s, i + 1) == i + 1 + |tag| && s[i..i + |tag| + 2] == "$" + tag + "$"
    ensures Next(s, i) == PlainToken(s, i)
  {
    var d := "$" + tag + "$";
    OccursBytes(s, i, d);
    assert s[i] == d[0] && s[i + |tag| + 1] == d[|tag| + 1];
    assert forall k :: i + 1 <= k < i + 1 + |tag| ==> s[k] == d[k - i] == tag[k - i - 1];
    assert Opening(s, i) == None && TriviaAt(s, i) == Stop && !NumberStart(s, i);
  }

  /** A dollar-quoted string is one token up to the next occurrence of its delimiter, whatever is between the two;
      without another one it is an error. */
  lemma DollarIsRead(s: string, i: nat, tag: string, k: nat)
    requires Tag(tag) && Occurs(s, i, "$" + tag + "$")
    requires k >= i + |tag| + 2 && forall j :: i + |tag| + 2 <= j < k ==> !Occurs(s, j, "$" + tag + "$")
    ensures Occurs(s, k, "$" + tag + "$") ==> Next(s, i) == Some(Token(i, k + |tag| + 2, "", false))
    ensures k == |s| && !Occurs(s, k, "$" + tag + "$") ==> Next(s, i) == None
  {
    hide TagEnd, Index;
    var d := "$" + tag + "$";
    DollarOpens(s, i, tag);
    if Occurs(s, k, d) {
      FirstOccurrence(s, i + |tag| + 2, d, k);
    } else if k == |s| {
      NoOccurrence(s, i + |tag| + 2, d);
    }
  }

  // ---------------------------------------------------------------------------------------------
  // Strings without escapes

  /** A string's body: quotes doubled, and nothing else. */
  function Doubled(v: string): string {
    if v == "" then "" else (if v[0] == '\'' then "''" else [v[0]]) + Doubled(v[1..])
  }

  const STRING := Quoting('\'', false, true)
  const BITS := Quoting('\'', false, false)

  lemma {:induction false} DoubledIsRead(s: string, first: nat, i: nat, v: string)
    requires Occurs(s, i, Doubled(v))
    ensures Quoted(s, first, i, STRING, "") == Quoted(s, first, i + |Doubled(v)|, STRING, "")
    decreases |v|
  {
    hide Occurs, QuotedAt;
    if v != "" {
      var head := if v[0] == '\'' then "''" else [v[0]];
      OccursSplits(s, i, head, Doubled(v[1..]));
      DoubledByte(s, first, i, v[0]);
      DoubledIsRead(s, first, i + |head|, v[1..]);
      assert "" + [] == "";
    }
  }

  lemma DoubledByte(s: string, first: nat, i: nat, c: char)
    requires Occurs(s, i, if c == '\'' then "''" else [c])
    ensures i < |s| && QuotedAt(s, first, i, STRING) == More(i + if c == '\'' then 2 else 1, [])
  {
    if c == '\'' {
      TwoBytes(s, i, '\'', '\'');
    } else {
      assert s[i..i + 1][0] == s[i];
    }
  }

  predicate StringPrefix(p: string) { p == "" || p == "n" || p == "N" || p == "u&" || p == "U&" }

  predicate BitPrefix(p: string) { p == "b" || p == "B" || p == "x" || p == "X" }

  lemma StringOpens(s: string, i: nat, p: string)
    requires (StringPrefix(p) || BitPrefix(p)) && Occurs(s, i, p + "'")
    ensures i < |s| && i + |p| < |s| && Opening(s, i) == Some((i + |p|, if StringPrefix(p) then STRING else BITS))
    ensures Next(s, i) == Fresh(s, i)
  {
    var t := p + "'";
    OccursBytes(s, i, t);
    assert s[i] == t[0] && s[i + |p|] == t[|p|];
    assert |p| > 0 ==> s[i + 1] == t[1];
    assert TriviaAt(s, i) == Stop;
  }

  lemma StringCloses(s: string, first: nat, e: nat, q: Quoting)
    requires 0 < e <= |s| && s[e - 1] == '\'' && (q == STRING || q == BITS) && EndsEString(s, e)
    ensures Quoted(s, first, e - 1, q, "") == Some((e, ""))
  {
  }

  /** A string, with its quotes doubled, is one token, whatever its bytes: backslashes and comment marks are bytes like
      any other. */
  lemma StringIsRead(s: string, i: nat, p: string, v: string) returns (e: nat)
    requires StringPrefix(p) && Occurs(s, i, p + "'" + (Doubled(v) + "'"))
    ensures e == i + |p| + |Doubled(v)| + 2 <= |s|
    ensures EndsEString(s, e) ==> Next(s, i) == Some(Token(i, e, "", false))
  {
    hide Occurs, EndsEString, Quoted, Opening, Fresh, Next, Doubled, StringPrefix;
    var at := i + |p| + 1;
    e := at + |Doubled(v)| + 1;
    OccursSplits(s, i, p + "'", Doubled(v) + "'");
    OccursSplits(s, at, Doubled(v), "'");
    OccursFirst(s, e - 1, "'");
    StringOpens(s, i, p);
    DoubledIsRead(s, at, at, v);
    FreshQuoted(s, i, i + |p|, STRING);
    if EndsEString(s, e) {
      StringCloses(s, at, e, STRING);
    }
  }

  lemma {:induction false} BitsAreRead(s: string, first: nat, i: nat, v: string)
    requires Occurs(s, i, v) && '\'' !in v
    ensures Quoted(s, first, i, BITS, "") == Quoted(s, first, i + |v|, BITS, "")
    decreases |v|
  {
    if v != "" {
      assert v == [v[0]] + v[1..];
      OccursSplits(s, i, [v[0]], v[1..]);
      assert s[i..i + 1][0] == s[i] && v[0] in v;
      BitsAreRead(s, first, i + 1, v[1..]);
      assert "" + [] == "";
    }
  }

  /** In a bit string a quote always closes: two of them are not one. */
  lemma BitStringIsRead(s: string, i: nat, p: string, v: string) returns (e: nat)
    requires BitPrefix(p) && '\'' !in v && Occurs(s, i, p + "'" + (v + "'"))
    ensures e == i + |p| + |v| + 2 <= |s|
    ensures QuoteContinuation(s, e, false).None? ==> Next(s, i) == Some(Token(i, e, "", false))
  {
    hide Occurs, QuoteContinuation, Quoted, Opening, Fresh, Next;
    var at := i + |p| + 1;
    e := at + |v| + 1;
    OccursSplits(s, i, p + "'", v + "'");
    OccursSplits(s, at, v, "'");
    OccursFirst(s, e - 1, "'");
    StringOpens(s, i, p);
    BitsAreRead(s, at, at, v);
    FreshQuoted(s, i, i + |p|, BITS);
    if QuoteContinuation(s, e, false).None? {
      BitsClose(s, at, e);
    }
  }

  lemma BitsClose(s: string, first: nat, e: nat)
    requires 0 < e <= |s| && s[e - 1] == '\'' && QuoteContinuation(s, e, false).None?
    ensures Quoted(s, first, e - 1, BITS, "") == Some((e, ""))
  {
    hide QuoteContinuation;
  }

  /** Behind white space a quote goes on with the string before it exactly when there is a newline between them. */
  lemma {:induction false} NewlineContinues(s: string, i: nat, j: nat, newline: bool)
    requires i <= j < |s| && s[j] == '\'' && forall k :: i <= k < j ==> Space(s[k])
    ensures QuoteContinuation(s, i, newline) == if newline || exists k :: i <= k < j && Newline(s[k]) then Some(j) else None
    decreases j - i
  {
    if i < j {
      NewlineContinues(s, i + 1, j, newline || Newline(s[i]));
    }
  }

  // ---------------------------------------------------------------------------------------------
  // Operators

  /** A byte of an operator, and a byte that the SQL standard's operators do not have. */
  lemma OperatorBytes(c: char)
    ensures Operator(c) <==> c in "~!@#^&|`?+-*/%<>="
    ensures NonSql(c) <==> c in "~!@#^&|`?%"
  {
  }

  /** The bytes up to `e` are an operator: no comment starts behind the first, and the last of several is a sign only
      if there is a byte that the SQL standard's operators do not have. */
  predicate OperatorTo(s: string, i: nat, e: nat) {
    && i < e <= |s|
    && (forall k :: i <= k < e ==> Operator(s[k]))
    && (forall k :: i < k < e ==> !LineComment(s, k) && !BlockComment(s, k))
    && (e > i + 1 && Sign(s[e - 1]) ==> exists k :: i <= k < e && NonSql(s[k]))
  }

  /** The longest operator is taken, and refused if it has 64 bytes or more. */
  lemma OperatorIsLongest(s: string, i: nat, e: nat)
    requires i < |s| && OperatorTo(s, i, e) && !LineComment(s, i) && !BlockComment(s, i)
    requires forall f: nat :: OperatorTo(s, i, f) ==> f <= e
    ensures Next(s, i) == if e - i < 64 then Some(Token(i, e, "", false)) else None
  {
    OperatorEndIsOperator(s, i);
    OperatorEndIsLast(s, i, e);
    assert OperatorEnd(s, i) == e;
    OperatorStarts(s, i);
  }

  lemma OperatorStarts(s: string, i: nat)
    requires i < |s| && Operator(s[i]) && !LineComment(s, i) && !BlockComment(s, i)
    ensures Next(s, i) == if OperatorEnd(s, i) - i < 64 then Some(Token(i, OperatorEnd(s, i), "", false)) else None
  {
    hide OperatorEnd;
    assert TriviaAt(s, i) == Stop && Opening(s, i) == None && !NumberStart(s, i) && !DollarQuote(s, i);
  }

  lemma OperatorEndIsOperator(s: string, i: nat)
    requires i < |s| && Operator(s[i])
    ensures OperatorTo(s, i, OperatorEnd(s, i))
  {
    var run := RunEnd(s, i + 1);
    if HasNonSql(s, i, run) {
      var k :| i <= k < run && NonSql(s[k]);
    }
  }

  lemma OperatorEndIsLast(s: string, i: nat, e: nat)
    requires i < |s| && OperatorTo(s, i, e)
    ensures e <= OperatorEnd(s, i)
  {
    var run := RunEnd(s, i + 1);
    assert e <= run;
  }

  // ---------------------------------------------------------------------------------------------
  // Numbers

  /** A number's text starts at `i` and is `n` bytes long. */
  predicate NumberOf(s: string, i: nat, n: nat) { i + n <= |s| && Number(s[i..i + n]) }

  lemma NotGrouped(t: string, k: nat)
    requires k < |t| && t[k] == '.'
    ensures !Decimal(t) && !Radix(t)
  {
    if Radix(t) {
      assert t[0] == '0' && t[1] != '.';
      assert t[2..][k - 2] == '.';
    }
  }

  lemma NoPointBeside(t: string, k: nat, p: nat)
    requires k < |t| && p < |t| && t[k] == '.' && k != p
    ensures !PointAt(t, p)
  {
    if k < p {
      NotGrouped(t[..p], k);
    } else {
      NotGrouped(t[p + 1..], k - p - 1);
      assert p == 0 ==> t[p + 1..] == t[1..];
    }
  }

  lemma NotNumeric(t: string, k: nat)
    requires k + 1 < |t| && t[k] == '.' && t[k + 1] == '.'
    ensures !Numeric(t)
  {
    hide PointAt;
    forall p | 0 <= p < |t| && t[p] == '.' ensures !PointAt(t, p) {
      NoPointBeside(t, if p == k then k + 1 else k, p);
    }
  }

  lemma NotReal(t: string, k: nat)
    requires k + 1 < |t| && t[k] == '.' && t[k + 1] == '.'
    ensures !Real(t)
  {
    hide Decimal, Numeric;
    forall e | 0 <= e < |t| && t[e] in "eE" ensures !ExponentAt(t, e) {
      var power := if e + 1 < |t| && Sign(t[e + 1]) then e + 2 else e + 1;
      if k + 1 < e {
        NotGrouped(t[..e], k);
        NotNumeric(t[..e], k);
      } else {
        NotGrouped(t[power..], k + 1 - power);
      }
    }
  }

  /** No number has two points in a row. */
  lemma NoTwoPoints(t: string, k: nat)
    requires k + 1 < |t| && t[k] == '.' && t[k + 1] == '.'
    ensures !Number(t)
  {
    hide Decimal, Radix, Numeric, Real;
    NotGrouped(t, k);
    NotNumeric(t, k);
    NotReal(t, k);
  }

  lemma {:induction false} LongestIs(s: string, i: nat, limit: nat, n: nat)
    requires i + limit <= |s| && n <= limit && (n > 0 ==> NumberOf(s, i, n))
    requires forall m: nat :: n < m <= limit ==> !NumberOf(s, i, m)
    ensures LongestMatch(Number, s, i, limit) == n
    decreases limit
  {
    hide Number;
    if limit > n {
      assert !NumberOf(s, i, limit);
      LongestIs(s, i, limit - 1, n);
    }
  }

  lemma NumberStarts(s: string, i: nat, n: nat)
    requires i < |s| && Digit(s[i]) && LongestNumber(s, i) == n && n > 0
    ensures Next(s, i) == match NumberTail(s, i, n) case None => None case Some(e) => Some(Token(i, e, "", false))
  {
    hide Number, LongestMatch, NumberTail;
    assert TriviaAt(s, i) == Stop && Opening(s, i) == None && NumberStart(s, i);
  }

  /** In `1..10` the number ends before the points. */
  lemma PointsEndNumber(s: string, i: nat, j: nat)
    requires i < j && j + 1 < |s| && s[j] == '.' && s[j + 1] == '.' && forall k :: i <= k < j ==> Digit(s[k])
    ensures Next(s, i) == Some(Token(i, j, "", false))
  {
    hide Number, LongestMatch;
    var n := j + 1 - i;
    DigitsAndPoint(s, i, j);
    forall m: nat | n < m <= |s| - i ensures !NumberOf(s, i, m) {
      var t := s[i..i + m];
      assert t[j - i] == '.' && t[j + 1 - i] == '.';
      NoTwoPoints(t, j - i);
    }
    LongestIs(s, i, |s| - i, n);
    NumberStarts(s, i, n);
  }

  lemma DigitsAndPoint(s: string, i: nat, j: nat)
    requires i < j < |s| && s[j] == '.' && forall k :: i <= k < j ==> Digit(s[k])
    ensures NumberOf(s, i, j + 1 - i)
  {
    hide Radix, Real;
    var t := s[i..j + 1];
    assert t[j - i] == '.' && t[..j - i] == s[i..j];
    assert Decimal(t[..j - i]);
    assert PointAt(t, j - i);
    assert Numeric(t);
  }

  /** The longest number is taken, unless an identifier follows it. */
  lemma NumberIsLongest(s: string, i: nat, n: nat)
    requires i < |s| && Digit(s[i]) && n > 0 && NumberOf(s, i, n)
    requires forall m: nat :: n < m ==> !NumberOf(s, i, m)
    requires i + n < |s| ==> s[i + n] != '.'
    ensures Next(s, i)
      == if i + n < |s| && IdentStart(s[i + n]) then None else Some(Token(i, i + n, "", false))
  {
    hide Number, LongestMatch;
    LongestIs(s, i, |s| - i, n);
    NumberStarts(s, i, n);
  }

  // ---------------------------------------------------------------------------------------------
  // Words

  /** An ASCII word that is no prefix of a string. */
  predicate PlainWord(w: string) {
    w != "" && IdentStart(w[0]) && Ascii(w) && forall k :: 0 <= k < |w| ==> IdentContinue(w[k])
  }

  /** A word is read whole, and known in upper case. */
  lemma WordIsRead(s: string, i: nat, w: string)
    requires PlainWord(w) && Occurs(s, i, w)
    requires i + |w| < |s| ==> !IdentContinue(s[i + |w|]) && s[i + |w|] != '\'' && s[i + |w|] != '&'
    ensures Next(s, i) == Some(Token(i, i + |w|, UpperAll(w), true))
  {
    hide UpperAll, Quoted;
    var e := i + |w|;
    OccursBytes(s, i, w);
    assert s[i] == w[0] && s[i..e] == w;
    assert IdentEnd(s, i + 1) == e;
    assert |w| > 1 ==> s[i + 1] == w[1];
    assert TriviaAt(s, i) == Stop && Opening(s, i) == None && !NumberStart(s, i) && !Operator(s[i]);
    assert PlainToken(s, i) == Some(WordToken(s, i));
  }

  function Joined(words: seq<string>): string
    requires words != []
  {
    if |words| == 1 then words[0] else words[0] + " " + Joined(words[1..])
  }

  predicate WordTokens(ts: seq<Token>, words: seq<string>) {
    |ts| == |words| && forall k :: 0 <= k < |ts| ==> ts[k].identifier && ts[k].word == UpperAll(words[k])
  }

  /** Words with blanks between them are their tokens, in any case. */
  lemma {:induction false} WordsAreTokens(s: string, i: nat, words: seq<string>)
    requires words != [] && (forall k :: 0 <= k < |words| ==> PlainWord(words[k]))
    requires i + |Joined(words)| == |s| && Occurs(s, i, Joined(words))
    ensures Tokens(s, i).Some? && WordTokens(Tokens(s, i).value, words)
    decreases |words|
  {
    hide Next, UpperAll, Occurs, PlainWord;
    var w := words[0];
    if |words| == 1 {
      WordIsRead(s, i, w);
      EndIsNext(s);
      TokensNone(s, |s|);
      assert |w| > 0 by { SomeBytes(w); }
      TokensCons(s, i, Token(i, |s|, UpperAll(w), true));
    } else {
      var rest := Joined(words[1..]);
      assert w + " " + rest == w + (" " + rest);
      OccursSplits(s, i, w, " " + rest);
      OccursSplits(s, i + |w|, " ", rest);
      OccursFirst(s, i + |w|, " ");
      WordIsRead(s, i, w);
      WordsAreTokens(s, i + |w| + 1, words[1..]);
      BlankBetween(s, i + |w|);
      TokensCons(s, i, Token(i, i + |w|, UpperAll(w), true));
    }
  }

  lemma EndIsNext(s: string)
    ensures Next(s, |s|) == Some(Token(|s|, |s|, "", false))
  {
  }

  lemma SomeBytes(w: string)
    requires PlainWord(w)
    ensures |w| > 0
  {
  }

  lemma BlankBetween(s: string, i: nat)
    requires i < |s| && s[i] == ' '
    ensures Tokens(s, i) == Tokens(s, i + 1)
  {
  }
}
