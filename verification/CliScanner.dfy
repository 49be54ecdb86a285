/** The lexical rules of the statement splitter (pkg/query/cli_statements.go), as functions of a byte
    string and a position. The lexer class of CliLexer.dfy is proved against them. None stands for the
    source's ErrUnsupportedCLISQL, the only error its lexer returns besides cancellation. */
module CliScanner {
  import opened AsciiBytes
  import opened Common
  import Utf8

  // ---------------------------------------------------------------------------------------------
  // Byte classes

  predicate Newline(c: char) { c == '\n' || c == '\r' }

  predicate IdentStart(c: char) { c >= '\U{80}' || c == '_' || Letter(c) }

  predicate IdentContinue(c: char) { IdentStart(c) || Digit(c) || c == '$' }

  predicate Sign(c: char) { c == '+' || c == '-' }

  /** Operator bytes outside the SQL standard's set: they keep trailing signs inside an operator. */
  predicate NonSql(c: char) {
    c == '~' || c == '!' || c == '@' || c == '#' || c == '^' || c == '&' || c == '|' || c == '`' || c == '?' || c == '%'
  }

  predicate Operator(c: char) {
    NonSql(c) || Sign(c) || c == '*' || c == '/' || c == '<' || c == '>' || c == '='
  }

  predicate Pair(s: string, i: nat, first: char, second: char) {
    i + 1 < |s| && s[i] == first && s[i + 1] == second
  }

  predicate LineComment(s: string, i: nat) { Pair(s, i, '-', '-') }

  predicate BlockComment(s: string, i: nat) { Pair(s, i, '/', '*') }

  // ---------------------------------------------------------------------------------------------
  // White space and comments

  /** The newline that ends a line comment, or the end of the text. */
  function LineEnd(s: string, i: nat): (j: nat)
    requires i <= |s|
    ensures i <= j <= |s|
    ensures j < |s| ==> Newline(s[j])
    ensures forall k :: i <= k < j ==> !Newline(s[k])
    decreases |s| - i
  {
    if i < |s| && !Newline(s[i]) then LineEnd(s, i + 1) else i
  }

  /** Past the end of a block comment that is open `depth` levels deep at `i`. */
  function BlockEnd(s: string, i: nat, depth: nat): (r: Option<nat>)
    requires i <= |s|
    ensures r.Some? ==> i <= r.value <= |s| && (depth > 0 ==> i < r.value)
    decreases |s| - i
  {
    if depth == 0 then Some(i)
    else if i == |s| then None
    else if BlockComment(s, i) then BlockEnd(s, i + 2, depth + 1)
    else if Pair(s, i, '*', '/') then BlockEnd(s, i + 2, depth - 1)
    else BlockEnd(s, i + 1, depth)
  }

  /** One round of the loop in cliLexer.next: a space, a comment, or neither. */
  datatype TriviaStep = Stop | Unclosed | Go(to: nat)

  function TriviaAt(s: string, i: nat): (r: TriviaStep)
    requires i <= |s|
    ensures r.Go? ==> i < r.to <= |s|
    ensures r.Stop? && i < |s| ==> !Space(s[i]) && !LineComment(s, i) && !BlockComment(s, i)
  {
    if i == |s| then Stop
    else if Space(s[i]) then Go(i + 1)
    else if LineComment(s, i) then Go(LineEnd(s, i + 2))
    else if BlockComment(s, i) then
      match BlockEnd(s, i + 2, 1)
      case None => Unclosed
      case Some(j) => Go(j)
    else Stop
  }

  /** Where the next token starts, or |s|. None: a block comment is not closed. */
  function SkipTrivia(s: string, i: nat): (r: Option<nat>)
    requires i <= |s|
    ensures r.Some? ==> i <= r.value <= |s|
    decreases |s| - i
  {
    match TriviaAt(s, i)
    case Stop => Some(i)
    case Unclosed => None
    case Go(to) => SkipTrivia(s, to)
  }

  // ---------------------------------------------------------------------------------------------
  // Quoted text

  /** The quote that continues a quoted string closed before `i`: white space with a newline between
      them; line comments count, block comments do not. */
  function QuoteContinuation(s: string, i: nat, newline: bool): (r: Option<nat>)
    requires i <= |s|
    ensures r.Some? ==> i <= r.value < |s| && s[r.value] == '\''
    decreases |s| - i
  {
    if i < |s| && Space(s[i]) then QuoteContinuation(s, i + 1, newline || Newline(s[i]))
    else if LineComment(s, i) then QuoteContinuation(s, LineEnd(s, i + 2), newline)
    else if newline && i < |s| && s[i] == '\'' then Some(i)
    else None
  }

  predicate Hex(c: char) { Digit(c) || 'a' <= c <= 'f' || 'A' <= c <= 'F' }

  function HexValue(c: char): (v: nat)
    requires Hex(c)
    ensures v < 16
  {
    if Digit(c) then c as int - '0' as int
    else if 'a' <= c then c as int - 'a' as int + 10
    else c as int - 'A' as int + 10
  }

  /** Exactly `digits` hexadecimal digits from `i`, appended to `value`. */
  function HexDigits(s: string, i: nat, digits: nat, value: nat): (r: Option<nat>)
    requires i <= |s|
    ensures r.Some? ==> i + digits <= |s|
    decreases digits
  {
    if digits == 0 then Some(value)
    else if i < |s| && Hex(s[i]) then HexDigits(s, i + 1, digits - 1, value * 16 + HexValue(s[i]))
    else None
  }

  /** \uXXXX or \UXXXXXXXX: the position after it and a value from 1 to 0x10FFFF. */
  function UnicodeEscape(s: string, i: nat): (r: Option<(nat, nat)>)
    requires i <= |s|
    ensures r.Some? ==> i + 2 <= r.value.0 <= |s| && 0 < r.value.1 <= 0x10FFFF
  {
    if i + 1 >= |s| || s[i] != '\\' || (s[i + 1] != 'u' && s[i + 1] != 'U') then None
    else
      var digits := if s[i + 1] == 'U' then 8 else 4;
      match HexDigits(s, i + 2, digits, 0)
      case None => None
      case Some(v) => if v == 0 || v > 0x10FFFF then None else Some((i + 2 + digits, v))
  }

  predicate HighSurrogate(v: nat) { 0xD800 <= v <= 0xDBFF }

  predicate LowSurrogate(v: nat) { 0xDC00 <= v <= 0xDFFF }

  /** A Unicode escape with its second half when the first is a high surrogate. */
  function UnicodeScalar(s: string, i: nat): (r: Option<(nat, nat)>)
    requires i <= |s|
    ensures r.Some? ==> i + 2 <= r.value.0 <= |s| && 0 < r.value.1 && Utf8.IsScalar(r.value.1)
  {
    match UnicodeEscape(s, i)
    case None => None
    case Some((next, v)) =>
      if HighSurrogate(v) then
        (match UnicodeEscape(s, next)
         case None => None
         case Some((last, w)) =>
           if LowSurrogate(w) then Some((last, 0x10000 + (v - 0xD800) * 0x400 + w - 0xDC00)) else None)
      else if LowSurrogate(v) then None
      else Some((next, v))
  }

  predicate Octal(c: char) { '0' <= c <= '7' }

  /** Up to `count` octal digits; the byte wraps as Go's uint8 does. */
  function OctalByte(s: string, i: nat, count: nat, value: nat): (r: (nat, nat))
    requires i <= |s| && value < 256
    ensures i <= r.0 <= |s| && r.1 < 256
    ensures count > 0 && i < |s| && Octal(s[i]) ==> i < r.0
    decreases count
  {
    if count > 0 && i < |s| && Octal(s[i])
    then OctalByte(s, i + 1, count - 1, (value * 8 + (s[i] as int - '0' as int)) % 256)
    else (i, value)
  }

  function HexByte(s: string, i: nat, count: nat, value: nat): (r: (nat, nat))
    requires i <= |s| && value < 256
    ensures i <= r.0 <= |s| && r.1 < 256
    decreases count
  {
    if count > 0 && i < |s| && Hex(s[i])
    then HexByte(s, i + 1, count - 1, (value * 16 + HexValue(s[i])) % 256)
    else (i, value)
  }

  function Named(c: char): char {
    match c
    case 'b' => '\U{08}'
    case 'f' => '\U{0C}'
    case 'n' => '\n'
    case 'r' => '\r'
    case 't' => '\t'
    case _ => c
  }

  /** The escape that starts with the backslash at `i`: the position after it and the bytes it means. */
  function Escape(s: string, i: nat): (r: Option<(nat, string)>)
    requires i < |s| && s[i] == '\\'
    ensures r.Some? ==> i + 2 <= r.value.0 <= |s|
  {
    if i + 1 >= |s| then None
    else
      var c := s[i + 1];
      if c == 'u' || c == 'U' then
        match UnicodeScalar(s, i)
        case None => None
        case Some((next, v)) => Some((next, Utf8.Encode(v)))
      else if Octal(c) then
        var (next, v) := OctalByte(s, i + 1, 3, 0);
        Some((next, [Utf8.Byte(v)]))
      else if c == 'x' && i + 2 < |s| && Hex(s[i + 2]) then
        var (next, v) := HexByte(s, i + 2, 2, 0);
        Some((next, [Utf8.Byte(v)]))
      else Some((i + 2, [Named(c)]))
  }

  /** How a quoted token is read. */
  datatype Quoting = Quoting(quote: char, escapes: bool, doubled: bool)

  /** One round of the loop in cliLexer.quoted. */
  datatype QuotedStep = Broken | Closed(end: nat) | More(to: nat, bytes: string)

  function QuotedAt(s: string, first: nat, i: nat, q: Quoting): (r: QuotedStep)
    requires i < |s|
    ensures r.Closed? ==> r.end == i + 1
    ensures r.More? ==> i < r.to <= |s|
  {
    if s[i] == q.quote then
      if q.doubled && i + 1 < |s| && s[i + 1] == q.quote then More(i + 2, if q.escapes then [q.quote] else [])
      else if q.quote == '"' && i == first then Broken
      else
        match if q.quote == '\'' then QuoteContinuation(s, i + 1, false) else None
        case Some(next) => More(next + 1, [])
        case None => Closed(i + 1)
    else if q.escapes && s[i] == '\\' then
      match Escape(s, i)
      case None => Broken
      case Some((next, bytes)) => More(next, bytes)
    else More(i + 1, if q.escapes then [s[i]] else [])
  }

  /** The rest of a quoted token from `i`: the position after it and, in escape mode, the bytes it
      means. `first` is the position after its opening quote. */
  function Quoted(s: string, first: nat, i: nat, q: Quoting, decoded: string): (r: Option<(nat, string)>)
    requires i <= |s|
    ensures r.Some? ==> i < r.value.0 <= |s|
    decreases |s| - i
  {
    if i == |s| then None
    else
      match QuotedAt(s, first, i, q)
      case Broken => None
      case Closed(end) => if q.escapes && !(Utf8.Valid(decoded) && '\0' !in decoded) then None else Some((end, decoded))
      case More(to, bytes) => Quoted(s, first, to, q, decoded + bytes)
  }

  /** The opening of a quoted token at `i`: where its quote is and how it is read. */
  function Opening(s: string, i: nat): (r: Option<(nat, Quoting)>)
    requires i < |s|
    ensures r.Some? ==> i <= r.value.0 < |s| && s[r.value.0] == r.value.1.quote
    ensures r.Some? ==> r.value.1.quote == '\'' || r.value.1.quote == '"'
  {
    var c := s[i];
    if c == '\'' || c == '"' then Some((i, Quoting(c, false, true)))
    else if i + 1 < |s| && s[i + 1] == '\'' && c in "eEbBxXnN" then
      Some((i + 1, Quoting('\'', c in "eE", c !in "bBxX")))
    else if i + 2 < |s| && c in "uU" && s[i + 1] == '&' && (s[i + 2] == '\'' || s[i + 2] == '"') then
      Some((i + 2, Quoting(s[i + 2], false, true)))
    else None
  }

  // ---------------------------------------------------------------------------------------------
  // Numbers: the expression cliNumber matches, longest match

  /** Digits of one class with single underscores between them; `prefix` allows one before the first,
      as in 0x_1. */
  predicate Grouped(t: string, inClass: char -> bool, prefix: bool) {
    && t != [] && inClass(t[|t| - 1]) && (prefix || inClass(t[0]))
    && (forall k :: 0 <= k < |t| ==> inClass(t[k]) || t[k] == '_')
    && (forall k :: 0 < k < |t| ==> !(t[k - 1] == '_' && t[k] == '_'))
  }

  predicate Decimal(t: string) { Grouped(t, c => Digit(c), false) }

  predicate Radix(t: string) {
    && |t| > 2 && t[0] == '0'
    && ((t[1] in "xX" && Grouped(t[2..], c => Hex(c), true))
        || (t[1] in "oO" && Grouped(t[2..], c => Octal(c), true))
        || (t[1] in "bB" && Grouped(t[2..], c => c == '0' || c == '1', true)))
  }

  predicate Numeric(t: string) {
    exists k :: 0 <= k < |t| && t[k] == '.' && PointAt(t, k)
  }

  predicate PointAt(t: string, k: nat)
    requires k < |t|
  {
    || (Decimal(t[..k]) && (k + 1 == |t| || Decimal(t[k + 1..])))
    || (k == 0 && Decimal(t[1..]))
  }

  predicate Real(t: string) {
    exists k :: 0 <= k < |t| && t[k] in "eE" && ExponentAt(t, k)
  }

  predicate ExponentAt(t: string, k: nat)
    requires k < |t|
  {
    var power := if k + 1 < |t| && Sign(t[k + 1]) then k + 2 else k + 1;
    (Decimal(t[..k]) || Numeric(t[..k])) && Decimal(t[power..])
  }

  predicate Number(t: string) { Decimal(t) || Radix(t) || Numeric(t) || Real(t) }

  /** The length of the longest match of `p` of at most `limit` bytes at `i`, or 0. */
  function LongestMatch(p: string -> bool, s: string, i: nat, limit: nat): (n: nat)
    requires i + limit <= |s|
    ensures n <= limit
  {
    if limit == 0 || p(s[i..i + limit]) then limit else LongestMatch(p, s, i, limit - 1)
  }

  /** It matches, and nothing longer within the limit does. */
  lemma {:induction false} LongestMatchIsLongest(p: string -> bool, s: string, i: nat, limit: nat, m: nat)
    requires i + limit <= |s|
    ensures var n := LongestMatch(p, s, i, limit); n > 0 ==> p(s[i..i + n])
    ensures LongestMatch(p, s, i, limit) < m <= limit ==> !p(s[i..i + m])
  {
    if limit > 0 && !p(s[i..i + limit]) {
      LongestMatchIsLongest(p, s, i, limit - 1, m);
    }
  }

  /** cliNumber.FindString: the length of the longest number at `i`. */
  function LongestNumber(s: string, i: nat): (n: nat)
    requires i <= |s|
    ensures i + n <= |s|
  {
    LongestMatch(Number, s, i, |s| - i)
  }

  predicate NumberStart(s: string, i: nat)
    requires i < |s|
  {
    Digit(s[i]) || (s[i] == '.' && i + 1 < |s| && Digit(s[i + 1]))
  }

  lemma {:induction false} NumberStartMatches(s: string, i: nat)
    requires i < |s| && NumberStart(s, i)
    ensures LongestNumber(s, i) >= if Digit(s[i]) then 1 else 2
  {
    hide Radix, Real;
    if Digit(s[i]) {
      LongestMatchIsLongest(Number, s, i, |s| - i, 1);
      assert Decimal(s[i..i + 1]);
    } else {
      LongestMatchIsLongest(Number, s, i, |s| - i, 2);
      LongestMatchIsLongest(Number, s, i, |s| - i, 1);
      var t := s[i..i + 2];
      assert Decimal(t[1..]) && PointAt(t, 0);
      assert Numeric(t);
    }
  }

  /** A number of `n` bytes ends there, but one ending in '.' gives the point back when another
      follows, and an identifier must not follow. */
  function NumberTail(s: string, i: nat, n: nat): (r: Option<nat>)
    requires 0 < n && i + n <= |s| && (n == 1 ==> s[i] != '.')
    ensures r.Some? ==> i < r.value <= |s|
  {
    var matched := i + n;
    var end := if matched < |s| && s[matched - 1] == '.' && s[matched] == '.' then matched - 1 else matched;
    if end < |s| && IdentStart(s[end]) then None else Some(end)
  }

  function NumberEnd(s: string, i: nat): (r: Option<nat>)
    requires i < |s| && NumberStart(s, i)
    ensures r.Some? ==> i < r.value <= |s|
  {
    NumberStartMatches(s, i);
    NumberTail(s, i, LongestNumber(s, i))
  }

  // ---------------------------------------------------------------------------------------------
  // Parameters and dollar quotes

  /** strings.TrimLeft(t, "0"). */
  function TrimZeros(t: string): (r: string)
    ensures |r| <= |t|
    ensures r != [] ==> r[0] != '0'
  {
    if t != [] && t[0] == '0' then TrimZeros(t[1..]) else t
  }

  /** Go's string `>` on byte strings. */
  predicate Greater(a: string, b: string) {
    a != [] && (b == [] || a[0] > b[0] || (a[0] == b[0] && Greater(a[1..], b[1..])))
  }

  /** The range test of a parameter number: by length, then as text. */
  predicate ParameterInRange(digits: string) {
    var number := TrimZeros(digits);
    !(|number| > 10 || (|number| == 10 && Greater(number, "2147483647")))
  }

  function ParameterEnd(s: string, i: nat): (r: Option<nat>)
    requires Pair(s, i, '$', if i + 1 < |s| then s[i + 1] else '$') && Digit(s[i + 1])
    ensures r.Some? ==> i < r.value <= |s|
  {
    var end := DigitsEnd(s, i + 2);
    if end < |s| && IdentStart(s[end]) then None
    else if !ParameterInRange(s[i + 1..end]) then None
    else Some(end)
  }

  /** The end of a dollar-quote tag: an identifier without '$', possibly empty. */
  function TagEnd(s: string, i: nat): (j: nat)
    requires i <= |s|
    ensures i <= j <= |s|
  {
    if i < |s| && IdentStart(s[i]) then TagRest(s, i + 1) else i
  }

  function TagRest(s: string, i: nat): (j: nat)
    requires i <= |s|
    ensures i <= j <= |s|
    ensures forall k :: i <= k < j ==> IdentContinue(s[k]) && s[k] != '$'
    ensures j < |s| ==> !(IdentContinue(s[j]) && s[j] != '$')
    decreases |s| - i
  {
    if i < |s| && IdentContinue(s[i]) && s[i] != '$' then TagRest(s, i + 1) else i
  }

  predicate Occurs(s: string, i: nat, t: string) {
    i + |t| <= |s| && s[i..i + |t|] == t
  }

  /** strings.Index: the first occurrence of `t` from `i` on. */
  function Index(s: string, i: nat, t: string): (r: Option<nat>)
    requires i <= |s|
    ensures r.Some? ==> i <= r.value && r.value + |t| <= |s|
    decreases |s| - i
  {
    if Occurs(s, i, t) then Some(i) else if i == |s| then None else Index(s, i + 1, t)
  }

  predicate DollarQuote(s: string, i: nat)
    requires i < |s|
  {
    s[i] == '$' && TagEnd(s, i + 1) < |s| && s[TagEnd(s, i + 1)] == '$'
  }

  /** Past the next occurrence of `delimiter` from `i` on. */
  function PastNext(s: string, i: nat, delimiter: string): (r: Option<nat>)
    requires i <= |s|
    ensures r.Some? ==> i <= r.value <= |s|
  {
    match Index(s, i, delimiter)
    case None => None
    case Some(k) => Some(k + |delimiter|)
  }

  function DollarEnd(s: string, i: nat): (r: Option<nat>)
    requires i < |s| && DollarQuote(s, i)
    ensures r.Some? ==> i < r.value <= |s|
  {
    var j := TagEnd(s, i + 1);
    PastNext(s, j + 1, s[i..j + 1])
  }

  // ---------------------------------------------------------------------------------------------
  // Operators

  /** The end of a run of operator bytes; a comment start ends it. */
  function RunEnd(s: string, i: nat): (j: nat)
    requires i <= |s|
    ensures i <= j <= |s|
    ensures forall k :: i <= k < j ==> Operator(s[k]) && !LineComment(s, k) && !BlockComment(s, k)
    ensures j < |s| ==> !Operator(s[j]) || LineComment(s, j) || BlockComment(s, j)
    decreases |s| - i
  {
    if i < |s| && Operator(s[i]) && !BlockComment(s, i) && !LineComment(s, i) then RunEnd(s, i + 1) else i
  }

  predicate HasNonSql(s: string, i: nat, end: nat)
    requires i <= end <= |s|
  {
    exists k :: i <= k < end && NonSql(s[k])
  }

  /** The end left after giving trailing signs back, keeping at least the byte at `i`. */
  function TrimSigns(s: string, i: nat, end: nat): (j: nat)
    requires i < end <= |s|
    ensures i < j <= end
    ensures forall k :: j <= k < end ==> Sign(s[k])
    ensures j == i + 1 || !Sign(s[j - 1])
  {
    if end > i + 1 && Sign(s[end - 1]) then TrimSigns(s, i, end - 1) else end
  }

  function OperatorEnd(s: string, i: nat): (j: nat)
    requires i < |s| && Operator(s[i])
    ensures i < j <= |s|
  {
    var run := RunEnd(s, i + 1);
    if HasNonSql(s, i, run) then run else TrimSigns(s, i, run)
  }

  // ---------------------------------------------------------------------------------------------
  // Identifiers and tokens

  function IdentEnd(s: string, i: nat): (j: nat)
    requires i <= |s|
    ensures i <= j <= |s|
    ensures forall k :: i <= k < j ==> IdentContinue(s[k])
    ensures j < |s| ==> !IdentContinue(s[j])
    decreases |s| - i
  {
    if i < |s| && IdentContinue(s[i]) then IdentEnd(s, i + 1) else i
  }

  function UpperAll(t: string): (r: string)
    ensures |r| == |t| && forall k :: 0 <= k < |t| ==> r[k] == Upper(t[k])
  {
    seq(|t|, k requires 0 <= k < |t| => Upper(t[k]))
  }

  predicate Ascii(t: string) {
    forall k :: 0 <= k < |t| ==> t[k] < '\U{80}'
  }

  /** `word` is the keyword spelling of an ASCII identifier, the byte itself for punctuation, and
      empty otherwise; `identifier` also covers quoted identifiers. */
  datatype Token = Token(start: nat, end: nat, word: string, identifier: bool)

  /** An identifier or keyword, or a single byte. */
  function WordToken(s: string, i: nat): (t: Token)
    requires i < |s|
    ensures t.start == i < t.end <= |s|
  {
    if IdentStart(s[i]) then
      var end := IdentEnd(s, i + 1);
      Token(i, end, if Ascii(s[i..end]) then UpperAll(s[i..end]) else "", true)
    else Token(i, i + 1, s[i..i + 1], false)
  }

  /** A token that is no quoted text, number or parameter. */
  function PlainToken(s: string, i: nat): (r: Option<Token>)
    requires i < |s|
    ensures r.Some? ==> r.value.start == i < r.value.end <= |s|
  {
    if DollarQuote(s, i) then
      match DollarEnd(s, i)
      case None => None
      case Some(end) => Some(Token(i, end, "", false))
    else if Operator(s[i]) then
      if OperatorEnd(s, i) - i >= 64 then None else Some(Token(i, OperatorEnd(s, i), "", false))
    else Some(WordToken(s, i))
  }

  /** The token that starts at `i`, without any memory of earlier tokens. */
  function Fresh(s: string, i: nat): (r: Option<Token>)
    requires i < |s|
    ensures r.Some? ==> r.value.start == i < r.value.end <= |s|
  {
    match Opening(s, i)
    case Some((at, q)) =>
      (match Quoted(s, at + 1, at + 1, q, "")
       case None => None
       case Some((end, _)) => Some(Token(i, end, "", q.quote == '"')))
    case None =>
      if NumberStart(s, i) then
        match NumberEnd(s, i)
        case None => None
        case Some(end) => Some(Token(i, end, "", false))
      else if s[i] == '$' && i + 1 < |s| && Digit(s[i + 1]) then
        match ParameterEnd(s, i)
        case None => None
        case Some(end) => Some(Token(i, end, "", false))
      else PlainToken(s, i)
  }

  /** The next token from `i`, an empty token at the end of the text. */
  function Next(s: string, i: nat): (r: Option<Token>)
    requires i <= |s|
    ensures r.Some? ==> i <= r.value.start <= r.value.end <= |s|
    ensures r.Some? ==> (r.value.start == r.value.end <==> r.value.start == |s|)
  {
    match SkipTrivia(s, i)
    case None => None
    case Some(j) => if j == |s| then Some(Token(j, j, "", false)) else Fresh(s, j)
  }

  /** All tokens from `i`. */
  function Tokens(s: string, i: nat): (r: Option<seq<Token>>)
    requires i <= |s|
    decreases |s| - i
  {
    match Next(s, i)
    case None => None
    case Some(t) =>
      if t.end == t.start then Some([])
      else
        match Tokens(s, t.end)
        case None => None
        case Some(rest) => Some([t] + rest)
  }
}
