/** Lexing is local: what is read inside a window of the text that ends at a ';' or at the end of the
    text does not depend on the bytes outside it. Every lemma compares a scan of `s` at `i` with the
    scan of the window `u` at `i - a`. */
module CliWindows {
  import opened AsciiBytes
  import opened Common
  import opened CliScanner

  /** `u` is `s[a..b]`. */
  predicate Slice(s: string, u: string, a: nat, b: nat) {
    a <= b <= |s| && |u| == b - a && forall k :: 0 <= k < |u| ==> u[k] == s[a + k]
  }

  predicate Window(s: string, u: string, a: nat, b: nat) {
    Slice(s, u, a, b) && (b == |s| || s[b] == ';')
  }

  lemma SubSlice(s: string, u: string, a: nat, b: nat, i: nat, j: nat)
    requires Slice(s, u, a, b) && a <= i <= j <= b
    ensures u[i - a..j - a] == s[i..j]
  {
    assert forall k :: 0 <= k < j - i ==> u[i - a..j - a][k] == s[i..j][k];
  }

  lemma PairWindow(s: string, u: string, a: nat, b: nat, i: nat, first: char, second: char)
    requires Window(s, u, a, b) && a <= i < b && second != ';'
    ensures u[i - a] == s[i] && (Pair(u, i - a, first, second) <==> Pair(s, i, first, second))
  {
  }

  lemma {:induction false} LineEndWindow(s: string, u: string, a: nat, b: nat, i: nat)
    requires Slice(s, u, a, b) && a <= i <= b
    ensures LineEnd(u, i - a) == if LineEnd(s, i) <= b then LineEnd(s, i) - a else b - a
    decreases b - i
  {
    if i < b && !Newline(s[i]) {
      LineEndWindow(s, u, a, b, i + 1);
    }
  }

  lemma {:induction false} BlockEndWindow(s: string, u: string, a: nat, b: nat, i: nat, depth: nat)
    requires Slice(s, u, a, b) && a <= i <= b
    requires BlockEnd(s, i, depth).Some? && BlockEnd(s, i, depth).value <= b
    ensures BlockEnd(u, i - a, depth) == Some(BlockEnd(s, i, depth).value - a)
    decreases b - i
  {
    if depth > 0 {
      if BlockComment(s, i) {
        BlockEndWindow(s, u, a, b, i + 2, depth + 1);
      } else if Pair(s, i, '*', '/') {
        BlockEndWindow(s, u, a, b, i + 2, depth - 1);
      } else {
        BlockEndWindow(s, u, a, b, i + 1, depth);
      }
    }
  }

  lemma {:induction false} TriviaAtWindow(s: string, u: string, a: nat, b: nat, i: nat)
    requires Window(s, u, a, b) && a <= i <= b
    requires TriviaAt(s, i).Go? ==> TriviaAt(s, i).to <= b
    ensures TriviaAt(s, i).Go? ==> TriviaAt(u, i - a) == Go(TriviaAt(s, i).to - a)
    ensures TriviaAt(s, i).Stop? ==> TriviaAt(u, i - a) == Stop
  {
    if i < b {
      PairWindow(s, u, a, b, i, '-', '-');
      PairWindow(s, u, a, b, i, '/', '*');
      if Space(s[i]) {
      } else if LineComment(s, i) {
        LineEndWindow(s, u, a, b, i + 2);
      } else if BlockComment(s, i) && TriviaAt(s, i).Go? {
        BlockEndWindow(s, u, a, b, i + 2, 1);
      }
    }
  }

  lemma {:induction false} TriviaWindow(s: string, u: string, a: nat, b: nat, i: nat)
    requires Window(s, u, a, b) && a <= i <= b
    requires SkipTrivia(s, i).Some? && SkipTrivia(s, i).value <= b
    ensures SkipTrivia(u, i - a) == Some(SkipTrivia(s, i).value - a)
    decreases b - i
  {
    TriviaAtWindow(s, u, a, b, i);
    if TriviaAt(s, i).Go? {
      TriviaWindow(s, u, a, b, TriviaAt(s, i).to);
    }
  }

  lemma {:induction false} ContinuationWindow(s: string, u: string, a: nat, b: nat, i: nat, newline: bool)
    requires Window(s, u, a, b) && a <= i <= b
    requires QuoteContinuation(s, i, newline).Some? ==> QuoteContinuation(s, i, newline).value < b
    ensures QuoteContinuation(s, i, newline).None? ==> QuoteContinuation(u, i - a, newline).None?
    ensures QuoteContinuation(s, i, newline).Some? ==>
      QuoteContinuation(u, i - a, newline) == Some(QuoteContinuation(s, i, newline).value - a)
    decreases b - i
  {
    hide LineEnd;
    if i < b {
      PairWindow(s, u, a, b, i, '-', '-');
      if Space(s[i]) {
        ContinuationWindow(s, u, a, b, i + 1, newline || Newline(s[i]));
      } else if LineComment(s, i) {
        LineEndWindow(s, u, a, b, i + 2);
        var j := LineEnd(s, i + 2);
        if j <= b {
          ContinuationWindow(s, u, a, b, j, newline);
        } else {
          assert QuoteContinuation(s, j, newline).None?;
          assert QuoteContinuation(u, b - a, newline).None?;
        }
      }
    } else {
      assert QuoteContinuation(u, i - a, newline).None?;
    }
  }

  lemma {:induction false} HexDigitsWindow(s: string, u: string, a: nat, b: nat, i: nat, digits: nat, value: nat)
    requires Slice(s, u, a, b) && a <= i && i + digits <= b
    ensures HexDigits(u, i - a, digits, value) == HexDigits(s, i, digits, value)
    decreases digits
  {
    if digits > 0 && Hex(s[i]) {
      HexDigitsWindow(s, u, a, b, i + 1, digits - 1, value * 16 + HexValue(s[i]));
    }
  }

  lemma {:induction false} UnicodeEscapeWindow(s: string, u: string, a: nat, b: nat, i: nat)
    requires Slice(s, u, a, b) && a <= i <= b
    requires UnicodeEscape(s, i).Some? && UnicodeEscape(s, i).value.0 <= b
    ensures UnicodeEscape(u, i - a) == Some((UnicodeEscape(s, i).value.0 - a, UnicodeEscape(s, i).value.1))
  {
    HexDigitsWindow(s, u, a, b, i + 2, if s[i + 1] == 'U' then 8 else 4, 0);
  }

  lemma {:induction false} UnicodeScalarWindow(s: string, u: string, a: nat, b: nat, i: nat)
    requires Slice(s, u, a, b) && a <= i <= b
    requires UnicodeScalar(s, i).Some? && UnicodeScalar(s, i).value.0 <= b
    ensures UnicodeScalar(u, i - a) == Some((UnicodeScalar(s, i).value.0 - a, UnicodeScalar(s, i).value.1))
  {
    UnicodeEscapeWindow(s, u, a, b, i);
    var (next, v) := UnicodeEscape(s, i).value;
    if HighSurrogate(v) {
      UnicodeEscapeWindow(s, u, a, b, next);
    }
  }

  lemma {:induction false} OctalByteWindow(s: string, u: string, a: nat, b: nat, i: nat, count: nat, value: nat)
    requires Window(s, u, a, b) && a <= i <= b && value < 256
    ensures OctalByte(s, i, count, value).0 <= b
    ensures OctalByte(u, i - a, count, value) == (OctalByte(s, i, count, value).0 - a, OctalByte(s, i, count, value).1)
    decreases count
  {
    if count > 0 && i < b && Octal(s[i]) {
      OctalByteWindow(s, u, a, b, i + 1, count - 1, (value * 8 + (s[i] as int - '0' as int)) % 256);
    }
  }

  lemma {:induction false} HexByteWindow(s: string, u: string, a: nat, b: nat, i: nat, count: nat, value: nat)
    requires Window(s, u, a, b) && a <= i <= b && value < 256
    ensures HexByte(s, i, count, value).0 <= b
    ensures HexByte(u, i - a, count, value) == (HexByte(s, i, count, value).0 - a, HexByte(s, i, count, value).1)
    decreases count
  {
    if count > 0 && i < b && Hex(s[i]) {
      HexByteWindow(s, u, a, b, i + 1, count - 1, (value * 16 + HexValue(s[i])) % 256);
    }
  }

  lemma {:induction false} EscapeWindow(s: string, u: string, a: nat, b: nat, i: nat)
    requires Window(s, u, a, b) && a <= i < b && s[i] == '\\'
    requires Escape(s, i).Some? && Escape(s, i).value.0 <= b
    ensures Escape(u, i - a) == Some((Escape(s, i).value.0 - a, Escape(s, i).value.1))
  {
    hide UnicodeScalar, OctalByte, HexByte;
    var c := s[i + 1];
    if c == 'u' || c == 'U' {
      UnicodeScalarWindow(s, u, a, b, i);
    } else if Octal(c) {
      OctalByteWindow(s, u, a, b, i + 1, 3, 0);
    } else if c == 'x' && i + 2 < |s| && Hex(s[i + 2]) {
      HexByteWindow(s, u, a, b, i + 2, 2, 0);
    }
  }

  lemma {:induction false} QuotedAtWindow(s: string, u: string, a: nat, b: nat, first: nat, i: nat, q: Quoting)
    requires Window(s, u, a, b) && a <= first && a <= i < b && (q.quote == '\'' || q.quote == '"')
    requires QuotedAt(s, first, i, q).More? ==> QuotedAt(s, first, i, q).to <= b
    ensures QuotedAt(s, first, i, q).More? ==>
      QuotedAt(u, first - a, i - a, q) == More(QuotedAt(s, first, i, q).to - a, QuotedAt(s, first, i, q).bytes)
    ensures QuotedAt(s, first, i, q).Closed? ==> QuotedAt(u, first - a, i - a, q) == Closed(i + 1 - a)
  {
    PairWindow(s, u, a, b, i, q.quote, q.quote);
    if s[i] == q.quote {
      if !(q.doubled && Pair(s, i, q.quote, q.quote)) && q.quote == '\'' {
        ContinuationWindow(s, u, a, b, i + 1, false);
      }
    } else if q.escapes && s[i] == '\\' && Escape(s, i).Some? {
      EscapeWindow(s, u, a, b, i);
    }
  }

  lemma {:induction false} QuotedWindow(s: string, u: string, a: nat, b: nat, first: nat, i: nat, q: Quoting,
                                        decoded: string)
    requires Window(s, u, a, b) && a <= first && a <= i <= b && (q.quote == '\'' || q.quote == '"')
    requires Quoted(s, first, i, q, decoded).Some? && Quoted(s, first, i, q, decoded).value.0 <= b
    ensures Quoted(u, first - a, i - a, q, decoded)
         == Some((Quoted(s, first, i, q, decoded).value.0 - a, Quoted(s, first, i, q, decoded).value.1))
    decreases b - i
  {
    var step := QuotedAt(s, first, i, q);
    QuotedAtWindow(s, u, a, b, first, i, q);
    var here := QuotedAt(u, first - a, i - a, q);
    if step.More? {
      var longer := decoded + step.bytes;
      assert Quoted(s, first, i, q, decoded) == Quoted(s, first, step.to, q, longer);
      assert Quoted(u, first - a, i - a, q, decoded) == Quoted(u, first - a, here.to, q, longer);
      QuotedWindow(s, u, a, b, first, step.to, q, longer);
    }
  }

  lemma {:induction false} OpeningWindow(s: string, u: string, a: nat, b: nat, i: nat)
    requires Window(s, u, a, b) && a <= i < b
    ensures match Opening(s, i)
      case None => Opening(u, i - a).None?
      case Some((at, q)) => at < b && Opening(u, i - a) == Some((at - a, q))
  {
  }

  lemma {:induction false} LongestMatchWindow(p: string -> bool, s: string, u: string, a: nat, b: nat, i: nat,
                                              limit: nat)
    requires Slice(s, u, a, b) && a <= i && i + limit <= b
    ensures LongestMatch(p, u, i - a, limit) == LongestMatch(p, s, i, limit)
    decreases limit
  {
    SubSlice(s, u, a, b, i, i + limit);
    if limit > 0 && !p(s[i..i + limit]) {
      LongestMatchWindow(p, s, u, a, b, i, limit - 1);
    }
  }

  lemma {:induction false} LongestMatchStable(p: string -> bool, s: string, i: nat, limit: nat, larger: nat)
    requires i + larger <= |s| && LongestMatch(p, s, i, larger) <= limit <= larger
    ensures LongestMatch(p, s, i, limit) == LongestMatch(p, s, i, larger)
    decreases larger
  {
    if limit < larger {
      LongestMatchStable(p, s, i, limit, larger - 1);
    }
  }

  lemma {:induction false} NumberStartWindow(s: string, u: string, a: nat, b: nat, i: nat)
    requires Window(s, u, a, b) && a <= i < b
    ensures NumberStart(u, i - a) <==> NumberStart(s, i)
  {
    assert u[i - a] == s[i];
  }

  lemma {:induction false} LongestNumberWindow(s: string, u: string, a: nat, b: nat, i: nat)
    requires Slice(s, u, a, b) && a <= i < b && i + LongestNumber(s, i) <= b
    ensures LongestNumber(u, i - a) == LongestNumber(s, i)
  {
    hide Number;
    LongestMatchStable(Number, s, i, b - i, |s| - i);
    LongestMatchWindow(Number, s, u, a, b, i, b - i);
  }

  lemma {:induction false} NumberTailWindow(s: string, u: string, a: nat, b: nat, i: nat, n: nat)
    requires Window(s, u, a, b) && a <= i && 0 < n && i + n <= |s| && (n == 1 ==> s[i] != '.')
    requires NumberTail(s, i, n).Some? && NumberTail(s, i, n).value <= b
    ensures i + n <= b && (n == 1 ==> u[i - a] != '.')
    ensures NumberTail(u, i - a, n) == Some(NumberTail(s, i, n).value - a)
  {
    assert u[i - a] == s[i];
    assert i + n <= b;
    assert u[i - a + n - 1] == s[i + n - 1];
  }

  lemma {:induction false} NumberEndWindow(s: string, u: string, a: nat, b: nat, i: nat)
    requires Window(s, u, a, b) && a <= i < b
    requires NumberStart(s, i) && NumberEnd(s, i).Some? && NumberEnd(s, i).value <= b
    ensures NumberStart(u, i - a) && NumberEnd(u, i - a) == Some(NumberEnd(s, i).value - a)
  {
    hide NumberStart, NumberTail, LongestNumber;
    NumberStartWindow(s, u, a, b, i);
    NumberStartMatches(s, i);
    var n := LongestNumber(s, i);
    NumberTailWindow(s, u, a, b, i, n);
    LongestNumberWindow(s, u, a, b, i);
  }

  lemma {:induction false} DigitsEndWindow(s: string, u: string, a: nat, b: nat, i: nat)
    requires Window(s, u, a, b) && a <= i <= b
    ensures DigitsEnd(s, i) <= b && DigitsEnd(u, i - a) == DigitsEnd(s, i) - a
    decreases b - i
  {
    if i < b && Digit(s[i]) {
      DigitsEndWindow(s, u, a, b, i + 1);
    }
  }

  lemma {:induction false} ParameterWindow(s: string, u: string, a: nat, b: nat, i: nat)
    requires Window(s, u, a, b) && a <= i && i + 1 < b && s[i] == '$' && Digit(s[i + 1])
    requires ParameterEnd(s, i).Some?
    ensures ParameterEnd(s, i).value <= b && ParameterEnd(u, i - a) == Some(ParameterEnd(s, i).value - a)
  {
    DigitsEndWindow(s, u, a, b, i + 2);
    var end := DigitsEnd(s, i + 2);
    SubSlice(s, u, a, b, i + 1, end);
  }

  lemma {:induction false} TagWindow(s: string, u: string, a: nat, b: nat, i: nat)
    requires Window(s, u, a, b) && a <= i <= b
    ensures TagEnd(s, i) <= b && TagEnd(u, i - a) == TagEnd(s, i) - a
  {
    if i < b && IdentStart(s[i]) {
      TagRestWindow(s, u, a, b, i + 1);
    }
  }

  lemma {:induction false} TagRestWindow(s: string, u: string, a: nat, b: nat, i: nat)
    requires Window(s, u, a, b) && a <= i <= b
    ensures TagRest(s, i) <= b && TagRest(u, i - a) == TagRest(s, i) - a
    decreases b - i
  {
    if i < b && IdentContinue(s[i]) && s[i] != '$' {
      TagRestWindow(s, u, a, b, i + 1);
    }
  }

  lemma {:induction false} IndexWindow(s: string, u: string, a: nat, b: nat, i: nat, t: string)
    requires Slice(s, u, a, b) && a <= i <= b && Index(s, i, t).Some? && Index(s, i, t).value + |t| <= b
    ensures Index(u, i - a, t) == Some(Index(s, i, t).value - a)
    decreases b - i
  {
    if i + |t| <= b {
      SubSlice(s, u, a, b, i, i + |t|);
    }
    assert Occurs(u, i - a, t) <==> Occurs(s, i, t);
    if !Occurs(s, i, t) {
      IndexWindow(s, u, a, b, i + 1, t);
    }
  }

  lemma {:induction false} DollarQuoteWindow(s: string, u: string, a: nat, b: nat, i: nat)
    requires Window(s, u, a, b) && a <= i < b
    ensures DollarQuote(u, i - a) <==> DollarQuote(s, i)
  {
    TagWindow(s, u, a, b, i + 1);
    assert u[i - a] == s[i];
  }

  lemma {:induction false} PastNextWindow(s: string, u: string, a: nat, b: nat, i: nat, delimiter: string)
    requires Slice(s, u, a, b) && a <= i <= b
    requires PastNext(s, i, delimiter).Some? && PastNext(s, i, delimiter).value <= b
    ensures PastNext(u, i - a, delimiter) == Some(PastNext(s, i, delimiter).value - a)
  {
    IndexWindow(s, u, a, b, i, delimiter);
  }

  lemma {:induction false} DollarEndWindow(s: string, u: string, a: nat, b: nat, i: nat)
    requires Window(s, u, a, b) && a <= i < b && DollarQuote(s, i)
    requires DollarEnd(s, i).Some? && DollarEnd(s, i).value <= b
    ensures DollarQuote(u, i - a) && DollarEnd(u, i - a) == Some(DollarEnd(s, i).value - a)
  {
    hide TagEnd, PastNext;
    DollarQuoteWindow(s, u, a, b, i);
    TagWindow(s, u, a, b, i + 1);
    var j := TagEnd(s, i + 1);
    SubSlice(s, u, a, b, i, j + 1);
    PastNextWindow(s, u, a, b, j + 1, s[i..j + 1]);
  }

  lemma {:induction false} RunEndWindow(s: string, u: string, a: nat, b: nat, i: nat)
    requires Window(s, u, a, b) && a <= i <= b
    ensures RunEnd(s, i) <= b && RunEnd(u, i - a) == RunEnd(s, i) - a
    decreases b - i
  {
    if i < b && Operator(s[i]) && !BlockComment(s, i) && !LineComment(s, i) {
      RunEndWindow(s, u, a, b, i + 1);
    }
  }

  lemma {:induction false} TrimSignsWindow(s: string, u: string, a: nat, b: nat, i: nat, end: nat)
    requires Slice(s, u, a, b) && a <= i < end <= b
    ensures TrimSigns(u, i - a, end - a) == TrimSigns(s, i, end) - a
    decreases end
  {
    if end > i + 1 && Sign(s[end - 1]) {
      TrimSignsWindow(s, u, a, b, i, end - 1);
    }
  }

  lemma {:induction false} OperatorWindow(s: string, u: string, a: nat, b: nat, i: nat)
    requires Window(s, u, a, b) && a <= i < b && Operator(s[i])
    ensures OperatorEnd(s, i) <= b && OperatorEnd(u, i - a) == OperatorEnd(s, i) - a
  {
    RunEndWindow(s, u, a, b, i + 1);
    var run := RunEnd(s, i + 1);
    if k :| i <= k < run && NonSql(s[k]) {
      assert NonSql(u[k - a]);
    }
    TrimSignsWindow(s, u, a, b, i, run);
  }

  lemma {:induction false} IdentWindow(s: string, u: string, a: nat, b: nat, i: nat)
    requires Window(s, u, a, b) && a <= i <= b
    ensures IdentEnd(s, i) <= b && IdentEnd(u, i - a) == IdentEnd(s, i) - a
    decreases b - i
  {
    if i < b && IdentContinue(s[i]) {
      IdentWindow(s, u, a, b, i + 1);
    }
  }

  function Shifted(t: Token, a: nat): Token
    requires a <= t.start <= t.end
  {
    t.(start := t.start - a, end := t.end - a)
  }

  lemma {:induction false} QuotedTokenWindow(s: string, u: string, a: nat, b: nat, i: nat)
    requires Window(s, u, a, b) && a <= i < b && Opening(s, i).Some?
    requires Fresh(s, i).Some? && Fresh(s, i).value.end <= b
    ensures Fresh(u, i - a) == Some(Shifted(Fresh(s, i).value, a))
  {
    hide Quoted, Opening;
    OpeningWindow(s, u, a, b, i);
    var (at, q) := Opening(s, i).value;
    QuotedWindow(s, u, a, b, at + 1, at + 1, q, "");
  }

  lemma {:induction false} WordWindow(s: string, u: string, a: nat, b: nat, i: nat)
    requires Window(s, u, a, b) && a <= i < b
    ensures WordToken(u, i - a) == Shifted(WordToken(s, i), a)
  {
    hide IdentEnd, UpperAll;
    assert u[i - a] == s[i];
    IdentWindow(s, u, a, b, i + 1);
    SubSlice(s, u, a, b, i, IdentEnd(s, i + 1));
    SubSlice(s, u, a, b, i, i + 1);
  }

  lemma {:induction false} PlainWindow(s: string, u: string, a: nat, b: nat, i: nat)
    requires Window(s, u, a, b) && a <= i < b
    requires PlainToken(s, i).Some? && PlainToken(s, i).value.end <= b
    ensures PlainToken(u, i - a) == Some(Shifted(PlainToken(s, i).value, a))
  {
    hide DollarQuote, DollarEnd, OperatorEnd, WordToken;
    assert u[i - a] == s[i];
    DollarQuoteWindow(s, u, a, b, i);
    if DollarQuote(s, i) {
      DollarEndWindow(s, u, a, b, i);
    } else if Operator(s[i]) {
      OperatorWindow(s, u, a, b, i);
    } else {
      WordWindow(s, u, a, b, i);
    }
  }

  /** A token that ends inside the window is read the same in the window alone. */
  lemma {:induction false} FreshWindow(s: string, u: string, a: nat, b: nat, i: nat)
    requires Window(s, u, a, b) && a <= i < b
    requires Fresh(s, i).Some? && Fresh(s, i).value.end <= b
    ensures Fresh(u, i - a) == Some(Shifted(Fresh(s, i).value, a))
  {
    hide Opening, NumberStart, NumberEnd, ParameterEnd, PlainToken, Quoted;
    assert u[i - a] == s[i];
    OpeningWindow(s, u, a, b, i);
    if Opening(s, i).Some? {
      QuotedTokenWindow(s, u, a, b, i);
    } else {
      NumberStartWindow(s, u, a, b, i);
      if NumberStart(s, i) {
        NumberEndWindow(s, u, a, b, i);
      } else if s[i] == '$' && i + 1 < |s| && Digit(s[i + 1]) {
        ParameterWindow(s, u, a, b, i);
      } else {
        PlainWindow(s, u, a, b, i);
      }
    }
  }

  function Moved(t: Token, a: nat): Token {
    t.(start := t.start + a, end := t.end + a)
  }

  /** Tokens come in order, from `i` on, each where the trivia after its predecessor ends. */
  lemma {:induction false} TokensOrdered(s: string, i: nat)
    requires i <= |s| && Tokens(s, i).Some?
    ensures var ts := Tokens(s, i).value;
      && (forall k :: 0 <= k < |ts| ==> i <= ts[k].start < ts[k].end <= |s| && Fresh(s, ts[k].start) == Some(ts[k]))
      && (forall j, k :: 0 <= j < k < |ts| ==> ts[j].end <= ts[k].start)
    decreases |s| - i
  {
    var t := Next(s, i).value;
    if t.end != t.start {
      TokensOrdered(s, t.end);
    }
  }

  lemma {:induction false} NextWindow(s: string, u: string, a: nat, b: nat, i: nat)
    requires Window(s, u, a, b) && a <= i <= b
    requires Next(s, i).Some?
    ensures Next(s, i).value.start == b ==> Next(u, i - a) == Some(Token(b - a, b - a, "", false))
    ensures Next(s, i).value.start < b && Next(s, i).value.end <= b ==> Next(u, i - a) == Some(Shifted(Next(s, i).value, a))
  {
    hide Fresh, TriviaAt;
    var t := Next(s, i).value;
    if t.start <= b {
      TriviaWindow(s, u, a, b, i);
      if t.start < b && t.end <= b {
        FreshWindow(s, u, a, b, t.start);
      }
    }
  }

  lemma {:induction false} FirstEndsBefore(s: string, i: nat, n: nat)
    requires i <= |s| && Tokens(s, i).Some? && 0 < n <= |Tokens(s, i).value|
    ensures var ts, t := Tokens(s, i).value, Next(s, i).value;
      t.start < t.end && Tokens(s, t.end).Some? && ts == [t] + Tokens(s, t.end).value
      && t.end <= if n < |ts| then ts[n].start else |s|
  {
    hide Fresh, SkipTrivia;
    TokensOrdered(s, i);
    assert Tokens(s, i).value[0] == Next(s, i).value;
  }

  lemma TokensCons(s: string, i: nat, t: Token)
    requires i <= |s| && Next(s, i) == Some(t) && t.start < t.end && Tokens(s, t.end).Some?
    ensures Tokens(s, i) == Some([t] + Tokens(s, t.end).value)
  {
  }

  predicate AllMoved(ts: seq<Token>, us: seq<Token>, n: nat, a: nat) {
    n <= |ts| && |us| == n && forall k :: 0 <= k < n ==> ts[k] == Moved(us[k], a)
  }

  lemma AllMovedCons(ts: seq<Token>, us: seq<Token>, n: nat, a: nat, t: Token, u: Token)
    requires AllMoved(ts, us, n, a) && t == Moved(u, a)
    ensures AllMoved([t] + ts, [u] + us, n + 1, a)
  {
  }

  lemma TokensNone(s: string, i: nat)
    requires i <= |s| && Next(s, i).Some? && Next(s, i).value.start == |s|
    ensures Tokens(s, i) == Some([])
  {
  }

  lemma {:induction false} FirstStart(s: string, i: nat)
    requires i <= |s| && Tokens(s, i).Some?
    ensures Next(s, i).Some?
    ensures Next(s, i).value.start == if Tokens(s, i).value == [] then |s| else Tokens(s, i).value[0].start
  {
  }

  lemma {:induction false} WindowStep(s: string, u: string, a: nat, b: nat, i: nat, n: nat) returns (t: Token, v: Token)
    requires Window(s, u, a, b) && a <= i <= b
    requires Tokens(s, i).Some? && 0 < n <= |Tokens(s, i).value|
    requires b == if n < |Tokens(s, i).value| then Tokens(s, i).value[n].start else |s|
    ensures i < t.end <= b && v.start < v.end && v.end == t.end - a && t == Moved(v, a)
    ensures Tokens(s, t.end).Some? && Tokens(s, i).value == [t] + Tokens(s, t.end).value
    ensures n - 1 <= |Tokens(s, t.end).value|
    ensures b == if n - 1 < |Tokens(s, t.end).value| then Tokens(s, t.end).value[n - 1].start else |s|
    ensures Next(u, i - a) == Some(v)
  {
    hide Fresh, SkipTrivia;
    t := Next(s, i).value;
    FirstEndsBefore(s, i, n);
    NextWindow(s, u, a, b, i);
    v := Shifted(t, a);
  }

  lemma {:induction false} WindowCons(s: string, u: string, a: nat, i: nat, n: nat, t: Token, v: Token)
    requires i <= |s| && a <= i && i - a <= |u| && 0 < n && t == Moved(v, a) && t.end <= |s| && v.end <= |u|
    requires Tokens(s, i).Some? && Tokens(s, t.end).Some? && Tokens(s, i).value == [t] + Tokens(s, t.end).value
    requires v.start < v.end && Next(u, i - a) == Some(v)
    requires Tokens(u, v.end).Some? && AllMoved(Tokens(s, t.end).value, Tokens(u, v.end).value, n - 1, a)
    ensures Tokens(u, i - a).Some? && AllMoved(Tokens(s, i).value, Tokens(u, i - a).value, n, a)
  {
    hide Next, Tokens, Fresh, SkipTrivia;
    TokensCons(u, i - a, v);
    AllMovedCons(Tokens(s, t.end).value, Tokens(u, v.end).value, n - 1, a, t, v);
  }

  /** The tokens of the window that ends where the next token of the text starts are the tokens of
      the text before it. */
  lemma {:induction false} TokensWindow(s: string, u: string, a: nat, b: nat, i: nat, n: nat)
    requires Window(s, u, a, b) && a <= i <= b
    requires Tokens(s, i).Some? && n <= |Tokens(s, i).value|
    requires b == if n < |Tokens(s, i).value| then Tokens(s, i).value[n].start else |s|
    ensures Tokens(u, i - a).Some? && AllMoved(Tokens(s, i).value, Tokens(u, i - a).value, n, a)
    decreases b - i
  {
    hide Next, Tokens, Fresh, SkipTrivia;
    if n == 0 {
      FirstStart(s, i);
      NextWindow(s, u, a, b, i);
      TokensNone(u, i - a);
    } else {
      var t, v := WindowStep(s, u, a, b, i, n);
      TokensWindow(s, u, a, b, t.end, n - 1);
      WindowCons(s, u, a, i, n, t, v);
    }
  }
}
