/** machineExecuteCommit (pkg/drivers/pg/machine_execute.go): does a statement's text start with COMMIT
    or END? It scans by hand what the lexer of pkg/query/cli_statements.go would lex. */
module ExecuteCommit {
  import opened AsciiBytes
  import opened Common
  import opened CliScanner
  import CliLexer

  function LettersEnd(s: string, i: nat): (j: nat)
    requires i <= |s|
    ensures i <= j <= |s|
    ensures forall k :: i <= k < j ==> Letter(s[k])
    ensures j < |s| ==> !Letter(s[j])
    decreases |s| - i
  {
    if i < |s| && Letter(s[i]) then LettersEnd(s, i + 1) else i
  }

  /** strings.EqualFold with an upper-case ASCII keyword, on ASCII letters. */
  predicate Ends(keyword: string) { UpperAll(keyword) == "COMMIT" || UpperAll(keyword) == "END" }

  /** The first word after white space and comments, as a run of letters, ends a transaction. */
  predicate FirstWordEnds(s: string, i: nat)
    requires i <= |s|
  {
    match SkipTrivia(s, i)
    case None => false
    case Some(j) => Ends(s[j..LettersEnd(s, j)])
  }

  method TrimSpace(s: string, i: nat) returns (j: nat)
    requires i <= |s|
    ensures i <= j <= |s| && SkipTrivia(s, j) == SkipTrivia(s, i)
    ensures j < |s| ==> !Space(s[j])
  {
    j := i;
    while j < |s| && Space(s[j])
      invariant i <= j <= |s| && SkipTrivia(s, j) == SkipTrivia(s, i)
    {
      j := j + 1;
    }
  }

  /** The loop stops one byte early: the last byte alone closes nothing. */
  method PastBlock(s: string, start: nat) returns (r: Option<nat>)
    requires start <= |s|
    ensures r == BlockEnd(s, start, 1)
  {
    var depth, i := 1, start;
    while i + 1 < |s| && depth > 0
      invariant start <= i <= |s| && depth >= 0 && BlockEnd(s, i, depth) == BlockEnd(s, start, 1)
    {
      if BlockComment(s, i) {
        depth, i := depth + 1, i + 2;
      } else if Pair(s, i, '*', '/') {
        depth, i := depth - 1, i + 2;
      } else {
        i := i + 1;
      }
    }
    return if depth != 0 then None else Some(i);
  }

  method PastLetters(s: string, i: nat) returns (j: nat)
    requires i <= |s|
    ensures j == LettersEnd(s, i)
  {
    j := i;
    while j < |s| && Letter(s[j])
      invariant i <= j <= |s| && LettersEnd(s, j) == LettersEnd(s, i)
    {
      j := j + 1;
    }
  }

  /** A line comment that ends in a newline is two rounds of trivia, one that does not is the last. */
  lemma LineIsTrivia(s: string, i: nat)
    requires LineComment(s, i)
    ensures var end := LineEnd(s, i + 2);
      SkipTrivia(s, i) == if end == |s| then Some(end) else SkipTrivia(s, end + 1)
  {
    var end := LineEnd(s, i + 2);
    assert TriviaAt(s, i) == Go(end);
    assert TriviaAt(s, end) == if end == |s| then Stop else Go(end + 1);
  }

  lemma BlockIsTrivia(s: string, i: nat)
    requires BlockComment(s, i)
    ensures SkipTrivia(s, i) ==
      match BlockEnd(s, i + 2, 1)
      case None => None
      case Some(end) => SkipTrivia(s, end)
  {
    assert !Space(s[i]) && !LineComment(s, i);
  }

  lemma NothingEnds()
    ensures !Ends("")
  {
    assert UpperAll("") == "";
  }

  method MachineExecuteCommit(s: string) returns (r: bool)
    ensures r == FirstWordEnds(s, 0)
  {
    var pos := 0;
    while true
      invariant pos <= |s| && SkipTrivia(s, pos) == SkipTrivia(s, 0)
      decreases |s| - pos
    {
      pos := TrimSpace(s, pos);
      if LineComment(s, pos) {
        LineIsTrivia(s, pos);
        var end := CliLexer.ScanLine(s, pos + 2);
        if end == |s| {
          NothingEnds();
          return false;
        }
        pos := end + 1;
      } else if BlockComment(s, pos) {
        BlockIsTrivia(s, pos);
        var end := PastBlock(s, pos + 2);
        if end.None? {
          return false;
        }
        pos := end.value;
      } else {
        var end := PastLetters(s, pos);
        assert TriviaAt(s, pos) == Stop;
        return Ends(s[pos..end]);
      }
    }
  }

  lemma {:induction false} LettersAre(s: string, i: nat, j: nat)
    requires i <= j <= |s| && (forall k :: i <= k < j ==> Letter(s[k])) && (j < |s| ==> !Letter(s[j]))
    ensures LettersEnd(s, i) == j
    decreases j - i
  {
    if i < j {
      LettersAre(s, i + 1, j);
    }
  }

  lemma UpperLetter(c: char)
    requires 'A' <= Upper(c) <= 'Z'
    ensures Letter(c)
  {
  }

  /** A token spelt COMMIT or END is a whole run of letters. */
  lemma {:induction false} EndingToken(s: string, j: nat)
    requires j < |s| && WordToken(s, j).word in {"COMMIT", "END"}
    ensures LettersEnd(s, j) == WordToken(s, j).end && Ends(s[j..LettersEnd(s, j)])
  {
    var t := WordToken(s, j);
    if IdentStart(s[j]) {
      forall k | j <= k < t.end ensures Letter(s[k]) {
        assert t.word[k - j] == Upper(s[j..t.end][k - j]);
        UpperLetter(s[k]);
      }
      LettersAre(s, j, t.end);
    } else {
      assert false;
    }
  }

  lemma WordComesFromWordToken(s: string, j: nat)
    requires j < |s| && Fresh(s, j).Some? && Fresh(s, j).value.word != ""
    ensures Fresh(s, j) == Some(WordToken(s, j))
  {
  }

  /** Whenever the lexer's first token is COMMIT or END, the scan says so. */
  lemma {:induction false} LexedCommitIsFound(s: string)
    requires Next(s, 0).Some? && Next(s, 0).value.word in {"COMMIT", "END"}
    ensures FirstWordEnds(s, 0)
  {
    var j := SkipTrivia(s, 0).value;
    WordComesFromWordToken(s, j);
    EndingToken(s, j);
  }

  /** The converse holds exactly when the letters are the whole token: when they end the text or are
      followed by a byte that cannot continue an identifier. */
  lemma {:induction false} FoundCommitIsLexed(s: string)
    requires FirstWordEnds(s, 0)
    ensures var j := SkipTrivia(s, 0).value;
      var end := LettersEnd(s, j);
      (Next(s, 0).Some? && Next(s, 0).value.word in {"COMMIT", "END"})
      <==> (end < |s| ==> !IdentContinue(s[end]))
  {
    var j := SkipTrivia(s, 0).value;
    var end := LettersEnd(s, j);
    LettersNonEmpty(s, j);
    KeywordIsPlain(s, j);
    IdentFromLetters(s, j);
    if Fresh(s, j).Some? && Fresh(s, j).value.word in {"COMMIT", "END"} {
      EndingToken(s, j);
    }
  }

  /** An underscore ends the letters but not the word. */
  lemma CommitNowIsFound(s: string)
    requires s == "commit_now"
    ensures FirstWordEnds(s, 0) && Next(s, 0).Some? && Next(s, 0).value.word == "COMMIT_NOW"
  {
    hide Fresh, LettersEnd, QuoteContinuation, LineEnd, BlockEnd;
    assert SkipTrivia(s, 0) == Some(0);
    LettersAre(s, 0, 6);
    assert UpperAll(s[0..6]) == "COMMIT";
    KeywordIsPlain(s, 0);
    IdentPassesLetters(s, 1, 6);
    IdentPassesLetters(s, 7, 10);
    assert IdentEnd(s, 6) == IdentEnd(s, 7) && IdentEnd(s, 10) == 10;
    assert s[0..10] == s && UpperAll(s) == "COMMIT_NOW";
  }

  lemma LettersNonEmpty(s: string, j: nat)
    requires j <= |s| && Ends(s[j..LettersEnd(s, j)])
    ensures j + 3 <= LettersEnd(s, j)
  {
    assert |UpperAll(s[j..LettersEnd(s, j)])| == LettersEnd(s, j) - j;
  }

  lemma KeywordIsPlain(s: string, j: nat)
    requires j <= |s| && j + 3 <= LettersEnd(s, j) && Ends(s[j..LettersEnd(s, j)])
    ensures Fresh(s, j) == Some(WordToken(s, j))
  {
    assert Letter(s[j]) && Letter(s[j + 1]);
    assert Opening(s, j).None?;
    assert !NumberStart(s, j) && s[j] != '$' && !Operator(s[j]);
  }

  lemma IdentFromLetters(s: string, j: nat)
    requires j <= |s| && j + 3 <= LettersEnd(s, j)
    ensures var end := LettersEnd(s, j);
      if end < |s| && IdentContinue(s[end]) then WordToken(s, j).end > end else WordToken(s, j).end == end
  {
    var end := LettersEnd(s, j);
    IdentPassesLetters(s, j + 1, end);
  }

  lemma {:induction false} IdentPassesLetters(s: string, i: nat, end: nat)
    requires i <= end <= |s| && forall k :: i <= k < end ==> Letter(s[k])
    ensures IdentEnd(s, i) == IdentEnd(s, end)
    decreases end - i
  {
    if i < end {
      IdentPassesLetters(s, i + 1, end);
    }
  }
}
