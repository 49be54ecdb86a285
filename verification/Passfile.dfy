/** The two readers of password files: the simple splitter of pkg/session/credentials.go and the streaming
    matcher of pkg/session/credentials_machine_temporary.go. */
module Passfile {
  import opened Common

  // ---------------------------------------------------------------------------------------------
  // One line

  /** Unescaped colons separate fields; a backslash takes the next byte literally. */
  function FieldsFrom(line: string, cur: string): (fields: seq<string>)
    ensures fields != []
    decreases |line|
  {
    if line == "" then [cur]
    else if line[0] == '\\' && |line| > 1 then FieldsFrom(line[2..], cur + [line[1]])
    else if line[0] == ':' then [cur] + FieldsFrom(line[1..], "")
    else FieldsFrom(line[1..], cur + [line[0]])
  }

  method SplitPgpassLine(line: string) returns (fields: seq<string>)
    ensures fields == FieldsFrom(line, "")
  {
    fields := [];
    var cur, i := "", 0;
    while i < |line|
      invariant 0 <= i <= |line| && fields + FieldsFrom(line[i..], cur) == FieldsFrom(line, "")
    {
      var c := line[i];
      ghost var rest := line[i..];
      assert rest[1..] == line[i + 1..];
      if c == '\\' && i + 1 < |line| {
        assert rest[2..] == line[i + 2..];
        cur, i := cur + [line[i + 1]], i + 2;
      } else if c == ':' {
        assert fields + ([cur] + FieldsFrom(rest[1..], "")) == fields + [cur] + FieldsFrom(rest[1..], "");
        fields, cur, i := fields + [cur], "", i + 1;
      } else {
        cur, i := cur + [c], i + 1;
      }
    }
    fields := fields + [cur];
  }

  /** The streaming parser: an array of five fields, left at the fifth colon. The index it ends with and
      the fields it has filled say what the splitter would have returned. */
  method ScanFields(line: string) returns (fields: array<string>, index: nat)
    ensures fresh(fields) && fields.Length == 5
    ensures index == 4 <==> |FieldsFrom(line, "")| == 5
    ensures index == 4 ==> fields[..] == FieldsFrom(line, "")
  {
    fields := new string[5](_ => "");
    index := 0;
    var field, i := "", 0;
    while i < |line|
      invariant 0 <= i <= |line| && index <= 4
      invariant fields[..index] + FieldsFrom(line[i..], field) == FieldsFrom(line, "")
    {
      ghost var rest := line[i..];
      assert rest[1..] == line[i + 1..];
      if line[i] == '\\' && i + 1 < |line| {
        assert rest[2..] == line[i + 2..];
        field, i := field + [line[i + 1]], i + 2;
      } else if line[i] == ':' {
        ghost var before := fields[..index];
        assert before + ([field] + FieldsFrom(rest[1..], "")) == before + [field] + FieldsFrom(rest[1..], "");
        if index == 4 {
          index := 5;
          return;
        }
        fields[index] := field;
        assert fields[..index + 1] == before + [field];
        field, index, i := "", index + 1, i + 1;
      } else {
        field, i := field + [line[i]], i + 1;
      }
    }
    if index == 4 {
      ghost var before := fields[..4];
      fields[4] := field;
      assert fields[..] == before + [field];
    }
  }

  // ---------------------------------------------------------------------------------------------
  // The whole file

  predicate FieldMatches(pattern: string, value: string) { pattern == "*" || pattern == value }

  datatype Target = Target(host: string, port: string, database: string, username: string)

  predicate Matches(fields: seq<string>, want: Target) {
    |fields| == 5 && FieldMatches(fields[0], want.host) && FieldMatches(fields[1], want.port)
    && FieldMatches(fields[2], want.database) && FieldMatches(fields[3], want.username)
  }

  function TrimReturn(line: string): string {
    if line != "" && line[|line| - 1] == '\r' then line[..|line| - 1] else line
  }

  predicate Skipped(line: string) { line == "" || line[0] == '#' }

  /** A line answers when it is no comment and splits into exactly five fields whose first four match. */
  predicate Answers(line: string, want: Target) {
    var t := TrimReturn(line);
    !Skipped(t) && Matches(FieldsFrom(t, ""), want)
  }

  function Lines(data: string): (lines: seq<string>)
    ensures lines != []
  {
    if data == "" then [""]
    else
      var rest := Lines(data[1..]);
      if data[0] == '\n' then [""] + rest else [[data[0]] + rest[0]] + rest[1..]
  }

  predicate Usable(password: string) { password != "" && '\0' !in password }

  /** The first answering line decides; what follows it is not looked at. */
  function Found(lines: seq<string>, want: Target): Option<string> {
    if lines == [] then None
    else if Answers(lines[0], want) then
      var password := FieldsFrom(TrimReturn(lines[0]), "")[4];
      if Usable(password) then Some(password) else None
    else Found(lines[1..], want)
  }

  /** matchTemporaryPassfile, on a target whose host has been chosen: the streaming form picks the line the
      simple splitter would. */
  method MatchTemporaryPassfile(want: Target, data: string) returns (r: Option<string>)
    ensures r == Found(Lines(data), want)
  {
    var lines := Lines(data);
    for n := 0 to |lines|
      invariant Found(lines[n..], want) == Found(lines, want)
    {
      assert lines[n..][1..] == lines[n + 1..];
      var line := TrimReturn(lines[n]);
      if Skipped(line) {
        continue;
      }
      var fields, index := ScanFields(line);
      if index != 4 {
        continue;
      }
      var matched := FieldMatches(fields[0], want.host) && FieldMatches(fields[1], want.port)
        && FieldMatches(fields[2], want.database) && FieldMatches(fields[3], want.username);
      assert matched == Matches(fields[..], want);
      if matched {
        return if Usable(fields[4]) then Some(fields[4]) else None;
      }
    }
    r := None;
  }

  /** The outcome, read without recursion. */
  lemma {:induction false} FirstAnswerDecides(lines: seq<string>, want: Target)
    ensures Found(lines, want).Some? <==>
      exists n :: 0 <= n < |lines| && Answers(lines[n], want)
        && (forall m :: 0 <= m < n ==> !Answers(lines[m], want))
        && Usable(FieldsFrom(TrimReturn(lines[n]), "")[4])
        && Found(lines, want) == Some(FieldsFrom(TrimReturn(lines[n]), "")[4])
  {
    if lines != [] && !Answers(lines[0], want) {
      FirstAnswerDecides(lines[1..], want);
      if Found(lines, want).Some? {
        var n :| 0 <= n < |lines[1..]| && Answers(lines[1..][n], want)
          && (forall m :: 0 <= m < n ==> !Answers(lines[1..][m], want))
          && Usable(FieldsFrom(TrimReturn(lines[1..][n]), "")[4])
          && Found(lines, want) == Some(FieldsFrom(TrimReturn(lines[1..][n]), "")[4]);
        assert lines[1..][n] == lines[n + 1];
        forall m | 0 <= m < n + 1 ensures !Answers(lines[m], want) {
          if m > 0 {
            assert lines[m] == lines[1..][m - 1];
          }
        }
      }
    }
  }

  // ---------------------------------------------------------------------------------------------
  // The simple reader

  function TrimReturns(line: string): string
    decreases |line|
  {
    if line != "" && line[|line| - 1] == '\r' then TrimReturns(line[..|line| - 1]) else line
  }

  /** resolveExplicitPgpass: all carriage returns are trimmed, and five fields or more will do. */
  predicate AnswersSimply(line: string, want: Target) {
    var t := TrimReturns(line);
    !Skipped(t) && |FieldsFrom(t, "")| >= 5 && Matches(FieldsFrom(t, "")[..5], want)
  }

  function FoundSimply(lines: seq<string>, want: Target): Option<string> {
    if lines == [] then None
    else if AnswersSimply(lines[0], want) then Some(FieldsFrom(TrimReturns(lines[0]), "")[4])
    else FoundSimply(lines[1..], want)
  }

  function Fifth(t: string): string
    requires |FieldsFrom(t, "")| >= 5
  {
    FieldsFrom(t, "")[4]
  }

  predicate TwoReturns(line: string) {
    |line| >= 2 && line[|line| - 1] == '\r' && line[|line| - 2] == '\r'
  }

  predicate EndsInReturn(s: string) { s != "" && s[|s| - 1] == '\r' }

  /** Only the last field sees how a line ends. */
  lemma {:induction false} EndIsLastField(t: string, cur: string)
    ensures var fields := FieldsFrom(t, cur);
      EndsInReturn(fields[|fields| - 1]) <==> EndsInReturn(if t == "" then cur else t)
    decreases |t|
  {
    if t != "" {
      if t[0] == '\\' && |t| > 1 {
        EndIsLastField(t[2..], cur + [t[1]]);
      } else if t[0] == ':' {
        EndIsLastField(t[1..], "");
      } else {
        EndIsLastField(t[1..], cur + [t[0]]);
      }
    }
  }

  /** Two texts with the same fields but for the last, and a NUL in both last fields or in neither. */
  predicate SameButLast(a: seq<string>, b: seq<string>) {
    && |a| == |b| > 0
    && a[..|a| - 1] == b[..|b| - 1]
    && ('\0' in a[|a| - 1] <==> '\0' in b[|b| - 1])
  }

  /** A carriage return lengthens the last field, or takes the place of a lone backslash at its end. */
  lemma {:induction false} ReturnOnlyInLastField(t: string, cur: string)
    ensures SameButLast(FieldsFrom(t + "\r", cur), FieldsFrom(t, cur))
    decreases |t|
  {
    var r := t + "\r";
    if t == "" {
      assert r[1..] == "" && FieldsFrom(r, cur) == [cur + ['\r']];
    } else if t == "\\" {
      assert r[2..] == "" && FieldsFrom(r, cur) == [cur + ['\r']];
      assert t[1..] == "" && FieldsFrom(t, cur) == [cur + ['\\']];
    } else if t[0] == '\\' {
      assert r[2..] == t[2..] + "\r";
      ReturnOnlyInLastField(t[2..], cur + [t[1]]);
    } else if t[0] == ':' {
      assert r[1..] == t[1..] + "\r";
      ReturnOnlyInLastField(t[1..], "");
    } else {
      assert r[1..] == t[1..] + "\r";
      ReturnOnlyInLastField(t[1..], cur + [t[0]]);
    }
  }

  lemma {:induction false} ReturnsOnlyInLastField(t: string)
    ensures SameButLast(FieldsFrom(t, ""), FieldsFrom(TrimReturns(t), ""))
    ensures TrimReturns(t) <= t && !EndsInReturn(TrimReturns(t))
    decreases |t|
  {
    if EndsInReturn(t) {
      var shorter := t[..|t| - 1];
      assert t == shorter + "\r";
      ReturnOnlyInLastField(shorter, "");
      ReturnsOnlyInLastField(shorter);
    }
  }

  lemma TrimmedAlike(line: string)
    ensures TrimReturns(TrimReturn(line)) == TrimReturns(line)
    ensures TrimReturn(line) == TrimReturns(line) <==> !TwoReturns(line)
    ensures EndsInReturn(TrimReturn(line)) <==> TwoReturns(line)
  {
    ReturnsOnlyInLastField(line);
  }

  /** No line is answered by the streaming reader alone. A line the simple reader answers is answered by
      the streaming one exactly when it has five fields and no more, and with the same fifth field exactly
      when it ends in at most one carriage return besides: the simple reader trims all of them, the
      streaming one trims one and leaves the rest in the password. */
  lemma ReadersDiffer(line: string, want: Target)
    ensures Answers(line, want) ==> AnswersSimply(line, want)
    ensures AnswersSimply(line, want) ==> (Answers(line, want) <==> |FieldsFrom(TrimReturns(line), "")| == 5)
    ensures AnswersSimply(line, want) ==>
      (Answers(line, want) && Fifth(TrimReturn(line)) == Fifth(TrimReturns(line))
      <==> |FieldsFrom(TrimReturns(line), "")| == 5 && !TwoReturns(line))
  {
    var t, u := TrimReturn(line), TrimReturns(line);
    var fields, simple := FieldsFrom(t, ""), FieldsFrom(u, "");
    TrimmedAlike(line);
    ReturnsOnlyInLastField(t);
    EndIsLastField(t, "");
    EndIsLastField(u, "");
    if |simple| >= 5 {
      assert simple[..5][..4] == simple[..4];
      assert forall k :: 0 <= k < 4 ==> fields[k] == fields[..|fields| - 1][k] == simple[k];
      assert simple[..5][0] == fields[0] && simple[..5][1] == fields[1]
        && simple[..5][2] == fields[2] && simple[..5][3] == fields[3];
      assert Skipped(t) <==> Skipped(u);
    }
  }

  function Accepted(r: Option<string>): Option<string> {
    if r.Some? && Usable(r.value) then r else None
  }

  /** Line n is the first the simple reader answers. */
  ghost predicate AnswersFirst(lines: seq<string>, n: nat, want: Target) {
    n < |lines| && AnswersSimply(lines[n], want) && forall m :: 0 <= m < n ==> !AnswersSimply(lines[m], want)
  }

  /** On whole files: the line that decides for the simple reader decides for the streaming one too if it has
      five fields, and then, passwords the streaming one refuses aside, the two find the same exactly when the
      line ends in at most one carriage return or has a NUL in its password. A deciding line with more fields
      is skipped by the streaming reader, which goes on behind it. */
  lemma {:induction false} FilesDiffer(lines: seq<string>, n: nat, want: Target)
    requires AnswersFirst(lines, n, want)
    ensures var t := TrimReturns(lines[n]);
      && FoundSimply(lines, want) == Some(Fifth(t))
      && (|FieldsFrom(t, "")| > 5 ==> Found(lines, want) == Found(lines[n + 1..], want))
      && (|FieldsFrom(t, "")| == 5 ==>
          (Found(lines, want) == Accepted(FoundSimply(lines, want)) <==> !TwoReturns(lines[n]) || '\0' in Fifth(t)))
    decreases n
  {
    ReadersDiffer(lines[0], want);
    if n > 0 {
      var rest := lines[1..];
      assert rest[n - 1] == lines[n] && rest[n..] == lines[n + 1..];
      assert forall m :: 0 <= m < n - 1 ==> rest[m] == lines[m + 1];
      FilesDiffer(rest, n - 1, want);
    } else {
      var line := lines[0];
      TrimmedAlike(line);
      ReturnsOnlyInLastField(TrimReturn(line));
      EndIsLastField(TrimReturn(line), "");
    }
  }

  /** They find the same password, but for those the streaming reader refuses, on every file where each line
      the simple reader answers has five fields and at most one carriage return at its end. */
  lemma {:induction false} ReadersAgree(lines: seq<string>, want: Target)
    requires forall n :: 0 <= n < |lines| && AnswersSimply(lines[n], want) ==>
      |FieldsFrom(TrimReturns(lines[n]), "")| == 5 && !TwoReturns(lines[n])
    ensures Found(lines, want) == Accepted(FoundSimply(lines, want))
  {
    if lines != [] {
      ReadersDiffer(lines[0], want);
      ReadersAgree(lines[1..], want);
    }
  }

  lemma FieldEnds(field: string, rest: string, cur: string)
    requires ':' !in field && '\\' !in field
    ensures FieldsFrom(field + ":" + rest, cur) == [cur + field] + FieldsFrom(rest, "")
    ensures FieldsFrom(field, cur) == [cur + field]
    decreases |field|
  {
    var line := field + ":" + rest;
    if field == "" {
      assert line[1..] == rest && cur + field == cur;
    } else {
      assert line[1..] == field[1..] + ":" + rest;
      assert cur + [field[0]] + field[1..] == cur + field;
      FieldEnds(field[1..], rest, cur + [field[0]]);
    }
  }

  lemma FirstField(field: string, rest: string)
    requires ':' !in field && '\\' !in field
    ensures FieldsFrom(field + ":" + rest, "") == [field] + FieldsFrom(rest, "")
    ensures FieldsFrom(field, "") == [field]
  {
    FieldEnds(field, rest, "");
    assert "" + field == field;
  }

  lemma EntryFields(tail: string)
    ensures FieldsFrom("h:p:d:u:" + tail, "") == ["h", "p", "d", "u"] + FieldsFrom(tail, "")
  {
    hide FieldsFrom;
    var u := "u" + ":" + tail;
    var d := "d" + ":" + u;
    var p := "p" + ":" + d;
    FirstField("u", tail);
    FirstField("d", u);
    FirstField("p", d);
    FirstField("h", p);
    assert "h:p:d:u:" + tail == "h" + ":" + p;
    assert ["h"] + (["p"] + (["d"] + (["u"] + FieldsFrom(tail, "")))) == ["h", "p", "d", "u"] + FieldsFrom(tail, "");
  }

  /** Two carriage returns: the streaming reader leaves one in the password. */
  lemma ReturnStaysInPassword(line: string, want: Target)
    requires line == "h:p:d:u:w\r\r" && want == Target("h", "p", "d", "u")
    ensures Found([line], want) == Some("w\r") && FoundSimply([line], want) == Some("w")
  {
    hide FieldsFrom;
    var w, wr := "h:p:d:u:" + "w", "h:p:d:u:" + "w\r";
    assert wr[..|wr| - 1] == w && line[..|line| - 1] == wr;
    assert TrimReturn(line) == wr && TrimReturns(w) == w && TrimReturns(wr) == w && TrimReturns(line) == w;
    EntryFields("w");
    EntryFields("w\r");
    FirstField("w", "");
    FirstField("w\r", "");
    assert FieldsFrom(w, "") == ["h", "p", "d", "u", "w"] && FieldsFrom(wr, "") == ["h", "p", "d", "u", "w\r"];
    assert FieldsFrom(w, "")[..5] == FieldsFrom(w, "");
  }

  /** A sixth field: the streaming reader skips the line. */
  lemma SixFieldsAreSkipped(line: string, want: Target)
    requires line == "h:p:d:u:w:x" && want == Target("h", "p", "d", "u")
    ensures Found([line], want) == None && FoundSimply([line], want) == Some("w")
  {
    hide FieldsFrom;
    assert line == "h:p:d:u:" + "w:x" && "w" + ":" + "x" == "w:x";
    assert TrimReturn(line) == line && TrimReturns(line) == line;
    EntryFields("w:x");
    FirstField("w", "x");
    FirstField("x", "");
    assert FieldsFrom(line, "") == ["h", "p", "d", "u", "w", "x"];
    assert FieldsFrom(line, "")[..5] == ["h", "p", "d", "u", "w"];
    assert Found([line][1..], want) == None;
  }

  // ---------------------------------------------------------------------------------------------
  // Reading what was written

  /** A field as an entry writes it: a backslash in front of each colon and each backslash. */
  function Written(field: string): string {
    if field == "" then ""
    else WrittenByte(field[0]) + Written(field[1..])
  }

  function WrittenByte(c: char): string { if c == ':' || c == '\\' then ['\\', c] else [c] }

  function Entry(fields: seq<string>): string
    requires fields != []
  {
    if |fields| == 1 then Written(fields[0]) else Written(fields[0]) + ":" + Entry(fields[1..])
  }

  lemma {:induction false} WrittenIsTaken(field: string, rest: string, cur: string)
    ensures FieldsFrom(Written(field) + rest, cur) == FieldsFrom(rest, cur + field)
    decreases |field|
  {
    hide FieldsFrom;
    if field == "" {
      assert Written(field) + rest == rest && cur + field == cur;
    } else {
      var tail := Written(field[1..]) + rest;
      ByteIsTaken(field[0], tail, cur);
      WrittenIsTaken(field[1..], rest, cur + [field[0]]);
      assert cur + [field[0]] + field[1..] == cur + field;
      assert Written(field) + rest == WrittenByte(field[0]) + tail;
    }
  }

  lemma ByteIsTaken(c: char, tail: string, cur: string)
    ensures FieldsFrom(WrittenByte(c) + tail, cur) == FieldsFrom(tail, cur + [c])
  {
    var line := WrittenByte(c) + tail;
    assert line[|WrittenByte(c)|..] == tail && line[0] == WrittenByte(c)[0];
  }

  lemma FieldCloses(field: string, rest: string)
    ensures FieldsFrom(":" + rest, field) == [field] + FieldsFrom(rest, "") && FieldsFrom("", field) == [field]
  {
    assert (":" + rest)[1..] == rest;
  }

  /** An entry is read field by field as it was written, whatever colons and backslashes are in the fields. */
  lemma {:induction false} EntryIsFields(fields: seq<string>)
    requires fields != []
    ensures FieldsFrom(Entry(fields), "") == fields
    decreases |fields|
  {
    hide FieldsFrom, Written;
    var first := fields[0];
    assert "" + first == first;
    if |fields| == 1 {
      WrittenIsTaken(first, "", "");
      assert Written(first) + "" == Written(first);
      FieldCloses(first, "");
    } else {
      var rest := Entry(fields[1..]);
      WrittenIsTaken(first, ":" + rest, "");
      assert Written(first) + (":" + rest) == Entry(fields);
      FieldCloses(first, rest);
      EntryIsFields(fields[1..]);
    }
  }

  /** Lines are what the newlines separate. */
  lemma {:induction false} LinesAreSeparated(line: string, rest: string)
    requires '\n' !in line
    ensures Lines(line + "\n" + rest) == [line] + Lines(rest) && Lines(line) == [line]
    decreases |line|
  {
    var data := line + "\n" + rest;
    if line == "" {
      assert data[1..] == rest;
    } else {
      assert data[1..] == line[1..] + "\n" + rest && line[0] in line;
      LinesAreSeparated(line[1..], rest);
      assert [line[0]] + line[1..] == line;
    }
  }

  /** The entry names the target: in each field the target's own text, or an asterisk. */
  predicate Names(fields: seq<string>, want: Target)
    requires |fields| == 5
  {
    && fields[0] in {"*", want.host} && fields[1] in {"*", want.port}
    && fields[2] in {"*", want.database} && fields[3] in {"*", want.username}
  }

  /** An entry that is no comment, with a password without a trailing carriage return. */
  predicate Writable(fields: seq<string>) {
    |fields| == 5 && (fields[0] != "" ==> fields[0][0] != '#') && !EndsInReturn(fields[4])
  }

  lemma {:induction false} EntryEnds(fields: seq<string>)
    requires fields != [] && !EndsInReturn(fields[|fields| - 1])
    ensures !EndsInReturn(Entry(fields)) && (|fields| > 1 ==> Entry(fields) != "")
  {
    EntryIsFields(fields);
    EndIsLastField(Entry(fields), "");
  }

  /** Both readers answer with a written entry exactly when it names the target, with or without a carriage return
      at the end of its line. */
  lemma EntryAnswers(fields: seq<string>, want: Target, end: string)
    requires Writable(fields) && (end == "" || end == "\r")
    ensures Answers(Entry(fields) + end, want) <==> Names(fields, want)
    ensures AnswersSimply(Entry(fields) + end, want) <==> Names(fields, want)
    ensures FieldsFrom(TrimReturn(Entry(fields) + end), "") == fields == FieldsFrom(TrimReturns(Entry(fields) + end), "")
  {
    hide FieldsFrom;
    var e := Entry(fields);
    EntryEnds(fields);
    EntryIsFields(fields);
    assert (e + end)[..|e|] == e && e + "" == e;
    assert TrimReturns(e) == e && TrimReturn(e + end) == e && TrimReturns(e + end) == e;
    assert e[0] == if fields[0] == "" then ':' else Written(fields[0])[0];
    assert fields[..5] == fields;
  }

  /** In a file whose first line is the entry, a named target gets its password, and another one what the rest of
      the file has for it. */
  lemma EntryIsFound(fields: seq<string>, want: Target, end: string, rest: string)
    requires Writable(fields) && (end == "" || end == "\r") && forall k :: 0 <= k < 5 ==> '\n' !in fields[k]
    ensures Found(Lines(Entry(fields) + end + "\n" + rest), want)
      == if !Names(fields, want) then Found(Lines(rest), want)
         else if Usable(fields[4]) then Some(fields[4]) else None
    ensures FoundSimply(Lines(Entry(fields) + end + "\n" + rest), want)
      == if !Names(fields, want) then FoundSimply(Lines(rest), want) else Some(fields[4])
  {
    hide FieldsFrom, Entry, Lines, Usable, Answers, AnswersSimply, Names;
    var line := Entry(fields) + end;
    EntryHasNoNewline(fields);
    assert forall c :: c in line ==> c in Entry(fields) || c in end;
    LinesAreSeparated(line, rest);
    EntryAnswers(fields, want, end);
    assert ([line] + Lines(rest))[1..] == Lines(rest);
  }

  /** Four asterisks: the entry's password is for every target. */
  lemma AsterisksAnswerAll(password: string, want: Target, rest: string)
    requires Usable(password) && !EndsInReturn(password) && '\n' !in password
    ensures var entry := Entry(["*", "*", "*", "*", password]);
      && Found(Lines(entry + "\n" + rest), want) == Some(password)
      && FoundSimply(Lines(entry + "\n" + rest), want) == Some(password)
  {
    hide FieldsFrom, Entry, Lines, Usable, Found, FoundSimply;
    var fields := ["*", "*", "*", "*", password];
    EntryHasNoNewline(fields);
    EntryIsFound(fields, want, "", rest);
    assert Entry(fields) + "" == Entry(fields);
  }

  lemma {:induction false} EntryHasNoNewline(fields: seq<string>)
    requires fields != [] && forall k :: 0 <= k < |fields| ==> '\n' !in fields[k]
    ensures '\n' !in Entry(fields)
    decreases |fields|
  {
    WrittenHasNoNewline(fields[0]);
    if |fields| > 1 {
      EntryHasNoNewline(fields[1..]);
    }
  }

  lemma {:induction false} WrittenHasNoNewline(field: string)
    requires '\n' !in field
    ensures '\n' !in Written(field)
    decreases |field|
  {
    if field != "" {
      assert field[0] in field;
      WrittenHasNoNewline(field[1..]);
    }
  }
}
