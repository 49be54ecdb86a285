/** Scrubbing passwords from connection strings and error text (pkg/utils/dsn_redact.go). */
module DsnRedact {
  import opened AsciiBytes
  import opened Common
  import DsnText

  predicate Word(c: char) { Letter(c) || Digit(c) || c == '_' }

  /** strings.EqualFold on ASCII, `b` in lower case. */
  predicate EqualFold(a: string, b: string) {
    if a == "" || b == "" then a == b
    else Lower(a[0]) == b[0] && EqualFold(a[1..], b[1..])
  }

  const PASSWORD := "password"
  const SSL_PASSWORD := "sslpassword"

  predicate Secret(key: string) { EqualFold(key, PASSWORD) || EqualFold(key, SSL_PASSWORD) }

  function WordEnd(s: string, i: nat): (j: nat)
    requires i <= |s|
    ensures i <= j <= |s|
    decreases |s| - i
  {
    if i < |s| && Word(s[i]) then WordEnd(s, i + 1) else i
  }

  function SpaceEnd(s: string, i: nat): (j: nat)
    requires i <= |s|
    ensures i <= j <= |s|
    decreases |s| - i
  {
    if i < |s| && Space(s[i]) then SpaceEnd(s, i + 1) else i
  }

  /** Past a value, `quote` being the quote it is inside of. A backslash takes the next byte with it, and
      an unterminated quote takes everything. */
  function ValueRest(s: string, i: nat, quote: Option<char>): (j: nat)
    requires i <= |s|
    ensures i <= j <= |s|
    decreases |s| - i
  {
    if i == |s| then i
    else if s[i] == '\\' then if i + 1 < |s| then ValueRest(s, i + 2, quote) else |s|
    else if quote == Some(s[i]) then if s[i] == '\'' then i + 1 else ValueRest(s, i + 1, None)
    else if quote.None? && Space(s[i]) then i
    else ValueRest(s, i + 1, quote)
  }

  function ValueEnd(s: string, start: nat): (j: nat)
    requires start <= |s|
    ensures start <= j <= |s|
  {
    if start < |s| && (s[start] == '\'' || s[start] == '"') then ValueRest(s, start + 1, Some(s[start]))
    else ValueRest(s, start, None)
  }

  /** Where the value of an assignment starts, when the word `i..j` is a secret key and `=` follows. */
  function Assigned(s: string, i: nat, j: nat): (r: Option<nat>)
    requires i <= j <= |s|
    ensures r.Some? ==> j < r.value <= |s|
  {
    var eq := SpaceEnd(s, j);
    if Secret(s[i..j]) && eq < |s| && s[eq] == '=' then Some(SpaceEnd(s, eq + 1)) else None
  }

  /** One round of the scan: bytes kept as they are, or an assignment whose value is scrubbed. */
  datatype Piece = Kept(to: nat) | Scrubbed(value: nat, to: nat)

  function PieceAt(s: string, i: nat): (p: Piece)
    requires i < |s|
    ensures i < p.to <= |s| && (p.Scrubbed? ==> i < p.value <= p.to)
  {
    if !Word(s[i]) then Kept(i + 1)
    else
      match Assigned(s, i, WordEnd(s, i))
      case None => Kept(WordEnd(s, i))
      case Some(value) => Scrubbed(value, ValueEnd(s, value))
  }

  /** The redaction of everything from `i`. */
  function Redacted(s: string, i: nat): string
    requires i <= |s|
    decreases |s| - i
  {
    if i == |s| then ""
    else
      match PieceAt(s, i)
      case Kept(to) => s[i..to] + Redacted(s, to)
      case Scrubbed(value, to) => s[i..value] + "***" + Redacted(s, to)
  }

  method ScanWord(s: string, i: nat) returns (j: nat)
    requires i <= |s|
    ensures j == WordEnd(s, i)
  {
    j := i;
    while j < |s| && Word(s[j])
      invariant i <= j <= |s| && WordEnd(s, j) == WordEnd(s, i)
    {
      j := j + 1;
    }
  }

  method ScanSpace(s: string, i: nat) returns (j: nat)
    requires i <= |s|
    ensures j == SpaceEnd(s, i)
  {
    j := i;
    while j < |s| && Space(s[j])
      invariant i <= j <= |s| && SpaceEnd(s, j) == SpaceEnd(s, i)
    {
      j := j + 1;
    }
  }

  method DsnValueEnd(s: string, start: nat) returns (end: nat)
    requires start <= |s|
    ensures end == ValueEnd(s, start)
  {
    var i := start;
    var quote: Option<char> := None;
    if i < |s| && (s[i] == '\'' || s[i] == '"') {
      quote, i := Some(s[i]), i + 1;
    }
    while i < |s|
      invariant start <= i <= |s| && ValueRest(s, i, quote) == ValueEnd(s, start)
    {
      if s[i] == '\\' {
        i := if i + 1 < |s| then i + 2 else i + 1;
        continue;
      }
      if quote == Some(s[i]) {
        if s[i] == '\'' {
          return i + 1;
        }
        quote, i := None, i + 1;
        continue;
      }
      if quote.None? && Space(s[i]) {
        return i;
      }
      i := i + 1;
    }
    end := |s|;
  }

  method ScanPiece(s: string, start: nat) returns (p: Piece)
    requires start < |s|
    ensures p == PieceAt(s, start)
  {
    if !Word(s[start]) {
      return Kept(start + 1);
    }
    var i := ScanWord(s, start);
    if !Secret(s[start..i]) {
      return Kept(i);
    }
    var eq := ScanSpace(s, i);
    if eq == |s| || s[eq] != '=' {
      return Kept(i);
    }
    var value := ScanSpace(s, eq + 1);
    var end := DsnValueEnd(s, value);
    p := Scrubbed(value, end);
  }

  lemma SliceJoins(s: string, a: nat, b: nat, c: nat)
    requires a <= b <= c <= |s|
    ensures s[a..b] + s[b..c] == s[a..c]
  {
  }

  lemma KeepJoins(out: string, s: string, last: nat, i: nat, to: nat, rest: string)
    requires last <= i <= to <= |s|
    ensures out + s[last..i] + (s[i..to] + rest) == out + s[last..to] + rest
  {
    SliceJoins(s, last, i, to);
    assert out + s[last..i] + (s[i..to] + rest) == out + (s[last..i] + s[i..to]) + rest;
  }

  lemma ScrubJoins(out: string, s: string, last: nat, i: nat, value: nat, to: nat, rest: string)
    requires last <= i <= value <= to <= |s|
    ensures out + s[last..i] + (s[i..value] + "***" + rest) == (out + s[last..value] + "***") + s[to..to] + rest
  {
    SliceJoins(s, last, i, value);
    assert out + s[last..i] + (s[i..value] + "***" + rest) == out + (s[last..i] + s[i..value]) + "***" + rest;
    assert (out + s[last..value] + "***") + s[to..to] == out + s[last..value] + "***";
  }

  /** RedactDSNKeyValues: `last` is how far the output reaches. */
  method RedactDSNKeyValues(s: string) returns (r: string)
    ensures r == Redacted(s, 0)
  {
    var out, last, i := "", 0, 0;
    while i < |s|
      invariant last <= i <= |s| && (last == 0 ==> out == "")
      invariant out + s[last..i] + Redacted(s, i) == Redacted(s, 0)
    {
      var piece := ScanPiece(s, i);
      match piece
      case Kept(to) =>
        KeepJoins(out, s, last, i, to, Redacted(s, to));
        i := to;
      case Scrubbed(value, to) =>
        ScrubJoins(out, s, last, i, value, to, Redacted(s, to));
        out := out + s[last..value] + "***";
        last, i := to, to;
    }
    if last == 0 {
      assert s[0..i] == s && "" + s == s;
      return s;
    }
    r := out + s[last..];
    assert s[last..i] == s[last..] && r + "" == r;
  }

  // ---------------------------------------------------------------------------------------------
  // Redaction looks only forward

  lemma {:induction false} WordEndShifts(u: string, s: string, i: nat)
    requires i <= |s|
    ensures WordEnd(u + s, |u| + i) == |u| + WordEnd(s, i)
    decreases |s| - i
  {
    if i < |s| && Word(s[i]) {
      WordEndShifts(u, s, i + 1);
    }
  }

  lemma {:induction false} SpaceEndShifts(u: string, s: string, i: nat)
    requires i <= |s|
    ensures SpaceEnd(u + s, |u| + i) == |u| + SpaceEnd(s, i)
    decreases |s| - i
  {
    if i < |s| && Space(s[i]) {
      SpaceEndShifts(u, s, i + 1);
    }
  }

  lemma {:induction false} ValueRestShifts(u: string, s: string, i: nat, quote: Option<char>)
    requires i <= |s|
    ensures ValueRest(u + s, |u| + i, quote) == |u| + ValueRest(s, i, quote)
    decreases |s| - i
  {
    if i < |s| {
      assert (u + s)[|u| + i] == s[i];
      if s[i] == '\\' {
        if i + 1 < |s| {
          ValueRestShifts(u, s, i + 2, quote);
        }
      } else {
        ValueRestShifts(u, s, i + 1, quote);
        ValueRestShifts(u, s, i + 1, None);
      }
    }
  }

  lemma SliceShifts(u: string, s: string, i: nat, j: nat)
    requires i <= j <= |s|
    ensures (u + s)[|u| + i..|u| + j] == s[i..j]
  {
  }

  lemma AssignedShifts(u: string, s: string, i: nat, j: nat)
    requires i <= j <= |s|
    ensures Assigned(u + s, |u| + i, |u| + j)
      == if Assigned(s, i, j).Some? then Some(|u| + Assigned(s, i, j).value) else None
  {
    SliceShifts(u, s, i, j);
    SpaceEndShifts(u, s, j);
    var eq := SpaceEnd(s, j);
    if eq < |s| {
      assert (u + s)[|u| + eq] == s[eq];
      SpaceEndShifts(u, s, eq + 1);
    }
  }

  lemma ValueEndShifts(u: string, s: string, start: nat)
    requires start <= |s|
    ensures ValueEnd(u + s, |u| + start) == |u| + ValueEnd(s, start)
  {
    ValueRestShifts(u, s, start, None);
    if start < |s| {
      ValueRestShifts(u, s, start + 1, Some(s[start]));
    }
  }

  lemma PieceShifts(u: string, s: string, i: nat)
    requires i < |s|
    ensures PieceAt(s, i).Kept? ==> PieceAt(u + s, |u| + i) == Kept(|u| + PieceAt(s, i).to)
    ensures PieceAt(s, i).Scrubbed? ==>
      PieceAt(u + s, |u| + i) == Scrubbed(|u| + PieceAt(s, i).value, |u| + PieceAt(s, i).to)
  {
    hide WordEnd, Assigned, ValueEnd;
    assert (u + s)[|u| + i] == s[i];
    if Word(s[i]) {
      WordEndShifts(u, s, i);
      var j := WordEnd(s, i);
      AssignedShifts(u, s, i, j);
      if Assigned(s, i, j).Some? {
        ValueEndShifts(u, s, Assigned(s, i, j).value);
      }
    }
  }

  /** What is redacted from a position on depends only on what follows it. */
  lemma {:induction false} RedactionShifts(u: string, s: string, i: nat)
    requires i <= |s|
    ensures Redacted(u + s, |u| + i) == Redacted(s, i)
    decreases |s| - i
  {
    hide PieceAt, Redacted;
    if i == |s| {
      NothingLeft(s);
      NothingLeft(u + s);
    } else {
      PieceShifts(u, s, i);
      var to := PieceAt(s, i).to;
      RedactionShifts(u, s, to);
      KeptAndThen(u + s, |u| + i);
      KeptAndThen(s, i);
      SliceShifts(u, s, i, if PieceAt(s, i).Kept? then to else PieceAt(s, i).value);
    }
  }

  lemma NothingLeft(s: string)
    ensures Redacted(s, |s|) == ""
  {
  }

  lemma KeptAndThen(s: string, i: nat)
    requires i < |s|
    ensures var p := PieceAt(s, i);
      Redacted(s, i) == (if p.Kept? then s[i..p.to] else s[i..p.value] + "***") + Redacted(s, p.to)
  {
    hide PieceAt;
  }

  // ---------------------------------------------------------------------------------------------
  // Redaction and the printer agree

  /** The redactor ends a printed value exactly where the printer did, whatever bytes it has. */
  lemma {:induction false} PrintedValueEnds(u: string, v: string, t: string)
    ensures ValueRest(u + (DsnText.Escape(v) + ("'" + t)), |u|, Some('\'')) == |u| + |DsnText.Escape(v)| + 1
    decreases |v|
  {
    var e := DsnText.Escape(v);
    var s := u + (e + ("'" + t));
    if v == "" {
      assert s[|u|] == '\'';
    } else {
      DsnText.EscapeCons(v);
      var b := DsnText.EscapeByte(v[0]);
      var rest := DsnText.Escape(v[1..]) + ("'" + t);
      PrintedValueEnds(u + b, v[1..], t);
      assert s == u + (b + rest) && s == u + b + rest;
      assert s[|u|] == b[0];
    }
  }

  predicate Words(s: string) { s != "" && forall i :: 0 <= i < |s| ==> Word(s[i]) }

  predicate Spaces(s: string) { forall i :: 0 <= i < |s| ==> Space(s[i]) }

  lemma {:induction false} WordsEnd(s: string, i: nat, j: nat)
    requires i <= j <= |s| && (forall k :: i <= k < j ==> Word(s[k])) && (j < |s| ==> !Word(s[j]))
    ensures WordEnd(s, i) == j
    decreases j - i
  {
    if i < j {
      WordsEnd(s, i + 1, j);
    }
  }

  lemma {:induction false} SpacesEnd(s: string, i: nat, j: nat)
    requires i <= j <= |s| && (forall k :: i <= k < j ==> Space(s[k])) && (j < |s| ==> !Space(s[j]))
    ensures SpaceEnd(s, i) == j
    decreases j - i
  {
    if i < j {
      SpacesEnd(s, i + 1, j);
    }
  }

  /** `head` is a secret key, any white space, `=`, any white space. */
  predicate AssignmentHead(head: string, key: string, before: string, after: string) {
    Words(key) && Secret(key) && Spaces(before) && Spaces(after) && head == key + before + "=" + after
  }

  lemma HeadIsScanned(head: string, key: string, before: string, after: string, value: string)
    requires AssignmentHead(head, key, before, after) && value != "" && !Space(value[0])
    ensures Word((head + value)[0]) && WordEnd(head + value, 0) == |key|
    ensures Assigned(head + value, 0, |key|) == Some(|head|)
  {
    hide EqualFold, Secret, WordEnd, SpaceEnd;
    var s := head + value;
    var eq := |key| + |before|;
    HeadBytes(head, key, before, after, value);
    WordsEnd(s, 0, |key|);
    SpacesEnd(s, |key|, eq);
    SpacesEnd(s, eq + 1, |head|);
    assert s[0..|key|] == key;
  }

  lemma HeadBytes(head: string, key: string, before: string, after: string, value: string)
    requires AssignmentHead(head, key, before, after) && value != "" && !Space(value[0])
    ensures var s, eq := head + value, |key| + |before|;
      && (forall k :: 0 <= k < |key| ==> Word(s[k]))
      && (forall k :: |key| <= k < eq ==> Space(s[k]))
      && s[eq] == '='
      && (forall k :: eq + 1 <= k < |head| ==> Space(s[k]))
      && s[|head|] == value[0] && !Word(s[|key|])
  {
    hide EqualFold;
    var s, eq := head + value, |key| + |before|;
    assert forall k :: 0 <= k < |key| ==> s[k] == key[k];
    assert forall k :: |key| <= k < eq ==> s[k] == before[k - |key|];
    assert forall k :: eq + 1 <= k < |head| ==> s[k] == after[k - eq - 1];
  }

  /** A password printed as a quoted value is scrubbed whole, and nothing but it: for every password and
      everything that follows. */
  lemma PasswordIsScrubbed(head: string, key: string, before: string, after: string, p: string, t: string)
    requires AssignmentHead(head, key, before, after)
    ensures Redacted(head + (DsnText.Quote(p) + t), 0) == head + "***" + Redacted(t, 0)
  {
    hide PieceAt, DsnText.Quote;
    var value := DsnText.Quote(p) + t;
    var s := head + value;
    HeadIsOnePiece(head, key, before, after, p, t);
    assert s[0..|head|] == head;
    assert s == head + DsnText.Quote(p) + t;
    RedactionShifts(head + DsnText.Quote(p), t, 0);
  }

  lemma HeadIsOnePiece(head: string, key: string, before: string, after: string, p: string, t: string)
    requires AssignmentHead(head, key, before, after)
    ensures PieceAt(head + (DsnText.Quote(p) + t), 0) == Scrubbed(|head|, |head| + |DsnText.Quote(p)|)
  {
    hide Assigned, ValueEnd, WordEnd;
    HeadIsScanned(head, key, before, after, DsnText.Quote(p) + t);
    PrintedValueIsWhole(head, p, t);
  }

  lemma PrintedValueIsWhole(head: string, p: string, t: string)
    ensures ValueEnd(head + (DsnText.Quote(p) + t), |head|) == |head| + |DsnText.Quote(p)|
  {
    var s := head + (DsnText.Quote(p) + t);
    var u := head + "'";
    assert s == u + (DsnText.Escape(p) + ("'" + t));
    assert s[|head|] == '\'';
    PrintedValueEnds(u, p, t);
  }

  // ---------------------------------------------------------------------------------------------
  // Passwords without quotes, and the names of secrets

  /** No white space but behind a backslash, which takes the next byte with it. */
  predicate Unspaced(v: string)
    decreases |v|
  {
    if v == "" then true
    else if v[0] == '\\' then |v| > 1 && Unspaced(v[2..])
    else !Space(v[0]) && Unspaced(v[1..])
  }

  lemma {:induction false} UnspacedIsTaken(u: string, v: string, t: string)
    requires Unspaced(v) && (t != "" ==> Space(t[0]))
    ensures ValueRest(u + (v + t), |u|, None) == |u| + |v|
    decreases |v|
  {
    var s := u + (v + t);
    if v == "" {
      assert t != "" ==> s[|u|] == t[0];
    } else {
      var n := if v[0] == '\\' then 2 else 1;
      assert s[|u|] == v[0];
      UnspacedIsTaken(u + v[..n], v[n..], t);
      assert s == u + v[..n] + (v[n..] + t);
    }
  }

  /** A password without quotes is scrubbed up to its first white space without a backslash: nothing of it is
      left, whatever its bytes, and nothing else is lost. */
  lemma BarePasswordIsScrubbed(head: string, key: string, before: string, after: string, v: string, t: string)
    requires AssignmentHead(head, key, before, after)
    requires Unspaced(v) && v != "" && v[0] != '\'' && v[0] != '"' && (t != "" ==> Space(t[0]))
    ensures Redacted(head + (v + t), 0) == head + "***" + Redacted(t, 0)
  {
    hide PieceAt, Redacted, Assigned, WordEnd, ValueRest, Unspaced, AssignmentHead;
    var s := head + (v + t);
    UnspacedIsTaken(head, v, t);
    BareHead(head, key, before, after, v, t);
    BareIsOnePiece(s, |key|, |head|, |head| + |v|);
    KeptAndThen(s, 0);
    assert s[0..|head|] == head && s == head + v + t;
    RedactionShifts(head + v, t, 0);
  }

  lemma BareHead(head: string, key: string, before: string, after: string, v: string, t: string)
    requires AssignmentHead(head, key, before, after) && Unspaced(v) && v != ""
    ensures var s := head + (v + t);
      Word(s[0]) && WordEnd(s, 0) == |key| && Assigned(s, 0, |key|) == Some(|head|) && s[|head|] == v[0]
      && 0 < |key| < |head|
  {
    hide Assigned, WordEnd, ValueRest, EqualFold;
    assert !Space(v[0]);
    HeadIsScanned(head, key, before, after, v + t);
    assert (head + (v + t))[|head|] == v[0];
  }

  lemma BareIsOnePiece(s: string, n: nat, value: nat, end: nat)
    requires 0 < n < value < |s| && Word(s[0]) && WordEnd(s, 0) == n && Assigned(s, 0, n) == Some(value)
    requires s[value] != '\'' && s[value] != '"' && ValueRest(s, value, None) == end
    ensures PieceAt(s, 0) == Scrubbed(value, end)
  {
    hide WordEnd, Assigned, ValueRest;
  }

  function LowerCase(s: string): string { seq(|s|, k requires 0 <= k < |s| => Lower(s[k])) }

  lemma {:induction false} FoldIsLowerCase(a: string, b: string)
    ensures EqualFold(a, b) <==> LowerCase(a) == b
    decreases |a|
  {
    if a != "" && b != "" {
      FoldIsLowerCase(a[1..], b[1..]);
      assert LowerCase(a)[1..] == LowerCase(a[1..]);
      assert b == [b[0]] + b[1..];
      assert LowerCase(a) == [Lower(a[0])] + LowerCase(a[1..]);
    }
  }

  /** Secrets go by two names, in any case. */
  lemma SecretNames(key: string)
    ensures Secret(key) <==> LowerCase(key) == "password" || LowerCase(key) == "sslpassword"
  {
    FoldIsLowerCase(key, PASSWORD);
    FoldIsLowerCase(key, SSL_PASSWORD);
  }

  /** Both secrets by name, with a quoted and with a bare value. */
  lemma NamedSecretsAreScrubbed(key: string, p: string, v: string, t: string)
    requires LowerCase(key) == "password" || LowerCase(key) == "sslpassword"
    requires Unspaced(v) && v != "" && v[0] != '\'' && v[0] != '"' && (t != "" ==> Space(t[0]))
    ensures Redacted(key + "=" + (DsnText.Quote(p) + t), 0) == key + "=***" + Redacted(t, 0)
    ensures Redacted(key + "=" + (v + t), 0) == key + "=***" + Redacted(t, 0)
  {
    hide Redacted, DsnText.Quote, Secret;
    SecretNames(key);
    assert key + "" + "=" + "" == key + "=";
    forall k | 0 <= k < |key| ensures Word(key[k]) {
      assert LowerCase(key)[k] == Lower(key[k]);
      LowerIsLetter(key[k]);
    }
    PasswordIsScrubbed(key + "=", key, "", "", p, t);
    BarePasswordIsScrubbed(key + "=", key, "", "", v, t);
    assert key + "=" + "***" == key + "=***";
  }

  lemma LowerIsLetter(c: char)
    requires Letter(Lower(c))
    ensures Letter(c)
  {
  }

  // ---------------------------------------------------------------------------------------------
  // The text before

  /** The scan that has come to `i` comes to `k`. */
  predicate Reaches(s: string, i: nat, k: nat)
    requires i <= |s| && k <= |s|
    decreases |s| - i
  {
    i == k || (i < k && Reaches(s, PieceAt(s, i).to, k))
  }

  /** A text after which the scan starts anew at the next space: no value is left open at its end, by a quote,
      a lone backslash, or an assignment without a value. */
  predicate Settled(pre: string) { Reaches(pre + " ", 0, |pre|) }

  /** What follows the space: neither more space nor an equals sign. */
  predicate Follows(w: string) { w != "" && !Space(w[0]) && w[0] != '=' }

  /** The two scans, of `pre` and a space and of `pre`, a space and more, agree as far as `pre` reaches. */
  predicate Alike(pre: string, a: nat, b: nat) { if a <= |pre| then a == b else b > |pre| }

  lemma {:induction false} ValueRestAlike(pre: string, w: string, i: nat, quote: Option<char>)
    requires i <= |pre| && (quote.Some? ==> quote.value != ' ')
    ensures Alike(pre, ValueRest(pre + " ", i, quote), ValueRest(pre + " " + w, i, quote))
    decreases |pre| - i
  {
    var s, t := pre + " ", pre + " " + w;
    if i < |pre| {
      assert s[i] == t[i] == pre[i];
      if s[i] == '\\' {
        if i + 2 <= |pre| {
          ValueRestAlike(pre, w, i + 2, quote);
        }
      } else {
        ValueRestAlike(pre, w, i + 1, quote);
        ValueRestAlike(pre, w, i + 1, None);
      }
    } else {
      assert s[i] == t[i] == ' ';
    }
  }

  lemma {:induction false} WordEndAlike(pre: string, w: string, i: nat)
    requires i <= |pre|
    ensures WordEnd(pre + " ", i) == WordEnd(pre + " " + w, i) <= |pre|
    decreases |pre| - i
  {
    var s, t := pre + " ", pre + " " + w;
    assert s[i] == t[i];
    if i < |pre| && Word(pre[i]) {
      WordEndAlike(pre, w, i + 1);
    }
  }

  lemma {:induction false} SpaceEndAlike(pre: string, w: string, i: nat)
    requires i <= |pre| && Follows(w)
    ensures var a, b := SpaceEnd(pre + " ", i), SpaceEnd(pre + " " + w, i);
      a == b && a != |pre|
    decreases |pre| - i
  {
    var s, t := pre + " ", pre + " " + w;
    assert s[i] == t[i];
    if i == |pre| {
      assert t[|pre| + 1] == w[0];
      assert SpaceEnd(s, i + 1) == i + 1 == SpaceEnd(t, i + 1);
    } else if Space(pre[i]) {
      SpaceEndAlike(pre, w, i + 1);
    }
  }

  lemma PieceAlike(pre: string, w: string, i: nat)
    requires i < |pre| && Follows(w)
    ensures var p, q := PieceAt(pre + " ", i), PieceAt(pre + " " + w, i);
      Alike(pre, p.to, q.to) && (p.to <= |pre| ==> p == q)
  {
    hide WordEnd, SpaceEnd, ValueRest, Secret;
    var s, t := pre + " ", pre + " " + w;
    assert s[i] == t[i];
    var j := WordEnd(s, i);
    WordEndAlike(pre, w, i);
    assert s[i..j] == pre[i..j] == t[i..j];
    SpaceEndAlike(pre, w, j);
    var eq := SpaceEnd(s, j);
    if eq < |pre| {
      assert s[eq] == t[eq];
      SpaceEndAlike(pre, w, eq + 1);
      var value := SpaceEnd(s, eq + 1);
      if value < |pre| {
        assert s[value] == t[value];
        ValueRestAlike(pre, w, value, None);
        if s[value] == '\'' || s[value] == '"' {
          ValueRestAlike(pre, w, value + 1, Some(s[value]));
        }
      }
    } else {
      assert t[|pre| + 1] == w[0];
    }
  }

  /** Whether the scan starts anew at the space is decided by the text before it alone. */
  lemma {:induction false} ReachesAlike(pre: string, w: string, i: nat)
    requires i <= |pre| && Follows(w)
    ensures Reaches(pre + " ", i, |pre|) <==> Reaches(pre + " " + w, i, |pre|)
    decreases |pre| - i
  {
    hide PieceAt;
    if i < |pre| {
      PieceAlike(pre, w, i);
      if PieceAt(pre + " ", i).to <= |pre| {
        ReachesAlike(pre, w, PieceAt(pre + " ", i).to);
      }
    }
  }

  lemma SpaceIsKept(pre: string, w: string)
    ensures Redacted(pre + " " + w, |pre|) == " " + Redacted(w, 0)
  {
    var t := pre + " " + w;
    assert t[|pre|] == ' ' && PieceAt(t, |pre|) == Kept(|pre| + 1) && t[|pre|..|pre| + 1] == " ";
    RedactionShifts(pre + " ", w, 0);
  }

  lemma {:induction false} RedactionSplits(pre: string, w: string, i: nat)
    requires i <= |pre| && Follows(w) && Reaches(pre + " ", i, |pre|)
    ensures Redacted(pre + " " + w, i) == Redacted(pre + " ", i) + Redacted(w, 0)
    decreases |pre| - i
  {
    hide PieceAt, Redacted;
    var s, t := pre + " ", pre + " " + w;
    if i == |pre| {
      SpaceIsKept(pre, w);
      SpaceIsKept(pre, "");
      NothingLeft("");
      assert pre + " " + "" == s && " " + "" == " ";
    } else {
      PieceAlike(pre, w, i);
      var p := PieceAt(s, i);
      RedactionSplits(pre, w, p.to);
      KeptAndThen(s, i);
      KeptAndThen(t, i);
      var end := if p.Kept? then p.to else p.value;
      assert s[i..end] == pre[i..end] == t[i..end];
    }
  }

  lemma HeadFollows(key: string, before: string, after: string, rest: string)
    requires Words(key)
    ensures Follows(key + before + "=" + after + rest)
  {
    var w := key + before + "=" + after + rest;
    assert w[0] == key[0];
  }

  /** In the middle of a text: the scan comes to a printed password setting as one if and only if the text
      before is settled; then the whole password is scrubbed, and everything around it is redacted as it would
      be without it. */
  lemma EmbeddedPasswordIsScrubbed(pre: string, key: string, before: string, after: string, p: string, t: string)
    requires Words(key) && Secret(key) && Spaces(before) && Spaces(after)
    ensures var head := key + before + "=" + after;
      var s := pre + " " + (head + (DsnText.Quote(p) + t));
      && (Reaches(s, 0, |pre|) <==> Settled(pre))
      && (Settled(pre) ==> Redacted(s, 0) == Redacted(pre + " ", 0) + (head + "***" + Redacted(t, 0)))
  {
    hide PieceAt, DsnText.Quote, Redacted, Secret;
    var head := key + before + "=" + after;
    var w := head + (DsnText.Quote(p) + t);
    HeadFollows(key, before, after, DsnText.Quote(p) + t);
    ReachesAlike(pre, w, 0);
    PasswordIsScrubbed(head, key, before, after, p, t);
    if Settled(pre) {
      RedactionSplits(pre, w, 0);
    }
  }

  // ---------------------------------------------------------------------------------------------
  // An unsettled text before

  /** A password that shows where a value left open before it ends: at the quote, or at the space inside. */
  const PROBE := "\" x"

  lemma ProbeQuoted()
    ensures DsnText.Quote(PROBE) == ['\'', '"', ' ', 'x', '\'']
  {
    hide DsnText.Escape;
    DsnText.EscapeCons(PROBE);
    DsnText.EscapeCons(PROBE[1..]);
    DsnText.EscapeCons(PROBE[1..][1..]);
    DsnText.EscapeNil();
    assert PROBE[1..][1..][1..] == "";
  }

  /** The text ends in the printed probe, and holds no backslash from `k` on. */
  predicate EndsInProbe(s: string, k: nat) {
    && k + 5 <= |s|
    && (forall i :: k <= i < |s| ==> s[i] != '\\')
    && s[|s| - 5] == '\'' && s[|s| - 4] == '"' && s[|s| - 3] == ' ' && s[|s| - 2] == 'x' && s[|s| - 1] == '\''
  }

  predicate Quoting(quote: Option<char>) { quote == None || quote == Some('\'') || quote == Some('"') }

  lemma {:induction false} EndsByProbe(s: string, k: nat, i: nat, quote: Option<char>)
    requires EndsInProbe(s, k) && k <= i <= |s| - 5 && Quoting(quote)
    ensures i <= ValueRest(s, i, quote) <= |s| - 3
    decreases |s| - i
  {
    if i < |s| - 5 {
      EndsByProbe(s, k, i + 1, quote);
      EndsByProbe(s, k, i + 1, None);
    } else {
      assert ValueRest(s, |s| - 3, None) == |s| - 3;
      assert ValueRest(s, |s| - 4, None) == |s| - 3 == ValueRest(s, |s| - 4, Some('"'));
    }
  }

  /** A value still open behind the space goes past the word there. */
  lemma {:induction false} PassesWord(s: string, i: nat, end: nat, quote: Option<char>)
    requires i <= end <= |s| && Quoting(quote) && forall m :: i <= m < end ==> Word(s[m])
    ensures ValueRest(s, i, quote) == ValueRest(s, end, quote) >= end
    decreases end - i
  {
    if i < end {
      assert Word(s[i]);
      PassesWord(s, i + 1, end, quote);
    }
  }

  /** `at` is a space, a word up to `end` follows it, and the printed probe ends the text. */
  predicate ProbedAt(s: string, at: nat, end: nat) {
    && at + 1 < end && end + 5 <= |s| && s[at] == ' '
    && (forall m :: at < m < end ==> Word(s[m]))
    && (forall m :: end <= m < |s| - 5 ==> !Word(s[m]))
    && EndsInProbe(s, at)
  }

  /** A value that starts in the text before ends there, or behind the word and no later than at the space inside
      the probe. */
  lemma {:induction false} OpenValueEnds(s: string, at: nat, end: nat, i: nat, quote: Option<char>)
    requires ProbedAt(s, at, end) && i <= at + 1 && Quoting(quote)
    ensures var to := ValueRest(s, i, quote);
      to <= at || end <= to <= |s| - 3
    decreases |s| - i
  {
    if i == at + 1 {
      PassesWord(s, i, end, quote);
      EndsByProbe(s, at, end, quote);
    } else if i == at {
      OpenValueEnds(s, at, end, i + 1, quote);
    } else if s[i] == '\\' {
      OpenValueEnds(s, at, end, i + 2, quote);
    } else {
      OpenValueEnds(s, at, end, i + 1, quote);
      OpenValueEnds(s, at, end, i + 1, None);
    }
  }

  lemma OpenPieceEnds(s: string, at: nat, end: nat, i: nat)
    requires ProbedAt(s, at, end) && i < at
    ensures PieceAt(s, i).to <= at || end <= PieceAt(s, i).to <= |s| - 3
  {
    hide ValueRest, Secret;
    var j := WordEnd(s, i);
    WordStops(s, i, at);
    if Word(s[i]) && Assigned(s, i, j).Some? {
      SpaceStops(s, j, at);
      var eq := SpaceEnd(s, j);
      SpaceStops(s, eq + 1, at);
      var value := SpaceEnd(s, eq + 1);
      OpenValueEnds(s, at, end, value, None);
      if s[value] == '\'' || s[value] == '"' {
        OpenValueEnds(s, at, end, value + 1, Some(s[value]));
      }
    }
  }

  lemma {:induction false} WordStops(s: string, i: nat, at: nat)
    requires i <= at < |s| && s[at] == ' '
    ensures WordEnd(s, i) <= at
    decreases at - i
  {
    if i < at {
      WordStops(s, i + 1, at);
    }
  }

  lemma {:induction false} SpaceStops(s: string, i: nat, at: nat)
    requires i <= at + 1 < |s| && Word(s[at + 1])
    ensures SpaceEnd(s, i) <= at + 1
    decreases at + 1 - i
  {
    if i < at + 1 {
      SpaceStops(s, i + 1, at);
    }
  }

  /** Behind the word nothing is scrubbed: the only word left is the one inside the probe. */
  lemma {:induction false} RestIsKept(s: string, at: nat, end: nat, i: nat)
    requires ProbedAt(s, at, end) && end <= i <= |s|
    ensures Redacted(s, i) == s[i..]
    decreases |s| - i
  {
    hide PieceAt, Redacted;
    if i == |s| {
      NothingLeft(s);
    } else {
      RestPieceIsKept(s, at, end, i);
      RestIsKept(s, at, end, i + 1);
      KeptAndThen(s, i);
      assert s[i..i + 1] + s[i + 1..] == s[i..];
    }
  }

  lemma RestPieceIsKept(s: string, at: nat, end: nat, i: nat)
    requires ProbedAt(s, at, end) && end <= i < |s|
    ensures PieceAt(s, i) == Kept(i + 1)
  {
    hide Secret, ValueEnd, WordEnd, SpaceEnd;
    if i == |s| - 2 {
      WordsEnd(s, i, i + 1);
      SpacesEnd(s, i + 1, i + 1);
    } else {
      assert !Word(s[i]);
    }
  }

  /** A scan that misses the space leaves the end of the probe. */
  lemma {:induction false} MissedEndsInQuote(s: string, at: nat, end: nat, i: nat)
    requires ProbedAt(s, at, end) && i <= at && !Reaches(s, i, at)
    ensures Redacted(s, i) != "" && Redacted(s, i)[|Redacted(s, i)| - 1] == '\''
    decreases at - i
  {
    hide PieceAt, Redacted;
    OpenPieceEnds(s, at, end, i);
    OnePieceOn(s, i, at);
    KeptAndThen(s, i);
    var to := PieceAt(s, i).to;
    if to <= at {
      MissedEndsInQuote(s, at, end, to);
    } else {
      RestIsKept(s, at, end, to);
    }
  }

  /** What scrubbing this password, and nothing but it, comes to. */
  predicate ScrubsOnly(pre: string, head: string, p: string, t: string) {
    Redacted(pre + " " + (head + (DsnText.Quote(p) + t)), 0)
      == Redacted(pre + " ", 0) + (head + "***" + Redacted(t, 0))
  }

  lemma ProbeIsAt(pre: string, key: string, before: string, after: string)
    requires Words(key) && Spaces(before) && Spaces(after)
    ensures var head := key + before + "=" + after;
      ProbedAt(pre + " " + (head + (DsnText.Quote(PROBE) + "")), |pre|, |pre| + 1 + |key|)
  {
    hide DsnText.Quote, Words, Spaces;
    ProbeQuoted();
    var q := DsnText.Quote(PROBE);
    var head := key + before + "=" + after;
    HeadBytesByKind(key, before, after);
    ProbeBehind(pre, head, q, |key|);
    assert q + "" == q;
  }

  lemma HeadBytesByKind(key: string, before: string, after: string)
    requires Words(key) && Spaces(before) && Spaces(after)
    ensures var head := key + before + "=" + after;
      0 < |key| < |head| && forall m :: 0 <= m < |head| ==> if m < |key| then Word(head[m]) else Space(head[m]) || head[m] == '='
  {
    var head := key + before + "=" + after;
    forall m | 0 <= m < |head| ensures if m < |key| then Word(head[m]) else Space(head[m]) || head[m] == '=' {
      HeadByte(key, before, after, m);
    }
  }

  lemma ProbeBehind(pre: string, head: string, q: string, n: nat)
    requires 0 < n < |head| && q == ['\'', '"', ' ', 'x', '\'']
    requires forall m :: 0 <= m < |head| ==> if m < n then Word(head[m]) else Space(head[m]) || head[m] == '='
    ensures ProbedAt(pre + " " + (head + q), |pre|, |pre| + 1 + n)
  {
    var s, k := pre + " " + (head + q), |pre| + 1;
    assert |s| == k + |head| + 5;
    assert s[|s| - 5] == q[0] && s[|s| - 4] == q[1] && s[|s| - 3] == q[2] && s[|s| - 2] == q[3] && s[|s| - 1] == q[4];
    assert forall m :: k <= m < |s| - 5 ==> s[m] == head[m - k];
  }

  lemma HeadByte(key: string, before: string, after: string, m: nat)
    requires Words(key) && Spaces(before) && Spaces(after) && m < |key + before + "=" + after|
    ensures var c := (key + before + "=" + after)[m];
      if m < |key| then Word(c) else Space(c) || c == '='
  {
    if m > |key| + |before| {
      assert (key + before + "=" + after)[m] == after[m - |key| - |before| - 1];
    } else if |key| <= m < |key| + |before| {
      assert (key + before + "=" + after)[m] == before[m - |key|];
    }
  }

  /** The exact condition: behind a text, a printed password setting is scrubbed whole and alone, for every
      password and everything that follows, if and only if the text is settled. */
  lemma ScrubbedExactlyBehindSettled(pre: string, key: string, before: string, after: string)
    requires Words(key) && Secret(key) && Spaces(before) && Spaces(after)
    ensures var head := key + before + "=" + after;
      (forall p, t :: ScrubsOnly(pre, head, p, t)) <==> Settled(pre)
  {
    hide ScrubsOnly, Settled, Redacted, Reaches, PieceAt, DsnText.Quote, Secret;
    var head := key + before + "=" + after;
    if Settled(pre) {
      forall p, t ensures ScrubsOnly(pre, head, p, t) {
        SettledScrubsOnly(pre, key, before, after, p, t);
      }
    } else {
      UnsettledScrubsMore(pre, key, before, after);
    }
  }

  lemma SettledScrubsOnly(pre: string, key: string, before: string, after: string, p: string, t: string)
    requires Words(key) && Secret(key) && Spaces(before) && Spaces(after) && Settled(pre)
    ensures ScrubsOnly(pre, key + before + "=" + after, p, t)
  {
    hide Settled, Redacted, Reaches, PieceAt, DsnText.Quote, Secret;
    EmbeddedPasswordIsScrubbed(pre, key, before, after, p, t);
  }

  lemma UnsettledScrubsMore(pre: string, key: string, before: string, after: string)
    requires Words(key) && Secret(key) && Spaces(before) && Spaces(after) && !Settled(pre)
    ensures !ScrubsOnly(pre, key + before + "=" + after, PROBE, "")
  {
    hide Settled, Redacted, Reaches, PieceAt, DsnText.Quote, Secret, ProbedAt;
    var head := key + before + "=" + after;
    var s := pre + " " + (head + (DsnText.Quote(PROBE) + ""));
    EmbeddedPasswordIsScrubbed(pre, key, before, after, PROBE, "");
    ProbeIsAt(pre, key, before, after);
    MissedEndsInQuote(s, |pre|, |pre| + 1 + |key|, 0);
    NothingLeft("");
    var scrubbed := Redacted(pre + " ", 0) + (head + "***" + "");
    assert scrubbed[|scrubbed| - 1] == '*';
  }

  // ---------------------------------------------------------------------------------------------
  // Printed connection strings

  /** Every equals sign ends a key that is no password: no such key ends in t, r or e. */
  predicate HarmlessEquals(s: string) {
    forall k :: 0 <= k < |s| && s[k] == '=' ==> k > 0 && s[k - 1] in {'t', 'r', 'e'}
  }

  lemma HarmlessJoined(a: string, b: string)
    requires HarmlessEquals(a) && HarmlessEquals(b)
    ensures HarmlessEquals(a + b)
  {
    var s := a + b;
    forall k | 0 <= k < |s| && s[k] == '=' ensures k > 0 && s[k - 1] in {'t', 'r', 'e'} {
      if k >= |a| {
        assert b[k - |a|] == '=';
        assert s[k - 1] == b[k - |a| - 1];
      }
    }
  }

  lemma {:induction false} EscapeAddsNoEquals(v: string)
    requires '=' !in v
    ensures '=' !in DsnText.Escape(v)
    decreases |v|
  {
    if v == "" {
      DsnText.EscapeNil();
    } else {
      DsnText.EscapeCons(v);
      assert v[0] in v;
      EscapeAddsNoEquals(v[1..]);
    }
  }

  lemma SettingIsHarmless(key: string, value: string)
    requires '=' !in key && '=' !in value && key != "" && key[|key| - 1] in {'t', 'r', 'e'}
    ensures HarmlessEquals(DsnText.Setting(key, value)) && HarmlessEquals(DsnText.Part(key, value))
  {
    EscapeAddsNoEquals(value);
    var quoted := DsnText.Quote(value);
    assert '=' !in quoted;
    var s := DsnText.Setting(key, value);
    assert forall k :: 0 <= k < |key| ==> s[k] == key[k] && key[k] in key;
    assert forall k :: 0 <= k < |quoted| ==> s[|key| + 1 + k] == quoted[k] && quoted[k] in quoted;
    assert forall k :: |key| < k < |s| ==> s[k] == quoted[k - |key| - 1];
    HarmlessJoined(" ", s);
  }

  lemma {:induction false} DecimalHasNoEquals(n: nat)
    ensures '=' !in DsnText.Decimal(n)
    decreases n
  {
    if n >= 10 {
      DecimalHasNoEquals(n / 10);
    }
  }

  lemma PortIsHarmless(port: int)
    ensures HarmlessEquals(DsnText.PortPart(port))
  {
    hide DsnText.Decimal;
    if port != 0 {
      DecimalHasNoEquals(if port < 0 then -port else port);
      var text := DsnText.PortText(port);
      assert '=' !in text;
      HarmlessJoined(" port=", text);
      assert " " + ("port=" + text) == " port=" + text;
    }
  }

  /** No field of the profile has an equals sign. */
  predicate NoEquals(p: DsnText.Connection) {
    '=' !in p.host && '=' !in p.user && '=' !in p.database && '=' !in p.sslMode
  }

  lemma PrintedIsHarmless(p: DsnText.Connection)
    requires NoEquals(p)
    ensures HarmlessEquals(DsnText.BuildKVDSN(p))
  {
    hide HarmlessEquals, DsnText.Setting, DsnText.Part, DsnText.PortPart;
    var ssl := DsnText.Part("sslmode", p.sslMode);
    var database := DsnText.Part("dbname", p.database) + ssl;
    var user := DsnText.Part("user", p.user) + database;
    var port := DsnText.PortPart(p.port) + user;
    SettingIsHarmless("sslmode", p.sslMode);
    SettingIsHarmless("dbname", p.database);
    SettingIsHarmless("user", p.user);
    SettingIsHarmless("host", p.host);
    PortIsHarmless(p.port);
    HarmlessJoined(DsnText.Part("dbname", p.database), ssl);
    HarmlessJoined(DsnText.Part("user", p.user), database);
    HarmlessJoined(DsnText.PortPart(p.port), user);
    HarmlessJoined(DsnText.Setting("host", p.host), port);
  }

  lemma {:induction false} FoldEnds(a: string, b: string)
    requires EqualFold(a, b) && b != ""
    ensures a != "" && Lower(a[|a| - 1]) == b[|b| - 1]
    decreases |b|
  {
    if |b| > 1 {
      FoldEnds(a[1..], b[1..]);
    }
  }

  lemma NothingAssigned(s: string, i: nat, j: nat)
    requires HarmlessEquals(s) && i <= j <= |s|
    ensures Assigned(s, i, j) == None
  {
    if Assigned(s, i, j).Some? {
      var key := s[i..j];
      FoldEnds(key, if EqualFold(key, PASSWORD) then PASSWORD else SSL_PASSWORD);
      assert Lower(key[|key| - 1]) == 'd';
      SpaceBefore(s, j);
    }
  }

  lemma {:induction false} SpaceBefore(s: string, j: nat)
    requires j <= |s|
    ensures SpaceEnd(s, j) == j || Space(s[SpaceEnd(s, j) - 1])
    decreases |s| - j
  {
    if j < |s| && Space(s[j]) {
      SpaceBefore(s, j + 1);
    }
  }

  lemma {:induction false} HarmlessSettles(pre: string, i: nat)
    requires HarmlessEquals(pre + " ") && i <= |pre|
    ensures Reaches(pre + " ", i, |pre|) && Redacted(pre + " ", i) == (pre + " ")[i..]
    decreases |pre| - i
  {
    hide Assigned, HarmlessEquals;
    var s := pre + " ";
    if i == |pre| {
      SpaceIsKept(pre, "");
      NothingLeft("");
      assert s + "" == s && s[i..] == " ";
    } else {
      WordEndAlike(pre, "", i);
      NothingAssigned(s, i, WordEnd(s, i));
      var to := PieceAt(s, i).to;
      assert to <= |pre|;
      HarmlessSettles(pre, to);
      assert s[i..to] + s[to..] == s[i..];
    }
  }

  /** A printed connection string whose fields have no equals sign is settled and passes as it is; a printed
      password behind it is scrubbed whole, so the result does not depend on the password. */
  lemma PrintedPasswordIsScrubbed(p: DsnText.Connection, password: string, t: string)
    requires NoEquals(p)
    ensures var dsn := DsnText.BuildKVDSN(p);
      && Settled(dsn)
      && Redacted(dsn + " " + (PASSWORD + "=" + (DsnText.Quote(password) + t)), 0)
         == dsn + " " + (PASSWORD + "=" + "***" + Redacted(t, 0))
  {
    hide HarmlessEquals, DsnText.BuildKVDSN, DsnText.Quote, Redacted, Reaches;
    var dsn := DsnText.BuildKVDSN(p);
    PrintedIsHarmless(p);
    SpaceIsHarmless(dsn);
    HarmlessSettles(dsn, 0);
    assert (dsn + " ")[0..] == dsn + " ";
    assert EqualFold(PASSWORD, PASSWORD) by { FoldsToItself(PASSWORD); }
    EmbeddedPasswordIsScrubbed(dsn, PASSWORD, "", "", password, t);
    assert PASSWORD + "" + "=" + "" == PASSWORD + "=";
  }

  lemma SpaceIsHarmless(s: string)
    requires HarmlessEquals(s)
    ensures HarmlessEquals(s + " ")
  {
    HarmlessJoined(s, " ");
  }

  lemma {:induction false} FoldsToItself(s: string)
    requires forall k :: 0 <= k < |s| ==> Lower(s[k]) == s[k]
    ensures EqualFold(s, s)
    decreases |s|
  {
    if s != "" {
      FoldsToItself(s[1..]);
    }
  }

  lemma {:induction false} PlainQuote(v: string)
    requires forall k :: 0 <= k < |v| ==> !DsnText.Escaped(v[k])
    ensures DsnText.Escape(v) == v && DsnText.Quote(v) == "'" + v + "'"
    decreases |v|
  {
    hide DsnText.Escape;
    if v == "" {
      DsnText.EscapeNil();
    } else {
      DsnText.EscapeCons(v);
      PlainQuote(v[1..]);
    }
  }

  lemma OnePieceOn(s: string, i: nat, k: nat)
    requires i <= |s| && k <= |s| && i != k
    ensures Reaches(s, i, k) <==> i < k && Reaches(s, PieceAt(s, i).to, k)
  {
  }

  lemma BytePasses(c: char, rest: string)
    requires !Word(c)
    ensures PieceAt([c] + rest, 0) == Kept(1) && Redacted([c] + rest, 0) == [c] + Redacted(rest, 0)
  {
    hide Redacted;
    var s := [c] + rest;
    KeptAndThen(s, 0);
    assert s[0..1] == [c];
    RedactionShifts([c], rest, 0);
  }

  /** A word passes as it is when a byte follows that is neither space nor an equals sign, or when it ends like
      no key of a password. */
  lemma WordPasses(word: string, c: char, rest: string)
    requires Words(word) && !Word(c) && !Space(c) && (c != '=' || Lower(word[|word| - 1]) != 'd')
    ensures var s := word + ([c] + rest);
      PieceAt(s, 0) == Kept(|word|) && Redacted(s, 0) == word + Redacted([c] + rest, 0)
  {
    hide Redacted, EqualFold, ValueEnd;
    var s := word + ([c] + rest);
    assert (forall k :: 0 <= k < |word| ==> s[k] == word[k]) && s[|word|] == c;
    WordsEnd(s, 0, |word|);
    assert s[0..|word|] == word;
    if Secret(word) {
      FoldEnds(word, if EqualFold(word, PASSWORD) then PASSWORD else SSL_PASSWORD);
    }
    KeptAndThen(s, 0);
    RedactionShifts(word, [c] + rest, 0);
  }

  /** The printer's `key='` passes as it is, in three pieces. */
  lemma KeyPasses(key: string, rest: string)
    requires Words(key) && Lower(key[|key| - 1]) != 'd' && rest != ""
    ensures var s, n := key + (['='] + (['\''] + rest)), |key|;
      && PieceAt(s, 0) == Kept(n) && PieceAt(s, n) == Kept(n + 1) && PieceAt(s, n + 1) == Kept(n + 2)
      && Redacted(s, 0) == key + (['='] + (['\''] + Redacted(rest, 0)))
  {
    hide Redacted, PieceAt, Words;
    var quoted := ['\''] + rest;
    var value := ['='] + quoted;
    BytePasses('\'', rest);
    BytePasses('=', quoted);
    WordPasses(key, '=', quoted);
    PieceShifts(key, value, 0);
    PieceShifts(key + ['='], quoted, 0);
    assert key + value == key + ['='] + quoted;
  }

  /** The value that opens with the wrong quote: it ends where the password's own opens. */
  lemma ValueTakesKey(head: string, value: string, word: string)
    requires head == PASSWORD + "=" && value == " " + head && Words(word)
    ensures var rest := head + ("'" + value + "'" + (word + ['\'']));
      PieceAt(rest, 0) == Scrubbed(9, 21) && Redacted(rest, 0) == head + "***" + (word + ['\''])
  {
    hide Redacted, PieceAt, DsnText.Quote, DsnText.Escape, EqualFold;
    var tail := word + (['\''] + "");
    PlainQuote(value);
    assert head == PASSWORD + "" + "=" + "" && tail == word + ['\''];
    FoldsToItself(PASSWORD);
    PasswordIsScrubbed(head, PASSWORD, "", "", value, tail);
    HeadIsOnePiece(head, PASSWORD, "", "", value, tail);
    WordPasses(word, '\'', "");
    BytePasses('\'', "");
    NothingLeft("");
  }

  /** An unsettled text before: the closing quote of a host that ends in `password=` is read as the opening one
      of a value. That value takes the key of the password printed behind it, and the password stays. */
  lemma UnsettledLeavesPassword(pre: string, word: string)
    requires pre == DsnText.Setting("host", PASSWORD + "=") && Words(word)
    ensures var s := pre + " " + DsnText.Setting(PASSWORD, word);
      !Settled(pre) && Redacted(s, 0) == "host" + ("=" + ("'" + (PASSWORD + "=" + "***" + (word + "'"))))
  {
    hide Redacted, Settled, PieceAt, Reaches, EqualFold, DsnText.Escape, DsnText.Quote;
    var head, w := PASSWORD + "=", DsnText.Setting(PASSWORD, word);
    var value := " " + head;
    var rest := head + ("'" + value + "'" + (word + ['\'']));
    PlainQuote(head);
    PlainQuote(word);
    Regroup("host", head, word);
    KeyPasses("host", rest);
    ValueTakesKey(head, value, word);
    assert w[0] == 'p';
    NotSettled(pre, w, rest);
  }

  lemma Regroup(host: string, head: string, word: string)
    ensures host + "=" + ("'" + head + "'") + " " + (head + ("'" + word + "'"))
      == host + (['='] + (['\''] + (head + ("'" + (" " + head) + "'" + (word + ['\''])))))
    ensures host + "=" + ("'" + head + "'") == host + (['='] + (['\''] + (head + "'")))
  {
  }

  lemma NotSettled(pre: string, w: string, rest: string)
    requires |pre| == 16 && |rest| >= 21 && Follows(w) && pre + " " + w == "host" + (['='] + (['\''] + rest))
    requires PieceAt(rest, 0) == Scrubbed(9, 21)
    requires var s := pre + " " + w; PieceAt(s, 0) == Kept(4) && PieceAt(s, 4) == Kept(5) && PieceAt(s, 5) == Kept(6)
    ensures !Settled(pre)
  {
    hide PieceAt, Reaches;
    var s, u := pre + " " + w, "host" + (['='] + ['\'']);
    assert s == u + rest;
    PieceShifts(u, rest, 0);
    OnePieceOn(s, 0, 16);
    OnePieceOn(s, 4, 16);
    OnePieceOn(s, 5, 16);
    OnePieceOn(s, 6, 16);
    OnePieceOn(s, 27, 16);
    ReachesAlike(pre, w, 0);
  }
}
