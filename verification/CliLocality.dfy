/** Splitting is exact and local: every returned range is a statement of its own when analysed alone,
    and nothing but separators, white space and comments lies between the ranges. */
module CliLocality {
  import opened Common
  import opened CliScanner
  import opened CliWindows
  import opened CliStatements
  import Utf8

  /** The loop's variables where a statement may start. */
  function Clean(i: nat): Splitter { START.(start := i) }

  predicate Separates(m: Splitter, t: Token) { t.word == ";" && m.parens == 0 && m.bodies == 0 }

  /** The first token that completes a statement, or |ts|. */
  function Separator(m: Splitter, ts: seq<Token>): (n: nat)
    ensures n <= |ts|
    decreases |ts|
  {
    if ts == [] || Separates(m, ts[0]) then 0
    else
      match Fed(m, ts[0])
      case None => |ts|
      case Some((next, _)) => 1 + Separator(next, ts[1..])
  }

  /** A separator completes the statement, if it has a token; any other token belongs to it, and only a
      ';' inside parentheses or a body leaves it without one. */
  lemma FedSeparates(m: Splitter, t: Token)
    requires Fed(m, t).Some?
    ensures var (next, done) := Fed(m, t).value;
      if Separates(m, t) then next == Clean(t.start + 1) && done == if m.hasToken then [Range(m.start, t.start)] else []
      else done == [] && next.start == m.start
           && (next.hasToken || (next.parens == m.parens && next.bodies == m.bodies && t.word == ";"))
  {
    hide Consumed;
  }

  /** The split is the first segment's statement, if it has a token, followed by the split of the rest
      from a clean start. */
  lemma {:induction false} SplitSegments(m: Splitter, ts: seq<Token>, end: nat) returns (n: nat, first: seq<Range>)
    requires Split(m, ts, end).Some?
    ensures n == Separator(m, ts) <= |ts|
    ensures n < |ts| ==> ts[n].word == ";" && Split(m, ts[..n], ts[n].start) == Some(first)
    ensures n < |ts| ==> var later := Split(Clean(ts[n].start + 1), ts[n + 1..], end);
      later.Some? && Split(m, ts, end).value == first + later.value
    ensures n == |ts| ==> Split(m, ts, end) == Some(first)
    ensures first == [] || first == [Range(m.start, if n < |ts| then ts[n].start else end)]
    ensures first == [] ==> n == 0 && !m.hasToken
    decreases |ts|
  {
    hide Fed;
    if ts != [] {
      FedSeparates(m, ts[0]);
    }
    if ts == [] {
      return 0, Split(m, ts, end).value;
    }
    var (next, done) := Fed(m, ts[0]).value;
    if Separates(m, ts[0]) {
      assert ts[..0] == [];
      return 0, done;
    }
    var k: nat;
    k, first := SplitSegments(next, ts[1..], end);
    n := k + 1;
    assert n < |ts| ==> ts[1..][k] == ts[n] && ts[1..][k + 1..] == ts[n + 1..];
    assert ts[..n][0] == ts[0] && ts[..n][1..] == ts[1..][..k];
    assert [] + first == first && [] + Split(next, ts[1..], end).value == Split(next, ts[1..], end).value;
  }

  function MovedRanges(ranges: seq<Range>, a: nat): seq<Range> {
    seq(|ranges|, k requires 0 <= k < |ranges| => Range(ranges[k].start + a, ranges[k].end + a))
  }

  /** Splitting does not depend on where the text lies. */
  lemma {:induction false} SplitMoved(m: Splitter, ts: seq<Token>, us: seq<Token>, end: nat, a: nat)
    requires |us| == |ts| && forall k :: 0 <= k < |ts| ==> ts[k] == Moved(us[k], a)
    ensures Split(m.(start := m.start + a), ts, end + a) == MovedSplit(Split(m, us, end), a)
    decreases |ts|
  {
    hide Consumed;
    var n := m.(start := m.start + a);
    if ts == [] {
      assert MovedRanges([Range(m.start, end)], a) == [Range(m.start + a, end + a)];
      assert MovedRanges([], a) == [];
    } else {
      assert ts[0] == Moved(us[0], a);
      FedMoved(m, us[0], a);
      if Fed(m, us[0]).Some? {
        var (next, done) := Fed(m, us[0]).value;
        assert forall k :: 0 <= k < |ts[1..]| ==> ts[1..][k] == Moved(us[1..][k], a);
        SplitMoved(next, ts[1..], us[1..], end, a);
        MovedPrepended(done, Split(next, us[1..], end), a);
      }
    }
  }

  function MovedSplit(r: Option<seq<Range>>, a: nat): Option<seq<Range>> {
    match r case None => None case Some(ranges) => Some(MovedRanges(ranges, a))
  }

  lemma MovedPrepended(done: seq<Range>, rest: Option<seq<Range>>, a: nat)
    ensures MovedSplit(Prepended(done, rest), a) == Prepended(MovedRanges(done, a), MovedSplit(rest, a))
  {
    if rest.Some? {
      assert MovedRanges(done + rest.value, a) == MovedRanges(done, a) + MovedRanges(rest.value, a);
    }
  }

  lemma ConsumedMoved(c: Context, u: Token, parens: nat, a: nat)
    ensures Consumed(c, Moved(u, a), parens) == Consumed(c, u, parens)
  {
  }

  lemma FedMoved(m: Splitter, u: Token, a: nat)
    ensures Fed(m, u).None? ==> Fed(m.(start := m.start + a), Moved(u, a)).None?
    ensures Fed(m, u).Some? ==>
      Fed(m.(start := m.start + a), Moved(u, a))
      == Some((Fed(m, u).value.0.(start := Fed(m, u).value.0.start + a), MovedRanges(Fed(m, u).value.1, a)))
  {
    ConsumedMoved(m.context, u, m.parens, a);
    assert MovedRanges([], a) == [];
    assert MovedRanges([Range(m.start, u.start)], a) == [Range(m.start + a, u.start + a)];
  }

  lemma {:induction false} TokensSuffix(s: string, i: nat, n: nat)
    requires i <= |s| && Tokens(s, i).Some? && n < |Tokens(s, i).value|
    ensures var t := Tokens(s, i).value[n]; t.end <= |s| && Tokens(s, t.end) == Some(Tokens(s, i).value[n + 1..])
    decreases |s| - i
  {
    hide Fresh, SkipTrivia;
    FirstEndsBefore(s, i, 1);
    var t := Next(s, i).value;
    var ts, rest := Tokens(s, i).value, Tokens(s, t.end).value;
    if n == 0 {
      assert ts[1..] == rest;
    } else {
      TokensSuffix(s, t.end, n - 1);
      assert ts[n] == rest[n - 1] && ts[n + 1..] == rest[n..];
    }
  }

  lemma OneMovedRange(alone: seq<Range>, i: nat, b: nat)
    requires i <= b && MovedRanges(alone, i) == [Range(i, b)]
    ensures alone == [Range(0, b - i)]
  {
    assert |alone| == |MovedRanges(alone, i)|;
    assert MovedRanges(alone, i)[0] == Range(alone[0].start + i, alone[0].end + i);
  }

  /** A segment that yields a statement yields the same one when it is analysed alone. */
  lemma {:induction false} SegmentAlone(s: string, i: nat, n: nat, b: nat)
    requires i <= b <= |s| && Tokens(s, i).Some? && n <= |Tokens(s, i).value|
    requires b == if n < |Tokens(s, i).value| then Tokens(s, i).value[n].start else |s|
    requires b == |s| || s[b] == ';'
    requires Split(Clean(i), Tokens(s, i).value[..n], b) == Some([Range(i, b)])
    ensures SplitFrom(s[i..b], 0, START) == Some([Range(0, b - i)])
  {
    hide Next, Fresh, SkipTrivia, Split;
    var u, ts := s[i..b], Tokens(s, i).value[..n];
    TokensWindow(s, u, i, b, i, n);
    var us := Tokens(u, 0).value;
    MovedToStart(ts, us, b, i);
  }

  lemma {:induction false} MovedToStart(ts: seq<Token>, us: seq<Token>, b: nat, i: nat)
    requires i <= b && |us| == |ts| && forall k :: 0 <= k < |ts| ==> ts[k] == Moved(us[k], i)
    requires Split(Clean(i), ts, b) == Some([Range(i, b)])
    ensures Split(START, us, b - i) == Some([Range(0, b - i)])
  {
    assert START.(start := START.start + i) == Clean(i);
    SplitMoved(START, ts, us, b - i, i);
    OneMovedRange(Split(START, us, b - i).value, i, b);
  }

  /** The text from a clean start: its first segment, up to `b`, and what follows the separator there. */
  lemma {:induction false} FirstSegment(s: string, i: nat) returns (b: nat, first: seq<Range>, later: seq<Range>)
    requires i <= |s| && SplitFrom(s, i, Clean(i)).Some?
    ensures i <= b <= |s| && (b < |s| ==> s[b] == ';')
    ensures SplitFrom(s, i, Clean(i)) == Some(first + later)
    ensures if b < |s| then SplitFrom(s, b + 1, Clean(b + 1)) == Some(later) else later == []
    ensures first == [] || (first == [Range(i, b)] && SplitFrom(s[i..b], 0, START) == Some([Range(0, b - i)]))
    ensures first == [] ==> SkipTrivia(s, i) == Some(b)
  {
    hide Fresh, TriviaAt, Split, Tokens;
    var ts := Tokens(s, i).value;
    var n: nat;
    n, first := SplitSegments(Clean(i), ts, |s|);
    b := if n < |ts| then ts[n].start else |s|;
    FirstStart(s, i);
    SeparatorBounds(s, i, n, b);
    if n < |ts| {
      TokensSuffix(s, i, n);
      later := Split(Clean(ts[n].start + 1), ts[n + 1..], |s|).value;
    } else {
      assert ts[..n] == ts && first + [] == first;
      later := [];
    }
    if first != [] {
      SegmentAlone(s, i, n, b);
    }
  }

  lemma {:induction false} SeparatorBounds(s: string, i: nat, n: nat, b: nat)
    requires i <= |s| && Tokens(s, i).Some? && n <= |Tokens(s, i).value|
    requires b == if n < |Tokens(s, i).value| then Tokens(s, i).value[n].start else |s|
    requires n < |Tokens(s, i).value| ==> Tokens(s, i).value[n].word == ";"
    ensures i <= b <= |s|
    ensures if n < |Tokens(s, i).value| then b < |s| && s[b] == ';' && Tokens(s, i).value[n].end == b + 1 else b == |s|
  {
    hide Next, Fresh, SkipTrivia, Tokens;
    TokensOrdered(s, i);
    AllSemicolons(s, i);
  }

  /** `r` is bounded by separators or by the ends of the text from `i` on, and it is one statement of
      its own. */
  predicate StandsAlone(s: string, i: nat, r: Range) {
    && i <= r.start <= r.end <= |s|
    && (r.start == i || s[r.start - 1] == ';')
    && (r.end == |s| || s[r.end] == ';')
    && SplitFrom(s[r.start..r.end], 0, START) == Some([Range(0, r.end - r.start)])
  }

  lemma StandsEarlier(s: string, i: nat, b: nat, r: Range)
    requires i <= b < |s| && s[b] == ';' && StandsAlone(s, b + 1, r)
    ensures StandsAlone(s, i, r)
  {
  }

  lemma {:induction false} RangeAlone(s: string, i: nat, ranges: seq<Range>, k: nat)
    requires i <= |s| && SplitFrom(s, i, Clean(i)) == Some(ranges) && k < |ranges|
    ensures StandsAlone(s, i, ranges[k])
    decreases |s| - i
  {
    hide SplitFrom, Tokens;
    var b, first, later := FirstSegment(s, i);
    if k >= |first| {
      RangeAlone(s, b + 1, later, k - |first|);
      StandsEarlier(s, i, b, later[k - |first|]);
    }
  }

  /** Re-analysing any returned range alone, with no parameters, yields exactly that one range with the
      same kind, and asks for approval exactly when that kind needs it. */
  lemma {:induction false} RangesAreLocal(s: string, parameters: int, confirmWrites: bool, confirmDDL: bool,
                                          kindOf: string -> StatementKind, k: nat)
    requires Analyzed(s, parameters, confirmWrites, confirmDDL, kindOf).Ok?
    requires k < |Analyzed(s, parameters, confirmWrites, confirmDDL, kindOf).value.statements|
    ensures var it := Analyzed(s, parameters, confirmWrites, confirmDDL, kindOf).value.statements[k];
      && it.start < it.end <= |s|
      && Analyzed(s[it.start..it.end], 0, confirmWrites, confirmDDL, kindOf)
         == Ok(Analysis([Statement(0, it.end - it.start, it.kind)],
                        confirmWrites && it.kind == KindDML, confirmDDL && it.kind == KindDDL))
  {
    hide SplitFrom, HasKind, Utf8.Valid;
    var ranges := SplitFrom(s, 0, START).value;
    assert START == Clean(0);
    RangesInBounds(s);
    RangeAlone(s, 0, ranges, k);
    var r := ranges[k];
    var u := s[r.start..r.end];
    Utf8.SliceIsValid(s, r.start, r.end);
    OneStatement(u, confirmWrites, confirmDDL, kindOf);
  }

  lemma {:induction false} OneStatement(u: string, confirmWrites: bool, confirmDDL: bool,
                                        kindOf: string -> StatementKind)
    requires Acceptable(u, 0) && SplitFrom(u, 0, START) == Some([Range(0, |u|)])
    ensures Analyzed(u, 0, confirmWrites, confirmDDL, kindOf)
         == Ok(Analysis([Statement(0, |u|, kindOf(u))], confirmWrites && kindOf(u) == KindDML, confirmDDL && kindOf(u) == KindDDL))
  {
    hide SplitFrom;
    assert u[0..|u|] == u;
    var alone := Classified(u, [Range(0, |u|)], kindOf);
    assert alone == [Statement(0, |u|, kindOf(u))];
    assert HasKind(alone, kindOf(u)) by { assert alone[0].kind == kindOf(u); }
  }

  /** Ranges are ordered, non-empty, disjoint and in bounds. */
  lemma {:induction false} RangesAreOrdered(s: string, parameters: int, confirmWrites: bool, confirmDDL: bool,
                                            kindOf: string -> StatementKind)
    requires Analyzed(s, parameters, confirmWrites, confirmDDL, kindOf).Ok?
    ensures var it := Analyzed(s, parameters, confirmWrites, confirmDDL, kindOf).value.statements;
      && it != []
      && (forall k :: 0 <= k < |it| ==> it[k].start < it[k].end <= |s|)
      && (forall j, k :: 0 <= j < k < |it| ==> it[j].end < it[k].start)
  {
    hide SplitFrom, Ordered;
    RangesInBounds(s);
    OrderedBounds(SplitFrom(s, 0, START).value, 0, |s|);
  }

  // ---------------------------------------------------------------------------------------------
  // What lies between the ranges

  /** From `i` to `j` there are only separators, white space and whole comments. */
  predicate Gap(s: string, i: nat, j: nat)
    requires i <= |s|
    decreases |s| - i
  {
    i <= j && (i == j || (i < |s| &&
      if s[i] == ';' then Gap(s, i + 1, j)
      else match TriviaAt(s, i)
        case Go(to) => Gap(s, to, j)
        case _ => false))
  }

  lemma {:induction false} GapJoins(s: string, i: nat, j: nat, k: nat)
    requires i <= |s| && j <= |s| && Gap(s, i, j) && Gap(s, j, k)
    ensures Gap(s, i, k)
    decreases |s| - i
  {
    if i < j {
      if s[i] == ';' {
        GapJoins(s, i + 1, j, k);
      } else {
        GapJoins(s, TriviaAt(s, i).to, j, k);
      }
    }
  }

  lemma {:induction false} TriviaIsGap(s: string, i: nat)
    requires i <= |s| && SkipTrivia(s, i).Some?
    ensures Gap(s, i, SkipTrivia(s, i).value)
    decreases |s| - i
  {
    if TriviaAt(s, i).Go? {
      TriviaIsGap(s, TriviaAt(s, i).to);
    }
  }

  predicate Gaps(s: string, i: nat, ranges: seq<Range>)
    requires i <= |s|
    decreases |ranges|
  {
    if ranges == [] then Gap(s, i, |s|)
    else Gap(s, i, ranges[0].start) && ranges[0].end <= |s| && Gaps(s, ranges[0].end, ranges[1..])
  }

  lemma {:induction false} GapsExtend(s: string, i: nat, j: nat, ranges: seq<Range>)
    requires i <= |s| && j <= |s| && Gap(s, i, j) && Gaps(s, j, ranges)
    ensures Gaps(s, i, ranges)
  {
    GapJoins(s, i, j, if ranges == [] then |s| else ranges[0].start);
  }

  lemma {:induction false} SplitGaps(s: string, i: nat)
    requires i <= |s| && SplitFrom(s, i, Clean(i)).Some?
    ensures Gaps(s, i, SplitFrom(s, i, Clean(i)).value)
    decreases |s| - i
  {
    hide SplitFrom, TriviaAt;
    var b, first, later := FirstSegment(s, i);
    if first == [] {
      TriviaIsGap(s, i);
    }
    if b < |s| {
      SplitGaps(s, b + 1);
      assert Gap(s, b, b + 1);
      GapsExtend(s, b, b + 1, later);
    } else {
      assert Gap(s, b, |s|);
    }
    if first == [] {
      assert first + later == later;
      GapsExtend(s, i, b, later);
    } else {
      assert (first + later)[1..] == later;
    }
  }

  /** Before, between and after the returned ranges there are only ';', white space and comments. */
  lemma {:induction false} OnlySeparatorsBetween(s: string, parameters: int, confirmWrites: bool, confirmDDL: bool,
                                                 kindOf: string -> StatementKind)
    requires Analyzed(s, parameters, confirmWrites, confirmDDL, kindOf).Ok?
    ensures var it := Analyzed(s, parameters, confirmWrites, confirmDDL, kindOf).value.statements;
      exists ranges :: |ranges| == |it| && Gaps(s, 0, ranges)
        && forall k :: 0 <= k < |it| ==> ranges[k] == Range(it[k].start, it[k].end)
  {
    hide SplitFrom, Gap;
    assert START == Clean(0);
    SplitGaps(s, 0);
    RangesInBounds(s);
    var ranges := SplitFrom(s, 0, START).value;
    var it := Analyzed(s, parameters, confirmWrites, confirmDDL, kindOf).value.statements;
    assert |ranges| == |it| && forall k :: 0 <= k < |it| ==> ranges[k] == Range(it[k].start, it[k].end);
  }
}
