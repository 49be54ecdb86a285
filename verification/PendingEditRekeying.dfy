/** What a committed settlement or reconciliation does to the keys of surviving edits, and what
    staging, finding and discarding promise about cells. */
module PendingEditRekeying {
  import opened Common
  import opened RowValues
  import opened EditIdentities
  import opened PendingEdits
  import opened PendingEditDiscards
  import opened PendingEditRuns

  /** No two staged edits address the same cell. */
  predicate UniqueCells(edits: seq<PendingEdit>) {
    forall i, j :: 0 <= i < j < |edits| ==> !SameCell(edits[i], edits[j].primaryKey, edits[j].column)
  }

  /** The entry of the receipt that names the row, or |originals|. */
  function EntryOf(pk: Row, originals: seq<Row>): (j: nat)
    ensures j <= |originals|
    ensures j < |originals| ==> RowIdentityEqual(originals[j], pk)
    ensures forall i :: 0 <= i < j ==> !RowIdentityEqual(originals[i], pk)
  {
    if originals == [] || RowIdentityEqual(originals[0], pk) then 0 else 1 + EntryOf(pk, originals[1..])
  }

  /** The simultaneous substitution a receipt stands for: each row to its result, other rows fixed. */
  function Substituted(pk: Row, originals: seq<Row>, results: seq<Row>): Row
    requires |originals| == |results|
  {
    var j := EntryOf(pk, originals);
    if j < |originals| then results[j] else pk
  }

  /** A valid receipt is one-to-one: each attempted row has one entry, entries name distinct rows, and
      distinct rows go to distinct results. */
  lemma {:induction false} ReceiptIsInjection(attempted: seq<PendingEdit>, originals: seq<Row>, results: seq<Row>,
                                              a: Row, b: Row)
    requires IsCommitBijection(attempted, originals, results)
    ensures HasRow(attempted, a) <==> EntryOf(a, originals) < |originals|
    ensures HasRow(attempted, a) && HasRow(attempted, b) ==>
      (RowIdentityEqual(Substituted(a, originals, results), Substituted(b, originals, results)) <==> RowIdentityEqual(a, b))
  {
    hide HasRow, ListsRow, RowIdentityEqual;
    AttemptedIffListed(attempted, originals, results, a);
    AttemptedIffListed(attempted, originals, results, b);
    var i, j := EntryOf(a, originals), EntryOf(b, originals);
    if i < |originals| && j < |originals| {
      EquivalentPairs(originals[i], a, originals[j], b);
      RowIdentityIsEquivalence(originals[i], originals[j], originals[i]);
      RowIdentityIsEquivalence(results[i], results[j], results[i]);
      if i < j {
        assert !RowIdentityEqual(originals[j], originals[i]) && !RowIdentityEqual(results[j], results[i]);
      } else if j < i {
        assert !RowIdentityEqual(originals[i], originals[j]) && !RowIdentityEqual(results[i], results[j]);
      }
    }
  }

  lemma {:induction false} AttemptedIffListed(attempted: seq<PendingEdit>, originals: seq<Row>, results: seq<Row>,
                                              a: Row)
    requires IsCommitBijection(attempted, originals, results)
    ensures HasRow(attempted, a) <==> EntryOf(a, originals) < |originals|
  {
    SameRow();
    if HasRow(attempted, a) {
      var k :| 0 <= k < |attempted| && RowIdentityEqual(a, attempted[k].primaryKey);
      assert ListsRow(originals, attempted[k].primaryKey);
      var i :| 0 <= i < |originals| && RowIdentityEqual(originals[i], attempted[k].primaryKey);
      assert RowIdentityEqual(originals[i], a);
    }
    var j := EntryOf(a, originals);
    if j < |originals| {
      assert HasRow(attempted, originals[j]);
      var k :| 0 <= k < |attempted| && RowIdentityEqual(originals[j], attempted[k].primaryKey);
      assert RowIdentityEqual(a, attempted[k].primaryKey);
    }
  }

  lemma {:induction false} OneEntry(originals: seq<Row>, pk: Row, i: nat, j: nat)
    requires forall m, n :: 0 <= n < m < |originals| ==> !RowIdentityEqual(originals[m], originals[n])
    requires i < |originals| && j < |originals|
    requires RowIdentityEqual(originals[i], pk) && RowIdentityEqual(originals[j], pk)
    ensures i == j
  {
    RowIdentityIsEquivalence(originals[i], pk, originals[j]);
    RowIdentityIsEquivalence(originals[j], pk, originals[i]);
  }

  lemma {:induction false} MoveIsAnEntry(originals: seq<Row>, results: seq<Row>, pk: Row)
    requires |originals| == |results|
    requires forall m, n :: 0 <= n < m < |originals| ==> !RowIdentityEqual(originals[m], originals[n])
    ensures var j, m := EntryOf(pk, originals), MoveOf(pk, originals, results);
      && (m < |originals| ==> j == m)
      && (m == |originals| && j < |originals| ==> RowIdentityEqual(originals[j], results[j]))
  {
    var j, m := EntryOf(pk, originals), MoveOf(pk, originals, results);
    if m < |originals| {
      RowIdentityIsEquivalence(pk, originals[m], pk);
      OneEntry(originals, pk, j, m);
    } else if j < |originals| {
      RowIdentityIsEquivalence(originals[j], pk, pk);
      assert !Moves(pk, originals[j], results[j]);
    }
  }

  /** The loop moves a key exactly as the substitution does; keys the receipt maps to themselves stay. */
  lemma {:induction false} MovedIsSubstituted(originals: seq<Row>, results: seq<Row>, pk: Row)
    requires |originals| == |results|
    requires forall m, n :: 0 <= n < m < |originals| ==> !RowIdentityEqual(originals[m], originals[n])
    ensures RowIdentityEqual(MovedKey(pk, originals, results), Substituted(pk, originals, results))
    ensures MoveOf(pk, originals, results) < |originals| <==> !RowIdentityEqual(pk, Substituted(pk, originals, results))
  {
    var j, m := EntryOf(pk, originals), MoveOf(pk, originals, results);
    MoveIsAnEntry(originals, results, pk);
    if m < |originals| {
      RowIdentityIsEquivalence(results[m], results[m], results[m]);
      RowIdentityIsEquivalence(originals[m], pk, results[m]);
    } else if j < |originals| {
      RowIdentityIsEquivalence(originals[j], pk, originals[j]);
      RowIdentityIsEquivalence(pk, originals[j], results[j]);
    } else {
      RowIdentityIsEquivalence(pk, pk, pk);
    }
  }

  /** Committed settlement with a valid receipt acts on the survivors as one simultaneous
      substitution: every survivor keeps its place and its content, its key becomes the substituted
      one (never substituted twice, swaps included), and it gets a new revision exactly when its row
      moved. */
  lemma {:induction false} SurvivorsAreSubstituted(self: PendingEditSet, s: SetState, snapshot: seq<PendingEdit>,
                                                   originals: seq<Row>, results: seq<Row>, i: nat)
    requires Numbered(self, s.edits, s.nextRevision)
    requires IsCommitBijection(snapshot, originals, results)
    requires i < |Kept(self, s.edits, snapshot)|
    ensures
      var before := Kept(self, s.edits, snapshot);
      var after := RetiredCommitted(self, s, snapshot, originals, results).edits;
      && |after| == |before|
      && after[i] == before[i].(primaryKey := after[i].primaryKey, revision := after[i].revision)
      && RowIdentityEqual(after[i].primaryKey, Substituted(before[i].primaryKey, originals, results))
      && (after[i].revision == before[i].revision <==> RowIdentityEqual(after[i].primaryKey, before[i].primaryKey))
      && (after[i].revision == before[i].revision || after[i].revision > s.nextRevision)
  {
    var before := Kept(self, s.edits, snapshot);
    KeptMembers(self, s.edits, snapshot, s.nextRevision);
    RekeyedAt(before, s.nextRevision, originals, results, i);
    MovedIsSubstituted(originals, results, before[i].primaryKey);
    SameRow();
  }

  /** A surviving edit of an attempted row would land on the cell of a survivor the receipt leaves alone. */
  predicate Collides(survivors: seq<PendingEdit>, originals: seq<Row>, results: seq<Row>)
    requires |originals| == |results|
  {
    exists i, k :: 0 <= i < |survivors| && 0 <= k < |survivors|
      && LandsOn(survivors[i], survivors[k], originals, results)
  }

  predicate LandsOn(moving: PendingEdit, resting: PendingEdit, originals: seq<Row>, results: seq<Row>)
    requires |originals| == |results|
  {
    && EntryOf(moving.primaryKey, originals) < |originals|
    && EntryOf(resting.primaryKey, originals) == |originals|
    && moving.column == resting.column
    && RowIdentityEqual(results[EntryOf(moving.primaryKey, originals)], resting.primaryKey)
  }

  lemma {:induction false} KeptUnique(self: PendingEditSet, edits: seq<PendingEdit>, snapshot: seq<PendingEdit>)
    requires UniqueCells(edits)
    ensures UniqueCells(Kept(self, edits, snapshot))
    decreases |edits|
  {
    if edits != [] {
      var n := |edits| - 1;
      assert UniqueCells(edits[..n]);
      KeptUnique(self, edits[..n], snapshot);
      KeptMembers(self, edits[..n], snapshot, 0);
      var rest := Kept(self, edits[..n], snapshot);
      forall i | 0 <= i < |rest| ensures !SameCell(rest[i], edits[n].primaryKey, edits[n].column) {
        var x := rest[i];
        assert x in Kept(self, edits[..n], snapshot);
        assert x in edits[..n];
        var m :| 0 <= m < n && edits[..n][m] == x;
        assert !SameCell(edits[m], edits[n].primaryKey, edits[n].column);
      }
    }
  }

  lemma {:induction false} SubstitutedCells(survivors: seq<PendingEdit>, attempted: seq<PendingEdit>,
                                            originals: seq<Row>,
                                            results: seq<Row>, i: nat, k: nat)
    requires IsCommitBijection(attempted, originals, results) && UniqueCells(survivors)
    requires i < k < |survivors| && survivors[i].column == survivors[k].column
    ensures RowIdentityEqual(Substituted(survivors[i].primaryKey, originals, results),
                             Substituted(survivors[k].primaryKey, originals, results))
       <==> LandsOn(survivors[i], survivors[k], originals, results) || LandsOn(survivors[k], survivors[i], originals, results)
  {
    SameRow();
    var a, b := survivors[i].primaryKey, survivors[k].primaryKey;
    assert !SameCell(survivors[i], b, survivors[k].column);
    assert !RowIdentityEqual(a, b);
    ReceiptIsInjection(attempted, originals, results, a, b);
    ReceiptIsInjection(attempted, originals, results, b, a);
  }

  lemma {:induction false} SettledCells(self: PendingEditSet, s: SetState, snapshot: seq<PendingEdit>,
                                        originals: seq<Row>, results: seq<Row>, i: nat, k: nat)
    requires Numbered(self, s.edits, s.nextRevision) && UniqueCells(s.edits)
    requires IsCommitBijection(snapshot, originals, results)
    requires i < k < |Kept(self, s.edits, snapshot)|
    ensures
      var before := Kept(self, s.edits, snapshot);
      var after := RetiredCommitted(self, s, snapshot, originals, results).edits;
      |after| == |before|
      && (SameCell(after[i], after[k].primaryKey, after[k].column)
          <==> LandsOn(before[i], before[k], originals, results) || LandsOn(before[k], before[i], originals, results))
  {
    var before := Kept(self, s.edits, snapshot);
    var after := RetiredCommitted(self, s, snapshot, originals, results).edits;
    KeptUnique(self, s.edits, snapshot);
    SurvivorsAreSubstituted(self, s, snapshot, originals, results, i);
    SurvivorsAreSubstituted(self, s, snapshot, originals, results, k);
    var x, y := Substituted(before[i].primaryKey, originals, results), Substituted(before[k].primaryKey, originals, results);
    EquivalentPairs(after[i].primaryKey, x, after[k].primaryKey, y);
    if before[i].column == before[k].column {
      SubstitutedCells(before, snapshot, originals, results, i, k);
    }
  }

  lemma {:induction false} EquivalentPairs(a: Row, x: Row, b: Row, y: Row)
    requires RowIdentityEqual(a, x) && RowIdentityEqual(b, y)
    ensures RowIdentityEqual(a, b) <==> RowIdentityEqual(x, y)
  {
    RowEqualIsCanonical(a, x);
    RowEqualIsCanonical(b, y);
    RowEqualIsCanonical(a, b);
    RowEqualIsCanonical(x, y);
  }

  lemma NoCollisionKeepsUnique(self: PendingEditSet, s: SetState, snapshot: seq<PendingEdit>,
                               originals: seq<Row>, results: seq<Row>)
    requires Numbered(self, s.edits, s.nextRevision) && UniqueCells(s.edits)
    requires IsCommitBijection(snapshot, originals, results)
    requires !Collides(Kept(self, s.edits, snapshot), originals, results)
    ensures UniqueCells(RetiredCommitted(self, s, snapshot, originals, results).edits)
  {
    var after := RetiredCommitted(self, s, snapshot, originals, results).edits;
    forall i, k | 0 <= i < k < |after| ensures !SameCell(after[i], after[k].primaryKey, after[k].column) {
      SettledCells(self, s, snapshot, originals, results, i, k);
    }
  }

  lemma CollisionBreaksUnique(self: PendingEditSet, s: SetState, snapshot: seq<PendingEdit>,
                              originals: seq<Row>, results: seq<Row>, i: nat, k: nat)
    requires Numbered(self, s.edits, s.nextRevision) && UniqueCells(s.edits)
    requires IsCommitBijection(snapshot, originals, results)
    requires var before := Kept(self, s.edits, snapshot);
      i < |before| && k < |before| && LandsOn(before[i], before[k], originals, results)
    ensures !UniqueCells(RetiredCommitted(self, s, snapshot, originals, results).edits)
  {
    hide SameCell, IsCommitBijection;
    var after := RetiredCommitted(self, s, snapshot, originals, results).edits;
    var lo, hi := if i < k then i else k, if i < k then k else i;
    SettledCells(self, s, snapshot, originals, results, lo, hi);
    assert SameCell(after[lo], after[hi].primaryKey, after[hi].column);
  }

  /** Cells stay unique across a committed settlement if and only if no survivor of an attempted row
      lands on a survivor of a row the receipt does not name. */
  lemma {:induction false} RekeyingKeepsCellsUnique(self: PendingEditSet, s: SetState, snapshot: seq<PendingEdit>,
                                                    originals: seq<Row>, results: seq<Row>)
    requires Numbered(self, s.edits, s.nextRevision) && UniqueCells(s.edits)
    requires IsCommitBijection(snapshot, originals, results)
    ensures UniqueCells(RetiredCommitted(self, s, snapshot, originals, results).edits)
       <==> !Collides(Kept(self, s.edits, snapshot), originals, results)
  {
    var before := Kept(self, s.edits, snapshot);
    if Collides(before, originals, results) {
      var i, k :| 0 <= i < |before| && 0 <= k < |before| && LandsOn(before[i], before[k], originals, results);
      CollisionBreaksUnique(self, s, snapshot, originals, results, i, k);
    } else {
      NoCollisionKeepsUnique(self, s, snapshot, originals, results);
    }
  }

  // Such a collision is reachable by staging and committing alone: an edit of row 1 survives the
  // commit that moves row 1 to key 2, where another edit of the same column is already staged.

  const ONE: Row := [Scalar(0, 1)]
  const TWO: Row := [Scalar(0, 2)]

  function Sample(owner: PendingEditSet?, revision: nat, pk: Row, col: string): PendingEdit {
    PendingEdit(revision, owner, UNBOUND, pk, col, "", 0, Nil, Nil, "", Literal, 0)
  }

  function Staged(self: PendingEditSet): SetState {
    EMPTY.(edits := [Sample(self, 1, ONE, "n"), Sample(self, 2, TWO, "n"), Sample(self, 3, ONE, "id")], nextRevision := 3)
  }

  lemma {:induction false} StageSample(self: PendingEditSet)
    ensures After(self, EMPTY, [Add(Sample(null, 0, ONE, "n")), Add(Sample(null, 0, TWO, "n")), Add(Sample(null, 0, ONE, "id"))])
         == Staged(self)
  {
    var a, b, c := Sample(null, 0, ONE, "n"), Sample(null, 0, TWO, "n"), Sample(null, 0, ONE, "id");
    assert !RowIdentityEqual(ONE, TWO);
    var s1 := EMPTY.(edits := [Sample(self, 1, ONE, "n")], nextRevision := 1);
    var s2 := s1.(edits := s1.edits + [Sample(self, 2, TWO, "n")], nextRevision := 2);
    assert Step(self, EMPTY, Add(a)) == s1;
    assert FindCell(s1.edits, TWO, "n") == 1;
    assert Step(self, s1, Add(b)) == s2;
    assert FindCell(s2.edits, ONE, "id") == 2;
    assert Step(self, s2, Add(c)) == Staged(self);
    assert [Add(a), Add(b), Add(c)][1..] == [Add(b), Add(c)] && [Add(b), Add(c)][1..] == [Add(c)];
    assert After(self, s2, [Add(c)]) == Staged(self);
    assert After(self, s1, [Add(b), Add(c)]) == Staged(self);
  }

  lemma KeptBeside(self: PendingEditSet, a: PendingEdit, b: PendingEdit, c: PendingEdit)
    requires IsVersion(self, c, c) && !IsVersion(self, c, a) && !IsVersion(self, c, b)
    ensures Kept(self, [a, b, c], [c]) == [a, b]
  {
    var all := [a, b, c];
    assert [c][0] == c;
    assert HeldBy(self, [c], c) && !HeldBy(self, [c], a) && !HeldBy(self, [c], b);
    assert all[..2] == [a, b] && [a, b][..1] == [a] && [a][..0] == [];
    assert Kept(self, [a], [c]) == [a];
    assert Kept(self, [a, b], [c]) == [a, b];
  }

  lemma MovesOnto(a: PendingEdit, b: PendingEdit, next: nat)
    requires a.primaryKey == ONE && b.primaryKey == TWO && a.column == b.column
    ensures !UniqueCells(Rekeyed([a, b], next, [ONE], [TWO]))
  {
    var r := Rekeyed([a, b], next, [ONE], [TWO]);
    assert Moves(ONE, ONE, TWO) && !Moves(TWO, ONE, TWO);
    RekeyedAt([a, b], next, [ONE], [TWO], 0);
    RekeyedAt([a, b], next, [ONE], [TWO], 1);
    assert SameCell(r[0], r[1].primaryKey, r[1].column);
  }

  lemma CapturedAlone(self: PendingEditSet, edits: seq<PendingEdit>, k: nat)
    requires k < |edits| && IsVersion(self, edits[k], edits[k])
    requires forall i :: 0 <= i < k ==> !IsVersion(self, edits[k], edits[i])
    ensures AllCurrent(self, edits, [edits[k]]) && Captured(self, edits, [edits[k]]) == [edits[k]]
  {
    FirstVersion(self, edits, edits[k], k);
  }

  lemma {:induction false} FirstVersion(self: PendingEditSet, edits: seq<PendingEdit>, version: PendingEdit, k: nat)
    requires k < |edits| && IsVersion(self, version, edits[k])
    requires forall i :: 0 <= i < k ==> !IsVersion(self, version, edits[i])
    ensures FindVersion(self, edits, version) == k
    decreases k
  {
    if k > 0 {
      FirstVersion(self, edits[1..], version, k - 1);
    }
  }

  /** Begin on the last of three edits, and settle with a receipt that moves the first onto the second. */
  lemma BeginAndCollide(self: PendingEditSet, s: SetState, receipt: PendingEditSet, a: PendingEdit, b: PendingEdit,
                        c: PendingEdit)
    requires s.edits == [a, b, c] && s.attempt == null && s.unknown == []
    requires IsVersion(self, c, c) && !IsVersion(self, c, a) && !IsVersion(self, c, b)
    requires a.primaryKey == ONE && b.primaryKey == TWO && a.column == b.column
    ensures !UniqueCells(Settled(self, Begun(self, s, Some([c]), receipt), receipt, true, false, [ONE], [TWO]).edits)
  {
    CapturedAlone(self, s.edits, 2);
    var begun := Begun(self, s, Some([c]), receipt);
    assert begun == s.(attempt := receipt, commitEdits := [c]);
    KeptBeside(self, a, b, c);
    MovesOnto(a, b, s.nextRevision);
  }

  lemma AfterTwo(self: PendingEditSet, s: SetState, first: Op, second: Op)
    ensures After(self, s, [first, second]) == Step(self, Step(self, s, first), second)
  {
    var t := Step(self, s, first);
    assert [first, second][1..] == [second] && [second][1..] == [];
    assert After(self, t, [second]) == After(self, Step(self, t, second), []);
  }

  lemma CommitSample(self: PendingEditSet, receipt: PendingEditSet)
    ensures !UniqueCells(After(self, Staged(self),
      [BeginCommit(Some([Sample(self, 3, ONE, "id")]), receipt), SettleCommit(receipt, true, false, [ONE], [TWO])]).edits)
  {
    var s := Staged(self);
    AfterTwo(self, s, BeginCommit(Some([s.edits[2]]), receipt), SettleCommit(receipt, true, false, [ONE], [TWO]));
    BeginAndCollide(self, s, receipt, s.edits[0], s.edits[1], s.edits[2]);
  }

  lemma {:induction false} CollisionIsReachable(self: PendingEditSet, receipt: PendingEditSet)
    ensures exists staging: seq<Op>, committing: seq<Op> ::
              (forall i :: 0 <= i < |staging| ==> staging[i].Add?)
              && (forall i :: 0 <= i < |committing| ==> committing[i].BeginCommit? || committing[i].SettleCommit?)
              && !UniqueCells(After(self, After(self, EMPTY, staging), committing).edits)
  {
    hide After, UniqueCells, Sample, Staged;
    StageSample(self);
    CommitSample(self, receipt);
    var staging := [Add(Sample(null, 0, ONE, "n")), Add(Sample(null, 0, TWO, "n")), Add(Sample(null, 0, ONE, "id"))];
    var committing :=
      [BeginCommit(Some([Sample(self, 3, ONE, "id")]), receipt), SettleCommit(receipt, true, false, [ONE], [TWO])];
    assert !UniqueCells(After(self, After(self, EMPTY, staging), committing).edits);
  }

  // ---------------------------------------------------------------------------------------------
  // Uniqueness over runs

  lemma {:induction false} AddedLockedUnique(self: PendingEditSet, s: SetState, e: PendingEdit)
    requires UniqueCells(s.edits)
    ensures UniqueCells(AddedLocked(self, s, e).0.edits)
  {
    SameRow();
    var t := AddedLocked(self, s, e).0;
    var k := FindCell(s.edits, e.primaryKey, e.column);
    if t != s && k < |s.edits| {
      forall i, j | 0 <= i < j < |t.edits| ensures !SameCell(t.edits[i], t.edits[j].primaryKey, t.edits[j].column) {
        assert !SameCell(s.edits[i], s.edits[j].primaryKey, s.edits[j].column);
      }
    }
  }

  lemma {:induction false} RemovedCellUnique(edits: seq<PendingEdit>, pk: Row, col: string)
    requires UniqueCells(edits)
    ensures UniqueCells(RemovedCell(edits, pk, col))
    ensures forall e :: e in RemovedCell(edits, pk, col) <==> e in edits && !SameCell(e, pk, col)
  {
    SameRow();
    var k := FindCell(edits, pk, col);
    if k < |edits| {
      var r := Without(edits, k);
      forall i, j | 0 <= i < j < |r| ensures !SameCell(r[i], r[j].primaryKey, r[j].column) {
        var m, n := if i < k then i else i + 1, if j < k then j else j + 1;
        assert !SameCell(edits[m], edits[n].primaryKey, edits[n].column);
      }
      forall e | e in edits && !SameCell(e, pk, col) ensures e in r {
        RemovedCellLoses(edits, pk, col, e);
      }
      forall i | 0 <= i < |r| ensures !SameCell(r[i], pk, col) {
        var m := if i < k then i else i + 1;
        assert r[i] == edits[m];
        assert m < k ==> !SameCell(edits[m], edits[k].primaryKey, edits[k].column);
        assert k < m ==> !SameCell(edits[k], edits[m].primaryKey, edits[m].column);
      }
    }
  }

  lemma {:induction false} RemovedCellsUnique(edits: seq<PendingEdit>, selected: seq<PendingEdit>)
    requires UniqueCells(edits)
    ensures UniqueCells(RemovedCells(edits, selected))
    ensures forall e :: e in RemovedCells(edits, selected) <==>
      e in edits && forall k :: 0 <= k < |selected| ==> !SameCell(e, selected[k].primaryKey, selected[k].column)
    decreases |selected|
  {
    if selected != [] {
      var n := |selected| - 1;
      var rest := RemovedCells(edits, selected[..n]);
      RemovedCellsUnique(edits, selected[..n]);
      RemovedCellUnique(rest, selected[n].primaryKey, selected[n].column);
      forall e ensures e in RemovedCells(edits, selected) <==>
          e in edits && forall k :: 0 <= k < |selected| ==> !SameCell(e, selected[k].primaryKey, selected[k].column)
      {
        assert forall k :: 0 <= k < n ==> selected[..n][k] == selected[k];
        assert e in rest <==> e in edits && forall k :: 0 <= k < n ==> !SameCell(e, selected[..n][k].primaryKey, selected[..n][k].column);
      }
    }
  }

  /** Re-keying steps whose receipt is valid and collision-free. */
  predicate Unambiguous(self: PendingEditSet, s: SetState, op: Op) {
    match op
    case SettleCommit(receipt, committed, _, originals, results) =>
      committed && receipt == s.attempt ==>
        IsCommitBijection(s.commitEdits, originals, results)
        && !Collides(Kept(self, s.edits, s.commitEdits), originals, results)
    case RetireCommitted(snapshot, originals, results) =>
      IsCommitBijection(snapshot, originals, results) && !Collides(Kept(self, s.edits, snapshot), originals, results)
    case ReconcileCommitOutcome(committed) =>
      committed && IsCommitBijection(s.unknown, s.unknownOriginals, s.unknownResults) ==>
        !Collides(Kept(self, s.edits, s.unknown), s.unknownOriginals, s.unknownResults)
    case _ => true
  }

  lemma {:induction false} StepKeepsCellsUnique(self: PendingEditSet, s: SetState, op: Op)
    requires Numbered(self, s.edits, s.nextRevision) && UniqueCells(s.edits) && Unambiguous(self, s, op)
    ensures UniqueCells(Step(self, s, op).edits)
  {
    match op
    case Add(e) => AddedLockedUnique(self, s, e);
    case AddWithIdentity(id, e) =>
      if Compatible(s.identity, id) && |e.primaryKey| == |id.columns| {
        AddedLockedUnique(self, s, e.(primaryKey := Reordered(s.identity, id, e.primaryKey), identity := s.identity));
      }
      AddedLockedUnique(self, s.(identity := id), e);
    case Remove(pk, col) => RemovedCellUnique(s.edits, pk, col);
    case RemoveWithIdentity(id, pk, col) =>
      if Normalize(s.identity, id, pk).Some? {
        RemovedCellUnique(s.edits, Normalize(s.identity, id, pk).value, col);
      }
    case DiscardOwned(selected) => RemovedCellsUnique(s.edits, selected);
    case Retire(snapshot) => KeptUnique(self, s.edits, snapshot);
    case RetireCommitted(snapshot, originals, results) =>
      RekeyingKeepsCellsUnique(self, s, snapshot, originals, results);
    case SettleCommit(receipt, committed, _, originals, results) =>
      if committed && receipt == s.attempt {
        RekeyingKeepsCellsUnique(self, s, s.commitEdits, originals, results);
      }
    case ReconcileCommitOutcome(committed) =>
      if committed && IsCommitBijection(s.unknown, s.unknownOriginals, s.unknownResults) {
        RekeyingKeepsCellsUnique(self, s, s.unknown, s.unknownOriginals, s.unknownResults);
      }
    case _ =>
  }

  predicate UnambiguousRun(self: PendingEditSet, s: SetState, ops: seq<Op>)
    decreases |ops|
  {
    ops == [] || (Unambiguous(self, s, ops[0]) && UnambiguousRun(self, Step(self, s, ops[0]), ops[1..]))
  }

  /** At most one staged edit per cell, over every run whose receipts are unambiguous. */
  lemma {:induction false} RunKeepsCellsUnique(self: PendingEditSet, s: SetState, ops: seq<Op>)
    requires Numbered(self, s.edits, s.nextRevision) && UniqueCells(s.edits) && UnambiguousRun(self, s, ops)
    ensures UniqueCells(After(self, s, ops).edits)
    decreases |ops|
  {
    if ops != [] {
      StepEvolves(self, s, ops[0]);
      StepKeepsCellsUnique(self, s, ops[0]);
      RunKeepsCellsUnique(self, Step(self, s, ops[0]), ops[1..]);
    }
  }

  // ---------------------------------------------------------------------------------------------
  // Discarding and finding

  /** A discard of unmodified copies leaves the set as it was when one of them is stale. Otherwise it removes
      those edits and nothing else if and only if, in every cell, it selects from the first edit on, and
      repeats an entry only where it selects them all. One edit per cell is enough, but not an invariant. */
  lemma {:induction false} DiscardIsExact(self: PendingEditSet, s: SetState, selected: seq<PendingEdit>)
    requires Valid(self, s) && Genuine(self, s, selected)
    ensures var (t, status) := Discarded(self, s, selected);
      && (status.Failure? ==> t == s)
      && (status.Success? ==>
            ((forall e :: e in t.edits ==> e in s.edits && e !in selected)
             && (forall e :: e in s.edits && e !in selected ==> e in t.edits)
             <==> SelectsFirst(s.edits, selected)))
    ensures Discarded(self, s, selected).1.Success? && Distinct(selected) ==>
      (SelectsFirst(s.edits, selected)
       <==> forall i :: 0 <= i < |s.edits| && s.edits[i] !in selected ==> !PickedBehind(s.edits, selected, i))
    ensures Discarded(self, s, selected).1.Success? && UniqueCells(s.edits) ==> SelectsFirst(s.edits, selected)
  {
    hide PickedBehind, RemovedCells;
    if Discarded(self, s, selected).1.Success? {
      SelectsStaged(self, s, selected);
      ExactIsSelectsFirst(s.edits, selected);
      if UniqueCells(s.edits) {
        UniqueSelectsFirst(s.edits, selected);
      }
    }
  }

  lemma UniqueSelectsFirst(edits: seq<PendingEdit>, selected: seq<PendingEdit>)
    requires UniqueCells(edits) && forall x :: x in selected ==> x in edits
    ensures SelectsFirst(edits, selected)
  {
    forall i, j | 0 <= i < |edits| && 0 <= j < |edits| && CellOf(edits[i]) == CellOf(edits[j]) ensures i == j {
      SameCellIsCell(edits[i], edits[j]);
      OneEditPerCell(edits, i, j);
    }
    forall i | 0 <= i < |edits| && edits[i] !in selected ensures !NamesTwice(selected, CellOf(edits[i])) {
      forall k | 0 <= k < |selected| ensures CellOf(selected[k]) != CellOf(edits[i]) {
        assert selected[k] in edits;
      }
    }
  }

  /** The code reaches a discard of the wrong edit: after the collision above, discarding the second edit of the
      cell takes the first, and the selected one stays. */
  lemma {:induction false} DiscardTakesWrongEdit(self: PendingEditSet, receipt: PendingEditSet)
    returns (staging: seq<Op>, committing: seq<Op>)
    ensures var s := After(self, After(self, EMPTY, staging), committing);
      && Valid(self, s) && |s.edits| == 2 && s.edits[0] != s.edits[1] && Genuine(self, s, [s.edits[1]])
      && Discarded(self, s, [s.edits[1]]) == (s.(edits := [s.edits[1]]), Success)
  {
    StageSample(self);
    staging := [Add(Sample(null, 0, ONE, "n")), Add(Sample(null, 0, TWO, "n")), Add(Sample(null, 0, ONE, "id"))];
    var begin, settle := BeginCommit(Some([Sample(self, 3, ONE, "id")]), receipt), SettleCommit(receipt, true, false, [ONE], [TWO]);
    committing := [begin, settle];
    var staged := Staged(self);
    StepKeepsValid(self, staged, begin);
    StepKeepsValid(self, Step(self, staged, begin), settle);
    AfterTwo(self, staged, begin, settle);
    CollidesInto(self, receipt);
    var s := After(self, staged, committing);
    SecondIsKept(self, s);
  }

  lemma CollidesInto(self: PendingEditSet, receipt: PendingEditSet)
    ensures var s := Settled(self, Begun(self, Staged(self), Some([Sample(self, 3, ONE, "id")]), receipt), receipt, true, false, [ONE], [TWO]);
      && s.edits == [Sample(self, 4, TWO, "n"), Sample(self, 2, TWO, "n")] && s.attempt == null && s.unknown == []
  {
    var s := Staged(self);
    var a, b, c := s.edits[0], s.edits[1], s.edits[2];
    CapturedAlone(self, s.edits, 2);
    assert Begun(self, s, Some([c]), receipt) == s.(attempt := receipt, commitEdits := [c]);
    KeptBeside(self, a, b, c);
    assert Moves(ONE, ONE, TWO) && !Moves(TWO, ONE, TWO);
    RekeyedAt([a, b], 3, [ONE], [TWO], 0);
    RekeyedAt([a, b], 3, [ONE], [TWO], 1);
    assert Rekeyed([a, b], 3, [ONE], [TWO]) == [Sample(self, 4, TWO, "n"), Sample(self, 2, TWO, "n")];
  }

  lemma SecondIsKept(self: PendingEditSet, s: SetState)
    requires s.edits == [Sample(self, 4, TWO, "n"), Sample(self, 2, TWO, "n")] && s.attempt == null && s.unknown == []
    requires Valid(self, s)
    ensures Genuine(self, s, [s.edits[1]])
    ensures Discarded(self, s, [s.edits[1]]) == (s.(edits := [s.edits[1]]), Success)
  {
    var selected := [s.edits[1]];
    FirstVersion(self, s.edits, selected[0], 1);
    assert SameCell(s.edits[0], TWO, "n");
    assert selected[..0] == [] && RemovedCells(s.edits, []) == s.edits;
    assert RemovedCell(s.edits, TWO, "n") == Without(s.edits, 0) == [s.edits[1]];
  }

  lemma {:induction false} OneEditPerCell(edits: seq<PendingEdit>, i: nat, j: nat)
    requires UniqueCells(edits) && i < |edits| && j < |edits| && SameCell(edits[i], edits[j].primaryKey, edits[j].column)
    ensures i == j
  {
    RowIdentityIsEquivalence(edits[i].primaryKey, edits[j].primaryKey, edits[i].primaryKey);
    var backwards := SameCell(edits[j], edits[i].primaryKey, edits[i].column);
  }

  lemma {:induction false} AddedLockedIsFound(self: PendingEditSet, s: SetState, e: PendingEdit)
    requires AddedLocked(self, s, e).1.Success?
    ensures var t := AddedLocked(self, s, e).0;
      var k := FindCell(t.edits, e.primaryKey, e.column);
      && k < |t.edits|
      && t.edits[k].newValue == e.newValue && t.edits[k].newExpr == e.newExpr && t.edits[k].kind == e.kind
      && t.edits[k].revision == t.nextRevision == s.nextRevision + 1
      && (FindCell(s.edits, e.primaryKey, e.column) < |s.edits| ==>
            t.edits[k].oldValue == s.edits[FindCell(s.edits, e.primaryKey, e.column)].oldValue)
  {
    var t := AddedLocked(self, s, e).0;
    var k := FindCell(s.edits, e.primaryKey, e.column);
    var m := FindCell(t.edits, e.primaryKey, e.column);
    SameRow();
    forall i | 0 <= i < k ensures !SameCell(t.edits[i], e.primaryKey, e.column) {
      assert t.edits[i] == s.edits[i];
    }
    assert SameCell(t.edits[k], e.primaryKey, e.column);
    assert m == k;
  }

  /** A successful staging is found again under every compatible column order, with the key values
      permuted to match; a restaged cell still remembers the value it was loaded with. */
  lemma {:induction false} StagedEditIsFound(self: PendingEditSet, s: SetState, id: EditIdentity, e: PendingEdit,
                                             other: EditIdentity)
    requires AddedWithIdentity(self, s, id, e).1.Success? && Compatible(other, id)
    ensures var t := AddedWithIdentity(self, s, id, e).0;
      var found := Found(t, other, Reordered(other, id, e.primaryKey), e.column);
      && found.Some?
      && found.value.newValue == e.newValue && found.value.newExpr == e.newExpr && found.value.kind == e.kind
      && found.value.revision == t.nextRevision == s.nextRevision + 1
  {
    hide Compatible, Validate, Reordered;
    var t := AddedWithIdentity(self, s, id, e).0;
    var key := Reordered(other, id, e.primaryKey);
    CompatibleIsEquivalence(id, other, id);
    if Compatible(s.identity, id) {
      var staged := e.(primaryKey := Reordered(s.identity, id, e.primaryKey), identity := s.identity);
      AddedLockedIsFound(self, s, staged);
      CompatibleIsEquivalence(s.identity, id, other);
      NormalizeComposes(s.identity, other, id, e.primaryKey);
    } else {
      AddedLockedIsFound(self, s.(identity := id), e);
      NormalizeRoundTrip(other, id, e.primaryKey);
    }
  }
}
