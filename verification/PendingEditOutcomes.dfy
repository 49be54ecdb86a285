/** What a commit comes to (pkg/models/pending_edit.go): which edits it carries, and what each outcome does to
    them over every later run. */
module PendingEditOutcomes {
  import opened Common
  import opened RowValues
  import opened EditIdentities
  import opened PendingEdits
  import opened PendingEditDiscards
  import opened PendingEditRuns

  // ---------------------------------------------------------------------------------------------
  // Starting a commit

  /** What a commit may start from: nothing in flight or unknown, something selected, all of it still staged. */
  predicate MayBegin(self: PendingEditSet, s: SetState, selected: seq<PendingEdit>) {
    && s.attempt == null && s.unknown == [] && selected != []
    && forall i :: 0 <= i < |selected| ==> StagedVersion(self, s.edits, selected[i])
  }

  predicate StagedVersion(self: PendingEditSet, edits: seq<PendingEdit>, version: PendingEdit) {
    exists k :: 0 <= k < |edits| && IsVersion(self, version, edits[k])
  }

  lemma CurrentIsStaged(self: PendingEditSet, edits: seq<PendingEdit>, selected: seq<PendingEdit>)
    ensures AllCurrent(self, edits, selected)
      <==> forall i :: 0 <= i < |selected| ==> StagedVersion(self, edits, selected[i])
  {
    forall i | 0 <= i < |selected|
      ensures FindVersion(self, edits, selected[i]) < |edits| <==> StagedVersion(self, edits, selected[i])
    {
      if StagedVersion(self, edits, selected[i]) {
        var k :| 0 <= k < |edits| && IsVersion(self, selected[i], edits[k]);
      }
    }
  }

  lemma CapturedParts(self: PendingEditSet, s: SetState, selected: seq<PendingEdit>)
    requires Numbered(self, s.edits, s.nextRevision) && AllCurrent(self, s.edits, selected)
    ensures var captured := Captured(self, s.edits, selected);
      && (forall i :: 0 <= i < |selected| ==> captured[i] in s.edits && IsVersion(self, selected[i], captured[i]))
      && (selected == s.edits ==> captured == s.edits)
  {
    hide AllCurrent, Captured, IsVersion, Numbered;
    CapturedLength(self, s.edits, selected);
    var captured := Captured(self, s.edits, selected);
    forall i | 0 <= i < |selected|
      ensures captured[i] in s.edits && IsVersion(self, selected[i], captured[i])
    {
      CapturedMember(self, s.edits, selected, i);
    }
    if selected == s.edits {
      forall i | 0 <= i < |captured| ensures captured[i] == s.edits[i] {
        CapturedMember(self, s.edits, selected, i);
        VersionIsItself(self, s.edits, s.nextRevision, s.edits[i], captured[i]);
      }
    }
  }

  lemma CapturedMember(self: PendingEditSet, edits: seq<PendingEdit>, selected: seq<PendingEdit>, i: nat)
    requires AllCurrent(self, edits, selected) && i < |selected|
    ensures var captured := Captured(self, edits, selected);
      captured[i] in edits && IsVersion(self, selected[i], captured[i])
  {
    hide IsVersion;
  }

  lemma VersionIsItself(self: PendingEditSet, edits: seq<PendingEdit>, next: nat, e: PendingEdit, current: PendingEdit)
    requires Numbered(self, edits, next) && e in edits && current in edits && IsVersion(self, e, current)
    ensures e == current
  {
    var i :| 0 <= i < |edits| && edits[i] == e;
    var k :| 0 <= k < |edits| && edits[k] == current;
  }

  /** A commit starts exactly then. It carries, in the order of the selection, the staged edits of the selected
      versions; no selection carries every edit. */
  lemma CommitCarriesSelection(self: PendingEditSet, s: SetState, selection: Option<seq<PendingEdit>>,
                               receipt: PendingEditSet)
    requires Valid(self, s)
    ensures var selected := if selection.None? then s.edits else selection.value;
      var t := Step(self, s, BeginCommit(selection, receipt));
      if !MayBegin(self, s, selected) then t == s
      else
        && t.attempt == receipt && t.edits == s.edits && |t.commitEdits| == |selected|
        && (forall i :: 0 <= i < |selected| ==> t.commitEdits[i] in s.edits && IsVersion(self, selected[i], t.commitEdits[i]))
        && (selection.None? ==> t.commitEdits == s.edits)
  {
    hide AllCurrent, Captured, StagedVersion, Genuine, IsVersion;
    var selected := if selection.None? then s.edits else selection.value;
    CurrentIsStaged(self, s.edits, selected);
    if MayBegin(self, s, selected) {
      CapturedParts(self, s, selected);
      CapturedLength(self, s.edits, selected);
    }
  }

  lemma CapturedLength(self: PendingEditSet, edits: seq<PendingEdit>, selected: seq<PendingEdit>)
    requires AllCurrent(self, edits, selected)
    ensures |Captured(self, edits, selected)| == |selected|
  {
  }

  // ---------------------------------------------------------------------------------------------
  // An unknown outcome

  predicate Includes(unknown: seq<PendingEdit>, attempt: seq<PendingEdit>) { forall e :: e in attempt ==> e in unknown }

  /** The operations that would send or rewrite the rows of an attempt: a commit, a discard, a staging on one of
      its rows. */
  predicate Disturbs(s: SetState, attempt: seq<PendingEdit>, op: Op) {
    match op
    case BeginCommit(_, _) => true
    case DiscardOwned(_) => true
    case Add(x) => HasRow(attempt, x.primaryKey)
    case AddWithIdentity(id, x) =>
      var key := Normalize(s.identity, id, x.primaryKey);
      HasRow(attempt, if key.Some? then key.value else x.primaryKey)
    case _ => false
  }

  /** Whether the call returned without an error. */
  predicate Succeeds(self: PendingEditSet, s: SetState, op: Op) {
    match op
    case BeginCommit(selection, _) => BeginCheck(self, s, selection).Success?
    case DiscardOwned(selected) => Discarded(self, s, selected).1.Success?
    case Add(x) => Added(self, s, x).1.Success?
    case AddWithIdentity(id, x) => AddedWithIdentity(self, s, id, x).1.Success?
    case BindIdentity(id) => Bound(s, id).1.Success?
    case RemoveWithIdentity(id, pk, _) => Normalize(s.identity, id, pk).Some?
    case ReconcileCommitOutcome(committed) => Reconciled(self, s, committed).1.Success?
    case _ => true
  }

  lemma RowIsReserved(attempt: seq<PendingEdit>, unknown: seq<PendingEdit>, pk: Row)
    requires Includes(unknown, attempt) && HasRow(attempt, pk)
    ensures Reserves(unknown, pk)
  {
    var k :| 0 <= k < |attempt| && RowIdentityEqual(pk, attempt[k].primaryKey);
    assert attempt[k] in unknown;
    var i :| 0 <= i < |unknown| && unknown[i] == attempt[k];
    RowIdentityIsEquivalence(pk, attempt[k].primaryKey, pk);
    assert RowIdentityEqual(unknown[i].primaryKey, pk);
  }

  lemma UnknownBlocks(self: PendingEditSet, s: SetState, attempt: seq<PendingEdit>, op: Op)
    requires attempt != [] && Includes(s.unknown, attempt) && Disturbs(s, attempt, op)
    ensures !Succeeds(self, s, op) && Step(self, s, op) == s
  {
    hide HasRow, Reserves, RowIdentityEqual, Compatible, Validate, AllCurrent, RemovedCells, Captured, FindCell, Kept, Rekeyed;
    assert attempt[0] in s.unknown;
    match op
    case Add(x) => RowIsReserved(attempt, s.unknown, x.primaryKey);
    case AddWithIdentity(id, x) =>
      var key := Normalize(s.identity, id, x.primaryKey);
      RowIsReserved(attempt, s.unknown, if key.Some? then key.value else x.primaryKey);
    case _ =>
  }

  lemma StepKeepsUnknown(self: PendingEditSet, s: SetState, op: Op)
    requires s.attempt == null && s.unknown != [] && !op.ReconcileCommitOutcome?
    ensures var t := Step(self, s, op); t.attempt == null && s.unknown <= t.unknown
  {
  }

  predicate Unreconciled(ops: seq<Op>) { forall i :: 0 <= i < |ops| ==> !ops[i].ReconcileCommitOutcome? }

  lemma {:induction false} RunKeepsUnknown(self: PendingEditSet, s: SetState, ops: seq<Op>)
    requires s.attempt == null && s.unknown != [] && Unreconciled(ops)
    ensures var t := After(self, s, ops); t.attempt == null && s.unknown <= t.unknown
    decreases |ops|
  {
    if ops != [] {
      StepKeepsUnknown(self, s, ops[0]);
      assert forall i :: 0 <= i < |ops[1..]| ==> ops[1..][i] == ops[i + 1];
      RunKeepsUnknown(self, Step(self, s, ops[0]), ops[1..]);
    }
  }

  /** An unknown outcome keeps the attempt: every edit of it is retained, and stays so over every run without a
      reconciliation. Until then no commit and no discard succeeds, and nothing can be staged on its rows. */
  lemma UnknownIsRetained(self: PendingEditSet, s: SetState, receipt: PendingEditSet, originals: seq<Row>,
                          results: seq<Row>, ops: seq<Op>, op: Op)
    requires Valid(self, s) && s.attempt == receipt && Unreconciled(ops)
    ensures var t := After(self, Step(self, s, SettleCommit(receipt, false, true, originals, results)), ops);
      && t.attempt == null
      && (forall e :: e in s.commitEdits ==> e in t.unknown)
      && (Disturbs(t, s.commitEdits, op) ==> !Succeeds(self, t, op) && Step(self, t, op) == t)
  {
    var u := Step(self, s, SettleCommit(receipt, false, true, originals, results));
    assert forall e :: e in s.commitEdits ==> e in u.unknown;
    RunKeepsUnknown(self, u, ops);
    var t := After(self, u, ops);
    forall e | e in s.commitEdits ensures e in t.unknown {
      assert e in u.unknown;
    }
    if Disturbs(t, s.commitEdits, op) {
      UnknownBlocks(self, t, s.commitEdits, op);
    }
  }

  lemma {:induction false} UnknownGrows(self: PendingEditSet, s: SetState, ops: seq<Op>)
    requires Unreconciled(ops)
    ensures s.unknown <= After(self, s, ops).unknown
    decreases |ops|
  {
    if ops != [] {
      assert forall i :: 0 <= i < |ops[1..]| ==> ops[1..][i] == ops[i + 1];
      UnknownGrows(self, Step(self, s, ops[0]), ops[1..]);
    }
  }

  /** An attempt that is marked as unknown, whatever is in flight, is retained like that, over every run without a
      reconciliation, and no staging on its rows succeeds. */
  lemma MarkedIsRetained(self: PendingEditSet, s: SetState, snapshot: seq<PendingEdit>, originals: seq<Row>,
                         results: seq<Row>, ops: seq<Op>, op: Op)
    requires Unreconciled(ops)
    ensures var t := After(self, Step(self, s, MarkCommitUnknown(snapshot, originals, results)), ops);
      && (forall e :: e in snapshot ==> e in t.unknown)
      && (snapshot != [] && Disturbs(t, snapshot, op) ==> !Succeeds(self, t, op) && Step(self, t, op) == t)
  {
    var u := Step(self, s, MarkCommitUnknown(snapshot, originals, results));
    assert u.unknown[|s.unknown|..] == snapshot;
    UnknownGrows(self, u, ops);
    var t := After(self, u, ops);
    forall e | e in snapshot ensures e in t.unknown {
      assert e in u.unknown;
    }
    if snapshot != [] && Disturbs(t, snapshot, op) {
      UnknownBlocks(self, t, snapshot, op);
    }
  }

  // ---------------------------------------------------------------------------------------------
  // A known outcome

  lemma RetiredLeave(self: PendingEditSet, s: SetState, snapshot: seq<PendingEdit>, originals: seq<Row>,
                     results: seq<Row>, e: PendingEdit)
    requires Numbered(self, s.edits, s.nextRevision) && e in s.edits && e in snapshot
    ensures !Issues(RetiredCommitted(self, s, snapshot, originals, results).edits, e.revision)
  {
    var kept := Kept(self, s.edits, snapshot);
    var t := RetiredCommitted(self, s, snapshot, originals, results);
    KeptMembers(self, s.edits, snapshot, s.nextRevision);
    var at :| 0 <= at < |s.edits| && s.edits[at] == e;
    forall i | 0 <= i < |kept| ensures kept[i].revision != e.revision {
      assert kept[i] in kept;
      var k :| 0 <= k < |s.edits| && s.edits[k] == kept[i];
      var n :| 0 <= n < |snapshot| && snapshot[n] == e;
      assert IsVersion(self, snapshot[n], kept[i]) <==> kept[i].revision == e.revision;
    }
    if |originals| == |results| {
      forall i | 0 <= i < |t.edits| ensures t.edits[i].revision != e.revision {
        RekeyedAt(kept, s.nextRevision, originals, results, i);
      }
    }
  }

  lemma StillGone(self: PendingEditSet, t: SetState, ops: seq<Op>, revision: nat)
    requires Numbered(self, t.edits, t.nextRevision) && revision <= t.nextRevision && !Issues(t.edits, revision)
    ensures !Issues(After(self, t, ops).edits, revision)
  {
    RevisionNeverReturns(self, t, ops, revision);
  }

  /** A committed attempt is over: none of the edits it carried is staged again in any later run. */
  lemma CommittedEditsLeave(self: PendingEditSet, s: SetState, receipt: PendingEditSet, unknown: bool,
                            originals: seq<Row>, results: seq<Row>, ops: seq<Op>, e: PendingEdit)
    requires Valid(self, s) && s.attempt == receipt && e in s.commitEdits && e in s.edits
    ensures var t := Step(self, s, SettleCommit(receipt, true, unknown, originals, results));
      t.attempt == null && t.unknown == s.unknown && !Issues(After(self, t, ops).edits, e.revision)
  {
    var op := SettleCommit(receipt, true, unknown, originals, results);
    var t := Step(self, s, op);
    RetiredLeave(self, s, s.commitEdits, originals, results, e);
    StepEvolves(self, s, op);
    StillGone(self, t, ops, e.revision);
  }

  /** A rolled back attempt, and an unknown one, leave every edit staged; a rolled back one retains nothing. */
  lemma FailedCommitKeepsEdits(self: PendingEditSet, s: SetState, receipt: PendingEditSet, unknown: bool,
                               originals: seq<Row>, results: seq<Row>)
    requires s.attempt == receipt
    ensures var t := Step(self, s, SettleCommit(receipt, false, unknown, originals, results));
      t.attempt == null && t.edits == s.edits && (!unknown ==> t.unknown == s.unknown)
  {
  }

  /** A reconciliation settles an unknown outcome for good: confirmed, none of its edits is staged in any later
      run; denied, all edits stay. Either way the next commit may start. */
  lemma ReconciliationSettles(self: PendingEditSet, s: SetState, committed: bool, ops: seq<Op>, e: PendingEdit)
    requires Valid(self, s) && s.attempt == null
    requires committed ==> IsCommitBijection(s.unknown, s.unknownOriginals, s.unknownResults)
    ensures var t := Step(self, s, ReconcileCommitOutcome(committed));
      && t.unknown == [] && t.attempt == null
      && (!committed ==> t.edits == s.edits)
      && (committed && e in s.unknown && e in s.edits ==> !Issues(After(self, t, ops).edits, e.revision))
  {
    if committed && e in s.unknown && e in s.edits {
      RetiredLeave(self, s, s.unknown, s.unknownOriginals, s.unknownResults, e);
      StepEvolves(self, s, ReconcileCommitOutcome(committed));
      StillGone(self, Step(self, s, ReconcileCommitOutcome(committed)), ops, e.revision);
    }
  }

  // ---------------------------------------------------------------------------------------------
  // The identity of staged edits

  /** A set that is bound to a relation holds edits of that identity only. */
  predicate OneIdentity(s: SetState) {
    s.identity.relationOID != 0 ==> forall i :: 0 <= i < |s.edits| ==> s.edits[i].identity == s.identity
  }

  lemma AddedKeepsIdentity(self: PendingEditSet, s: SetState, x: PendingEdit)
    requires OneIdentity(s)
    ensures OneIdentity(AddedLocked(self, s, x).0)
  {
  }

  lemma StepKeepsIdentity(self: PendingEditSet, s: SetState, op: Op)
    requires OneIdentity(s)
    ensures OneIdentity(Step(self, s, op))
  {
    match op
    case AddWithIdentity(id, x) =>
      AddedWithIdentityKeepsIdentity(self, s, id, x);
    case Remove(pk, col) => RemovedKeepsIdentity(s, [pk], col);
    case RemoveWithIdentity(id, pk, col) =>
      if Normalize(s.identity, id, pk).Some? {
        RemovedKeepsIdentity(s, [Normalize(s.identity, id, pk).value], col);
      }
    case DiscardOwned(selected) =>
      RemovedCellsKeeps(self, s.edits, s.nextRevision, selected);
      SubsetKeepsIdentity(s, RemovedCells(s.edits, selected));
    case Retire(snapshot) =>
      KeptMembers(self, s.edits, snapshot, s.nextRevision);
      SubsetKeepsIdentity(s, Kept(self, s.edits, snapshot));
    case RetireCommitted(snapshot, originals, results) =>
      RetiredKeepsIdentity(self, s, snapshot, originals, results);
    case SettleCommit(_, _, _, originals, results) => RetiredKeepsIdentity(self, s, s.commitEdits, originals, results);
    case ReconcileCommitOutcome(_) => RetiredKeepsIdentity(self, s, s.unknown, s.unknownOriginals, s.unknownResults);
    case _ =>
  }

  lemma SubsetKeepsIdentity(s: SetState, edits: seq<PendingEdit>)
    requires OneIdentity(s) && forall e :: e in edits ==> e in s.edits
    ensures OneIdentity(s.(edits := edits))
  {
    if s.identity.relationOID != 0 {
      forall i | 0 <= i < |edits| ensures edits[i].identity == s.identity {
        assert edits[i] in edits;
      }
    }
  }

  lemma RemovedKeepsIdentity(s: SetState, pk: seq<Row>, col: string)
    requires OneIdentity(s) && |pk| == 1
    ensures OneIdentity(s.(edits := RemovedCell(s.edits, pk[0], col)))
  {
  }

  lemma AddedWithIdentityKeepsIdentity(self: PendingEditSet, s: SetState, id: EditIdentity, x: PendingEdit)
    requires OneIdentity(s)
    ensures OneIdentity(AddedWithIdentity(self, s, id, x).0)
  {
    if Compatible(s.identity, id) && |x.primaryKey| == |id.columns| {
      AddedKeepsIdentity(self, s, x.(primaryKey := Reordered(s.identity, id, x.primaryKey), identity := s.identity));
    }
    if Quiescent(s) {
      AddedKeepsIdentity(self, s.(identity := id), x);
    }
  }

  lemma RetiredKeepsIdentity(self: PendingEditSet, s: SetState, snapshot: seq<PendingEdit>, originals: seq<Row>,
                             results: seq<Row>)
    requires OneIdentity(s)
    ensures OneIdentity(RetiredCommitted(self, s, snapshot, originals, results))
  {
    var kept := Kept(self, s.edits, snapshot);
    KeptMembers(self, s.edits, snapshot, s.nextRevision);
    SubsetKeepsIdentity(s, kept);
    if |originals| == |results| {
      forall i | 0 <= i < |kept|
        ensures Rekeyed(kept, s.nextRevision, originals, results)[i].identity == kept[i].identity
      {
        RekeyedAt(kept, s.nextRevision, originals, results, i);
      }
    }
  }

  lemma {:induction false} RunKeepsIdentity(self: PendingEditSet, s: SetState, ops: seq<Op>)
    requires OneIdentity(s)
    ensures OneIdentity(After(self, s, ops))
    decreases |ops|
  {
    if ops != [] {
      StepKeepsIdentity(self, s, ops[0]);
      RunKeepsIdentity(self, Step(self, s, ops[0]), ops[1..]);
    }
  }

  /** After any run from a new set, a staging under an identity that succeeds leaves the edit of that cell, and the
      set, under an identity of the relation it was given, with the same columns. */
  lemma StagedUnderItsRelation(self: PendingEditSet, ops: seq<Op>, id: EditIdentity, x: PendingEdit)
    requires AddedWithIdentity(self, After(self, EMPTY, ops), id, x).1.Success?
    ensures var t := Step(self, After(self, EMPTY, ops), AddWithIdentity(id, x));
      && t.identity.relationOID == id.relationOID != 0
      && (forall c :: c in id.columns <==> c in t.identity.columns)
      && exists k :: 0 <= k < |t.edits| && t.edits[k].revision == t.nextRevision && t.edits[k].identity == t.identity
           && t.edits[k].column == x.column && t.edits[k].newValue == x.newValue
  {
    hide Compatible, Validate, Reordered;
    var s := After(self, EMPTY, ops);
    RunKeepsIdentity(self, EMPTY, ops);
    AddedWithIdentityKeepsIdentity(self, s, id, x);
    var t := AddedWithIdentity(self, s, id, x).0;
    assert Validate(id);
    ValidIsBound(id);
    if Compatible(s.identity, id) {
      CompatibleRelation(s.identity, id);
      StagedLast(self, s, x.(primaryKey := Reordered(s.identity, id, x.primaryKey), identity := s.identity));
    } else {
      StagedLast(self, s.(identity := id), x);
    }
  }

  lemma ValidIsBound(id: EditIdentity)
    requires Validate(id)
    ensures id.relationOID != 0
  {
  }

  lemma CompatibleRelation(id: EditIdentity, other: EditIdentity)
    requires Compatible(id, other)
    ensures id.relationOID == other.relationOID && forall c :: c in other.columns <==> c in id.columns
  {
    CompatibleSymmetric(id, other);
  }

  lemma StagedLast(self: PendingEditSet, s: SetState, x: PendingEdit)
    requires AddedLocked(self, s, x).1.Success?
    ensures var t := AddedLocked(self, s, x).0;
      exists k :: 0 <= k < |t.edits| && t.edits[k].revision == t.nextRevision
        && t.edits[k].column == x.column && t.edits[k].newValue == x.newValue
  {
    var t := AddedLocked(self, s, x).0;
    var k := FindCell(s.edits, x.primaryKey, x.column);
    assert t.edits[k].revision == t.nextRevision;
  }
}
