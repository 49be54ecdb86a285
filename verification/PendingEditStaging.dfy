/** When a call on the set of pkg/models/pending_edit.go succeeds, what a staging changes, and that finding out about
    an unknown commit is as good as having known. */
module PendingEditStaging {
  import opened Common
  import opened RowValues
  import opened EditIdentities
  import opened PendingEdits
  import opened PendingEditRuns
  import opened PendingEditOutcomes

  /** No commit holds the row, neither the one in flight nor one whose outcome is unknown. */
  predicate Free(s: SetState, pk: Row) {
    && (forall e :: e in s.commitEdits ==> !RowIdentityEqual(e.primaryKey, pk))
    && (forall e :: e in s.unknown ==> !RowIdentityEqual(e.primaryKey, pk))
  }

  /** The set holds nothing: no edit, no commit in flight, none unknown. */
  predicate Untouched(s: SetState) { s.edits == [] && s.attempt == null && s.commitEdits == [] && s.unknown == [] }

  predicate FitsBound(s: SetState, pk: Row) { s.identity.relationOID != 0 ==> |pk| == |s.identity.columns| }

  /** What each call asks for. */
  predicate Accepted(self: PendingEditSet, s: SetState, op: Op) {
    match op
    case BeginCommit(selection, _) => MayBegin(self, s, if selection.None? then s.edits else selection.value)
    case DiscardOwned(selected) =>
      s.attempt == null && s.unknown == [] && forall i :: 0 <= i < |selected| ==> StagedVersion(self, s.edits, selected[i])
    case Add(x) => x.primaryKey != [] && FitsBound(s, x.primaryKey) && Free(s, x.primaryKey)
    case AddWithIdentity(id, x) =>
      && Validate(id) && |x.primaryKey| == |id.columns| && x.column != ""
      && if Compatible(s.identity, id) then Free(s, Reordered(s.identity, id, x.primaryKey)) else Untouched(s)
    case BindIdentity(id) => Validate(id) && Untouched(s)
    case RemoveWithIdentity(id, pk, _) => |pk| == |id.columns| && Compatible(s.identity, id)
    case ReconcileCommitOutcome(committed) =>
      s.attempt == null && (committed ==> IsCommitBijection(s.unknown, s.unknownOriginals, s.unknownResults))
    case _ => true
  }

  lemma FreeIsUnreserved(s: SetState, pk: Row)
    ensures Free(s, pk) <==> !Reserves(s.commitEdits, pk) && !Reserves(s.unknown, pk)
  {
    if Free(s, pk) {
      forall k | 0 <= k < |s.commitEdits| ensures !RowIdentityEqual(s.commitEdits[k].primaryKey, pk) {
        assert s.commitEdits[k] in s.commitEdits;
      }
      forall k | 0 <= k < |s.unknown| ensures !RowIdentityEqual(s.unknown[k].primaryKey, pk) {
        assert s.unknown[k] in s.unknown;
      }
    }
  }

  lemma NothingIsFree(s: SetState, pk: Row)
    requires Untouched(s)
    ensures Free(s, pk)
  {
  }

  /** A call succeeds exactly when what it asks for is given; otherwise nothing changes. */
  lemma AcceptedExactly(self: PendingEditSet, s: SetState, op: Op)
    ensures Succeeds(self, s, op) <==> Accepted(self, s, op)
    ensures !Succeeds(self, s, op) ==> Step(self, s, op) == s
  {
    hide Free, Reserves, Validate, RowIdentityEqual, IsVersion, StagedVersion, AllCurrent, IsCommitBijection, Compatible;
    match op
    case BeginCommit(selection, _) => CurrentIsStaged(self, s.edits, if selection.None? then s.edits else selection.value);
    case DiscardOwned(selected) => CurrentIsStaged(self, s.edits, selected);
    case Add(x) => FreeIsUnreserved(s, x.primaryKey);
    case AddWithIdentity(id, x) => AcceptedUnder(self, s, id, x);
    case _ =>
  }

  lemma AcceptedUnder(self: PendingEditSet, s: SetState, id: EditIdentity, x: PendingEdit)
    ensures AddedWithIdentity(self, s, id, x).1.Success? <==> Accepted(self, s, AddWithIdentity(id, x))
    ensures !AddedWithIdentity(self, s, id, x).1.Success? ==> AddedWithIdentity(self, s, id, x).0 == s
  {
    hide Free, Reserves, Validate, RowIdentityEqual, Compatible;
    if Validate(id) && |x.primaryKey| == |id.columns| && x.column != "" {
      if Compatible(s.identity, id) {
        CompatibleLengths(s.identity, id);
        FreeIsUnreserved(s, Reordered(s.identity, id, x.primaryKey));
      } else if Untouched(s) {
        NothingIsFree(s, x.primaryKey);
        FreeIsUnreserved(s.(identity := id), x.primaryKey);
        assert Free(s.(identity := id), x.primaryKey) by { NothingIsFree(s.(identity := id), x.primaryKey); }
      }
    }
  }

  lemma CompatibleLengths(id: EditIdentity, other: EditIdentity)
    requires Compatible(id, other)
    ensures |id.columns| == |other.columns|
  {
  }

  // ---------------------------------------------------------------------------------------------
  // What a staging changes

  /** The edit at `k` is what has been staged, and the only difference. An edit that was there keeps its place, its
      key and what it was loaded with; a new one comes last, as it was given. */
  predicate StagedAt(self: PendingEditSet, s: SetState, t: SetState, k: nat, x: PendingEdit) {
    var before, after := s.edits, t.edits;
    && k < |after| && |after| == (if k < |before| then |before| else k + 1) && k <= |before|
    && (forall i :: 0 <= i < |before| && i != k ==> after[i] == before[i])
    && after[k].newValue == x.newValue && after[k].newExpr == x.newExpr && after[k].kind == x.kind
    && after[k].owner == self && after[k].revision == t.nextRevision == s.nextRevision + 1
    && after[k].column == x.column && RowIdentityEqual(after[k].primaryKey, x.primaryKey)
    && (var origin := if k < |before| then before[k] else x;
        && after[k].primaryKey == origin.primaryKey && after[k].oldValue == origin.oldValue
        && after[k].columnType == origin.columnType && after[k].typeOID == origin.typeOID
        && after[k].loadedAt == origin.loadedAt)
  }

  /** A successful staging touches one cell: the first edit of it, or a new one behind the others if it has none. */
  lemma StagingChangesOneCell(self: PendingEditSet, s: SetState, x: PendingEdit) returns (k: nat)
    requires AddedLocked(self, s, x).1.Success?
    ensures var t := AddedLocked(self, s, x).0;
      && StagedAt(self, s, t, k, x)
      && (forall i :: 0 <= i < k ==> !SameCell(s.edits[i], x.primaryKey, x.column))
      && t == s.(edits := t.edits, nextRevision := t.nextRevision)
  {
    hide RowIdentityEqual, Reserves;
    k := FindCell(s.edits, x.primaryKey, x.column);
    RowIdentityIsEquivalence(x.primaryKey, x.primaryKey, x.primaryKey);
  }

  // ---------------------------------------------------------------------------------------------
  // Finding out later

  /** An unknown outcome that is reconciled ends like the known one: confirmed with its receipt, as a commit, and
      denied, as a rollback. */
  lemma ReconciliationIsSettlement(self: PendingEditSet, s: SetState, receipt: PendingEditSet, committed: bool,
                                   originals: seq<Row>, results: seq<Row>)
    requires s.attempt == receipt && s.unknown == []
    requires committed ==> IsCommitBijection(s.commitEdits, originals, results)
    ensures var later := Step(self, s, SettleCommit(receipt, false, true, originals, results));
      Step(self, later, ReconcileCommitOutcome(committed))
      == Step(self, s, SettleCommit(receipt, committed, false, originals, results))
         .(unknownOriginals := [], unknownResults := [])
  {
    hide IsCommitBijection, Kept, Rekeyed, Movers;
    assert [] + s.commitEdits == s.commitEdits;
  }

  /** A marked attempt, reconciled with a valid receipt, ends like a committed one. */
  lemma MarkIsSettlement(self: PendingEditSet, s: SetState, snapshot: seq<PendingEdit>, originals: seq<Row>,
                         results: seq<Row>)
    requires s.attempt == null && s.unknown == [] && s.unknownOriginals == [] && s.unknownResults == []
    requires IsCommitBijection(snapshot, originals, results)
    ensures var later := Step(self, s, MarkCommitUnknown(snapshot, originals, results));
      Step(self, later, ReconcileCommitOutcome(true)) == Step(self, s, RetireCommitted(snapshot, originals, results))
  {
    hide IsCommitBijection, Kept, Rekeyed, Movers;
    assert [] + snapshot == snapshot && [] + originals == originals && [] + results == results;
  }
}
