/** Safety of the staged-edit set over every run of its operations. */
module PendingEditRuns {
  import opened Common
  import opened RowValues
  import opened EditIdentities
  import opened PendingEdits
  import opened PendingEditDiscards

  datatype Op =
    | BeginCommit(selection: Option<seq<PendingEdit>>, receipt: PendingEditSet)
    | SettleCommit(settles: PendingEditSet?, committed: bool, unknown: bool, originals: seq<Row>, results: seq<Row>)
    | Add(edit: PendingEdit)
    | BindIdentity(id: EditIdentity)
    | AddWithIdentity(id: EditIdentity, edit: PendingEdit)
    | Remove(pk: Row, col: string)
    | RemoveWithIdentity(id: EditIdentity, pk: Row, col: string)
    | DiscardOwned(selected: seq<PendingEdit>)
    | Clear
    | Retire(snapshot: seq<PendingEdit>)
    | RetireCommitted(snapshot: seq<PendingEdit>, originals: seq<Row>, results: seq<Row>)
    | MarkCommitUnknown(snapshot: seq<PendingEdit>, originals: seq<Row>, results: seq<Row>)
    | ReconcileCommitOutcome(committed: bool)

  /** One call: the state functions the methods of PendingEditSet are proved against. */
  function Step(self: PendingEditSet, s: SetState, op: Op): SetState {
    match op
    case BeginCommit(selection, receipt) => Begun(self, s, selection, receipt)
    case SettleCommit(receipt, committed, unknown, originals, results) =>
      Settled(self, s, receipt, committed, unknown, originals, results)
    case Add(e) => Added(self, s, e).0
    case BindIdentity(id) => Bound(s, id).0
    case AddWithIdentity(id, e) => AddedWithIdentity(self, s, id, e).0
    case Remove(pk, col) => s.(edits := RemovedCell(s.edits, pk, col))
    case RemoveWithIdentity(id, pk, col) =>
      (match Normalize(s.identity, id, pk)
       case None => s
       case Some(key) => s.(edits := RemovedCell(s.edits, key, col)))
    case DiscardOwned(selected) => Discarded(self, s, selected).0
    case Clear => s.(edits := [])
    case Retire(snapshot) => Retired(self, s, snapshot)
    case RetireCommitted(snapshot, originals, results) => RetiredCommitted(self, s, snapshot, originals, results)
    case MarkCommitUnknown(snapshot, originals, results) => MarkedUnknown(s, snapshot, originals, results)
    case ReconcileCommitOutcome(committed) => Reconciled(self, s, committed).0
  }

  function After(self: PendingEditSet, s: SetState, ops: seq<Op>): SetState
    decreases |ops|
  {
    if ops == [] then s else After(self, Step(self, s, ops[0]), ops[1..])
  }

  // ---------------------------------------------------------------------------------------------
  // The invariant

  /** Revisions are owned, positive, at most `next` and pairwise distinct. */
  predicate Numbered(self: PendingEditSet, edits: seq<PendingEdit>, next: nat) {
    && (forall i :: 0 <= i < |edits| ==> edits[i].owner == self && 0 < edits[i].revision <= next)
    && (forall i, j :: 0 <= i < j < |edits| ==> edits[i].revision != edits[j].revision)
  }

  /** Every version of `self` in `snapshot` was issued, and the staged edit that still carries its
      revision, if any, is that very edit. Copies a caller took from the set and left alone are so. */
  predicate Genuine(self: PendingEditSet, s: SetState, snapshot: seq<PendingEdit>) {
    && (forall i :: 0 <= i < |snapshot| && snapshot[i].owner == self ==> snapshot[i].revision <= s.nextRevision)
    && (forall i, k :: 0 <= i < |snapshot| && 0 <= k < |s.edits| && IsVersion(self, snapshot[i], s.edits[k]) ==>
          snapshot[i] == s.edits[k])
  }

  predicate Valid(self: PendingEditSet, s: SetState) {
    && Numbered(self, s.edits, s.nextRevision)
    && (s.attempt == null <==> s.commitEdits == [])
    && Genuine(self, s, s.commitEdits)
    && Genuine(self, s, s.unknown)
  }

  /** Snapshots handed in from outside are unmodified copies. */
  predicate Lawful(self: PendingEditSet, s: SetState, op: Op) {
    match op
    case Retire(snapshot) => Genuine(self, s, snapshot)
    case RetireCommitted(snapshot, _, _) => Genuine(self, s, snapshot)
    case MarkCommitUnknown(snapshot, _, _) => Genuine(self, s, snapshot)
    case _ => true
  }

  predicate LawfulRun(self: PendingEditSet, s: SetState, ops: seq<Op>)
    decreases |ops|
  {
    ops == [] || (Lawful(self, s, ops[0]) && LawfulRun(self, Step(self, s, ops[0]), ops[1..]))
  }

  /** Whatever is staged after a step either was staged before it or carries a fresh revision. */
  predicate Evolves(s: SetState, t: SetState) {
    && s.nextRevision <= t.nextRevision
    && forall k :: 0 <= k < |t.edits| ==> t.edits[k] in s.edits || t.edits[k].revision > s.nextRevision
  }

  // ---------------------------------------------------------------------------------------------
  // What retiring and re-keying do to the list

  lemma {:induction false} KeptHas(self: PendingEditSet, edits: seq<PendingEdit>, snapshot: seq<PendingEdit>,
                                   e: PendingEdit)
    ensures e in Kept(self, edits, snapshot) <==> e in edits && !HeldBy(self, snapshot, e)
    decreases |edits|
  {
    hide HeldBy;
    if edits != [] {
      var n := |edits| - 1;
      KeptHas(self, edits[..n], snapshot, e);
      assert edits == edits[..n] + [edits[n]];
    }
  }

  lemma {:induction false} KeptNumbered(self: PendingEditSet, edits: seq<PendingEdit>, snapshot: seq<PendingEdit>,
                                        next: nat)
    requires Numbered(self, edits, next)
    ensures Numbered(self, Kept(self, edits, snapshot), next)
    decreases |edits|
  {
    hide HeldBy;
    if edits != [] {
      var n := |edits| - 1;
      var rest := Kept(self, edits[..n], snapshot);
      KeptNumbered(self, edits[..n], snapshot, next);
      forall i | 0 <= i < |rest| ensures rest[i].revision != edits[n].revision {
        KeptHas(self, edits[..n], snapshot, rest[i]);
        var k :| 0 <= k < n && edits[..n][k] == rest[i];
      }
    }
  }

  lemma {:induction false} KeptMembers(self: PendingEditSet, edits: seq<PendingEdit>, snapshot: seq<PendingEdit>,
                                       next: nat)
    ensures forall e :: e in Kept(self, edits, snapshot) ==> e in edits && !HeldBy(self, snapshot, e)
    ensures forall e :: e in edits && !HeldBy(self, snapshot, e) ==> e in Kept(self, edits, snapshot)
    ensures Numbered(self, edits, next) ==> Numbered(self, Kept(self, edits, snapshot), next)
  {
    hide HeldBy, Kept, Numbered;
    forall e | e in Kept(self, edits, snapshot) ensures e in edits && !HeldBy(self, snapshot, e) {
      KeptHas(self, edits, snapshot, e);
    }
    forall e | e in edits && !HeldBy(self, snapshot, e) ensures e in Kept(self, edits, snapshot) {
      KeptHas(self, edits, snapshot, e);
    }
    if Numbered(self, edits, next) {
      KeptNumbered(self, edits, snapshot, next);
    }
  }

  lemma {:induction false} MoversMonotone(edits: seq<PendingEdit>, originals: seq<Row>, results: seq<Row>, i: nat,
                                          j: nat)
    requires |originals| == |results| && i <= j <= |edits|
    ensures Movers(edits[..i], originals, results) <= Movers(edits[..j], originals, results)
    ensures i < j && IsMoved(edits[i], originals, results) ==>
      Movers(edits[..i], originals, results) + 1 <= Movers(edits[..j], originals, results)
    decreases j - i
  {
    if i < j {
      MoversMonotone(edits, originals, results, i, j - 1);
      assert edits[..j][..j - 1] == edits[..j - 1] && edits[..j][j - 1] == edits[j - 1];
    }
  }

  lemma {:induction false} RekeyedAt(edits: seq<PendingEdit>, next: nat, originals: seq<Row>, results: seq<Row>, i: nat)
    requires |originals| == |results| && i < |edits|
    ensures Rekeyed(edits, next, originals, results)[i] ==
      if IsMoved(edits[i], originals, results)
      then edits[i].(primaryKey := MovedKey(edits[i].primaryKey, originals, results),
                     revision := next + Movers(edits[..i], originals, results) + 1)
      else edits[i]
    decreases |edits|
  {
    var last := |edits| - 1;
    if i < last {
      RekeyedAt(edits[..last], next, originals, results, i);
      assert edits[..last][..i] == edits[..i];
    }
  }

  lemma {:induction false} RekeyedNumbered(self: PendingEditSet, edits: seq<PendingEdit>, next: nat,
                                           originals: seq<Row>, results: seq<Row>)
    requires |originals| == |results| && Numbered(self, edits, next)
    ensures Numbered(self, Rekeyed(edits, next, originals, results), next + Movers(edits, originals, results))
    ensures forall e :: e in Rekeyed(edits, next, originals, results) ==> e in edits || e.revision > next
  {
    var out := Rekeyed(edits, next, originals, results);
    forall i | 0 <= i < |out|
      ensures out[i].owner == self && 0 < out[i].revision <= next + Movers(edits, originals, results)
      ensures out[i] in edits || out[i].revision > next
    {
      RekeyedAt(edits, next, originals, results, i);
      MoversMonotone(edits, originals, results, i, |edits|);
      assert edits[..|edits|] == edits;
    }
    forall i, j | 0 <= i < j < |out| ensures out[i].revision != out[j].revision {
      RekeyedAt(edits, next, originals, results, i);
      RekeyedAt(edits, next, originals, results, j);
      MoversMonotone(edits, originals, results, i, j);
    }
  }

  lemma {:induction false} RetiredCommittedKeeps(self: PendingEditSet, s: SetState, snapshot: seq<PendingEdit>,
                                                 originals: seq<Row>, results: seq<Row>)
    requires Numbered(self, s.edits, s.nextRevision)
    ensures var t := RetiredCommitted(self, s, snapshot, originals, results);
      Numbered(self, t.edits, t.nextRevision) && Evolves(s, t)
  {
    KeptMembers(self, s.edits, snapshot, s.nextRevision);
    if |originals| == |results| {
      RekeyedNumbered(self, Kept(self, s.edits, snapshot), s.nextRevision, originals, results);
    }
  }

  lemma {:induction false} AddedLockedKeeps(self: PendingEditSet, s: SetState, e: PendingEdit)
    requires Numbered(self, s.edits, s.nextRevision)
    ensures var t := AddedLocked(self, s, e).0; Numbered(self, t.edits, t.nextRevision) && Evolves(s, t)
  {
  }

  lemma {:induction false} RemovedCellKeeps(self: PendingEditSet, edits: seq<PendingEdit>, next: nat, pk: Row,
                                            col: string)
    ensures forall e :: e in RemovedCell(edits, pk, col) ==> e in edits
    ensures Numbered(self, edits, next) ==> Numbered(self, RemovedCell(edits, pk, col), next)
  {
    var k := FindCell(edits, pk, col);
    if k < |edits| {
      var r := Without(edits, k);
      assert forall i {:trigger r[i]} :: 0 <= i < k ==> r[i] == edits[i];
      assert forall i {:trigger r[i]} :: k <= i < |r| ==> r[i] == edits[i + 1];
    }
  }

  lemma {:induction false} RemovedCellsKeeps(self: PendingEditSet, edits: seq<PendingEdit>, next: nat,
                                             selected: seq<PendingEdit>)
    ensures forall e :: e in RemovedCells(edits, selected) ==> e in edits
    ensures Numbered(self, edits, next) ==> Numbered(self, RemovedCells(edits, selected), next)
    decreases |selected|
  {
    if selected != [] {
      var n := |selected| - 1;
      RemovedCellsKeeps(self, edits, next, selected[..n]);
      RemovedCellKeeps(self, RemovedCells(edits, selected[..n]), next, selected[n].primaryKey, selected[n].column);
    }
  }

  lemma SubsetEvolves(s: SetState, t: SetState)
    requires s.nextRevision <= t.nextRevision && forall e :: e in t.edits ==> e in s.edits
    ensures Evolves(s, t)
  {
  }

  lemma {:induction false} AddedWithIdentityKeeps(self: PendingEditSet, s: SetState, id: EditIdentity, e: PendingEdit)
    requires Numbered(self, s.edits, s.nextRevision)
    ensures var t := AddedWithIdentity(self, s, id, e).0; Numbered(self, t.edits, t.nextRevision) && Evolves(s, t)
  {
    AddedLockedKeeps(self, s.(identity := id), e);
    if Compatible(s.identity, id) && |e.primaryKey| == |id.columns| {
      AddedLockedKeeps(self, s, e.(primaryKey := Reordered(s.identity, id, e.primaryKey), identity := s.identity));
    }
  }

  lemma {:induction false} StepEvolves(self: PendingEditSet, s: SetState, op: Op)
    requires Numbered(self, s.edits, s.nextRevision)
    ensures var t := Step(self, s, op); Numbered(self, t.edits, t.nextRevision) && Evolves(s, t)
  {
    hide Numbered, Evolves, RemovedCell, RemovedCells, Kept, Rekeyed, AddedLocked, Compatible, Valid;
    var t := Step(self, s, op);
    SubsetEvolves(s, s);
    match op
    case Add(e) => AddedLockedKeeps(self, s, e);
    case AddWithIdentity(id, e) => AddedWithIdentityKeeps(self, s, id, e);
    case Remove(pk, col) =>
      RemovedCellKeeps(self, s.edits, s.nextRevision, pk, col);
      SubsetEvolves(s, t);
    case RemoveWithIdentity(id, pk, col) =>
      if Normalize(s.identity, id, pk).Some? {
        RemovedCellKeeps(self, s.edits, s.nextRevision, Normalize(s.identity, id, pk).value, col);
      }
      SubsetEvolves(s, t);
    case DiscardOwned(selected) =>
      RemovedCellsKeeps(self, s.edits, s.nextRevision, selected);
      SubsetEvolves(s, t);
    case Retire(snapshot) =>
      KeptMembers(self, s.edits, snapshot, s.nextRevision);
      SubsetEvolves(s, t);
    case RetireCommitted(snapshot, originals, results) => RetiredCommittedKeeps(self, s, snapshot, originals, results);
    case SettleCommit(_, _, _, originals, results) =>
      RetiredCommittedKeeps(self, s, s.commitEdits, originals, results);
      SameEvolves(s, RetiredCommitted(self, s, s.commitEdits, originals, results), t);
      SameEvolves(s, s, t);
    case ReconcileCommitOutcome(_) =>
      RetiredCommittedKeeps(self, s, s.unknown, s.unknownOriginals, s.unknownResults);
      SameEvolves(s, RetiredCommitted(self, s, s.unknown, s.unknownOriginals, s.unknownResults), t);
      SameEvolves(s, s, t);
    case Clear =>
      NoneNumbered(self, s.nextRevision);
      SubsetEvolves(s, t);
    case _ =>
      assert t.edits == s.edits && t.nextRevision == s.nextRevision;
      SubsetEvolves(s, t);
  }

  lemma SameEvolves(s: SetState, u: SetState, t: SetState)
    ensures Evolves(s, u) && t.edits == u.edits && t.nextRevision == u.nextRevision ==> Evolves(s, t)
  {
  }

  lemma NoneNumbered(self: PendingEditSet, next: nat)
    ensures Numbered(self, [], next)
  {
  }

  /** Unmodified copies stay genuine however the set evolves. */
  lemma {:induction false} GenuineEvolves(self: PendingEditSet, s: SetState, t: SetState, snapshot: seq<PendingEdit>)
    requires Genuine(self, s, snapshot) && Evolves(s, t)
    ensures Genuine(self, t, snapshot)
  {
    forall i, k | 0 <= i < |snapshot| && 0 <= k < |t.edits| && IsVersion(self, snapshot[i], t.edits[k])
      ensures snapshot[i] == t.edits[k]
    {
      if t.edits[k] in s.edits {
        var m :| 0 <= m < |s.edits| && s.edits[m] == t.edits[k];
        assert IsVersion(self, snapshot[i], s.edits[m]);
      }
    }
  }

  /** What a step does to the reservation and to the unsettled receipts. */
  lemma {:induction false} StepReservations(self: PendingEditSet, s: SetState, op: Op)
    ensures var t := Step(self, s, op);
      && ((t.attempt == s.attempt && t.commitEdits == s.commitEdits)
          || (t.attempt == null && t.commitEdits == [] && op.SettleCommit?)
          || (op.BeginCommit? && t == Begun(self, s, op.selection, op.receipt) && s.attempt == null
              && BeginCheck(self, s, op.selection).Success?))
      && (t.unknown == s.unknown || t.unknown == []
          || (op.SettleCommit? && t.unknown == s.unknown + s.commitEdits)
          || (op.MarkCommitUnknown? && t.unknown == s.unknown + op.snapshot))
  {
    match op
    case SettleCommit(_, _, _, _, _) =>
    case BeginCommit(_, _) =>
    case _ =>
  }

  lemma {:induction false} CapturedIsGenuine(self: PendingEditSet, s: SetState, selected: seq<PendingEdit>)
    requires Numbered(self, s.edits, s.nextRevision) && AllCurrent(self, s.edits, selected)
    ensures forall i :: 0 <= i < |selected| ==> Captured(self, s.edits, selected)[i] in s.edits
    ensures Genuine(self, s, Captured(self, s.edits, selected))
  {
    var captured := Captured(self, s.edits, selected);
    forall i, k | 0 <= i < |captured| && 0 <= k < |s.edits| && IsVersion(self, captured[i], s.edits[k])
      ensures captured[i] == s.edits[k]
    {
      var at := FindVersion(self, s.edits, selected[i]);
      assert captured[i] == s.edits[at];
    }
  }

  lemma GenuineAppend(self: PendingEditSet, s: SetState, a: seq<PendingEdit>, b: seq<PendingEdit>)
    requires Genuine(self, s, a) && Genuine(self, s, b)
    ensures Genuine(self, s, a + b)
  {
  }

  /** Every operation keeps the invariant. */
  lemma {:induction false} StepKeepsValid(self: PendingEditSet, s: SetState, op: Op)
    requires Valid(self, s) && Lawful(self, s, op)
    ensures Valid(self, Step(self, s, op))
  {
    var t := Step(self, s, op);
    StepEvolves(self, s, op);
    StepReservations(self, s, op);
    GenuineEvolves(self, s, t, s.commitEdits);
    GenuineEvolves(self, s, t, s.unknown);
    if op.BeginCommit? && BeginCheck(self, s, op.selection).Success? {
      CapturedIsGenuine(self, s, Selected(s, op.selection));
      GenuineEvolves(self, s, t, Captured(self, s.edits, Selected(s, op.selection)));
      assert |Captured(self, s.edits, Selected(s, op.selection))| != 0;
    }
    if op.SettleCommit? {
      GenuineAppend(self, t, s.unknown, s.commitEdits);
    }
    if op.MarkCommitUnknown? {
      GenuineEvolves(self, s, t, op.snapshot);
      GenuineAppend(self, t, s.unknown, op.snapshot);
    }
  }

  lemma {:induction false} RunKeepsValid(self: PendingEditSet, s: SetState, ops: seq<Op>)
    requires Valid(self, s) && LawfulRun(self, s, ops)
    ensures Valid(self, After(self, s, ops))
    decreases |ops|
  {
    if ops != [] {
      StepKeepsValid(self, s, ops[0]);
      RunKeepsValid(self, Step(self, s, ops[0]), ops[1..]);
    }
  }

  // ---------------------------------------------------------------------------------------------
  // No lost edit

  /** `e` itself, not merely an edit of the same cell, is in the snapshot. */
  predicate Holds(snapshot: seq<PendingEdit>, e: PendingEdit) {
    exists k :: 0 <= k < |snapshot| && snapshot[k] == e
  }

  /** The same staged intent under its row's resulting key and a fresh revision. */
  predicate Carried(s: SetState, t: SetState, e: PendingEdit, originals: seq<Row>, results: seq<Row>) {
    && |originals| == |results|
    && IsMoved(e, originals, results)
    && exists k :: 0 <= k < |t.edits| && t.edits[k].revision > s.nextRevision
         && t.edits[k] == e.(primaryKey := MovedKey(e.primaryKey, originals, results), revision := t.edits[k].revision)
  }

  /** The same cell, restaged with the payload of `x`. */
  predicate Restaged(s: SetState, t: SetState, e: PendingEdit, x: PendingEdit) {
    exists k :: 0 <= k < |t.edits|
      && t.edits[k] == e.(newValue := x.newValue, newExpr := x.newExpr, kind := x.kind, revision := s.nextRevision + 1)
  }

  /** The only ways a staged edit may leave the set. */
  predicate LeavesBy(self: PendingEditSet, s: SetState, op: Op, e: PendingEdit) {
    var t := Step(self, s, op);
    match op
    case Clear => true
    case Remove(pk, col) => SameCell(e, pk, col)
    case RemoveWithIdentity(id, pk, col) =>
      Normalize(s.identity, id, pk).Some? && SameCell(e, Normalize(s.identity, id, pk).value, col)
    case DiscardOwned(selected) =>
      && s.attempt == null && s.unknown == []
      && (exists k :: 0 <= k < |selected| && SameCell(e, selected[k].primaryKey, selected[k].column))
      && (Genuine(self, s, selected) ==> e in selected || GoesForAnother(s.edits, selected, e))
    case Add(x) => SameCell(e, x.primaryKey, x.column) && Restaged(s, t, e, x)
    case AddWithIdentity(id, x) =>
      && Compatible(s.identity, id) && |x.primaryKey| == |id.columns|
      && SameCell(e, Reordered(s.identity, id, x.primaryKey), x.column) && Restaged(s, t, e, x)
    case Retire(snapshot) => Holds(snapshot, e)
    case RetireCommitted(snapshot, originals, results) =>
      Holds(snapshot, e) || Carried(s, t, e, originals, results)
    case SettleCommit(receipt, committed, _, originals, results) =>
      && committed && s.attempt != null && receipt == s.attempt
      && (Holds(s.commitEdits, e) || Carried(s, t, e, originals, results))
    case ReconcileCommitOutcome(committed) =>
      && committed && s.attempt == null && IsCommitBijection(s.unknown, s.unknownOriginals, s.unknownResults)
      && (Holds(s.unknown, e) || Carried(s, t, e, s.unknownOriginals, s.unknownResults))
    case _ => false
  }

  lemma {:induction false} AddedLockedLoses(self: PendingEditSet, s: SetState, x: PendingEdit, e: PendingEdit)
    requires Numbered(self, s.edits, s.nextRevision) && e in s.edits
    ensures var t := AddedLocked(self, s, x).0;
      e in t.edits || (SameCell(e, x.primaryKey, x.column) && Restaged(s, t, e, x))
  {
    var t := AddedLocked(self, s, x).0;
    var k := FindCell(s.edits, x.primaryKey, x.column);
    var i :| 0 <= i < |s.edits| && s.edits[i] == e;
    assert i != k ==> t.edits[i] == e;
    assert i == k && t != s ==> t.edits[k].revision == s.nextRevision + 1;
  }

  lemma {:induction false} RemovedCellLoses(edits: seq<PendingEdit>, pk: Row, col: string, e: PendingEdit)
    requires e in edits
    ensures SameCell(e, pk, col) || e in RemovedCell(edits, pk, col)
  {
    var k := FindCell(edits, pk, col);
    var i :| 0 <= i < |edits| && edits[i] == e;
    if k < |edits| && i != k {
      var r := Without(edits, k);
      assert r[if i < k then i else i - 1] == e;
    }
  }

  lemma {:induction false} RemovedCellsLoses(edits: seq<PendingEdit>, selected: seq<PendingEdit>, e: PendingEdit)
    requires e in edits && e !in RemovedCells(edits, selected)
    ensures exists k :: 0 <= k < |selected| && SameCell(e, selected[k].primaryKey, selected[k].column)
    decreases |selected|
  {
    assert selected != [];
    var n := |selected| - 1;
    if e in RemovedCells(edits, selected[..n]) {
      RemovedCellLoses(RemovedCells(edits, selected[..n]), selected[n].primaryKey, selected[n].column, e);
    } else {
      RemovedCellsLoses(edits, selected[..n], e);
      var k :| 0 <= k < n && SameCell(e, selected[..n][k].primaryKey, selected[..n][k].column);
      assert SameCell(e, selected[k].primaryKey, selected[k].column);
    }
  }

  lemma {:induction false} HeldIsHeld(self: PendingEditSet, s: SetState, snapshot: seq<PendingEdit>, e: PendingEdit)
    requires Genuine(self, s, snapshot) && e in s.edits && HeldBy(self, snapshot, e)
    ensures Holds(snapshot, e)
  {
    var k :| 0 <= k < |snapshot| && IsVersion(self, snapshot[k], e);
    var i :| 0 <= i < |s.edits| && s.edits[i] == e;
    assert snapshot[k] == s.edits[i];
  }

  lemma {:induction false} RetiredCommittedLoses(self: PendingEditSet, s: SetState, snapshot: seq<PendingEdit>,
                                                 originals: seq<Row>, results: seq<Row>, e: PendingEdit)
    requires Numbered(self, s.edits, s.nextRevision) && Genuine(self, s, snapshot)
    requires e in s.edits && e !in RetiredCommitted(self, s, snapshot, originals, results).edits
    ensures Holds(snapshot, e) || Carried(s, RetiredCommitted(self, s, snapshot, originals, results), e, originals, results)
  {
    var t := RetiredCommitted(self, s, snapshot, originals, results);
    var kept := Kept(self, s.edits, snapshot);
    KeptMembers(self, s.edits, snapshot, s.nextRevision);
    if HeldBy(self, snapshot, e) {
      HeldIsHeld(self, s, snapshot, e);
    } else {
      var i :| 0 <= i < |kept| && kept[i] == e;
      assert |originals| == |results|;
      RekeyedAt(kept, s.nextRevision, originals, results, i);
      assert t.edits[i].revision != e.revision;
      assert Carried(s, t, e, originals, results);
    }
  }

  /** A current selection of unmodified copies is a selection of staged edits. */
  lemma SelectsStaged(self: PendingEditSet, s: SetState, selected: seq<PendingEdit>)
    requires Numbered(self, s.edits, s.nextRevision) && Genuine(self, s, selected) && AllCurrent(self, s.edits, selected)
    ensures Distinct(s.edits) && forall x :: x in selected ==> x in s.edits
  {
    forall x | x in selected ensures x in s.edits {
      var k :| 0 <= k < |selected| && selected[k] == x;
      assert s.edits[FindVersion(self, s.edits, x)] == x;
    }
  }

  /** One step: an edit that is gone left by one of the listed ways. */
  lemma {:induction false} StepLosesNothing(self: PendingEditSet, s: SetState, op: Op, e: PendingEdit)
    requires Valid(self, s) && Lawful(self, s, op)
    requires e in s.edits && e !in Step(self, s, op).edits
    ensures LeavesBy(self, s, op, e)
  {
    match op
    case Add(x) => AddedLockedLoses(self, s, x, e);
    case AddWithIdentity(id, x) =>
      AddedLockedLoses(self, s, x.(primaryKey := Reordered(s.identity, id, x.primaryKey), identity := s.identity), e);
    case Remove(pk, col) => RemovedCellLoses(s.edits, pk, col, e);
    case RemoveWithIdentity(id, pk, col) =>
      RemovedCellLoses(s.edits, Normalize(s.identity, id, pk).value, col, e);
    case DiscardOwned(selected) =>
      RemovedCellsLoses(s.edits, selected, e);
      if Genuine(self, s, selected) {
        SelectsStaged(self, s, selected);
        DiscardLoses(s.edits, selected, e);
      }
    case Retire(snapshot) =>
      KeptMembers(self, s.edits, snapshot, s.nextRevision);
      HeldIsHeld(self, s, snapshot, e);
    case RetireCommitted(snapshot, originals, results) =>
      RetiredCommittedLoses(self, s, snapshot, originals, results, e);
    case SettleCommit(_, _, _, originals, results) =>
      RetiredCommittedLoses(self, s, s.commitEdits, originals, results, e);
    case ReconcileCommitOutcome(_) =>
      RetiredCommittedLoses(self, s, s.unknown, s.unknownOriginals, s.unknownResults, e);
    case _ =>
  }

  lemma {:induction false} AfterUnrolls(self: PendingEditSet, s: SetState, ops: seq<Op>, k: nat)
    requires 0 < k <= |ops|
    ensures After(self, s, ops[..k]) == After(self, Step(self, s, ops[0]), ops[1..][..k - 1])
  {
    assert ops[..k][1..] == ops[1..][..k - 1];
  }

  /** Step k of the run takes the edit out, in one of the listed ways. */
  ghost predicate LeavesAt(self: PendingEditSet, s: SetState, ops: seq<Op>, k: nat, e: PendingEdit)
    requires k < |ops|
  {
    && e in After(self, s, ops[..k]).edits && e !in After(self, s, ops[..k + 1]).edits
    && LeavesBy(self, After(self, s, ops[..k]), ops[k], e)
  }

  /** Over any run: a staged edit that is no longer in the set left at some step, by Remove, Clear, a Discard
      that selects it or takes it for another edit of its cell, a later Add to its cell, a re-key that carries
      it, or a committed settlement or reconciliation whose snapshot holds exactly this edit. */
  lemma {:induction false} NoLostEdit(self: PendingEditSet, s: SetState, ops: seq<Op>, e: PendingEdit)
    requires Valid(self, s) && LawfulRun(self, s, ops)
    requires e in s.edits && e !in After(self, s, ops).edits
    ensures exists k :: 0 <= k < |ops| && LeavesAt(self, s, ops, k, e)
    decreases |ops|
  {
    var t := Step(self, s, ops[0]);
    if e !in t.edits {
      StepLosesNothing(self, s, ops[0], e);
      assert ops[..0] == [] && ops[..1][1..] == [] && ops[..1][0] == ops[0];
      assert After(self, s, ops[..0]) == s && After(self, s, ops[..1]) == t;
      assert LeavesAt(self, s, ops, 0, e);
    } else {
      StepKeepsValid(self, s, ops[0]);
      NoLostEdit(self, t, ops[1..], e);
      var k :| 0 <= k < |ops[1..]| && LeavesAt(self, t, ops[1..], k, e);
      AfterUnrolls(self, s, ops, k + 1);
      AfterUnrolls(self, s, ops, k + 2);
      assert ops[1..][k] == ops[k + 1];
      assert LeavesAt(self, s, ops, k + 1, e);
    }
  }

  predicate Issues(edits: seq<PendingEdit>, revision: nat) {
    exists k :: 0 <= k < |edits| && edits[k].revision == revision
  }

  /** A revision that has been issued and has left never comes back, so a retained snapshot cannot
      retire an edit staged later. */
  lemma {:induction false} RevisionNeverReturns(self: PendingEditSet, s: SetState, ops: seq<Op>, revision: nat)
    requires Numbered(self, s.edits, s.nextRevision) && revision <= s.nextRevision && !Issues(s.edits, revision)
    ensures !Issues(After(self, s, ops).edits, revision)
    decreases |ops|
  {
    if ops != [] {
      var t := Step(self, s, ops[0]);
      StepEvolves(self, s, ops[0]);
      forall k | 0 <= k < |t.edits| ensures t.edits[k].revision != revision {
        if t.edits[k] in s.edits {
          var m :| 0 <= m < |s.edits| && s.edits[m] == t.edits[k];
        }
      }
      RevisionNeverReturns(self, t, ops[1..], revision);
    }
  }

  // ---------------------------------------------------------------------------------------------
  // Reservations and receipts

  /** Calls that neither settle the flight nor re-key rows behind its back. */
  predicate LeavesFlight(s: SetState, op: Op) {
    match op
    case SettleCommit(receipt, _, _, _, _) => receipt != s.attempt
    case RetireCommitted(_, _, _) => false
    case _ => true
  }

  lemma {:induction false} ReservesWholeRows(attempts: seq<PendingEdit>, a: Row, b: Row)
    requires RowIdentityEqual(a, b)
    ensures Reserves(attempts, a) <==> Reserves(attempts, b)
  {
    SameRow();
    forall k | 0 <= k < |attempts|
      ensures RowIdentityEqual(attempts[k].primaryKey, a) <==> RowIdentityEqual(attempts[k].primaryKey, b)
    {
    }
  }

  lemma {:induction false} AddedLockedRespects(self: PendingEditSet, s: SetState, x: PendingEdit, e: PendingEdit)
    requires e in AddedLocked(self, s, x).0.edits
    ensures e in s.edits || !Reserves(s.commitEdits, e.primaryKey)
  {
    SameRow();
    if e !in s.edits {
      assert RowIdentityEqual(e.primaryKey, x.primaryKey);
      ReservesWholeRows(s.commitEdits, e.primaryKey, x.primaryKey);
    }
  }

  lemma {:induction false} StepRespectsReservation(self: PendingEditSet, s: SetState, op: Op, e: PendingEdit)
    requires s.attempt != null && s.commitEdits != [] && LeavesFlight(s, op)
    requires e in Step(self, s, op).edits && Reserves(s.commitEdits, e.primaryKey)
    ensures e in s.edits
  {
    match op
    case Add(x) =>
      if x.primaryKey != [] {
        AddedLockedRespects(self, s, x, e);
      }
    case AddWithIdentity(id, x) =>
      if Compatible(s.identity, id) && |x.primaryKey| == |id.columns| && x.column != "" {
        AddedLockedRespects(self, s, x.(primaryKey := Reordered(s.identity, id, x.primaryKey), identity := s.identity), e);
      }
    case Remove(pk, col) => RemovedCellKeeps(self, s.edits, s.nextRevision, pk, col);
    case RemoveWithIdentity(id, pk, col) =>
      if Normalize(s.identity, id, pk).Some? {
        RemovedCellKeeps(self, s.edits, s.nextRevision, Normalize(s.identity, id, pk).value, col);
      }
    case Retire(snapshot) => KeptMembers(self, s.edits, snapshot, s.nextRevision);
    case _ =>
  }

  predicate FlightLasts(self: PendingEditSet, s: SetState, ops: seq<Op>)
    decreases |ops|
  {
    ops == [] || (LeavesFlight(s, ops[0]) && FlightLasts(self, Step(self, s, ops[0]), ops[1..]))
  }

  /** Between BeginCommit and its settlement the flight stays as it is and the edits on the rows it
      reserves only shrink: nothing is added to, changed on or moved onto a reserved row. */
  lemma {:induction false} ReservedRowsOnlyShrink(self: PendingEditSet, s: SetState, ops: seq<Op>)
    requires s.attempt != null && s.commitEdits != [] && FlightLasts(self, s, ops)
    ensures var t := After(self, s, ops);
      && t.attempt == s.attempt && t.commitEdits == s.commitEdits
      && forall e :: e in t.edits && Reserves(s.commitEdits, e.primaryKey) ==> e in s.edits
    decreases |ops|
  {
    if ops != [] {
      var t := Step(self, s, ops[0]);
      StepReservations(self, s, ops[0]);
      assert t.attempt == s.attempt && t.commitEdits == s.commitEdits;
      ReservedRowsOnlyShrink(self, t, ops[1..]);
      forall e | e in After(self, s, ops).edits && Reserves(s.commitEdits, e.primaryKey) ensures e in s.edits {
        StepRespectsReservation(self, s, ops[0], e);
      }
    }
  }

  /** Once a receipt is not the pending one, no later run that allocates other receipts makes it
      pending again, so delivering it again changes nothing. */
  lemma {:induction false} SpentReceiptIsHarmless(self: PendingEditSet, s: SetState, ops: seq<Op>,
                                                  receipt: PendingEditSet,
                                                  committed: bool, unknown: bool, originals: seq<Row>, results: seq<Row>)
    requires s.attempt != receipt
    requires forall i :: 0 <= i < |ops| && ops[i].BeginCommit? ==> ops[i].receipt != receipt
    ensures var t := After(self, s, ops);
      Step(self, t, SettleCommit(receipt, committed, unknown, originals, results)) == t
    decreases |ops|
  {
    if ops != [] {
      StepReservations(self, s, ops[0]);
      assert forall i :: 0 <= i < |ops[1..]| ==> ops[1..][i] == ops[i + 1];
      SpentReceiptIsHarmless(self, Step(self, s, ops[0]), ops[1..], receipt, committed, unknown, originals, results);
    }
  }

  /** A receipt counts once: whatever runs after its delivery and issues other receipts, a second delivery
      changes nothing, whatever it claims. */
  lemma SecondDeliveryIsHarmless(self: PendingEditSet, s: SetState, receipt: PendingEditSet, first: Op, ops: seq<Op>,
                                 committed: bool, unknown: bool, originals: seq<Row>, results: seq<Row>)
    requires first.SettleCommit? && first.settles == receipt
    requires forall i :: 0 <= i < |ops| && ops[i].BeginCommit? ==> ops[i].receipt != receipt
    ensures var t := After(self, Step(self, s, first), ops);
      Step(self, t, SettleCommit(receipt, committed, unknown, originals, results)) == t
  {
    SpentReceiptIsHarmless(self, Step(self, s, first), ops, receipt, committed, unknown, originals, results);
  }
}
