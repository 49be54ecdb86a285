/** The staged-edit set and its commit protocol (pkg/models/pending_edit.go).

    PendingEditSet updates its fields in place, so it is a class; each of its methods is proved
    against a function on `SetState`, the value of those fields. PendingEditRuns.dfy reasons about
    whole runs of these functions. Copies made by the source's clone functions are values here. */
module PendingEdits {
  import opened Common
  import opened RowValues
  import opened EditIdentities

  datatype EditKind = Literal | Expression

  datatype Error =
    | EmptyPrimaryKey
    | CommitOutcomeUnknown
    | CommitIdentityUnresolved
    | CommitInFlight
    | CommitSnapshotStale
    | IdentityMismatch
    | IdentityUnresolved

  datatype Status = Success | Failure(error: Error)

  datatype PendingEdit = PendingEdit(
    revision: nat,
    owner: PendingEditSet?,
    identity: EditIdentity,
    primaryKey: Row,
    column: string,
    columnType: string,
    typeOID: nat,
    oldValue: Value,
    newValue: Value,
    newExpr: string,
    kind: EditKind,
    loadedAt: int)

  /** The fields of a set. A commit is in flight exactly while `attempt` holds its receipt. */
  datatype SetState = SetState(
    edits: seq<PendingEdit>,
    nextRevision: nat,
    unknown: seq<PendingEdit>,
    unknownOriginals: seq<Row>,
    unknownResults: seq<Row>,
    attempt: PendingEditSet?,
    commitEdits: seq<PendingEdit>,
    identity: EditIdentity)

  const EMPTY := SetState([], 0, [], [], [], null, [], UNBOUND)

  // ---------------------------------------------------------------------------------------------
  // Searches shared by the operations

  /** Two edits address the same cell. */
  predicate SameCell(e: PendingEdit, pk: Row, col: string) {
    e.column == col && RowIdentityEqual(e.primaryKey, pk)
  }

  /** The first edit of the cell, or |edits|. */
  function FindCell(edits: seq<PendingEdit>, pk: Row, col: string): (k: nat)
    ensures k <= |edits|
    ensures k < |edits| ==> SameCell(edits[k], pk, col)
    ensures forall i :: 0 <= i < k ==> !SameCell(edits[i], pk, col)
  {
    if edits == [] || SameCell(edits[0], pk, col) then 0 else 1 + FindCell(edits[1..], pk, col)
  }

  /** `version` is an unmodified version of the set `self`, still staged at `current`. */
  predicate IsVersion(self: PendingEditSet, version: PendingEdit, current: PendingEdit) {
    version.owner == self && version.revision != 0 && version.revision == current.revision
  }

  function FindVersion(self: PendingEditSet, edits: seq<PendingEdit>, version: PendingEdit): (k: nat)
    ensures k <= |edits|
    ensures k < |edits| ==> IsVersion(self, version, edits[k])
    ensures forall i :: 0 <= i < k ==> !IsVersion(self, version, edits[i])
  {
    if edits == [] || IsVersion(self, version, edits[0]) then 0 else 1 + FindVersion(self, edits[1..], version)
  }

  predicate Reserves(attempts: seq<PendingEdit>, pk: Row) {
    exists k :: 0 <= k < |attempts| && RowIdentityEqual(attempts[k].primaryKey, pk)
  }

  // ---------------------------------------------------------------------------------------------
  // Specifications of the operations

  /** What an edit replaced in place keeps and takes (addLocked's assignment list). */
  function Replaced(existing: PendingEdit, e: PendingEdit): PendingEdit {
    existing.(newValue := e.newValue, newExpr := e.newExpr, kind := e.kind, revision := e.revision, owner := e.owner)
  }

  /** addLocked. */
  function AddedLocked(self: PendingEditSet, s: SetState, e: PendingEdit): (SetState, Status) {
    if s.identity.relationOID != 0 && |e.primaryKey| != |s.identity.columns| then (s, Failure(IdentityMismatch))
    else if Reserves(s.commitEdits, e.primaryKey) then (s, Failure(CommitInFlight))
    else if Reserves(s.unknown, e.primaryKey) then (s, Failure(CommitOutcomeUnknown))
    else
      var id := if s.identity.relationOID != 0 then s.identity else e.identity;
      var staged := e.(identity := id, owner := self, revision := s.nextRevision + 1);
      var k := FindCell(s.edits, e.primaryKey, e.column);
      var edits := if k < |s.edits| then s.edits[k := Replaced(s.edits[k], staged)] else s.edits + [staged];
      (s.(edits := edits, nextRevision := s.nextRevision + 1), Success)
  }

  function Added(self: PendingEditSet, s: SetState, e: PendingEdit): (SetState, Status) {
    if e.primaryKey == [] then (s, Failure(EmptyPrimaryKey)) else AddedLocked(self, s, e)
  }

  predicate Quiescent(s: SetState) {
    s.edits == [] && s.attempt == null && s.commitEdits == [] && s.unknown == []
  }

  function Bound(s: SetState, id: EditIdentity): (SetState, Status) {
    if !Validate(id) then (s, Failure(IdentityUnresolved))
    else if !Quiescent(s) then (s, Failure(IdentityMismatch))
    else (s.(identity := id), Success)
  }

  function AddedWithIdentity(self: PendingEditSet, s: SetState, id: EditIdentity, e: PendingEdit): (SetState, Status) {
    if !Validate(id) then (s, Failure(IdentityUnresolved))
    else if |e.primaryKey| != |id.columns| then (s, Failure(IdentityMismatch))
    else if e.column == "" then (s, Failure(IdentityUnresolved))
    else if Compatible(s.identity, id) then
      AddedLocked(self, s, e.(primaryKey := Reordered(s.identity, id, e.primaryKey), identity := s.identity))
    else if !Quiescent(s) then (s, Failure(IdentityMismatch))
    else
      var (after, status) := AddedLocked(self, s.(identity := id), e);
      if status.Success? then (after, status) else (s, status)
  }

  function Found(s: SetState, id: EditIdentity, pk: Row, col: string): Option<PendingEdit> {
    match Normalize(s.identity, id, pk)
    case None => None
    case Some(key) =>
      var k := FindCell(s.edits, key, col);
      if k < |s.edits| then Some(s.edits[k]) else None
  }

  function RemovedCell(edits: seq<PendingEdit>, pk: Row, col: string): seq<PendingEdit> {
    var k := FindCell(edits, pk, col);
    if k < |edits| then Without(edits, k) else edits
  }

  function RemovedCells(edits: seq<PendingEdit>, selected: seq<PendingEdit>): seq<PendingEdit>
    decreases |selected|
  {
    if selected == [] then edits
    else
      var last := selected[|selected| - 1];
      RemovedCell(RemovedCells(edits, selected[..|selected| - 1]), last.primaryKey, last.column)
  }

  predicate AllCurrent(self: PendingEditSet, edits: seq<PendingEdit>, selected: seq<PendingEdit>) {
    forall i :: 0 <= i < |selected| ==> FindVersion(self, edits, selected[i]) < |edits|
  }

  function Discarded(self: PendingEditSet, s: SetState, selected: seq<PendingEdit>): (SetState, Status) {
    if s.attempt != null then (s, Failure(CommitInFlight))
    else if s.unknown != [] then (s, Failure(CommitOutcomeUnknown))
    else if !AllCurrent(self, s.edits, selected) then (s, Failure(CommitSnapshotStale))
    else (s.(edits := RemovedCells(s.edits, selected)), Success)
  }

  /** The current text of every selected version, in selection order. */
  function Captured(self: PendingEditSet, edits: seq<PendingEdit>, selected: seq<PendingEdit>): (r: seq<PendingEdit>)
    requires AllCurrent(self, edits, selected)
    ensures |r| == |selected|
  {
    seq(|selected|, i requires 0 <= i < |selected| => edits[FindVersion(self, edits, selected[i])])
  }

  /** What BeginCommit refuses; None selects every edit. */
  function BeginCheck(self: PendingEditSet, s: SetState, selection: Option<seq<PendingEdit>>): Status {
    if s.attempt != null then Failure(CommitInFlight)
    else if s.unknown != [] then Failure(CommitOutcomeUnknown)
    else if Selected(s, selection) == [] then Failure(CommitSnapshotStale)
    else if !AllCurrent(self, s.edits, Selected(s, selection)) then Failure(CommitSnapshotStale)
    else Success
  }

  function Selected(s: SetState, selection: Option<seq<PendingEdit>>): seq<PendingEdit> {
    if selection.None? then s.edits else selection.value
  }

  /** BeginCommit. The receipt is the snapshot object the call allocates. */
  function Begun(self: PendingEditSet, s: SetState, selection: Option<seq<PendingEdit>>,
                 receipt: PendingEditSet): SetState {
    if BeginCheck(self, s, selection).Success?
    then s.(attempt := receipt, commitEdits := Captured(self, s.edits, Selected(s, selection)))
    else s
  }

  // retire: drop the versions the snapshot holds.

  predicate HeldBy(self: PendingEditSet, snapshot: seq<PendingEdit>, e: PendingEdit) {
    exists k :: 0 <= k < |snapshot| && IsVersion(self, snapshot[k], e)
  }

  function Kept(self: PendingEditSet, edits: seq<PendingEdit>, snapshot: seq<PendingEdit>): seq<PendingEdit>
    decreases |edits|
  {
    if edits == [] then []
    else
      var n := |edits| - 1;
      var rest := Kept(self, edits[..n], snapshot);
      if HeldBy(self, snapshot, edits[n]) then rest else rest + [edits[n]]
  }

  // retireCommitted: carry survivors of a moved row to the row's resulting key.

  predicate Moves(pk: Row, original: Row, result: Row) {
    RowIdentityEqual(pk, original) && !RowIdentityEqual(original, result)
  }

  /** The first entry of the receipt that moves `pk`, or |originals|. */
  function MoveOf(pk: Row, originals: seq<Row>, results: seq<Row>): (j: nat)
    requires |originals| == |results|
    ensures j <= |originals|
    ensures j < |originals| ==> Moves(pk, originals[j], results[j])
    ensures forall i :: 0 <= i < j ==> !Moves(pk, originals[i], results[i])
  {
    if originals == [] || Moves(pk, originals[0], results[0]) then 0
    else 1 + MoveOf(pk, originals[1..], results[1..])
  }

  predicate IsMoved(e: PendingEdit, originals: seq<Row>, results: seq<Row>)
    requires |originals| == |results|
  {
    MoveOf(e.primaryKey, originals, results) < |originals|
  }

  function MovedKey(pk: Row, originals: seq<Row>, results: seq<Row>): Row
    requires |originals| == |results|
  {
    var j := MoveOf(pk, originals, results);
    if j < |originals| then results[j] else pk
  }

  function Movers(edits: seq<PendingEdit>, originals: seq<Row>, results: seq<Row>): (n: nat)
    requires |originals| == |results|
    ensures n <= |edits|
  {
    if edits == [] then 0
    else
      var last := |edits| - 1;
      Movers(edits[..last], originals, results) + if IsMoved(edits[last], originals, results) then 1 else 0
  }

  /** Every moved edit takes its row's result key and a revision of its own, in list order. */
  function Rekeyed(edits: seq<PendingEdit>, next: nat, originals: seq<Row>, results: seq<Row>): (r: seq<PendingEdit>)
    requires |originals| == |results|
    ensures |r| == |edits|
    decreases |edits|
  {
    if edits == [] then []
    else
      var last := |edits| - 1;
      var e := edits[last];
      var here :=
        if IsMoved(e, originals, results)
        then e.(primaryKey := MovedKey(e.primaryKey, originals, results),
                revision := next + Movers(edits[..last], originals, results) + 1)
        else e;
      Rekeyed(edits[..last], next, originals, results) + [here]
  }

  function Retired(self: PendingEditSet, s: SetState, snapshot: seq<PendingEdit>): SetState {
    s.(edits := Kept(self, s.edits, snapshot))
  }

  function RetiredCommitted(self: PendingEditSet, s: SetState, snapshot: seq<PendingEdit>,
                            originals: seq<Row>, results: seq<Row>): SetState
  {
    var kept := Kept(self, s.edits, snapshot);
    if |originals| != |results| then s.(edits := kept)
    else s.(edits := Rekeyed(kept, s.nextRevision, originals, results),
            nextRevision := s.nextRevision + Movers(kept, originals, results))
  }

  function Settled(self: PendingEditSet, s: SetState, receipt: PendingEditSet?, committed: bool, unknown: bool,
                   originals: seq<Row>, results: seq<Row>): SetState
  {
    if receipt == null || s.attempt != receipt then s
    else
      var after :=
        if committed then RetiredCommitted(self, s, s.commitEdits, originals, results)
        else if unknown then
          s.(unknown := s.unknown + s.commitEdits, unknownOriginals := originals, unknownResults := results)
        else s;
      after.(attempt := null, commitEdits := [])
  }

  function MarkedUnknown(s: SetState, snapshot: seq<PendingEdit>, originals: seq<Row>, results: seq<Row>): SetState {
    s.(unknown := s.unknown + snapshot,
       unknownOriginals := s.unknownOriginals + originals,
       unknownResults := s.unknownResults + results)
  }

  // What a receipt must satisfy before survivors are re-keyed by an explicit reconciliation.

  /** originals -> results is one-to-one, its domain is exactly the rows of `edits`, and no result
      key has a NULL. */
  predicate IsCommitBijection(edits: seq<PendingEdit>, originals: seq<Row>, results: seq<Row>) {
    && |originals| == |results|
    && (forall i :: 0 <= i < |originals| ==> originals[i] != [] && |originals[i]| == |results[i]| && Nil !in results[i])
    && (forall i, j :: 0 <= j < i < |originals| ==>
          !RowIdentityEqual(originals[i], originals[j]) && !RowIdentityEqual(results[i], results[j]))
    && (forall i :: 0 <= i < |originals| ==> HasRow(edits, originals[i]))
    && (forall k :: 0 <= k < |edits| ==> ListsRow(originals, edits[k].primaryKey))
  }

  predicate HasRow(edits: seq<PendingEdit>, pk: Row) {
    exists k :: 0 <= k < |edits| && RowIdentityEqual(pk, edits[k].primaryKey)
  }

  predicate ListsRow(rows: seq<Row>, pk: Row) {
    exists i :: 0 <= i < |rows| && RowIdentityEqual(rows[i], pk)
  }

  function Reconciled(self: PendingEditSet, s: SetState, committed: bool): (SetState, Status) {
    if s.attempt != null then (s, Failure(CommitInFlight))
    else if committed && !IsCommitBijection(s.unknown, s.unknownOriginals, s.unknownResults) then
      (s, Failure(CommitIdentityUnresolved))
    else
      var after :=
        if committed then RetiredCommitted(self, s, s.unknown, s.unknownOriginals, s.unknownResults) else s;
      (after.(unknown := [], unknownOriginals := [], unknownResults := []), Success)
  }

  // ---------------------------------------------------------------------------------------------
  // Read-only searches, as the source's loops

  method FindEdit(edits: seq<PendingEdit>, pk: Row, col: string) returns (k: nat)
    ensures k == FindCell(edits, pk, col)
  {
    k := 0;
    while k < |edits|
      invariant k <= |edits|
      invariant forall i :: 0 <= i < k ==> !SameCell(edits[i], pk, col)
    {
      if SameCell(edits[k], pk, col) {
        return;
      }
      k := k + 1;
    }
  }

  method MatchesRow(edits: seq<PendingEdit>, pk: Row) returns (found: bool)
    ensures found <==> Reserves(edits, pk)
  {
    for i := 0 to |edits|
      invariant forall k :: 0 <= k < i ==> !RowIdentityEqual(edits[k].primaryKey, pk)
    {
      if RowIdentityEqual(edits[i].primaryKey, pk) {
        return true;
      }
    }
    return false;
  }

  method AmongRows(rows: seq<Row>, n: nat, pk: Row) returns (found: bool)
    requires n <= |rows|
    ensures found <==> exists m :: 0 <= m < n && RowIdentityEqual(pk, rows[m])
  {
    for j := 0 to n
      invariant forall m :: 0 <= m < j ==> !RowIdentityEqual(pk, rows[m])
    {
      if RowIdentityEqual(pk, rows[j]) {
        return true;
      }
    }
    found := false;
  }

  method IsAttempted(edits: seq<PendingEdit>, pk: Row) returns (found: bool)
    ensures found <==> HasRow(edits, pk)
  {
    for k := 0 to |edits|
      invariant forall m :: 0 <= m < k ==> !RowIdentityEqual(pk, edits[m].primaryKey)
    {
      if RowIdentityEqual(pk, edits[k].primaryKey) {
        return true;
      }
    }
    found := false;
  }

  method IsListed(rows: seq<Row>, pk: Row) returns (found: bool)
    ensures found <==> ListsRow(rows, pk)
  {
    for i := 0 to |rows|
      invariant forall m :: 0 <= m < i ==> !RowIdentityEqual(rows[m], pk)
    {
      if RowIdentityEqual(rows[i], pk) {
        return true;
      }
    }
    found := false;
  }

  method HasNil(row: Row) returns (found: bool)
    ensures found <==> Nil in row
  {
    for m := 0 to |row|
      invariant Nil !in row[..m]
    {
      if row[m] == Nil {
        return true;
      }
    }
    found := false;
  }

  /** validCommitIdentities: nested loops over the receipt, deciding IsCommitBijection. */
  method ValidCommitIdentities(edits: seq<PendingEdit>, originals: seq<Row>, results: seq<Row>) returns (valid: bool)
    ensures valid <==> IsCommitBijection(edits, originals, results)
  {
    hide RowIdentityEqual, HasRow, ListsRow;
    if |originals| != |results| {
      return false;
    }
    for i := 0 to |originals|
      invariant forall k :: 0 <= k < i ==>
        originals[k] != [] && |originals[k]| == |results[k]| && Nil !in results[k] && HasRow(edits, originals[k])
      invariant forall k, j :: 0 <= j < k < i ==>
        !RowIdentityEqual(originals[k], originals[j]) && !RowIdentityEqual(results[k], results[j])
    {
      var pk := originals[i];
      if |pk| == 0 || |pk| != |results[i]| {
        return false;
      }
      var attempted := IsAttempted(edits, pk);
      var hasNil := HasNil(results[i]);
      var repeated := AmongRows(originals, i, pk);
      var reused := AmongRows(results, i, results[i]);
      if !attempted || hasNil || repeated || reused {
        return false;
      }
    }
    for k := 0 to |edits|
      invariant forall m :: 0 <= m < k ==> ListsRow(originals, edits[m].primaryKey)
    {
      var found := IsListed(originals, edits[k].primaryKey);
      if !found {
        return false;
      }
    }
    return true;
  }

  /** The search shared by BeginCommit and DiscardOwned: the current edit of every selected version,
      or nothing as soon as one of them is stale. */
  method CaptureVersions(self: PendingEditSet, edits: seq<PendingEdit>, selected: seq<PendingEdit>)
    returns (r: Option<seq<PendingEdit>>)
    ensures r == if AllCurrent(self, edits, selected) then Some(Captured(self, edits, selected)) else None
  {
    var captured: seq<PendingEdit> := [];
    for i := 0 to |selected|
      invariant |captured| == i
      invariant forall m :: 0 <= m < i ==>
        FindVersion(self, edits, selected[m]) < |edits| && captured[m] == edits[FindVersion(self, edits, selected[m])]
    {
      var k := 0;
      while k < |edits| && !IsVersion(self, selected[i], edits[k])
        invariant k <= |edits|
        invariant forall m :: 0 <= m < k ==> !IsVersion(self, selected[i], edits[m])
      {
        k := k + 1;
      }
      assert k == FindVersion(self, edits, selected[i]);
      if k == |edits| {
        return None;
      }
      captured := captured + [edits[k]];
    }
    assert captured == Captured(self, edits, selected);
    return Some(captured);
  }

  /** retire's compaction: the edits no snapshot version matches, in order. */
  method KeepUnmatched(self: PendingEditSet, edits: seq<PendingEdit>, snapshot: seq<PendingEdit>)
    returns (kept: seq<PendingEdit>)
    ensures kept == Kept(self, edits, snapshot)
  {
    kept := [];
    for i := 0 to |edits|
      invariant kept == Kept(self, edits[..i], snapshot)
    {
      var matched := false;
      for k := 0 to |snapshot|
        invariant !matched
        invariant forall m :: 0 <= m < k ==> !IsVersion(self, snapshot[m], edits[i])
      {
        if edits[i].revision != 0 && edits[i].revision == snapshot[k].revision && snapshot[k].owner == self {
          assert IsVersion(self, snapshot[k], edits[i]);
          matched := true;
          break;
        }
      }
      assert matched <==> HeldBy(self, snapshot, edits[i]);
      assert edits[..i + 1][..i] == edits[..i];
      if !matched {
        kept := kept + [edits[i]];
      }
    }
    assert edits[..|edits|] == edits;
  }

  /** The re-keying loop of retireCommitted; the inner search is left at its break. */
  method RekeySurvivors(survivors: seq<PendingEdit>, next: nat, originals: seq<Row>, results: seq<Row>)
    returns (edits: seq<PendingEdit>, nextRevision: nat)
    requires |originals| == |results|
    ensures edits == Rekeyed(survivors, next, originals, results)
    ensures nextRevision == next + Movers(survivors, originals, results)
  {
    hide Moves;
    edits, nextRevision := survivors, next;
    for i := 0 to |edits|
      invariant |edits| == |survivors|
      invariant edits[..i] == Rekeyed(survivors[..i], next, originals, results)
      invariant edits[i..] == survivors[i..]
      invariant nextRevision == next + Movers(survivors[..i], originals, results)
    {
      assert edits[i] == edits[i..][0] == survivors[i..][0] == survivors[i];
      var j := 0;
      while j < |originals| && !Moves(edits[i].primaryKey, originals[j], results[j])
        invariant j <= |originals|
        invariant forall m :: 0 <= m < j ==> !Moves(edits[i].primaryKey, originals[m], results[m])
      {
        j := j + 1;
      }
      assert j == MoveOf(survivors[i].primaryKey, originals, results);
      ghost var before := edits;
      if j < |originals| {
        nextRevision := nextRevision + 1;
        edits := edits[i := edits[i].(primaryKey := results[j], revision := nextRevision)];
      }
      assert survivors[..i + 1][..i] == survivors[..i];
      assert edits[..i + 1] == before[..i] + [edits[i]];
      assert edits[i + 1..] == before[i..][1..] == survivors[i + 1..];
    }
    assert survivors[..|survivors|] == survivors;
    assert edits[..|edits|] == edits;
  }

  // ---------------------------------------------------------------------------------------------
  // The set

  class PendingEditSet {
    var edits: seq<PendingEdit>
    var nextRevision: nat
    var unknown: seq<PendingEdit>
    var unknownOriginals: seq<Row>
    var unknownResults: seq<Row>
    var commitAttempt: PendingEditSet?
    var commitEdits: seq<PendingEdit>
    var identity: EditIdentity

    function State(): SetState
      reads this
    {
      SetState(edits, nextRevision, unknown, unknownOriginals, unknownResults, commitAttempt, commitEdits, identity)
    }

    constructor ()
      ensures State() == EMPTY
    {
      edits, nextRevision, unknown, unknownOriginals, unknownResults := [], 0, [], [], [];
      commitAttempt, commitEdits, identity := null, [], UNBOUND;
    }

    method BeginCommit(selection: Option<seq<PendingEdit>>) returns (r: Result<PendingEditSet, Error>)
      modifies this
      ensures BeginCheck(this, old(State()), selection) == if r.Ok? then Success else Failure(r.error)
      ensures r.Ok? ==> fresh(r.value) && State() == Begun(this, old(State()), selection, r.value)
      ensures r.Ok? ==> r.value.edits == commitEdits && r.value.identity == identity
      ensures r.Err? ==> State() == old(State())
    {
      if commitAttempt != null {
        return Err(CommitInFlight);
      }
      if |unknown| != 0 {
        return Err(CommitOutcomeUnknown);
      }
      var selected := if selection.None? then edits else selection.value;
      if |selected| == 0 {
        return Err(CommitSnapshotStale);
      }
      var captured := CaptureVersions(this, edits, selected);
      if captured.None? {
        return Err(CommitSnapshotStale);
      }
      var snapshot := new PendingEditSet();
      snapshot.edits, snapshot.identity := captured.value, identity;
      commitAttempt := snapshot;
      commitEdits := snapshot.edits;
      return Ok(snapshot);
    }

    method SettleCommit(snapshot: PendingEditSet?, committed: bool, isUnknown: bool, originals: seq<Row>,
                        results: seq<Row>)
      modifies this
      ensures State() == Settled(this, old(State()), snapshot, committed, isUnknown, originals, results)
    {
      if snapshot == null || commitAttempt != snapshot {
        return;
      }
      if committed {
        RetireCommitted(commitEdits, originals, results);
      } else if isUnknown {
        unknown := unknown + commitEdits;
        unknownOriginals := originals;
        unknownResults := results;
      }
      commitAttempt := null;
      commitEdits := [];
    }

    method Add(e: PendingEdit) returns (status: Status)
      modifies this
      ensures (State(), status) == Added(this, old(State()), e)
    {
      if |e.primaryKey| == 0 {
        return Failure(EmptyPrimaryKey);
      }
      status := AddLocked(e);
    }

    method BindIdentity(id: EditIdentity) returns (status: Status)
      modifies this
      ensures (State(), status) == Bound(old(State()), id)
    {
      if !Validate(id) {
        return Failure(IdentityUnresolved);
      }
      if |edits| != 0 || commitAttempt != null || |commitEdits| != 0 || |unknown| != 0 {
        return Failure(IdentityMismatch);
      }
      identity := id;
      return Success;
    }

    method AddWithIdentity(id: EditIdentity, e: PendingEdit) returns (status: Status)
      modifies this
      ensures (State(), status) == AddedWithIdentity(this, old(State()), id, e)
    {
      if !Validate(id) {
        return Failure(IdentityUnresolved);
      }
      if |e.primaryKey| != |id.columns| {
        return Failure(IdentityMismatch);
      }
      if e.column == "" {
        return Failure(IdentityUnresolved);
      }
      var quiescent := |edits| == 0 && commitAttempt == null && |commitEdits| == 0 && |unknown| == 0;
      if !Compatible(identity, id) {
        if !quiescent {
          return Failure(IdentityMismatch);
        }
        identity := id;
        status := AddLocked(e);
        // A quiescent set reserves no row and the lengths agree, so the source's restoring branch is dead.
        assert status.Success?;
        return;
      }
      var pk := NormalizeValues(identity, id, e.primaryKey);
      if pk.None? {
        return Failure(IdentityMismatch);
      }
      status := AddLocked(e.(primaryKey := pk.value, identity := identity));
    }

    method AddLocked(edit: PendingEdit) returns (status: Status)
      modifies this
      ensures (State(), status) == AddedLocked(this, old(State()), edit)
    {
      var e := edit;
      if identity.relationOID != 0 {
        if |e.primaryKey| != |identity.columns| {
          return Failure(IdentityMismatch);
        }
        e := e.(identity := identity);
      }
      var reserved := MatchesRow(commitEdits, e.primaryKey);
      if reserved {
        return Failure(CommitInFlight);
      }
      reserved := MatchesRow(unknown, e.primaryKey);
      if reserved {
        return Failure(CommitOutcomeUnknown);
      }
      nextRevision := nextRevision + 1;
      e := e.(owner := this, revision := nextRevision);
      var k := FindEdit(edits, e.primaryKey, e.column);
      if k < |edits| {
        edits := edits[k := Replaced(edits[k], e)];
        return Success;
      }
      edits := edits + [e];
      return Success;
    }

    method Remove(pk: Row, col: string)
      modifies this
      ensures State() == old(State()).(edits := RemovedCell(old(edits), pk, col))
    {
      var k := FindEdit(edits, pk, col);
      if k < |edits| {
        edits := Without(edits, k);
      }
    }

    method RemoveWithIdentity(id: EditIdentity, pk: Row, col: string) returns (status: Status)
      modifies this
      ensures match Normalize(old(identity), id, pk)
              case None => status == Failure(IdentityMismatch) && State() == old(State())
              case Some(key) => status == Success && State() == old(State()).(edits := RemovedCell(old(edits), key, col))
    {
      var key := NormalizeValues(identity, id, pk);
      if key.None? {
        return Failure(IdentityMismatch);
      }
      Remove(key.value, col);
      return Success;
    }

    method FindWithIdentity(id: EditIdentity, pk: Row, col: string) returns (found: Option<PendingEdit>)
      ensures found == Found(State(), id, pk, col)
    {
      var key := NormalizeValues(identity, id, pk);
      if key.None? {
        return None;
      }
      var k := FindEdit(edits, key.value, col);
      return if k < |edits| then Some(edits[k]) else None;
    }

    method DiscardOwned(selected: seq<PendingEdit>) returns (status: Status)
      modifies this
      ensures (State(), status) == Discarded(this, old(State()), selected)
    {
      if commitAttempt != null {
        return Failure(CommitInFlight);
      }
      if |unknown| != 0 {
        return Failure(CommitOutcomeUnknown);
      }
      var captured := CaptureVersions(this, edits, selected);
      if captured.None? {
        return Failure(CommitSnapshotStale);
      }
      for i := 0 to |selected|
        invariant State() == old(State()).(edits := RemovedCells(old(edits), selected[..i]))
      {
        assert selected[..i + 1][..i] == selected[..i];
        Remove(selected[i].primaryKey, selected[i].column);
      }
      assert selected[..|selected|] == selected;
      return Success;
    }

    method Clear()
      modifies this
      ensures State() == old(State()).(edits := [])
    {
      edits := [];
    }

    method HasEdit(pk: Row, col: string) returns (found: bool)
      ensures found <==> exists k :: 0 <= k < |edits| && SameCell(edits[k], pk, col)
    {
      var k := FindEdit(edits, pk, col);
      return k < |edits|;
    }

    method Retire(snapshot: seq<PendingEdit>)
      modifies this
      ensures State() == Retired(this, old(State()), snapshot)
    {
      edits := KeepUnmatched(this, edits, snapshot);
    }

    method RetireCommitted(snapshot: seq<PendingEdit>, originals: seq<Row>, results: seq<Row>)
      modifies this
      ensures State() == RetiredCommitted(this, old(State()), snapshot, originals, results)
    {
      Retire(snapshot);
      if |originals| != |results| {
        return;
      }
      edits, nextRevision := RekeySurvivors(edits, nextRevision, originals, results);
    }

    method MarkCommitUnknown(snapshot: seq<PendingEdit>, originals: seq<Row>, results: seq<Row>)
      modifies this
      ensures State() == MarkedUnknown(old(State()), snapshot, originals, results)
    {
      unknown := unknown + snapshot;
      unknownOriginals := unknownOriginals + originals;
      unknownResults := unknownResults + results;
    }

    method ReconcileCommitOutcome(committed: bool) returns (status: Status)
      modifies this
      ensures (State(), status) == Reconciled(this, old(State()), committed)
    {
      if commitAttempt != null {
        return Failure(CommitInFlight);
      }
      if committed {
        var valid := ValidCommitIdentities(unknown, unknownOriginals, unknownResults);
        if !valid {
          return Failure(CommitIdentityUnresolved);
        }
        RetireCommitted(unknown, unknownOriginals, unknownResults);
      }
      unknown := [];
      unknownOriginals := [];
      unknownResults := [];
      return Success;
    }
  }
}
