/** Which columns identify a row of an editable result (computeRowIdentity in pkg/drivers/pg/editability.go). */
module RowIdentity {
  import opened Common

  type Key = seq<int>

  /** A key column's number is looked up in 16 bits. */
  function Truncated(a: int): nat { a % 0x1_0000 }

  /** The lowest position of a table column in the select list; zero stands for no table column. */
  function Position(cols: seq<nat>, a: nat): (r: Option<nat>)
    ensures r.Some? ==> a != 0 && r.value < |cols| && cols[r.value] == a && a !in cols[..r.value]
    ensures r.None? ==> a == 0 || a !in cols
  {
    if a == 0 || cols == [] then None
    else
      var before := Position(cols[..|cols| - 1], a);
      if before.Some? then before else if cols[|cols| - 1] == a then Some(|cols| - 1) else None
  }

  predicate CoveredColumn(cols: seq<nat>, a: int) { a > 0 && Position(cols, Truncated(a)).Some? }

  predicate Covered(cols: seq<nat>, key: Key) { forall k :: 0 <= k < |key| ==> CoveredColumn(cols, key[k]) }

  /** The positions of a covered key, in the order of the key. */
  function Positions(cols: seq<nat>, key: Key): (idxs: seq<nat>)
    requires Covered(cols, key)
    ensures |idxs| == |key|
  {
    seq(|key|, k requires 0 <= k < |key| => Position(cols, Truncated(key[k])).value)
  }

  /** The primary key first, then the unique keys; empty keys are no candidates. */
  function NonEmpty(keys: seq<Key>): seq<Key> {
    if keys == [] then [] else NonEmpty(keys[..|keys| - 1]) + (if keys[|keys| - 1] == [] then [] else [keys[|keys| - 1]])
  }

  function Candidates(pk: Key, uniques: seq<Key>): seq<Key> { (if pk == [] then [] else [pk]) + NonEmpty(uniques) }

  /** sort.SliceStable by length. */
  function Insert(key: Key, keys: seq<Key>): seq<Key> {
    if keys == [] || |key| <= |keys[0]| then [key] + keys else [keys[0]] + Insert(key, keys[1..])
  }

  function StableByLength(keys: seq<Key>): seq<Key> {
    if keys == [] then [] else Insert(keys[0], StableByLength(keys[1..]))
  }

  predicate Ascending(keys: seq<Key>) { forall i, j :: 0 <= i < j < |keys| ==> |keys[i]| <= |keys[j]| }

  function FirstCovered(cols: seq<nat>, keys: seq<Key>): (r: Option<Key>)
    ensures r.Some? ==> Covered(cols, r.value) && r.value in keys
    ensures r.None? ==> forall k :: 0 <= k < |keys| ==> !Covered(cols, keys[k])
  {
    if keys == [] then None else if Covered(cols, keys[0]) then Some(keys[0]) else FirstCovered(cols, keys[1..])
  }

  /** The positions of the first covered key. */
  function Chosen(cols: seq<nat>, keys: seq<Key>): Option<seq<nat>> {
    if FirstCovered(cols, keys).None? then None else Some(Positions(cols, FirstCovered(cols, keys).value))
  }

  function IndexedAt(first: map<nat, nat>, a: nat): Option<nat> { if a in first then Some(first[a]) else None }

  ghost predicate Indexes(first: map<nat, nat>, cols: seq<nat>) {
    forall a: nat :: IndexedAt(first, a) == Position(cols, a)
  }

  lemma PositionSnoc(cols: seq<nat>, i: nat, a: nat)
    requires i < |cols|
    ensures Position(cols[..i + 1], a)
      == if Position(cols[..i], a).Some? then Position(cols[..i], a)
         else if a != 0 && cols[i] == a then Some(i) else None
  {
    assert cols[..i + 1][..i] == cols[..i];
  }

  method FirstPositions(cols: seq<nat>) returns (first: map<nat, nat>)
    ensures Indexes(first, cols)
  {
    first := map[];
    for i := 0 to |cols|
      invariant Indexes(first, cols[..i])
    {
      ghost var before := first;
      if cols[i] != 0 && cols[i] !in first {
        first := first[cols[i] := i];
      }
      forall a: nat
        ensures IndexedAt(first, a) == Position(cols[..i + 1], a)
      {
        PositionSnoc(cols, i, a);
        assert IndexedAt(before, a) == Position(cols[..i], a);
      }
    }
    assert cols[..|cols|] == cols;
  }

  method CollectCandidates(pk: Key, uniques: seq<Key>) returns (candidates: seq<Key>)
    ensures candidates == Candidates(pk, uniques)
  {
    candidates := if |pk| > 0 then [pk] else [];
    ghost var head := candidates;
    for u := 0 to |uniques|
      invariant candidates == head + NonEmpty(uniques[..u])
    {
      assert uniques[..u + 1][..u] == uniques[..u];
      if |uniques[u]| > 0 {
        assert head + NonEmpty(uniques[..u]) + [uniques[u]] == head + (NonEmpty(uniques[..u]) + [uniques[u]]);
        candidates := candidates + [uniques[u]];
      }
    }
    assert uniques[..|uniques|] == uniques;
  }

  method ComputeRowIdentity(cols: seq<nat>, pk: Key, uniques: seq<Key>) returns (r: Option<seq<nat>>)
    ensures r == Chosen(cols, StableByLength(Candidates(pk, uniques)))
  {
    var first := FirstPositions(cols);
    var candidates := CollectCandidates(pk, uniques);
    candidates := StableByLength(candidates);
    for n := 0 to |candidates|
      invariant Chosen(cols, candidates) == Chosen(cols, candidates[n..])
    {
      assert candidates[n..][1..] == candidates[n + 1..];
      var idxs, ok := PositionsIn(cols, first, candidates[n]);
      if ok {
        return Some(idxs);
      }
    }
    r := None;
  }

  method PositionsIn(ghost cols: seq<nat>, first: map<nat, nat>, key: Key) returns (idxs: seq<nat>, ok: bool)
    requires Indexes(first, cols)
    ensures ok == Covered(cols, key) && (ok ==> idxs == Positions(cols, key))
  {
    idxs := [];
    for k := 0 to |key|
      invariant |idxs| == k
      invariant forall j :: 0 <= j < k ==> CoveredColumn(cols, key[j]) && idxs[j] == Position(cols, Truncated(key[j])).value
    {
      assert IndexedAt(first, Truncated(key[k])) == Position(cols, Truncated(key[k]));
      if key[k] <= 0 || Truncated(key[k]) !in first {
        assert !CoveredColumn(cols, key[k]);
        return idxs, false;
      }
      idxs := idxs + [first[Truncated(key[k])]];
    }
    ok := true;
  }

  // ---------------------------------------------------------------------------------------------
  // Which key is chosen

  /** Before its equals in length, as a stable sort leaves them: shorter keys win, then earlier ones. */
  predicate Wins(cols: seq<nat>, keys: seq<Key>, j: nat)
    requires j < |keys|
  {
    Covered(cols, keys[j]) &&
    forall k :: 0 <= k < |keys| && Covered(cols, keys[k]) ==>
      |keys[j]| < |keys[k]| || (|keys[j]| == |keys[k]| && j <= k)
  }

  lemma {:induction false} InsertSorts(key: Key, keys: seq<Key>)
    requires Ascending(keys)
    ensures Ascending(Insert(key, keys))
    decreases |keys|
  {
    if keys != [] && |key| > |keys[0]| {
      InsertSorts(key, keys[1..]);
      InsertKeepsFloor(key, keys[1..], |keys[0]|);
    }
  }

  lemma {:induction false} InsertPermutes(key: Key, keys: seq<Key>)
    ensures multiset(Insert(key, keys)) == multiset(keys) + multiset{key}
    decreases |keys|
  {
    if keys != [] && |key| > |keys[0]| {
      InsertPermutes(key, keys[1..]);
      assert keys == [keys[0]] + keys[1..];
    }
  }

  lemma {:induction false} InsertKeepsFloor(key: Key, keys: seq<Key>, floor: nat)
    requires floor <= |key| && forall k :: 0 <= k < |keys| ==> floor <= |keys[k]|
    ensures forall k :: 0 <= k < |Insert(key, keys)| ==> floor <= |Insert(key, keys)[k]|
    decreases |keys|
  {
    if keys != [] && |key| > |keys[0]| {
      InsertKeepsFloor(key, keys[1..], floor);
    }
  }

  lemma CoveredIsLonger(cols: seq<nat>, keys: seq<Key>, k: nat)
    requires Ascending(keys) && k < |keys|
    ensures FirstCovered(cols, keys).Some? ==> |keys[0]| <= |FirstCovered(cols, keys).value|
  {
    var r := FirstCovered(cols, keys);
    if r.Some? {
      var j :| 0 <= j < |keys| && keys[j] == r.value;
    }
  }

  lemma ConsCovered(cols: seq<nat>, key: Key, keys: seq<Key>)
    ensures FirstCovered(cols, [key] + keys) == if Covered(cols, key) then Some(key) else FirstCovered(cols, keys)
  {
    assert ([key] + keys)[1..] == keys;
  }

  /** Inserting a key replaces the first covered one unless that is shorter. */
  lemma {:induction false} InsertChooses(cols: seq<nat>, key: Key, keys: seq<Key>)
    requires Ascending(keys)
    ensures FirstCovered(cols, Insert(key, keys))
      == if Covered(cols, key) && (FirstCovered(cols, keys).None? || |key| <= |FirstCovered(cols, keys).value|)
         then Some(key) else FirstCovered(cols, keys)
    decreases |keys|
  {
    if keys == [] || |key| <= |keys[0]| {
      ConsCovered(cols, key, keys);
      if keys != [] {
        CoveredIsLonger(cols, keys, 0);
      }
    } else {
      ConsCovered(cols, keys[0], Insert(key, keys[1..]));
      InsertChooses(cols, key, keys[1..]);
    }
  }

  /** StableByLength sorts. */
  lemma {:induction false} StableSorts(keys: seq<Key>)
    ensures Ascending(StableByLength(keys)) && multiset(StableByLength(keys)) == multiset(keys)
    decreases |keys|
  {
    if keys != [] {
      StableSorts(keys[1..]);
      InsertSorts(keys[0], StableByLength(keys[1..]));
      InsertPermutes(keys[0], StableByLength(keys[1..]));
      assert keys == [keys[0]] + keys[1..];
    }
  }

  lemma WinsAfter(cols: seq<nat>, keys: seq<Key>, i: nat)
    requires keys != [] && i < |keys| - 1 && Wins(cols, keys[1..], i)
    requires Covered(cols, keys[0]) ==> |keys[0]| > |keys[i + 1]|
    ensures Wins(cols, keys, i + 1)
  {
    forall k | 0 <= k < |keys| && Covered(cols, keys[k])
      ensures |keys[i + 1]| < |keys[k]| || (|keys[i + 1]| == |keys[k]| && i + 1 <= k)
    {
      if k > 0 {
        assert keys[1..][k - 1] == keys[k];
      }
    }
  }

  lemma WinsFirst(cols: seq<nat>, keys: seq<Key>, i: nat)
    requires keys != [] && Covered(cols, keys[0])
    requires (forall k :: 0 <= k < |keys[1..]| ==> !Covered(cols, keys[1..][k]))
      || (i < |keys| - 1 && Wins(cols, keys[1..], i) && |keys[0]| <= |keys[i + 1]|)
    ensures Wins(cols, keys, 0)
  {
    forall k | 0 <= k < |keys| && Covered(cols, keys[k]) ensures |keys[0]| <= |keys[k]| {
      if k > 0 {
        assert keys[1..][k - 1] == keys[k];
      }
    }
  }

  /** Sorting first and taking the first covered key is choosing the winner among all candidates; there is
      none only when no candidate is covered. */
  lemma {:induction false} SortedFirstWins(cols: seq<nat>, keys: seq<Key>) returns (j: nat)
    ensures var chosen := FirstCovered(cols, StableByLength(keys));
      if chosen.None? then forall k :: 0 <= k < |keys| ==> !Covered(cols, keys[k])
      else j < |keys| && Wins(cols, keys, j) && chosen.value == keys[j]
    decreases |keys|
  {
    j := 0;
    if keys != [] {
      var sorted := StableByLength(keys[1..]);
      var i := SortedFirstWins(cols, keys[1..]);
      StableSorts(keys[1..]);
      InsertChooses(cols, keys[0], sorted);
      var rest := FirstCovered(cols, sorted);
      if Covered(cols, keys[0]) && (rest.None? || |keys[0]| <= |rest.value|) {
        WinsFirst(cols, keys, i);
      } else if rest.Some? {
        j := i + 1;
        WinsAfter(cols, keys, i);
      } else {
        NoneCovered(cols, keys);
      }
    }
  }

  lemma NoneCovered(cols: seq<nat>, keys: seq<Key>)
    requires keys != [] && !Covered(cols, keys[0]) && forall k :: 0 <= k < |keys[1..]| ==> !Covered(cols, keys[1..][k])
    ensures forall k :: 0 <= k < |keys| ==> !Covered(cols, keys[k])
  {
    forall k | 0 <= k < |keys| ensures !Covered(cols, keys[k]) {
      if k > 0 {
        assert keys[1..][k - 1] == keys[k];
      }
    }
  }

  /** A key that identifies rows: it has columns, and all of them are selected. */
  predicate Eligible(cols: seq<nat>, key: Key) { key != [] && Covered(cols, key) }

  /** Of the eligible keys the shortest, and the earliest of the shortest. */
  ghost predicate WinsAmong(cols: seq<nat>, keys: seq<Key>, j: nat) {
    && j < |keys| && Eligible(cols, keys[j])
    && forall k :: 0 <= k < |keys| && Eligible(cols, keys[k]) ==>
         |keys[j]| < |keys[k]| || (|keys[j]| == |keys[k]| && j <= k)
  }

  lemma {:induction false} CandidatesAreNonEmpty(pk: Key, uniques: seq<Key>)
    ensures Candidates(pk, uniques) == NonEmpty([pk] + uniques)
    decreases |uniques|
  {
    var all := [pk] + uniques;
    if uniques == [] {
      assert all[..0] == [];
    } else {
      var n := |uniques| - 1;
      CandidatesAreNonEmpty(pk, uniques[..n]);
      assert all[..|all| - 1] == [pk] + uniques[..n];
    }
  }

  lemma {:induction false} NonEmptyKeeps(keys: seq<Key>, i: nat)
    requires i < |keys| && keys[i] != []
    ensures keys[i] in NonEmpty(keys)
    decreases |keys|
  {
    var n := |keys| - 1;
    if i < n {
      NonEmptyKeeps(keys[..n], i);
    }
  }

  lemma WinsBefore(cols: seq<nat>, keys: seq<Key>, key: Key, j: nat)
    requires j < |keys| && Wins(cols, keys + [key], j)
    ensures Wins(cols, keys, j)
  {
    forall k | 0 <= k < |keys| && Covered(cols, keys[k])
      ensures |keys[j]| < |keys[k]| || (|keys[j]| == |keys[k]| && j <= k)
    {
      assert (keys + [key])[k] == keys[k];
    }
  }

  /** The winner of the candidates wins among all keys. */
  lemma {:induction false} WinnerLifts(cols: seq<nat>, keys: seq<Key>, j: nat) returns (i: nat)
    requires j < |NonEmpty(keys)| && Wins(cols, NonEmpty(keys), j)
    ensures WinsAmong(cols, keys, i) && keys[i] == NonEmpty(keys)[j]
    decreases |keys|
  {
    var n := |keys| - 1;
    var init, key := keys[..n], keys[n];
    var before := NonEmpty(init);
    if j < |before| {
      if key != [] {
        WinsBefore(cols, before, key, j);
        assert NonEmpty(keys)[|before|] == key;
      } else {
        assert NonEmpty(keys) == before;
      }
      i := WinnerLifts(cols, init, j);
      assert forall k :: 0 <= k < n ==> keys[k] == init[k];
    } else {
      i := n;
      forall k | 0 <= k < n && Eligible(cols, keys[k]) ensures |key| < |keys[k]| {
        NonEmptyKeeps(init, k);
        var m :| 0 <= m < |before| && before[m] == keys[k];
        assert NonEmpty(keys)[m] == before[m];
      }
    }
  }

  /** The result, over the primary key and then every unique key of the table: the lowest positions of the columns
      of the shortest key that has columns and whose columns are all selected, the earliest of those of one
      length; none exactly when there is no such key. */
  lemma IdentityIsShortest(cols: seq<nat>, pk: Key, uniques: seq<Key>) returns (i: nat)
    ensures var keys := [pk] + uniques;
      var r := Chosen(cols, StableByLength(Candidates(pk, uniques)));
      && (r.None? <==> forall k :: 0 <= k < |keys| ==> !Eligible(cols, keys[k]))
      && (r.Some? ==> WinsAmong(cols, keys, i) && r.value == Positions(cols, keys[i]))
  {
    hide StableByLength, Covered, Wins;
    var keys, candidates := [pk] + uniques, Candidates(pk, uniques);
    CandidatesAreNonEmpty(pk, uniques);
    var j := SortedFirstWins(cols, candidates);
    i := 0;
    if FirstCovered(cols, StableByLength(candidates)).Some? {
      i := WinnerLifts(cols, keys, j);
    } else {
      forall k | 0 <= k < |keys| ensures !Eligible(cols, keys[k]) {
        if keys[k] != [] {
          NonEmptyKeeps(keys, k);
          var m :| 0 <= m < |candidates| && candidates[m] == keys[k];
        }
      }
    }
  }

  /** For catalog column numbers, which fit 15 bits, the 16-bit lookup is exact. */
  lemma SmallNumbersAreExact(cols: seq<nat>, a: int)
    requires a <= 0x7FFF
    ensures CoveredColumn(cols, a) <==> a > 0 && a in cols
  {
    if a > 0 {
      assert Truncated(a) == a;
    }
  }
}
