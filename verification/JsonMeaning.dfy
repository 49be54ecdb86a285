/** What the normalised tree of normalizeData (pkg/cli/output.go) says: the same document as the value it was made
    from, without pointers and structs, and with every name once. */
module JsonMeaning {
  import opened JsonBudget

  /** A JSON document. */
  datatype Doc =
    | NullDoc
    | TextDoc(text: string)
    | NumberDoc(text: string)
    | BoolDoc(b: bool)
    | ArrayDoc(items: seq<Doc>)
    | ObjectDoc(members: map<string, Doc>)
    | NoDoc

  /** The document a value stands for. A pointer is what it points to; a struct is an object; of the fields of one
      name the last counts. */
  function Meaning(v: Value): Doc
    decreases v, 1
  {
    match v
    case Null => NullDoc
    case Pointer(target) => Meaning(target)
    case Text(text) => TextDoc(text)
    case Numeral(text) => NumberDoc(text)
    case Bool(b) => BoolDoc(b)
    case Integer(text) => NumberDoc(text)
    case Float(text) => NumberDoc(text)
    case List(items) => ArrayDoc(seq(|items|, k requires 0 <= k < |items| => Meaning(items[k])))
    case Map(entries) => ObjectDoc(Members(entries))
    case Struct(fields) => ObjectDoc(Members(fields))
    case Unsupported => NoDoc
  }

  function Members(entries: seq<Entry>): map<string, Doc>
    decreases entries, 0
  {
    if entries == [] then map[]
    else
      var last := entries[|entries| - 1];
      Members(entries[..|entries| - 1])[last.name := Meaning(last.value)]
  }

  /** Nothing but what the encoder is handed: no pointers, no structs, every name once. */
  predicate PlainTree(v: Value)
    decreases v
  {
    match v
    case Pointer(_) => false
    case Struct(_) => false
    case List(items) => forall k :: 0 <= k < |items| ==> PlainTree(items[k])
    case Map(entries) => DistinctNames(entries) && forall k :: 0 <= k < |entries| ==> PlainTree(entries[k].value)
    case _ => true
  }

  // ---------------------------------------------------------------------------------------------
  // Members by name

  lemma {:induction false} MembersAreNamed(entries: seq<Entry>, name: string)
    ensures name in Members(entries) <==> exists k :: 0 <= k < |entries| && entries[k].name == name
    decreases |entries|
  {
    if entries != [] {
      var n := |entries| - 1;
      MembersAreNamed(entries[..n], name);
      if name in Members(entries[..n]) {
        var k :| 0 <= k < n && entries[..n][k].name == name;
        assert entries[k].name == name;
      }
      if k :| 0 <= k < |entries| && entries[k].name == name {
        assert k < n ==> entries[..n][k].name == name;
      }
    }
  }

  /** With every name once, an entry is its name's member. */
  lemma {:induction false} MemberIsEntry(entries: seq<Entry>, k: nat)
    requires k < |entries| && DistinctNames(entries)
    ensures entries[k].name in Members(entries) && Members(entries)[entries[k].name] == Meaning(entries[k].value)
    decreases |entries|
  {
    var n := |entries| - 1;
    if k < n {
      MemberIsEntry(entries[..n], k);
      assert entries[..n][k] == entries[k];
    }
  }

  /** The entries Put changes. */
  lemma {:induction false} PutChanges(entries: seq<Entry>, name: string, value: Value)
    requires DistinctNames(entries)
    ensures var put := Put(entries, name, value);
      && DistinctNames(put)
      && (forall e :: e in put <==> (e in entries && e.name != name) || e == Entry(name, value))
    decreases |entries|
  {
    if entries != [] {
      var rest := entries[1..];
      assert DistinctNames(rest) by {
        assert forall k :: 0 <= k < |rest| ==> rest[k] == entries[k + 1];
      }
      assert forall e :: e in rest ==> e.name != entries[0].name by {
        assert forall k :: 0 <= k < |rest| ==> rest[k] == entries[k + 1];
      }
      assert entries == [entries[0]] + rest;
      PutChanges(rest, name, value);
      if entries[0].name != name {
        ConsIsDistinct(entries[0], Put(rest, name, value));
      } else {
        ConsIsDistinct(Entry(name, value), rest);
      }
    }
  }

  lemma ConsIsDistinct(e: Entry, rest: seq<Entry>)
    requires DistinctNames(rest) && forall x :: x in rest ==> x.name != e.name
    ensures DistinctNames([e] + rest)
  {
    var all := [e] + rest;
    forall j, k | 0 <= j < k < |all| ensures all[j].name != all[k].name {
      assert all[k] == rest[k - 1] && rest[k - 1] in rest;
      assert j > 0 ==> all[j] == rest[j - 1];
    }
  }

  lemma {:induction false} PutIsMember(entries: seq<Entry>, name: string, value: Value)
    requires DistinctNames(entries)
    ensures Members(Put(entries, name, value)) == Members(entries)[name := Meaning(value)]
  {
    hide Meaning, Members, Put;
    var put := Put(entries, name, value);
    PutChanges(entries, name, value);
    forall x: string
      ensures x in Members(put) <==> x == name || x in Members(entries)
      ensures x in Members(put) ==> Members(put)[x] == if x == name then Meaning(value) else Members(entries)[x]
    {
      PutIsMemberAt(entries, name, value, x);
    }
  }

  lemma PutIsMemberAt(entries: seq<Entry>, name: string, value: Value, x: string)
    requires DistinctNames(entries) && DistinctNames(Put(entries, name, value))
    requires forall e :: e in Put(entries, name, value) <==> (e in entries && e.name != name) || e == Entry(name, value)
    ensures x in Members(Put(entries, name, value)) <==> x == name || x in Members(entries)
    ensures x in Members(Put(entries, name, value)) ==>
      Members(Put(entries, name, value))[x] == if x == name then Meaning(value) else Members(entries)[x]
  {
    hide Meaning, Members, Put, DistinctNames;
    var put := Put(entries, name, value);
    MembersAreNamed(put, x);
    MembersAreNamed(entries, x);
    if x == name {
      assert Entry(name, value) in put;
      var k :| 0 <= k < |put| && put[k] == Entry(name, value);
      MemberIsEntry(put, k);
    } else if x in Members(entries) {
      var k :| 0 <= k < |entries| && entries[k].name == x;
      assert entries[k] in put;
      var j :| 0 <= j < |put| && put[j] == entries[k];
      MemberIsEntry(put, j);
      MemberIsEntry(entries, k);
    }
  }

  // ---------------------------------------------------------------------------------------------
  // The document stays

  lemma {:induction false} EntriesMean(entries: seq<Entry>, n: nat)
    requires n <= |entries|
    ensures Members(NormalEntries(entries, n)) == Members(entries[..n])
    ensures PlainTree(Map(NormalEntries(entries, n)))
    decreases entries, 0, n
  {
    hide PlainTree, Members, Meaning, Put, DistinctNames;
    if n == 0 {
      NoEntries(entries);
    } else {
      var e, before := entries[n - 1], NormalEntries(entries, n - 1);
      EntriesMean(entries, n - 1);
      NormalMeansTheSame(e.value);
      PlainIsDistinct(before);
      PutIsMember(before, e.name, Normal(e.value));
      PutIsPlain(before, e.name, Normal(e.value));
      MembersSnoc(entries, n);
    }
  }

  lemma NoEntries(entries: seq<Entry>)
    ensures Members([]) == Members(entries[..0]) == map[] && PlainTree(Map([]))
  {
  }

  lemma PlainIsDistinct(entries: seq<Entry>)
    requires PlainTree(Map(entries))
    ensures DistinctNames(entries)
  {
  }

  lemma MembersSnoc(entries: seq<Entry>, n: nat)
    requires 0 < n <= |entries|
    ensures var e := entries[n - 1];
      Members(entries[..n]) == Members(entries[..n - 1])[e.name := Meaning(e.value)]
  {
    assert entries[..n][..n - 1] == entries[..n - 1];
  }

  lemma PutIsPlain(entries: seq<Entry>, name: string, value: Value)
    requires PlainTree(Map(entries)) && PlainTree(value)
    ensures PlainTree(Map(Put(entries, name, value)))
  {
    var put := Put(entries, name, value);
    PutChanges(entries, name, value);
    forall k | 0 <= k < |put| ensures PlainTree(put[k].value) {
      assert put[k] in put;
    }
  }

  lemma {:induction false} ItemsMean(items: seq<Value>, n: nat)
    requires n <= |items|
    ensures forall k :: 0 <= k < n ==>
      Meaning(NormalItems(items, n)[k]) == Meaning(items[k]) && PlainTree(NormalItems(items, n)[k])
    decreases items, 0, n
  {
    if n > 0 {
      ItemsMean(items, n - 1);
      NormalMeansTheSame(items[n - 1]);
    }
  }

  /** The tree the walk hands to the encoder is the same document, whatever the value: no member is lost, renamed,
      reordered in an array or taken from the wrong field, and nothing is left that the encoder would treat
      in its own way. */
  lemma {:induction false} NormalMeansTheSame(v: Value)
    ensures Meaning(Normal(v)) == Meaning(v) && PlainTree(Normal(v))
    decreases v, 1, 0
  {
    match v
    case Pointer(target) => NormalMeansTheSame(target);
    case List(items) =>
      ItemsMean(items, |items|);
    case Map(entries) =>
      EntriesMean(entries, |entries|);
      assert entries[..|entries|] == entries;
    case Struct(fields) =>
      EntriesMean(fields, |fields|);
      assert fields[..|fields|] == fields;
    case _ =>
  }
}
