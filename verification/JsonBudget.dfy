/** Charging a value tree against the output budget before it is encoded (normalizeData in
    pkg/cli/output.go). */
module JsonBudget {
  import Utf8

  /** What reflection shows of a value. Integers and floats stand for their decimal text; a nil pointer,
      interface or invalid value is Null. Map keys are distinct; the entries are in iteration order. */
  datatype Value =
    | Null
    | Pointer(target: Value)
    | Text(text: string)
    | Numeral(text: string)
    | Bool(b: bool)
    | Integer(text: string)
    | Float(text: string)
    | List(items: seq<Value>)
    | Map(entries: seq<Entry>)
    | Struct(fields: seq<Entry>)
    | Unsupported

  datatype Entry = Entry(name: string, value: Value)

  datatype Cause = OverBudget | Malformed | TooDeep

  const MAX_DEPTH: nat := 64

  // ---------------------------------------------------------------------------------------------
  // The encoding

  /** What one byte of a string takes: RFC 8259, section 7, and the HTML escapes of the encoder. */
  function EscapedByte(c: char): (n: nat)
    ensures n >= 1
  {
    if c == '"' || c == '\\' || c == '\n' || c == '\r' || c == '\t' || c == '\U{08}' || c == '\U{0C}' then 2
    else if c < ' ' || c == '<' || c == '>' || c == '&' then 6
    else 1
  }

  function EscapedLength(s: string): (n: nat)
    ensures n >= |s|
  {
    if s == "" then 0
    else if "\U{E2}\U{80}\U{A8}" <= s || "\U{E2}\U{80}\U{A9}" <= s then 6 + EscapedLength(s[3..])
    else EscapedByte(s[0]) + EscapedLength(s[1..])
  }

  predicate DistinctNames(entries: seq<Entry>) {
    forall j, k :: 0 <= j < k < |entries| ==> entries[j].name != entries[k].name
  }

  /** Values with an encoding: valid texts and map keys, distinct map keys, no kind the walk refuses. */
  predicate Encodable(v: Value)
    decreases v
  {
    match v
    case Pointer(target) => Encodable(target)
    case Text(text) => Utf8.Valid(text)
    case Numeral(text) => Utf8.Valid(text)
    case Integer(text) => text != ""
    case Float(text) => text != ""
    case List(items) => forall k :: 0 <= k < |items| ==> Encodable(items[k])
    case Map(entries) =>
      DistinctNames(entries) && forall k :: 0 <= k < |entries| ==> Utf8.Valid(entries[k].name) && Encodable(entries[k].value)
    case Struct(fields) => forall k :: 0 <= k < |fields| ==> Encodable(fields[k].value)
    case Unsupported => false
    case _ => true
  }

  /** No struct in the tree has two fields of one JSON name. */
  predicate DistinctStructs(v: Value)
    decreases v
  {
    match v
    case Pointer(target) => DistinctStructs(target)
    case List(items) => forall k :: 0 <= k < |items| ==> DistinctStructs(items[k])
    case Map(entries) => forall k :: 0 <= k < |entries| ==> DistinctStructs(entries[k].value)
    case Struct(fields) => DistinctNames(fields) && forall k :: 0 <= k < |fields| ==> DistinctStructs(fields[k].value)
    case _ => true
  }

  /** No byte of the encoding is free of charge but the repeated names: texts and names need no escapes,
      numerals are not empty and floats print in one byte. */
  predicate Unescaped(v: Value)
    decreases v
  {
    match v
    case Pointer(target) => Unescaped(target)
    case Text(text) => EscapedLength(text) == |text|
    case Numeral(text) => text != ""
    case Float(text) => |text| == 1
    case List(items) => forall k :: 0 <= k < |items| ==> Unescaped(items[k])
    case Map(entries) => forall k :: 0 <= k < |entries| ==> UnescapedEntry(entries[k])
    case Struct(fields) => forall k :: 0 <= k < |fields| ==> UnescapedEntry(fields[k])
    case _ => true
  }

  predicate UnescapedEntry(e: Entry)
    decreases e
  {
    EscapedLength(e.name) == |e.name| && Unescaped(e.value)
  }

  /** The walk from this depth stays within MAX_DEPTH. */
  predicate Shallow(v: Value, depth: nat)
    decreases v
  {
    depth <= MAX_DEPTH &&
    match v
    case Pointer(target) => Shallow(target, depth + 1)
    case List(items) => forall k :: 0 <= k < |items| ==> Shallow(items[k], depth + 1)
    case Map(entries) => forall k :: 0 <= k < |entries| ==> Shallow(entries[k].value, depth + 1)
    case Struct(fields) => forall k :: 0 <= k < |fields| ==> Shallow(fields[k].value, depth + 1)
    case _ => true
  }

  /** A later entry of the same name replaces this one. */
  predicate Replaced(entries: seq<Entry>, k: nat)
    requires k < |entries|
  {
    exists j :: k < j < |entries| && entries[j].name == entries[k].name
  }

  /** The length of the encoding. */
  function Encoded(v: Value): nat
    decreases v, 1, 0
  {
    match v
    case Null => 4
    case Pointer(target) => Encoded(target)
    case Text(text) => EscapedLength(text) + 2
    case Numeral(text) => if text == "" then 1 else |text|
    case Bool(b) => if b then 4 else 5
    case Integer(text) => |text|
    case Float(text) => |text|
    case List(items) => 2 + EncodedItems(items, |items|)
    case Map(entries) => 2 + EncodedEntries(entries, |entries|)
    case Struct(fields) => 2 + EncodedEntries(fields, |fields|)
    case Unsupported => 0
  }

  function EncodedItems(items: seq<Value>, n: nat): nat
    requires n <= |items|
    decreases items, 0, n
  {
    if n == 0 then 0 else EncodedItems(items, n - 1) + (if n > 1 then 1 else 0) + Encoded(items[n - 1])
  }

  function EncodedEntries(entries: seq<Entry>, n: nat): nat
    requires n <= |entries|
    decreases entries, 0, n
  {
    if n == 0 then 0
    else
      var before := EncodedEntries(entries, n - 1);
      if Replaced(entries, n - 1) then before
      else before + (if before > 0 then 1 else 0) + EscapedLength(entries[n - 1].name) + 3 + Encoded(entries[n - 1].value)
  }

  // ---------------------------------------------------------------------------------------------
  // The charge

  /** What a whole value is charged for. */
  function Charge(v: Value): nat
    decreases v, 1, 0
  {
    match v
    case Null => 4
    case Pointer(target) => Charge(target)
    case Text(text) => |text| + 2
    case Numeral(text) => |text|
    case Bool(b) => if b then 4 else 5
    case Integer(text) => |text|
    case Float(_) => 1
    case List(items) => 2 + ChargeItems(items, |items|)
    case Map(entries) => 2 + ChargeEntries(entries, |entries|)
    case Struct(fields) => 2 + ChargeEntries(fields, |fields|)
    case Unsupported => 0
  }

  function ChargeItems(items: seq<Value>, n: nat): nat
    requires n <= |items|
    decreases items, 0, n
  {
    if n == 0 then 0 else ChargeItems(items, n - 1) + (if n > 1 then 1 else 0) + Charge(items[n - 1])
  }

  function ChargeEntries(entries: seq<Entry>, n: nat): nat
    requires n <= |entries|
    decreases entries, 0, n
  {
    if n == 0 then 0
    else ChargeEntries(entries, n - 1) + (if n > 1 then 1 else 0) + |entries[n - 1].name| + 3 + Charge(entries[n - 1].value)
  }

  function Max(a: nat, b: nat): nat {
    if a < b then b else a
  }

  /** The least budget a walk needs: what every prefix of the walk is charged for, and what the early
      tests on the length of arrays and maps ask for. */
  function Needed(v: Value): nat
    decreases v, 1, 0
  {
    match v
    case Pointer(target) => Needed(target)
    case List(items) => Max(2 * |items|, NeededItems(items, |items|))
    case Map(entries) => Max(4 * |entries|, NeededEntries(entries, |entries|))
    case Struct(fields) => NeededEntries(fields, |fields|)
    case _ => Charge(v)
  }

  function NeededItems(items: seq<Value>, n: nat): nat
    requires n <= |items|
    decreases items, 0, n
  {
    if n == 0 then 2
    else Max(NeededItems(items, n - 1), 2 + ChargeItems(items, n - 1) + (if n > 1 then 1 else 0) + Needed(items[n - 1]))
  }

  function NeededEntries(entries: seq<Entry>, n: nat): nat
    requires n <= |entries|
    decreases entries, 0, n
  {
    if n == 0 then 2
    else
      var before := 2 + ChargeEntries(entries, n - 1) + (if n > 1 then 1 else 0) + |entries[n - 1].name| + 3;
      Max(NeededEntries(entries, n - 1), before + Needed(entries[n - 1].value))
  }

  lemma {:induction false} ChargeIsNeeded(v: Value)
    ensures Charge(v) <= Needed(v)
    decreases v, 1, 0
  {
    match v
    case Pointer(target) => ChargeIsNeeded(target);
    case List(items) => ItemsAreNeeded(items, |items|);
    case Map(entries) => EntriesAreNeeded(entries, |entries|);
    case Struct(fields) => EntriesAreNeeded(fields, |fields|);
    case _ =>
  }

  lemma {:induction false} ItemsAreNeeded(items: seq<Value>, n: nat)
    requires n <= |items|
    ensures 2 + ChargeItems(items, n) <= NeededItems(items, n)
    decreases items, 0, n
  {
    if n > 0 {
      ItemsAreNeeded(items, n - 1);
      ChargeIsNeeded(items[n - 1]);
    }
  }

  lemma {:induction false} EntriesAreNeeded(entries: seq<Entry>, n: nat)
    requires n <= |entries|
    ensures 2 + ChargeEntries(entries, n) <= NeededEntries(entries, n)
    decreases entries, 0, n
  {
    if n > 0 {
      EntriesAreNeeded(entries, n - 1);
      ChargeIsNeeded(entries[n - 1].value);
    }
  }

  lemma {:induction false} NeededItemsGrow(items: seq<Value>, k: nat, n: nat)
    requires k <= n <= |items|
    ensures NeededItems(items, k) <= NeededItems(items, n)
    decreases n
  {
    if k < n {
      NeededItemsGrow(items, k, n - 1);
    }
  }

  lemma {:induction false} NeededEntriesGrow(entries: seq<Entry>, k: nat, n: nat)
    requires k <= n <= |entries|
    ensures NeededEntries(entries, k) <= NeededEntries(entries, n)
    decreases n
  {
    if k < n {
      NeededEntriesGrow(entries, k, n - 1);
    }
  }

  // ---------------------------------------------------------------------------------------------
  // The charge against the encoding

  /** Without shared names the budget a walk needs never exceeds the encoding. */
  lemma {:induction false} NeededFits(v: Value)
    requires Encodable(v) && DistinctStructs(v)
    ensures Charge(v) <= Needed(v) <= Encoded(v) && Encoded(v) >= 1
    decreases v, 1, 0
  {
    ChargeIsNeeded(v);
    match v
    case Pointer(target) => NeededFits(target);
    case List(items) => ItemsFit(items, |items|);
    case Map(entries) => EntriesFit(entries, |entries|);
    case Struct(fields) => EntriesFit(fields, |fields|);
    case _ =>
  }

  lemma {:induction false} ItemsFit(items: seq<Value>, n: nat)
    requires n <= |items| && Encodable(List(items)) && DistinctStructs(List(items))
    ensures ChargeItems(items, n) + 2 <= NeededItems(items, n) <= EncodedItems(items, n) + 2
    ensures n > 0 ==> EncodedItems(items, n) >= 2 * n - 1
    decreases items, 0, n
  {
    hide EscapedLength, Utf8.Valid;
    if n > 0 {
      ItemsFit(items, n - 1);
      NeededFits(items[n - 1]);
    }
  }

  lemma {:induction false} EntriesFit(entries: seq<Entry>, n: nat)
    requires n <= |entries| && Encodable(Struct(entries)) && DistinctStructs(Struct(entries))
    ensures ChargeEntries(entries, n) + 2 <= NeededEntries(entries, n) <= EncodedEntries(entries, n) + 2
    ensures n > 0 ==> EncodedEntries(entries, n) >= 5 * n - 1
    decreases entries, 0, n
  {
    hide EscapedLength, Utf8.Valid;
    if n > 0 {
      EntriesFit(entries, n - 1);
      NeededFits(entries[n - 1].value);
      assert !Replaced(entries, n - 1);
    }
  }

  lemma NotReplacedIsDistinct(entries: seq<Entry>)
    ensures (forall k :: 0 <= k < |entries| ==> !Replaced(entries, k)) <==> DistinctNames(entries)
  {
    if !DistinctNames(entries) {
      var j, k :| 0 <= j < k < |entries| && entries[j].name == entries[k].name;
      assert Replaced(entries, j);
    }
  }

  /** Where nothing else tells charge and encoding apart, shared names do: the charge is at least the
      encoding, and equal to it exactly when no struct shares a name. */
  lemma {:induction false} ChargeOfUnescaped(v: Value)
    requires Encodable(v) && Unescaped(v)
    ensures Needed(v) == Charge(v) >= Encoded(v) && Charge(v) >= 1
    ensures Charge(v) == Encoded(v) <==> DistinctStructs(v)
    decreases v, 1, 0
  {
    match v
    case Pointer(target) => ChargeOfUnescaped(target);
    case List(items) => ChargeOfItems(items, |items|);
    case Map(entries) =>
      ChargeOfEntries(entries, |entries|);
      NotReplacedIsDistinct(entries);
    case Struct(fields) =>
      ChargeOfEntries(fields, |fields|);
      NotReplacedIsDistinct(fields);
    case _ =>
  }

  lemma {:induction false} ChargeOfItems(items: seq<Value>, n: nat)
    requires n <= |items| && Encodable(List(items)) && Unescaped(List(items))
    ensures NeededItems(items, n) == 2 + ChargeItems(items, n) && ChargeItems(items, n) >= EncodedItems(items, n)
    ensures n > 0 ==> ChargeItems(items, n) >= 2 * n - 1
    ensures ChargeItems(items, n) == EncodedItems(items, n) <==> forall k :: 0 <= k < n ==> DistinctStructs(items[k])
    decreases items, 0, n
  {
    hide EscapedLength, Utf8.Valid;
    if n > 0 {
      ChargeOfItems(items, n - 1);
      ChargeOfUnescaped(items[n - 1]);
    }
  }

  lemma FieldParts(fields: seq<Entry>, k: nat)
    requires k < |fields| && Encodable(Struct(fields)) && Unescaped(Struct(fields))
    ensures Encodable(fields[k].value) && Unescaped(fields[k].value)
    ensures EscapedLength(fields[k].name) == |fields[k].name|
  {
    assert UnescapedEntry(fields[k]);
  }

  lemma {:induction false} ChargeOfEntries(entries: seq<Entry>, n: nat)
    requires n <= |entries| && Encodable(Struct(entries)) && Unescaped(Struct(entries))
    ensures NeededEntries(entries, n) == 2 + ChargeEntries(entries, n)
    ensures ChargeEntries(entries, n) >= EncodedEntries(entries, n)
    ensures n > 0 ==> ChargeEntries(entries, n) >= 5 * n - 1
    ensures ChargeEntries(entries, n) == EncodedEntries(entries, n)
      <==> forall k :: 0 <= k < n ==> !Replaced(entries, k) && DistinctStructs(entries[k].value)
    decreases entries, 0, n
  {
    hide EscapedLength, Encodable, Unescaped, Replaced, DistinctStructs;
    if n > 0 {
      ChargeOfEntries(entries, n - 1);
      FieldParts(entries, n - 1);
      ChargeOfUnescaped(entries[n - 1].value);
    }
  }

  // ---------------------------------------------------------------------------------------------
  // normalizeData

  /** The tree that is encoded: no pointers, and structs as maps. */
  function Normal(v: Value): Value
    decreases v, 1, 0
  {
    match v
    case Pointer(target) => Normal(target)
    case List(items) => List(NormalItems(items, |items|))
    case Map(entries) => Map(NormalEntries(entries, |entries|))
    case Struct(fields) => Map(NormalEntries(fields, |fields|))
    case _ => v
  }

  function NormalItems(items: seq<Value>, n: nat): (r: seq<Value>)
    requires n <= |items|
    ensures |r| == n
    decreases items, 0, n
  {
    if n == 0 then [] else NormalItems(items, n - 1) + [Normal(items[n - 1])]
  }

  /** items[name] = value: a new entry, or the new value of an old one. */
  function Put(entries: seq<Entry>, name: string, value: Value): seq<Entry> {
    if entries == [] then [Entry(name, value)]
    else if entries[0].name == name then [Entry(name, value)] + entries[1..]
    else [entries[0]] + Put(entries[1..], name, value)
  }

  function NormalEntries(entries: seq<Entry>, n: nat): (r: seq<Entry>)
    requires n <= |entries|
    ensures r == [] <==> n == 0
    decreases entries, 0, n
  {
    if n == 0 then [] else Put(NormalEntries(entries, n - 1), entries[n - 1].name, Normal(entries[n - 1].value))
  }

  datatype Outcome = Done(tree: Value, left: nat) | Failed(cause: Cause)

  /** What the walk comes to on a tree that has an encoding and is not too deep. */
  function Verdict(v: Value, budget: nat): Outcome {
    if Needed(v) > budget then Failed(OverBudget)
    else
      ChargeIsNeeded(v);
      Done(Normal(v), budget - Charge(v))
  }

  /** What a call promises: a finished tree has been charged exactly, and every failure has its cause. */
  ghost predicate Promised(v: Value, budget: nat, depth: nat, r: Outcome) {
    match r
    case Done(tree, left) => tree == Normal(v) && left + Charge(v) == budget && Needed(v) <= budget
    case Failed(OverBudget) => Needed(v) > budget
    case Failed(Malformed) => !Encodable(v)
    case Failed(TooDeep) => !Shallow(v, depth)
  }

  function Charged(v: Value, budget: nat, cost: nat): Outcome {
    if cost > budget then Failed(OverBudget) else Done(v, budget - cost)
  }

  method NormalizeData(v: Value, budget: nat, depth: nat) returns (r: Outcome)
    ensures Promised(v, budget, depth, r)
    ensures Encodable(v) && Shallow(v, depth) ==> r == Verdict(v, budget)
    ensures Encodable(v) && DistinctStructs(v) && r == Failed(OverBudget) ==> Encoded(v) > budget
    decreases v, 1
  {
    if Encodable(v) && DistinctStructs(v) {
      NeededFits(v);
    }
    if depth > MAX_DEPTH {
      return Failed(TooDeep);
    }
    match v
    case Null => r := Charged(v, budget, 4);
    case Pointer(target) => r := NormalizeData(target, budget, depth + 1);
    case Text(text) =>
      if |text| + 2 > budget {
        return Failed(OverBudget);
      }
      r := if Utf8.Valid(text) then Done(v, budget - |text| - 2) else Failed(Malformed);
    case Numeral(text) =>
      if |text| > budget {
        return Failed(OverBudget);
      }
      r := if Utf8.Valid(text) then Done(v, budget - |text|) else Failed(Malformed);
    case Bool(b) => r := Charged(v, budget, if b then 4 else 5);
    case Integer(text) => r := Charged(v, budget, |text|);
    case Float(text) => r := Charged(v, budget, 1);
    case List(items) => r := NormalizeList(v, budget, depth);
    case Map(entries) => r := NormalizeMap(v, budget, depth);
    case Struct(fields) => r := NormalizeStruct(v, budget, depth);
    case Unsupported => r := Failed(Malformed);
  }

  method NormalizeList(v: Value, budget: nat, depth: nat) returns (r: Outcome)
    requires v.List?
    ensures Promised(v, budget, depth, r)
    decreases v, 0
  {
    NeededItemsGrow(v.items, 0, |v.items|);
    if |v.items| > budget / 2 || 2 > budget {
      return Failed(OverBudget);
    }
    var left: nat, out := budget - 2, [];
    for i := 0 to |v.items|
      invariant out == NormalItems(v.items, i)
      invariant left + 2 + ChargeItems(v.items, i) == budget && NeededItems(v.items, i) <= budget
    {
      NeededItemsGrow(v.items, i + 1, |v.items|);
      if i > 0 {
        if 1 > left {
          return Failed(OverBudget);
        }
        left := left - 1;
      }
      var item := NormalizeData(v.items[i], left, depth + 1);
      if item.Failed? {
        return item;
      }
      out, left := out + [item.tree], item.left;
    }
    r := Done(List(out), left);
  }

  method NormalizeMap(v: Value, budget: nat, depth: nat) returns (r: Outcome)
    requires v.Map?
    ensures Promised(v, budget, depth, r)
    decreases v, 0
  {
    NeededEntriesGrow(v.entries, 0, |v.entries|);
    if |v.entries| > budget / 4 || 2 > budget {
      return Failed(OverBudget);
    }
    var left: nat, out := budget - 2, [];
    for i := 0 to |v.entries|
      invariant out == NormalEntries(v.entries, i)
      invariant left + 2 + ChargeEntries(v.entries, i) == budget && NeededEntries(v.entries, i) <= budget
    {
      NeededEntriesGrow(v.entries, i + 1, |v.entries|);
      var name := v.entries[i].name;
      var cost := |name| + 3 + if |out| > 0 then 1 else 0;
      if cost > left {
        return Failed(OverBudget);
      }
      if !Utf8.Valid(name) {
        return Failed(Malformed);
      }
      var item := NormalizeData(v.entries[i].value, left - cost, depth + 1);
      if item.Failed? {
        return item;
      }
      out, left := Put(out, name, item.tree), item.left;
    }
    r := Done(Map(out), left);
  }

  method NormalizeStruct(v: Value, budget: nat, depth: nat) returns (r: Outcome)
    requires v.Struct?
    ensures Promised(v, budget, depth, r)
    decreases v, 0
  {
    NeededEntriesGrow(v.fields, 0, |v.fields|);
    if 2 > budget {
      return Failed(OverBudget);
    }
    var left: nat, out := budget - 2, [];
    for i := 0 to |v.fields|
      invariant out == NormalEntries(v.fields, i)
      invariant left + 2 + ChargeEntries(v.fields, i) == budget && NeededEntries(v.fields, i) <= budget
    {
      NeededEntriesGrow(v.fields, i + 1, |v.fields|);
      var cost := |v.fields[i].name| + 3 + if |out| > 0 then 1 else 0;
      if cost > left {
        return Failed(OverBudget);
      }
      var item := NormalizeData(v.fields[i].value, left - cost, depth + 1);
      if item.Failed? {
        return item;
      }
      out, left := Put(out, v.fields[i].name, item.tree), item.left;
    }
    r := Done(Map(out), left);
  }

  /** Some budget the encoding fits is refused, on a tree within MAX_DEPTH. */
  ghost predicate RefusedWithRoom(v: Value) {
    exists budget: nat :: Encoded(v) <= budget && Verdict(v, budget) == Failed(OverBudget)
  }

  /** Exactly the trees that need more than they encode to are refused by a budget their encoding fits. */
  lemma RefusedByNeed(v: Value)
    ensures RefusedWithRoom(v) <==> Needed(v) > Encoded(v)
  {
    if Needed(v) > Encoded(v) {
      assert Verdict(v, Encoded(v)) == Failed(OverBudget);
    }
  }

  /** A tree is refused although its encoding fits only when a struct shares a name; without escapes,
      empty numerals and long floats, exactly then. */
  lemma RefusedExactlyForSharedNames(v: Value)
    requires Encodable(v) && Shallow(v, 0)
    ensures DistinctStructs(v) ==> !RefusedWithRoom(v)
    ensures Unescaped(v) ==> (RefusedWithRoom(v) <==> !DistinctStructs(v))
    ensures forall budget, r :: Promised(v, budget, 0, r) ==> r == Verdict(v, budget)
  {
    RefusedByNeed(v);
    if DistinctStructs(v) {
      NeededFits(v);
    } else if Unescaped(v) {
      ChargeOfUnescaped(v);
    }
  }

  /** A struct whose fields share a name is charged for both, but only one is encoded, and it is refused
      with room to spare. */
  lemma SharedNamesAreChargedTwice()
    ensures var v := Struct([Entry("a", Null), Entry("a", Null)]);
      Encodable(v) && Charge(v) > Encoded(v) && RefusedWithRoom(v)
  {
    var fields := [Entry("a", Null), Entry("a", Null)];
    assert Replaced(fields, 0) by {
      assert fields[1].name == fields[0].name;
    }
    assert !Replaced(fields, 1);
    assert EncodedEntries(fields, 1) == 0;
    assert EscapedLength("a") == 1 + EscapedLength("a"[1..]);
    assert EncodedEntries(fields, 2) == 8;
    assert ChargeEntries(fields, 1) == 8 && ChargeEntries(fields, 2) == 17;
    ChargeIsNeeded(Struct(fields));
    RefusedByNeed(Struct(fields));
  }

  // ---------------------------------------------------------------------------------------------
  // What is encoded

  /** An entry with its colon and quotes, and a comma. */
  function EntryCost(e: Entry): nat {
    EscapedLength(e.name) + 4 + Encoded(e.value)
  }

  predicate Names(entries: seq<Entry>, name: string) {
    exists k :: 0 <= k < |entries| && entries[k].name == name
  }

  /** The entries no later one replaces. */
  function KeptCost(entries: seq<Entry>): nat {
    if entries == [] then 0
    else (if Names(entries[1..], entries[0].name) then 0 else EntryCost(entries[0])) + KeptCost(entries[1..])
  }

  /** The last entry of a name, or nothing. */
  function LastCost(entries: seq<Entry>, name: string): nat {
    if entries == [] then 0
    else if Names(entries[1..], name) || entries[0].name != name then LastCost(entries[1..], name)
    else EntryCost(entries[0])
  }

  lemma {:induction false} EncodedIsKept(entries: seq<Entry>, n: nat)
    requires n <= |entries|
    ensures (if EncodedEntries(entries, n) > 0 then EncodedEntries(entries, n) + 1 else 0) + KeptCost(entries[n..])
      == KeptCost(entries)
    decreases n
  {
    if n == 0 {
      assert entries[0..] == entries;
    } else {
      EncodedIsKept(entries, n - 1);
      var rest := entries[n - 1..];
      assert rest[1..] == entries[n..] && rest[0] == entries[n - 1];
      assert Names(entries[n..], entries[n - 1].name) <==> Replaced(entries, n - 1) by {
        if Replaced(entries, n - 1) {
          var j :| n - 1 < j < |entries| && entries[j].name == entries[n - 1].name;
          assert entries[n..][j - n] == entries[j];
        }
      }
    }
  }

  lemma {:induction false} NamesSnoc(entries: seq<Entry>, e: Entry, name: string)
    ensures Names(entries + [e], name) <==> Names(entries, name) || e.name == name
  {
    var all := entries + [e];
    assert all[|entries|] == e;
    if Names(entries, name) {
      var k :| 0 <= k < |entries| && entries[k].name == name;
      assert all[k].name == name;
    }
  }

  lemma {:induction false} CostSnoc(entries: seq<Entry>, e: Entry, name: string)
    ensures KeptCost(entries + [e]) + LastCost(entries, e.name) == KeptCost(entries) + EntryCost(e)
    ensures LastCost(entries + [e], name) == if name == e.name then EntryCost(e) else LastCost(entries, name)
    ensures !Names(entries, name) ==> LastCost(entries, name) == 0
    decreases |entries|
  {
    var all := entries + [e];
    if entries == [] {
      assert all == [e] && all[1..] == [];
    } else {
      var rest := entries[1..];
      assert all[0] == entries[0] && all[1..] == rest + [e];
      CostSnoc(rest, e, name);
      CostSnoc(rest, e, e.name);
      NamesSnoc(rest, e, entries[0].name);
      NamesSnoc(rest, e, name);
      NamesTail(entries, name);
      NamesTail(entries, e.name);
    }
  }

  lemma NamesTail(entries: seq<Entry>, name: string)
    requires entries != []
    ensures Names(entries, name) <==> entries[0].name == name || Names(entries[1..], name)
  {
    if Names(entries, name) && entries[0].name != name {
      var k :| 0 <= k < |entries| && entries[k].name == name;
      assert entries[1..][k - 1].name == name;
    }
  }

  lemma {:induction false} NamesPut(entries: seq<Entry>, name: string, value: Value, other: string)
    ensures Names(Put(entries, name, value), other) <==> Names(entries, other) || name == other
    decreases |entries|
  {
    var put := Put(entries, name, value);
    NamesTail(put, other);
    if entries == [] {
      assert put[1..] == [];
    } else {
      NamesTail(entries, other);
      if entries[0].name == name {
        assert put[1..] == entries[1..];
      } else {
        assert put[1..] == Put(entries[1..], name, value);
        NamesPut(entries[1..], name, value, other);
      }
    }
  }

  lemma {:induction false} DistinctTail(entries: seq<Entry>)
    requires entries != []
    ensures DistinctNames(entries) <==> !Names(entries[1..], entries[0].name) && DistinctNames(entries[1..])
  {
    var rest := entries[1..];
    assert forall k :: 0 <= k < |rest| ==> rest[k] == entries[k + 1];
    if DistinctNames(entries) {
      assert DistinctNames(rest);
    } else {
      var j, k :| 0 <= j < k < |entries| && entries[j].name == entries[k].name;
      assert rest[k - 1].name == entries[j].name;
      if j > 0 {
        assert rest[j - 1].name == rest[k - 1].name;
      }
    }
  }

  lemma {:induction false} CostPut(entries: seq<Entry>, name: string, value: Value, other: string)
    requires DistinctNames(entries)
    ensures DistinctNames(Put(entries, name, value))
    ensures KeptCost(Put(entries, name, value)) + LastCost(entries, name)
      == KeptCost(entries) + EntryCost(Entry(name, value))
    ensures LastCost(Put(entries, name, value), other)
      == if other == name then EntryCost(Entry(name, value)) else LastCost(entries, other)
    decreases |entries|
  {
    var put := Put(entries, name, value);
    if entries == [] {
      assert put[1..] == [];
    } else {
      var rest := entries[1..];
      DistinctTail(entries);
      DistinctTail(put);
      if entries[0].name == name {
        assert put[0] == Entry(name, value) && put[1..] == rest;
        CostSnoc(rest, entries[0], name);
      } else {
        assert put[0] == entries[0] && put[1..] == Put(rest, name, value);
        CostPut(rest, name, value, other);
        NamesPut(rest, name, value, entries[0].name);
        NamesPut(rest, name, value, other);
        CostSnoc(rest, entries[0], name);
      }
    }
  }

  /** The walk's map keeps of every name the last entry, with the length of its own encoding. */
  lemma {:induction false} NormalKeepsCost(entries: seq<Entry>, n: nat, name: string)
    requires n <= |entries|
    ensures DistinctNames(NormalEntries(entries, n))
    ensures KeptCost(NormalEntries(entries, n)) == KeptCost(entries[..n])
    ensures LastCost(NormalEntries(entries, n), name) == LastCost(entries[..n], name)
    decreases entries, 0, n
  {
    if n == 0 {
      assert entries[..0] == [];
    } else {
      var e := entries[n - 1];
      assert entries[..n] == entries[..n - 1] + [e];
      NormalKeepsCost(entries, n - 1, name);
      NormalKeepsCost(entries, n - 1, e.name);
      NormalEncodesTheSame(e.value);
      CostSnoc(entries[..n - 1], e, name);
      CostPut(NormalEntries(entries, n - 1), e.name, Normal(e.value), name);
    }
  }

  lemma {:induction false} EntriesEncodeTheSame(entries: seq<Entry>)
    ensures var out := NormalEntries(entries, |entries|);
      EncodedEntries(out, |out|) == EncodedEntries(entries, |entries|)
    decreases entries, 1, 0
  {
    var out := NormalEntries(entries, |entries|);
    NormalKeepsCost(entries, |entries|, "");
    assert entries[..|entries|] == entries && entries[|entries|..] == [] && out[|out|..] == [];
    EncodedIsKept(entries, |entries|);
    EncodedIsKept(out, |out|);
  }

  lemma {:induction false} ItemsAreNormal(items: seq<Value>, n: nat, k: nat)
    requires k < n <= |items|
    ensures NormalItems(items, n)[k] == Normal(items[k])
    decreases n
  {
    if k < n - 1 {
      ItemsAreNormal(items, n - 1, k);
    }
  }

  lemma {:induction false} ItemsEncodeTheSame(items: seq<Value>, out: seq<Value>, n: nat)
    requires n <= |items| && out == NormalItems(items, |items|)
    ensures EncodedItems(out, n) == EncodedItems(items, n)
    decreases items, 0, n
  {
    if n > 0 {
      ItemsEncodeTheSame(items, out, n - 1);
      ItemsAreNormal(items, |items|, n - 1);
      NormalEncodesTheSame(items[n - 1]);
    }
  }

  /** What is encoded after normalising is as long as the value's own encoding, shared names included. */
  lemma {:induction false} NormalEncodesTheSame(v: Value)
    ensures Encoded(Normal(v)) == Encoded(v)
    decreases v, 1, 0
  {
    match v
    case Pointer(target) => NormalEncodesTheSame(target);
    case List(items) => ItemsEncodeTheSame(items, NormalItems(items, |items|), |items|);
    case Map(entries) => EntriesEncodeTheSame(entries);
    case Struct(fields) => EntriesEncodeTheSame(fields);
    case _ =>
  }
}
