/** Reading the results of an atomic script (consumeTemporaryResult and the loop around it in
    pkg/drivers/pg/machine_atomic.go) under one byte budget and one row limit. */
module AtomicResults {
  import opened Common
  import opened TransactionServer
  import Utf8

  const MAX_VALUE: nat := 65536
  const MAX_BYTES: nat := 1048576
  const MAX_RESULTS: nat := 256

  type Row = seq<Option<string>>

  datatype Field = Field(name: string, oid: nat, isText: bool)

  /** One statement's result as the server sends it; `failure` is what closing the reader reports. */
  datatype Stream = Stream(fields: seq<Field>, rows: seq<Row>, tag: string, failure: Failure)

  datatype Column = Column(name: string, oid: nat)

  datatype StatementResult = StatementResult(tag: string, columns: seq<Column>, rows: seq<Row>, truncated: bool)

  /** What the budget is charged for: each is encoded as JSON and costs its length and a separator. */
  datatype Charged = ColumnCharge(column: Column) | RowCharge(row: Row) | TagCharge(tag: string)

  /** The codes of MachineError. */
  datatype Code = PolicyDenied | InvalidInput | ResourceFailure | DatabaseFailure | Timeout

  datatype Problem = Own(code: Code) | Wire(failure: Failure)

  function Charges(length: Charged -> nat, xs: seq<Charged>): (n: nat) {
    if xs == [] then 0 else Charges(length, xs[..|xs| - 1]) + length(xs[|xs| - 1]) + 1
  }

  lemma {:induction false} ChargesGrow(length: Charged -> nat, xs: seq<Charged>, k: nat)
    requires k <= |xs|
    ensures Charges(length, xs[..k]) <= Charges(length, xs)
    decreases |xs|
  {
    if k < |xs| {
      var init := xs[..|xs| - 1];
      ChargesGrow(length, init, k);
      assert init[..k] == xs[..k];
    } else {
      assert xs[..k] == xs;
    }
  }

  lemma ChargesSnoc(length: Charged -> nat, xs: seq<Charged>, k: nat)
    requires k < |xs|
    ensures Charges(length, xs[..k + 1]) == Charges(length, xs[..k]) + length(xs[k]) + 1
  {
    assert xs[..k + 1][..k] == xs[..k];
  }

  function Min(a: nat, b: nat): nat { if a < b then a else b }

  function Columns(fields: seq<Field>): (cs: seq<Column>)
    ensures |cs| == |fields| && forall i :: 0 <= i < |cs| ==> cs[i] == Column(fields[i].name, fields[i].oid)
  {
    seq(|fields|, i requires 0 <= i < |fields| => Column(fields[i].name, fields[i].oid))
  }

  /** The result kept when `room` more rows may be kept. */
  function Kept(st: Stream, room: nat): StatementResult {
    StatementResult(st.tag, Columns(st.fields), st.rows[..Min(room, |st.rows|)], |st.rows| > room)
  }

  /** Everything the kept result is charged for, in order. */
  function Bill(r: StatementResult): (xs: seq<Charged>)
    ensures |xs| == |r.columns| + |r.rows| + 1
  {
    seq(|r.columns| + |r.rows| + 1, i requires 0 <= i <= |r.columns| + |r.rows| =>
      if i < |r.columns| then ColumnCharge(r.columns[i])
      else if i < |r.columns| + |r.rows| then RowCharge(r.rows[i - |r.columns|])
      else TagCharge(r.tag))
  }

  predicate GoodField(f: Field) { |f.name| <= MAX_VALUE && Utf8.Valid(f.name) && f.isText }

  predicate GoodValue(v: Option<string>) { v.None? || (|v.value| <= MAX_VALUE && Utf8.Valid(v.value)) }

  predicate GoodRow(fields: seq<Field>, row: Row) {
    |row| == |fields| && forall v :: v in row ==> GoodValue(v)
  }

  predicate GoodRows(fields: seq<Field>, rows: seq<Row>) {
    forall i :: 0 <= i < |rows| ==> GoodRow(fields, rows[i])
  }

  predicate DataTag(tag: string) {
    "SELECT " <= tag || "INSERT " <= tag || "UPDATE " <= tag || "DELETE " <= tag
  }

  /** The budget after the first `k` charges for the kept result. */
  ghost function Spent(length: Charged -> nat, st: Stream, budget: nat, room: nat, k: nat): nat
    requires k <= |Bill(Kept(st, room))|
  {
    budget + 128 + Charges(length, Bill(Kept(st, room))[..k])
  }

  /** Every row is checked, also those past the row limit; only kept rows are charged. */
  predicate Acceptable(length: Charged -> nat, st: Stream, budget: nat, room: nat) {
    && (forall f :: f in st.fields ==> GoodField(f))
    && GoodRows(st.fields, st.rows)
    && st.failure.NoFailure?
    && |st.tag| <= MAX_VALUE && Utf8.Valid(st.tag) && DataTag(st.tag)
    && budget + 128 + Charges(length, Bill(Kept(st, room))) <= MAX_BYTES
  }

  lemma SpendColumn(length: Charged -> nat, st: Stream, budget: nat, room: nat, i: nat)
    requires i < |st.fields|
    ensures Spent(length, st, budget, room, i + 1)
      == Spent(length, st, budget, room, i) + length(ColumnCharge(Columns(st.fields)[i])) + 1
  {
    ChargesSnoc(length, Bill(Kept(st, room)), i);
  }

  lemma SpendTag(length: Charged -> nat, st: Stream, budget: nat, room: nat)
    ensures var k := |st.fields| + Min(room, |st.rows|);
      budget + 128 + Charges(length, Bill(Kept(st, room)))
      == Spent(length, st, budget, room, k) + length(TagCharge(st.tag)) + 1
  {
    var bill := Bill(Kept(st, room));
    assert bill[..|bill|] == bill;
    ChargesSnoc(length, bill, |bill| - 1);
  }

  /** A budget exceeded after some of the charges stays exceeded. */
  lemma OverBudget(length: Charged -> nat, st: Stream, budget: nat, room: nat, k: nat)
    requires k <= |Bill(Kept(st, room))| && Spent(length, st, budget, room, k) > MAX_BYTES
    ensures !Acceptable(length, st, budget, room)
  {
    ChargesGrow(length, Bill(Kept(st, room)), k);
  }

  lemma BadField(length: Charged -> nat, st: Stream, budget: nat, room: nat, i: nat)
    requires i < |st.fields| && !GoodField(st.fields[i])
    ensures !Acceptable(length, st, budget, room)
  {
    assert st.fields[i] in st.fields;
  }

  /** The columns: all fields are good and their charges fit. */
  method ConsumeFields(length: Charged -> nat, st: Stream, budget: nat, ghost room: nat)
    returns (columns: seq<Column>, ok: bool, spent: nat)
    ensures ok ==> columns == Columns(st.fields) && forall f :: f in st.fields ==> GoodField(f)
    ensures ok ==> spent == Spent(length, st, budget, room, |st.fields|)
    ensures !ok ==> !Acceptable(length, st, budget, room)
  {
    columns, spent := [], budget + 128;
    for i := 0 to |st.fields|
      invariant columns == Columns(st.fields)[..i]
      invariant forall k :: 0 <= k < i ==> GoodField(st.fields[k])
      invariant spent == Spent(length, st, budget, room, i)
    {
      var field := st.fields[i];
      if |field.name| > MAX_VALUE || !Utf8.Valid(field.name) || !field.isText {
        BadField(length, st, budget, room, i);
        return columns, false, spent;
      }
      var column := Column(field.name, field.oid);
      SpendColumn(length, st, budget, room, i);
      spent := spent + length(ColumnCharge(column)) + 1;
      if spent > MAX_BYTES {
        OverBudget(length, st, budget, room, i + 1);
        return columns, false, spent;
      }
      columns := columns + [column];
    }
    ok := true;
  }

  method CheckRow(fields: seq<Field>, values: Row) returns (ok: bool)
    ensures ok == GoodRow(fields, values)
  {
    if |values| != |fields| {
      return false;
    }
    for k := 0 to |values|
      invariant forall j :: 0 <= j < k ==> GoodValue(values[j])
    {
      if values[k].Some? && (|values[k].value| > MAX_VALUE || !Utf8.Valid(values[k].value)) {
        assert values[k] in values && !GoodValue(values[k]);
        return false;
      }
    }
    ok := true;
  }

  /** The rows, after `before` charges; `bill` is the whole bill. */
  method ConsumeRows(length: Charged -> nat, rows: seq<Row>, fields: seq<Field>, room: nat,
                     ghost bill: seq<Charged>, ghost before: nat, spentBefore: nat)
    returns (kept: seq<Row>, truncated: bool, ok: bool, spent: nat)
    requires before + Min(room, |rows|) <= |bill|
    requires forall i :: 0 <= i < Min(room, |rows|) ==> bill[before + i] == RowCharge(rows[i])
    requires Charges(length, bill[..before]) <= spentBefore
    ensures ok ==> kept == rows[..Min(room, |rows|)] && truncated == (|rows| > room) && GoodRows(fields, rows)
    ensures ok ==>
      spent - spentBefore == Charges(length, bill[..before + Min(room, |rows|)]) - Charges(length, bill[..before])
    ensures !ok ==>
      !GoodRows(fields, rows) || spentBefore - Charges(length, bill[..before]) + Charges(length, bill) > MAX_BYTES
  {
    hide GoodRow, Charges;
    ghost var base := spentBefore - Charges(length, bill[..before]);
    kept, truncated, spent := [], false, spentBefore;
    for i := 0 to |rows|
      invariant |kept| == (if room < i then room else i) && kept == rows[..|kept|] && truncated == (i > room)
      invariant GoodRows(fields, rows[..i])
      invariant spent == base + Charges(length, bill[..before + |kept|])
    {
      var values := rows[i];
      var good := CheckRow(fields, values);
      if !good {
        return kept, truncated, false, spent;
      }
      if |kept| >= room {
        truncated := true;
      } else {
        ChargesSnoc(length, bill, before + i);
        spent := spent + length(RowCharge(values)) + 1;
        if spent > MAX_BYTES {
          ChargesGrow(length, bill, before + i + 1);
          return kept, truncated, false, spent;
        }
        kept := kept + [values];
      }
    }
    ok := true;
  }

  predicate GoodEnd(length: Charged -> nat, st: Stream, spent: nat) {
    && st.failure.NoFailure?
    && |st.tag| <= MAX_VALUE && Utf8.Valid(st.tag) && DataTag(st.tag)
    && spent + length(TagCharge(st.tag)) + 1 <= MAX_BYTES
  }

  /** Closing the reader: its error, and the command tag. */
  method ConsumeEnd(length: Charged -> nat, st: Stream, spentBefore: nat)
    returns (tag: string, problem: Option<Problem>, spent: nat)
    ensures problem.None? <==> GoodEnd(length, st, spentBefore)
    ensures problem.None? ==> tag == st.tag && spent == spentBefore + length(TagCharge(st.tag)) + 1
  {
    tag, spent := "", spentBefore;
    if !st.failure.NoFailure? {
      return tag, Some(Wire(st.failure)), spent;
    }
    tag := st.tag;
    if |tag| > MAX_VALUE || !Utf8.Valid(tag) {
      return tag, Some(Own(ResourceFailure)), spent;
    }
    spent := spent + length(TagCharge(tag)) + 1;
    if spent > MAX_BYTES {
      return tag, Some(Own(ResourceFailure)), spent;
    }
    problem := if DataTag(tag) then None else Some(Own(DatabaseFailure));
  }

  lemma AcceptableParts(length: Charged -> nat, st: Stream, budget: nat, room: nat)
    ensures Acceptable(length, st, budget, room)
      <==> (forall f :: f in st.fields ==> GoodField(f)) && GoodRows(st.fields, st.rows)
           && GoodEnd(length, st, Spent(length, st, budget, room, |st.fields| + Min(room, |st.rows|)))
  {
    SpendTag(length, st, budget, room);
  }

  /** consumeTemporaryResult: succeeds exactly on an acceptable stream, and then keeps its first rows and
      has spent exactly what they cost. */
  method ConsumeTemporaryResult(length: Charged -> nat, st: Stream, budget: nat, rows: nat, maxRows: nat)
    returns (item: StatementResult, problem: Option<Problem>, budget': nat, rows': nat)
    requires rows <= maxRows
    ensures problem.None? <==> Acceptable(length, st, budget, maxRows - rows)
    ensures problem.None? ==> item == Kept(st, maxRows - rows) && rows' == rows + |item.rows|
    ensures problem.None? ==> budget' == budget + 128 + Charges(length, Bill(item))
  {
    hide Charges, GoodEnd, GoodField, GoodRows, KeptBatch;
    var room := maxRows - rows;
    item, rows' := StatementResult("", [], [], false), rows;
    var columns, good, spent := ConsumeFields(length, st, budget, room);
    budget' := spent;
    if !good {
      return item, Some(Own(ResourceFailure)), budget', rows;
    }
    ghost var bill := Bill(Kept(st, room));
    var kept, truncated, fits, after := ConsumeRows(length, st.rows, st.fields, room, bill, |st.fields|, spent);
    budget' := after;
    if !fits {
      return item, Some(Own(ResourceFailure)), budget', rows;
    }
    rows' := rows + |kept|;
    AcceptableParts(length, st, budget, room);
    SpendTag(length, st, budget, room);
    var tag, failed, final := ConsumeEnd(length, st, after);
    item, problem, budget' := StatementResult(tag, columns, kept, truncated), failed, final;
  }

  // ---------------------------------------------------------------------------------------------
  // The loop over a batch

  function SentRows(streams: seq<Stream>): seq<Row> {
    if streams == [] then [] else SentRows(streams[..|streams| - 1]) + streams[|streams| - 1].rows
  }

  function KeptRows(results: seq<StatementResult>): seq<Row> {
    if results == [] then [] else KeptRows(results[..|results| - 1]) + results[|results| - 1].rows
  }

  lemma SentSnoc(streams: seq<Stream>, st: Stream)
    ensures SentRows(streams + [st]) == SentRows(streams) + st.rows
  {
    assert (streams + [st])[..|streams|] == streams;
  }

  lemma KeptSnoc(results: seq<StatementResult>, item: StatementResult)
    ensures KeptRows(results + [item]) == KeptRows(results) + item.rows
  {
    assert (results + [item])[..|results|] == results;
  }

  function Cost(length: Charged -> nat, results: seq<StatementResult>): nat {
    if results == [] then 0
    else Cost(length, results[..|results| - 1]) + 128 + Charges(length, Bill(results[|results| - 1]))
  }

  ghost predicate SameHeads(streams: seq<Stream>, results: seq<StatementResult>) {
    |results| == |streams| &&
    forall i :: 0 <= i < |results| ==>
      streams[i].failure.NoFailure? && results[i].tag == streams[i].tag && results[i].columns == Columns(streams[i].fields)
  }

  ghost predicate Limited(sent: seq<Row>, kept: seq<Row>, truncated: bool, maxRows: nat) {
    kept == sent[..Min(maxRows, |sent|)] && (truncated <==> |sent| > maxRows)
  }

  /** The results of a whole batch read within its limits: the kept rows are the first `maxRows` of all
      the rows the server sent, over all statements, and the bill stays within the budget. */
  ghost predicate Faithful(length: Charged -> nat, streams: seq<Stream>, results: seq<StatementResult>,
                           truncated: bool, maxRows: nat)
  {
    && SameHeads(streams, results)
    && |results| <= MAX_RESULTS
    && Limited(SentRows(streams), KeptRows(results), truncated, maxRows)
    && 4096 + Cost(length, results) <= MAX_BYTES
  }

  lemma LimitedSnoc(sent: seq<Row>, kept: seq<Row>, truncated: bool, maxRows: nat, rows: seq<Row>)
    requires Limited(sent, kept, truncated, maxRows)
    ensures |kept| <= maxRows
    ensures Limited(sent + rows, kept + rows[..Min(maxRows - |kept|, |rows|)], truncated || |rows| > maxRows - |kept|, maxRows)
  {
  }

  lemma CostSnoc(length: Charged -> nat, results: seq<StatementResult>, item: StatementResult)
    ensures Cost(length, results + [item]) == Cost(length, results) + 128 + Charges(length, Bill(item))
  {
    assert (results + [item])[..|results|] == results;
  }

  lemma HeadsSnoc(streams: seq<Stream>, results: seq<StatementResult>, st: Stream, item: StatementResult)
    requires SameHeads(streams, results) && st.failure.NoFailure?
    requires item.tag == st.tag && item.columns == Columns(st.fields)
    ensures SameHeads(streams + [st], results + [item])
  {
  }

  lemma FaithfulSnoc(length: Charged -> nat, streams: seq<Stream>, results: seq<StatementResult>,
                     truncated: bool, maxRows: nat, st: Stream, item: StatementResult)
    requires Faithful(length, streams, results, truncated, maxRows) && |results| < MAX_RESULTS
    requires |KeptRows(results)| <= maxRows && st.failure.NoFailure? && item == Kept(st, maxRows - |KeptRows(results)|)
    requires 4096 + Cost(length, results) + 128 + Charges(length, Bill(item)) <= MAX_BYTES
    ensures Faithful(length, streams + [st], results + [item], truncated || item.truncated, maxRows)
    ensures |KeptRows(results + [item])| == |KeptRows(results)| + |item.rows|
    ensures Cost(length, results + [item]) == Cost(length, results) + 128 + Charges(length, Bill(item))
  {
    SentSnoc(streams, st);
    KeptSnoc(results, item);
    LimitedSnoc(SentRows(streams), KeptRows(results), truncated, maxRows, st.rows);
    HeadsSnoc(streams, results, st, item);
    CostSnoc(length, results, item);
  }

  // ---------------------------------------------------------------------------------------------
  // When a batch can be read

  /** What a batch comes to: each stream's first rows while the row limit lasts. */
  function KeptBatch(streams: seq<Stream>, maxRows: nat): (results: seq<StatementResult>)
    ensures |results| == |streams| && |KeptRows(results)| <= maxRows
    decreases |streams|
  {
    if streams == [] then []
    else
      var n := |streams| - 1;
      var before := KeptBatch(streams[..n], maxRows);
      var item := Kept(streams[n], maxRows - |KeptRows(before)|);
      KeptSnoc(before, item);
      before + [item]
  }

  /** The stream at `i` is good, and what is kept of it fits the budget the ones before have left. */
  predicate FitsAt(length: Charged -> nat, streams: seq<Stream>, maxRows: nat, i: nat)
    requires i < |streams|
  {
    var before := KeptBatch(streams[..i], maxRows);
    Acceptable(length, streams[i], 4096 + Cost(length, before), maxRows - |KeptRows(before)|)
  }

  /** Every stream can be read, and there are no more than allowed. */
  ghost predicate Readable(length: Charged -> nat, streams: seq<Stream>, statements: nat, maxRows: nat) {
    && |streams| <= statements && |streams| <= MAX_RESULTS
    && forall i :: 0 <= i < |streams| ==> FitsAt(length, streams, maxRows, i)
  }

  lemma KeptBatchSnoc(streams: seq<Stream>, i: nat, maxRows: nat)
    requires i < |streams|
    ensures var before := KeptBatch(streams[..i], maxRows);
      KeptBatch(streams[..i + 1], maxRows) == before + [Kept(streams[i], maxRows - |KeptRows(before)|)]
  {
    assert streams[..i + 1][..i] == streams[..i];
  }
}
