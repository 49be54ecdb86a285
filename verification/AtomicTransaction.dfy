/** ExecuteTemporaryAtomic (pkg/drivers/pg/machine_atomic.go): one script in one transaction, with an
    outcome that must be true whatever the server and the connection do. */
module AtomicTransaction {
  import opened Common
  import opened TransactionServer
  import opened AtomicResults
  import Utf8

  datatype Outcome = NotStarted | RolledBack | Disposed | Committed | Unknown

  datatype Execution = Waiting | Completed | Failed | Uncertain

  datatype AtomicResult = AtomicResult(results: seq<StatementResult>, truncated: bool, execution: Execution,
                                       effects: bool, outcome: Outcome)

  const NOTHING := AtomicResult([], false, Waiting, false, NotStarted)

  datatype ValidatedScript = ValidatedScript(sql: string, statements: nat, parameterCount: nat, writes: bool,
                                             allowWrite: bool, validated: bool)

  datatype Options = Options(maxRows: int, schema: string)

  /** What the call did, in order: commands handed to the connection with their answers, and the run of
      the precommit callback on a prospective result. */
  datatype Event = Sent(command: Command, answer: Answer) | Validated(prospective: AtomicResult, accepted: bool)

  // ---------------------------------------------------------------------------------------------
  // Checks before anything is sent

  predicate Text(t: string) { Utf8.Valid(t) && '\0' !in t }

  function TotalBytes(params: seq<string>): nat {
    if params == [] then 0 else TotalBytes(params[..|params| - 1]) + |params[|params| - 1]|
  }

  predicate ParametersAllowed(params: seq<string>) {
    TotalBytes(params) <= MAX_BYTES && forall p :: p in params ==> Text(p)
  }

  function RowLimit(options: Options): int { if options.maxRows == 0 then 100 else options.maxRows }

  /** The code the call fails with before it looks at the connection. */
  function Refusal(temporary: bool, script: ValidatedScript, params: seq<string>, options: Options, precommit: bool):
    Option<Code>
  {
    if !temporary then Some(PolicyDenied)
    else if !script.validated || script.statements == 0 || script.parameterCount != |params|
            || (|params| > 0 && script.statements != 1) || !precommit then Some(InvalidInput)
    else if script.writes && !script.allowWrite then Some(PolicyDenied)
    else if script.statements > 256 then Some(ResourceFailure)
    else if !(1 <= RowLimit(options) <= 1000) || |params| > 256 || |options.schema| > MAX_BYTES
            || !Text(options.schema) || !ParametersAllowed(params) then Some(InvalidInput)
    else None
  }

  /** What a call may ask for: a validated script of one to 256 statements, which writes only where writing is allowed,
      the parameters it has, and them only with a single statement, and everything within its limits. */
  predicate Permitted(script: ValidatedScript, params: seq<string>, options: Options) {
    && script.validated && 1 <= script.statements <= 256 && script.parameterCount == |params| <= 256
    && (params != [] ==> script.statements == 1)
    && (script.writes ==> script.allowWrite)
    && 0 <= options.maxRows <= 1000
    && |options.schema| <= 0x10_0000 && Utf8.Valid(options.schema) && '\0' !in options.schema
    && (forall p :: p in params ==> Utf8.Valid(p) && '\0' !in p) && TotalBytes(params) <= 0x10_0000
  }

  /** A call is refused exactly when it asks for anything else, comes without the callback that accepts its result,
      or on a client that is not temporary. */
  lemma RefusedExactly(temporary: bool, script: ValidatedScript, params: seq<string>, options: Options, precommit: bool)
    ensures Refusal(temporary, script, params, options, precommit).None?
      <==> temporary && precommit && Permitted(script, params, options)
  {
    assert forall k :: 0 <= k < |params| ==> params[k] in params;
  }

  lemma {:induction false} PrefixBytes(params: seq<string>, k: nat)
    requires k <= |params|
    ensures TotalBytes(params[..k]) <= TotalBytes(params)
    decreases |params|
  {
    if k < |params| {
      PrefixBytes(params[..|params| - 1], k);
      assert params[..|params| - 1][..k] == params[..k];
    } else {
      assert params[..k] == params;
    }
  }

  method CheckParameters(params: seq<string>) returns (ok: bool)
    ensures ok == ParametersAllowed(params)
  {
    var bytes := 0;
    for i := 0 to |params|
      invariant bytes == TotalBytes(params[..i])
      invariant forall k :: 0 <= k < i ==> Text(params[k])
    {
      assert params[..i + 1][..i] == params[..i];
      bytes := bytes + |params[i]|;
      if bytes > MAX_BYTES || !Utf8.Valid(params[i]) || '\0' in params[i] {
        PrefixBytes(params, i + 1);
        assert params[i] in params;
        return false;
      }
    }
    assert params[..|params|] == params;
    ok := bytes <= MAX_BYTES;
  }

  // ---------------------------------------------------------------------------------------------
  // The order of events

  function Stage(e: Event): nat {
    match e
    case Sent(Setting(_), _) => 0
    case Sent(Begin(_), _) => 1
    case Sent(SearchPath(_), _) => 2
    case Sent(Script(_), _) => 3
    case Validated(_, _) => 4
    case Sent(Commit, _) => 5
    case Sent(Rollback, _) => 6
  }

  /** Everything but the two settings happens at most once, and in the order of the stages. */
  ghost predicate InOrder(events: seq<Event>) {
    forall i, j :: 0 <= i < j < |events| ==> Stage(events[i]) < Stage(events[j]) || Stage(events[j]) == 0
  }

  /** The commands one call may send. */
  datatype Plan = Plan(sql: string, readOnly: bool, schema: string)

  predicate Planned(e: Event, plan: Plan) {
    match e
    case Sent(Begin(readOnly), _) => readOnly == plan.readOnly
    case Sent(SearchPath(schema), _) => schema == plan.schema && schema != ""
    case Sent(Script(sql), _) => sql == plan.sql
    case _ => true
  }

  ghost predicate UpTo(events: seq<Event>, stage: nat, plan: Plan) {
    InOrder(events) && forall i :: 0 <= i < |events| ==> Stage(events[i]) <= stage && Planned(events[i], plan)
  }

  lemma UpToSnoc(events: seq<Event>, stage: nat, e: Event, plan: Plan)
    requires UpTo(events, stage, plan) && Planned(e, plan) && (stage < Stage(e) || (stage == 0 && Stage(e) == 0))
    ensures UpTo(events + [e], Stage(e), plan)
  {
  }

  lemma UpToMore(events: seq<Event>, a: nat, b: nat, plan: Plan)
    requires UpTo(events, a, plan) && a <= b
    ensures UpTo(events, b, plan)
  {
  }

  /** The server has acknowledged the COMMIT, and the connection has stayed open. */
  predicate Acknowledged(a: Answer) { a.tag == "COMMIT" && a.status == 'I' && !a.closed }

  /** The server has said that it did not commit. */
  predicate Denied(a: Answer) {
    !a.closed && ((a.tag == "ROLLBACK" && a.status == 'I') || a.failure.ServerError?)
  }

  /** What may be said right after the answer to the COMMIT. */
  predicate Verdict(outcome: Outcome, definitive: bool, a: Answer) {
    && definitive == (Acknowledged(a) || Denied(a))
    && outcome == if Acknowledged(a) then Committed else if Denied(a) && a.status == 'I' then RolledBack else Unknown
  }

  /** The answer to the COMMIT, if one was sent. */
  function CommitAnswer(events: seq<Event>): Option<Answer> {
    if events == [] then None
    else
      match events[|events| - 1]
      case Sent(Commit, a) => Some(a)
      case _ => CommitAnswer(events[..|events| - 1])
  }

  /** A transaction was begun: BEGIN was sent, whatever came of it. */
  predicate Begun(events: seq<Event>) { exists i :: 0 <= i < |events| && Stage(events[i]) == 1 }

  /** The server has acknowledged the ROLLBACK sent last, on a connection that has stayed open and idle. */
  predicate RollbackAnswered(events: seq<Event>) {
    events != [] &&
    match events[|events| - 1]
    case Sent(Rollback, a) => a.failure.NoFailure? && a.tag == "ROLLBACK" && a.status == 'I' && !a.closed
    case _ => false
  }

  predicate RollbackSent(events: seq<Event>) {
    events != [] && events[|events| - 1].Sent? && events[|events| - 1].command.Rollback?
  }

  /** The answer to the COMMIT settles it: it is acknowledged, or denied on an idle connection. */
  predicate Confirmed(c: Option<Answer>) { c.Some? && Acknowledged(c.value) }

  predicate DeniedIdle(c: Option<Answer>) { c.Some? && Denied(c.value) && c.value.status == 'I' }

  /** The answer or verdict of an event gives the call a reason to fail. */
  predicate Bad(e: Event) {
    match e
    case Sent(Begin(_), a) => !a.failure.NoFailure? || a.tag != "BEGIN" || a.closed || a.status != 'T'
    case Sent(Script(_), a) => !a.failure.NoFailure? || a.closed || a.status != 'T'
    case Sent(Commit, a) => !a.failure.NoFailure? || !Acknowledged(a)
    case Sent(Rollback, _) => false
    case Sent(_, a) => !a.failure.NoFailure?
    case Validated(_, accepted) => !accepted
  }

  predicate SomeBad(events: seq<Event>) { exists i :: 0 <= i < |events| && Bad(events[i]) }

  predicate ScriptSent(events: seq<Event>) { exists i :: 0 <= i < |events| && Stage(events[i]) == 3 }

  /** Which outcome is reported, by what was sent and answered: committed exactly on an acknowledged COMMIT, rolled
      back when the server has denied it on an idle connection or has answered the ROLLBACK and there is no COMMIT in
      doubt, disposed when the ROLLBACK of a transaction without a COMMIT was not answered, unknown when the answer
      to the COMMIT is missing, or denies it on a connection that is not idle and the ROLLBACK was not answered. */
  predicate Reported(outcome: Outcome, events: seq<Event>) {
    var c, answered := CommitAnswer(events), RollbackAnswered(events);
    && (outcome.Committed? <==> Confirmed(c))
    && (outcome.RolledBack? <==>
          Begun(events) && !Confirmed(c) && (DeniedIdle(c) || (answered && (c.None? || Denied(c.value)))))
    && (outcome.Disposed? <==> Begun(events) && c.None? && !answered)
    && (outcome.Unknown? <==> c.Some? && !Confirmed(c) && !DeniedIdle(c) && !(answered && Denied(c.value)))
  }

  /** The script was answered with a failure, or the transaction did not stay open. */
  predicate ScriptBad(events: seq<Event>) { exists i :: 0 <= i < |events| && Stage(events[i]) == 3 && Bad(events[i]) }

  /** The script has run, and its results could be read, all of them. */
  ghost predicate Whole(length: Charged -> nat, received: seq<Stream>, statements: nat, maxRows: nat, events: seq<Event>) {
    !ScriptBad(events) && Readable(length, received, statements, maxRows) && |received| == statements
  }

  /** What the result says of the execution: effects may have occurred exactly when the script was sent; then the
      answer to the COMMIT counts, if there is one, and otherwise whether the script has run as a whole. */
  ghost predicate Told(r: AtomicResult, events: seq<Event>, whole: bool) {
    && r.effects == ScriptSent(events)
    && r.execution ==
       if !ScriptSent(events) then Waiting
       else
         match CommitAnswer(events)
         case Some(a) => (if Acknowledged(a) then Completed else if Denied(a) then Failed else Uncertain)
         case None => if whole then Completed else Failed
  }

  lemma EventsSnoc(events: seq<Event>, e: Event)
    ensures SomeBad(events) || Bad(e) ==> SomeBad(events + [e])
    ensures Begun(events + [e]) <==> Begun(events) || Stage(e) == 1
    ensures ScriptSent(events + [e]) <==> ScriptSent(events) || Stage(e) == 3
    ensures ScriptBad(events + [e]) <==> ScriptBad(events) || (Stage(e) == 3 && Bad(e))
    ensures RollbackSent(events + [e]) <==> e.Sent? && e.command.Rollback?
  {
    var all := events + [e];
    assert all[|events|] == e;
    assert forall i :: 0 <= i < |events| ==> all[i] == events[i];
  }

  /** What was told stays true when only a ROLLBACK has been sent since. */
  lemma ToldStays(length: Charged -> nat, received: seq<Stream>, statements: nat, maxRows: nat,
                  r: AtomicResult, before: seq<Event>, t: AtomicResult, after: seq<Event>)
    requires Told(r, before, Whole(length, received, statements, maxRows, before))
    requires t.execution == r.execution && t.effects == r.effects && CommitAnswer(after) == CommitAnswer(before)
    requires (ScriptSent(before) <==> ScriptSent(after)) && (ScriptBad(before) <==> ScriptBad(after))
    ensures Told(t, after, Whole(length, received, statements, maxRows, after))
  {
    hide ScriptSent, ScriptBad, Readable, CommitAnswer;
  }

  lemma ToldNothing(whole: bool)
    ensures Told(NOTHING, [], whole)
  {
  }

  lemma NoScriptBefore(events: seq<Event>, plan: Plan)
    requires UpTo(events, 2, plan)
    ensures !ScriptSent(events) && !ScriptBad(events)
  {
  }

  lemma CommitAnswerSnoc(events: seq<Event>, e: Event)
    ensures CommitAnswer(events + [e])
      == if e.Sent? && e.command.Commit? then Some(e.answer) else CommitAnswer(events)
  {
    assert (events + [e])[..|events|] == events;
  }

  lemma {:induction false} NoCommitBefore(events: seq<Event>, plan: Plan)
    requires UpTo(events, 4, plan)
    ensures CommitAnswer(events).None?
    decreases |events|
  {
    if events != [] {
      assert Stage(events[|events| - 1]) <= 4;
      NoCommitBefore(events[..|events| - 1], plan);
    }
  }

  lemma FaithfulPrefix(length: Charged -> nat, streams: seq<Stream>, i: nat, results: seq<StatementResult>,
                       truncated: bool, maxRows: nat, item: StatementResult)
    requires i < |streams| && Faithful(length, streams[..i], results, truncated, maxRows) && |results| < MAX_RESULTS
    requires streams[i].failure.NoFailure? && |KeptRows(results)| <= maxRows
    requires item == Kept(streams[i], maxRows - |KeptRows(results)|)
    requires 4096 + Cost(length, results) + 128 + Charges(length, Bill(item)) <= MAX_BYTES
    ensures Faithful(length, streams[..i + 1], results + [item], truncated || item.truncated, maxRows)
    ensures |KeptRows(results + [item])| == |KeptRows(results)| + |item.rows| <= maxRows
    ensures Cost(length, results + [item]) == Cost(length, results) + 128 + Charges(length, Bill(item))
  {
    FaithfulSnoc(length, streams[..i], results, truncated, maxRows, streams[i], item);
    assert streams[..i + 1] == streams[..i] + [streams[i]];
  }

  lemma EmptyBatch(length: Charged -> nat, streams: seq<Stream>, maxRows: nat)
    ensures streams[..0] == [] && KeptBatch([], maxRows) == [] && Faithful(length, [], [], false, maxRows)
    ensures KeptRows([]) == [] && Cost(length, []) == 0
  {
  }

  lemma FitsAfter(length: Charged -> nat, streams: seq<Stream>, maxRows: nat, i: nat, results: seq<StatementResult>)
    requires i < |streams| && results == KeptBatch(streams[..i], maxRows)
    ensures |results| == i && |KeptRows(results)| <= maxRows
    ensures FitsAt(length, streams, maxRows, i)
      <==> Acceptable(length, streams[i], 4096 + Cost(length, results), maxRows - |KeptRows(results)|)
    ensures Acceptable(length, streams[i], 4096 + Cost(length, results), maxRows - |KeptRows(results)|) ==>
      && streams[i].failure.NoFailure?
      && 4096 + Cost(length, results) + 128 + Charges(length, Bill(Kept(streams[i], maxRows - |KeptRows(results)|)))
         <= MAX_BYTES
  {
  }

  lemma BegunIsOpen(s: Server, status: char, readOnly: bool, t: Server, a: Answer)
    requires Behaves(s, status, Begin(readOnly), t, a) && a.failure.NoFailure?
    ensures t.transaction.Open?
  {
  }

  lemma FaithfulFirst(length: Charged -> nat, streams: seq<Stream>, results: seq<StatementResult>,
                      truncated: bool, maxRows: nat)
    requires Faithful(length, streams, results, truncated, maxRows)
    ensures streams != [] ==> streams[0].failure.NoFailure?
  {
  }

  lemma ScriptLeavesOpen(s: Server, status: char, sql: string, t: Server, a: Answer)
    requires Behaves(s, status, Script(sql), t, a) && s.transaction.Open?
    ensures a.failure.NoFailure? ==> t.transaction.Open?
  {
  }

  // ---------------------------------------------------------------------------------------------
  // The client

  class MachineClient {
    const temporary: bool
    /** The length of a value's JSON encoding. */
    const jsonLength: Charged -> nat

    /** The server's side; the client's code never reads it. */
    var server: Server

    /** The connection: whether it knows that it is closed, the last transaction status it has seen,
        and whether its transport has been cut under it. */
    var closed: bool
    var status: char
    var dead: bool

    ghost var events: seq<Event>
    ghost var received: seq<Stream>

    /** The context had ended when the call looked at it. */
    ghost var interrupted: bool

    constructor (temporary: bool, jsonLength: Charged -> nat, server: Server, status: char)
      ensures this.temporary == temporary && this.jsonLength == jsonLength
      ensures this.server == server && this.status == status && !closed && !dead
      ensures events == [] && received == [] && !interrupted
    {
      this.temporary, this.jsonLength, this.server, this.status := temporary, jsonLength, server, status;
      closed, dead, events, received, interrupted := false, false, [], [], false;
    }

    /** What happens next outside the client: any choice at all. */
    method Oracle() returns (t: Server, r: Reply, a: Answer) {
      t, r, a := *, *, *;
    }

    /** Anything the server and the wire may do with one command. */
    method Exchange(command: Command) returns (a: Answer)
      modifies `server, `closed, `status, `events
      ensures events == old(events) + [Sent(command, a)]
      ensures a.status == status && a.closed == closed && (old(closed) ==> closed)
      ensures Behaves(old(server), old(status), command, server, a)
      ensures old(closed) || dead ==> Unheard(old(server), old(status), server, a)
    {
      var t, r, seen := Oracle();
      a := seen;
      if closed || dead || !Executes(server, command, t, r) || !Delivered(r, t, status, a) {
        t, a := server.(transaction := Gone), Answer("", TransportError, status, closed || a.closed);
        assert Unheard(server, status, t, a);
      } else {
        assert Executes(server, command, t, r) && Delivered(r, t, status, a);
      }
      server, closed, status, events := t, a.closed, a.status, events + [Sent(command, a)];
    }

    method Abort()
      modifies `dead
      ensures dead
    {
      dead := true;
    }

    /** Whether the context has ended; it may end, and cut the transport, at any moment. */
    method ContextEnded() returns (b: bool)
      modifies `dead, `interrupted
      ensures old(dead) ==> dead
      ensures interrupted == (old(interrupted) || b)
    {
      b := *;
      var cut: bool := *;
      interrupted := interrupted || b;
      dead := dead || cut;
    }

    /** machineFailure: the code the caller sees. */
    method Failure(problem: Option<Problem>, code: Code) returns (c: Code)
      modifies `dead, `interrupted
      ensures old(dead) ==> dead
      ensures c == Timeout || c == (if problem.Some? && problem.value.Own? then problem.value.code else code)
      ensures old(interrupted) ==> interrupted
    {
      var ended := ContextEnded();
      var serverTimeout: bool := *;
      if ended || (problem == Some(Wire(ServerError)) && serverTimeout) {
        return Timeout;
      }
      c := if problem.Some? && problem.value.Own? then problem.value.code else code;
    }

    /** The precommit callback: any verdict. */
    method Precommit(prospective: AtomicResult) returns (problem: Option<Problem>)
      modifies `events, `dead
      ensures old(dead) ==> dead
      ensures events == old(events) + [Validated(prospective, problem.None?)]
    {
      problem := *;
      events := events + [Validated(prospective, problem.None?)];
      var cut: bool := *;
      dead := dead || cut;
    }

    /** The script, sent once: by the simple protocol the results and a closing error, with parameters a
        single result that carries the error itself. */
    method RunScript(sql: string, single: bool) returns (streams: seq<Stream>, a: Answer)
      modifies `server, `closed, `status, `events, `received
      ensures events == old(events) + [Sent(Script(sql), a)]
      ensures a.status == status && a.closed == closed && (old(closed) ==> closed)
      ensures Behaves(old(server), old(status), Script(sql), server, a)
      ensures single ==> |streams| == 1 && streams[0].failure == a.failure
      ensures received == streams
    {
      a := Exchange(Script(sql));
      streams := *;
      if single {
        var only: Stream := *;
        streams := [only.(failure := a.failure)];
      }
      received := streams;
    }

    method ConsumeBatch(streams: seq<Stream>, statements: nat, maxRows: nat)
      returns (results: seq<StatementResult>, truncated: bool, problem: Option<Problem>)
      modifies `dead
      ensures old(dead) ==> dead
      ensures problem.None? ==>
        |results| <= statements && Faithful(jsonLength, streams, results, truncated, maxRows)
      ensures problem.None? <==> Readable(jsonLength, streams, statements, maxRows)
      ensures problem.None? ==> results == KeptBatch(streams, maxRows) && |results| == |streams|
    {
      hide Acceptable, Kept, Bill, Charges, Faithful, KeptBatch, FitsAt, Cost, KeptRows;
      EmptyBatch(jsonLength, streams, maxRows);
      results, truncated, problem := [], false, None;
      var budget, rows := 4096, 0;
      for i := 0 to |streams|
        invariant Faithful(jsonLength, streams[..i], results, truncated, maxRows)
        invariant results == KeptBatch(streams[..i], maxRows)
        invariant forall k :: 0 <= k < i ==> FitsAt(jsonLength, streams, maxRows, k)
        invariant rows == |KeptRows(results)| <= maxRows && budget == 4096 + Cost(jsonLength, results)
        invariant |results| == i <= statements && i <= MAX_RESULTS && (old(dead) ==> dead)
      {
        var item, failed, budget', rows' := ConsumeTemporaryResult(jsonLength, streams[i], budget, rows, maxRows);
        FitsAfter(jsonLength, streams, maxRows, i, results);
        if failed.None? && (|results| >= MAX_RESULTS || |results| >= statements) {
          failed := Some(Own(ResourceFailure));
        }
        if failed.Some? {
          Abort();
          assert !Readable(jsonLength, streams, statements, maxRows);
          return results, truncated, failed;
        }
        FaithfulPrefix(jsonLength, streams, i, results, truncated, maxRows, item);
        KeptBatchSnoc(streams, i, maxRows);
        budget, rows := budget', rows';
        results, truncated := results + [item], truncated || item.truncated;
      }
      assert streams[..|streams|] == streams;
    }

    /** Sessions settings before BEGIN: true when both succeed. */
    method Prepare(ghost plan: Plan) returns (problem: Option<Problem>)
      requires events == []
      modifies `server, `closed, `status, `events
      ensures UpTo(events, 0, plan) && server.commits == old(server.commits)
      ensures problem.Some? ==> SomeBad(events)
    {
      var first := Exchange(Setting("SET standard_conforming_strings=on"));
      OnlyCommitCommits(old(server), old(status), Setting("SET standard_conforming_strings=on"), server, first);
      EventsSnoc(old(events), Sent(Setting("SET standard_conforming_strings=on"), first));
      if !first.failure.NoFailure? {
        return Some(Wire(first.failure));
      }
      label between:
      var second := Exchange(Setting("SET client_encoding='UTF8'"));
      OnlyCommitCommits(old@between(server), old@between(status), Setting("SET client_encoding='UTF8'"), server, second);
      EventsSnoc(old@between(events), Sent(Setting("SET client_encoding='UTF8'"), second));
      problem := if second.failure.NoFailure? then None else Some(Wire(second.failure));
    }

    /** BEGIN and the search path: without a problem the server's transaction is open. */
    method OpenTransaction(readOnly: bool, schema: string, ghost plan: Plan) returns (problem: Option<Problem>)
      requires UpTo(events, 0, plan) && readOnly == plan.readOnly && schema == plan.schema
      modifies `server, `closed, `status, `events
      ensures UpTo(events, 2, plan) && server.commits == old(server.commits)
      ensures problem.None? ==> server.transaction.Open?
      ensures Begun(events) && (problem.Some? ==> SomeBad(events))
    {
      hide UpTo, Begun, SomeBad, ScriptSent, ScriptBad;
      var a := Exchange(Begin(readOnly));
      EventsSnoc(old(events), Sent(Begin(readOnly), a));
      OnlyCommitCommits(old(server), old(status), Begin(readOnly), server, a);
      UpToSnoc(old(events), 0, Sent(Begin(readOnly), a), plan);
      UpToMore(events, 1, 2, plan);
      if !a.failure.NoFailure? || a.tag != "BEGIN" || closed || status != 'T' {
        return Some(Wire(a.failure));
      }
      BegunIsOpen(old(server), old(status), readOnly, server, a);
      if schema != "" {
        label path:
        var b := Exchange(SearchPath(schema));
        EventsSnoc(old@path(events), Sent(SearchPath(schema), b));
        OnlyCommitCommits(old@path(server), old@path(status), SearchPath(schema), server, b);
        UpToSnoc(old@path(events), 1, Sent(SearchPath(schema), b), plan);
        if !b.failure.NoFailure? {
          return Some(Wire(b.failure));
        }
      }
      problem := None;
    }

    /** The script inside the open transaction, read within the limits. */
    method Fetch(script: ValidatedScript, single: bool, maxRows: nat, ghost plan: Plan)
      returns (results: seq<StatementResult>, truncated: bool, problem: Option<Problem>)
      requires UpTo(events, 2, plan) && script.sql == plan.sql && server.transaction.Open?
      modifies this
      ensures UpTo(events, 3, plan) && server.commits == old(server.commits)
      ensures problem.None? ==> server.transaction.Open? && |results| <= script.statements
      ensures problem.None? ==> Faithful(jsonLength, received, results, truncated, maxRows)
      ensures old(Begun(events)) ==> Begun(events)
      ensures interrupted == old(interrupted)
      ensures ScriptSent(events) && (closed || status != 'T' ==> SomeBad(events))
      ensures problem.Some? ==> SomeBad(events) || !Readable(jsonLength, received, script.statements, maxRows)
      ensures problem.None? ==> |results| == |received|
      ensures problem.None? && !closed && status == 'T' && |received| == script.statements
        <==> Whole(jsonLength, received, script.statements, maxRows, events)
    {
      hide Faithful, Readable, KeptBatch, SomeBad, ScriptSent, ScriptBad, Begun, UpTo, Acceptable, Executes, Delivered;
      NoScriptBefore(events, plan);
      var streams, a := RunScript(script.sql, single);
      EventsSnoc(old(events), Sent(Script(script.sql), a));
      OnlyCommitCommits(old(server), old(status), Script(script.sql), server, a);
      UpToSnoc(old(events), 2, Sent(Script(script.sql), a), plan);
      ScriptLeavesOpen(old(server), old(status), script.sql, server, a);
      results, truncated, problem := ConsumeBatch(streams, script.statements, maxRows);
      if problem.None? && !single && !a.failure.NoFailure? {
        problem := Some(Wire(a.failure));
      }
      if problem.None? && single {
        FaithfulFirst(jsonLength, streams, results, truncated, maxRows);
      }
    }

    /** The script and the precommit callback. Without an error everything the server sent has been read,
        the callback has accepted exactly the result a success would publish, and nothing is committed. */
    method RunChecked(script: ValidatedScript, single: bool, maxRows: nat, ghost plan: Plan)
      returns (result: AtomicResult, error: Option<Code>)
      requires UpTo(events, 2, plan) && script.sql == plan.sql && server.transaction.Open?
      modifies this
      ensures UpTo(events, 4, plan) && server.commits == old(server.commits)
      ensures result.outcome.Disposed?
      ensures error.None? ==> server.transaction.Open? && status == 'T'
      ensures error.None? ==> result.execution == Completed && |result.results| == script.statements
      ensures error.None? ==> Faithful(jsonLength, received, result.results, result.truncated, maxRows)
      ensures error.None? ==> events != [] && events[|events| - 1] == Validated(result.(outcome := Committed), true)
      ensures old(Begun(events)) ==> Begun(events)
      ensures (old(interrupted) ==> interrupted) && ScriptSent(events) && result.effects
      ensures result.execution == if Whole(jsonLength, received, script.statements, maxRows, events) then Completed else Failed
      ensures error.Some? ==>
        interrupted || SomeBad(events)
        || !(Readable(jsonLength, received, script.statements, maxRows) && |received| == script.statements)
    {
      hide Faithful, Readable, SomeBad, ScriptSent, ScriptBad, Begun, UpTo;
      var results, truncated, problem := Fetch(script, single, maxRows, plan);
      UpToMore(events, 3, 4, plan);
      result := AtomicResult(results, truncated, Uncertain, true, Disposed);
      if problem.Some? || closed || status != 'T' || |results| != script.statements {
        result := result.(execution := Failed);
        var code := Failure(problem, DatabaseFailure);
        return result, Some(code);
      }
      result := result.(execution := Completed);
      var ended := ContextEnded();
      if ended {
        return result, Some(Timeout);
      }
      label validation:
      var rejected := Precommit(result.(outcome := Committed));
      EventsSnoc(old@validation(events), Validated(result.(outcome := Committed), rejected.None?));
      UpToSnoc(old@validation(events), 3, Validated(result.(outcome := Committed), rejected.None?), plan);
      if rejected.Some? {
        var code := Failure(rejected, ResourceFailure);
        return result, Some(code);
      }
      ended := ContextEnded();
      error := if ended then Some(Timeout) else None;
    }

    /** COMMIT, sent from an open transaction: only what the server has said settles the outcome. */
    method SendCommit(ready: AtomicResult, ghost plan: Plan) returns (result: AtomicResult, definitive: bool,
                      error: Option<Code>)
      requires UpTo(events, 4, plan) && server.transaction.Open? && status == 'T' && ready.execution == Completed
      modifies this
      ensures UpTo(events, 5, plan) && old(events) <= events
      ensures CommitAnswer(events).Some? && received == old(received)
      ensures Verdict(result.outcome, definitive, CommitAnswer(events).value)
      ensures definitive ==> server.commits == old(server.commits) + if result.outcome.Committed? then 1 else 0
      ensures old(server.commits) <= server.commits <= old(server.commits) + 1
      ensures error.None? ==> result == ready.(outcome := Committed)
      ensures old(Begun(events)) ==> Begun(events)
      ensures old(ScriptSent(events)) <==> ScriptSent(events)
      ensures old(ScriptBad(events)) <==> ScriptBad(events)
      ensures result.effects == ready.effects
      ensures var a := CommitAnswer(events).value;
        result.execution == if Acknowledged(a) then Completed else if Denied(a) then Failed else Uncertain
      ensures (old(interrupted) ==> interrupted) && (error.Some? ==> SomeBad(events))
    {
      hide UpTo, Begun, SomeBad, ScriptSent, ScriptBad;
      result, definitive := ready.(outcome := Unknown, execution := Uncertain), false;
      var a := Exchange(Commit);
      UpToSnoc(old(events), 4, Sent(Commit, a), plan);
      CommitAnswerSnoc(old(events), Sent(Commit, a));
      EventsSnoc(old(events), Sent(Commit, a));
      CommitIsSettled(old(server), server, a);
      if !closed && status == 'I' && a.tag == "COMMIT" {
        result, definitive := result.(outcome := Committed, execution := Completed), true;
      } else if !closed {
        if (a.tag == "ROLLBACK" && status == 'I') || a.failure.ServerError? {
          definitive := true;
          result := result.(execution := Failed);
          if status == 'I' {
            result := result.(outcome := RolledBack);
          }
        }
      }
      if !a.failure.NoFailure? || !result.outcome.Committed? {
        var code := Failure(if a.failure.NoFailure? then None else Some(Wire(a.failure)), DatabaseFailure);
        return result, definitive, Some(code);
      }
      error := None;
    }

    /** The deferred ROLLBACK of a transaction whose outcome is open. It settles only a transaction whose
        COMMIT was never sent or has been answered. */
    method Settle(outcome: Outcome, attempted: bool, definitive: bool, ghost plan: Plan) returns (settled: Outcome)
      requires UpTo(events, 5, plan)
      modifies this
      ensures UpTo(events, 6, plan) && CommitAnswer(events) == old(CommitAnswer(events)) && received == old(received)
      ensures server.commits == old(server.commits) && old(events) <= events
      ensures RollbackSent(events) && |events| == |old(events)| + 1
      ensures settled == if !(attempted && !definitive) && RollbackAnswered(events) then RolledBack
                         else if attempted then outcome else Disposed
      ensures interrupted == old(interrupted)
      ensures old(Begun(events)) <==> Begun(events)
      ensures (old(SomeBad(events)) ==> SomeBad(events)) && (old(ScriptSent(events)) <==> ScriptSent(events))
      ensures old(ScriptBad(events)) <==> ScriptBad(events)
    {
      hide UpTo, Begun, SomeBad, ScriptSent, ScriptBad;
      var a := Exchange(Rollback);
      EventsSnoc(old(events), Sent(Rollback, a));
      OnlyCommitCommits(old(server), old(status), Rollback, server, a);
      UpToSnoc(old(events), 5, Sent(Rollback, a), plan);
      CommitAnswerSnoc(old(events), Sent(Rollback, a));
      if !(attempted && !definitive) && a.failure.NoFailure? && a.tag == "ROLLBACK" && !closed && status == 'I' {
        return RolledBack;
      }
      Abort();
      settled := if attempted then outcome else Disposed;
    }

    /** The body of the call up to its deferred part. */
    method Attempt(script: ValidatedScript, params: seq<string>, options: Options, ghost plan: Plan)
      returns (result: AtomicResult, began: bool, attempted: bool, definitive: bool, error: Option<Code>)
      requires events == [] && 1 <= RowLimit(options)
      requires plan == Plan(script.sql, !script.allowWrite, options.schema)
      modifies this
      ensures UpTo(events, 5, plan)
      ensures !attempted ==> CommitAnswer(events).None? && server.commits == old(server.commits) && error.Some?
      ensures !began ==> !attempted && result.outcome.NotStarted? && UpTo(events, 0, plan)
      ensures began && !attempted ==> result.outcome.Disposed?
      ensures attempted ==> began && CommitAnswer(events).Some? && Verdict(result.outcome, definitive, CommitAnswer(events).value)
      ensures attempted ==> exists p :: Validated(p, true) in events
      ensures began <==> Begun(events)
      ensures error.Some? ==>
        old(closed) || old(status) != 'I' || interrupted || SomeBad(events)
        || (ScriptSent(events)
            && !(Readable(jsonLength, received, script.statements, RowLimit(options)) && |received| == script.statements))
      ensures Told(result, events, Whole(jsonLength, received, script.statements, RowLimit(options), events))
      ensures definitive ==> server.commits == old(server.commits) + if result.outcome.Committed? then 1 else 0
      ensures old(server.commits) <= server.commits <= old(server.commits) + 1
      ensures error.None? ==> result.outcome.Committed? && result.execution == Completed && Validated(result, true) in events
      ensures error.None? ==>
        |result.results| == script.statements
        && Faithful(jsonLength, received, result.results, result.truncated, RowLimit(options))
    {
      result, began, attempted, definitive := NOTHING, false, false, false;
      assert UpTo(events, 0, plan) && !Begun(events);
      NoScriptBefore(events, plan);
      var ended := ContextEnded();
      if ended {
        return result, began, attempted, definitive, Some(Timeout);
      }
      if closed || status != 'I' {
        Abort();
        return result, began, attempted, definitive, Some(DatabaseFailure);
      }
      var problem := Prepare(plan);
      NoCommitBefore(events, plan);
      NoScriptBefore(events, plan);
      if problem.Some? {
        var code := Failure(problem, DatabaseFailure);
        return result, began, attempted, definitive, Some(code);
      }
      began, result := true, result.(outcome := Disposed);
      problem := OpenTransaction(!script.allowWrite, options.schema, plan);
      NoCommitBefore(events, plan);
      NoScriptBefore(events, plan);
      if problem.Some? {
        var code := Failure(problem, DatabaseFailure);
        return result, began, attempted, definitive, Some(code);
      }
      ended := ContextEnded();
      if ended {
        return result, began, attempted, definitive, Some(Timeout);
      }
      var ready, failed := RunChecked(script, |params| > 0, RowLimit(options), plan);
      NoCommitBefore(events, plan);
      if failed.Some? {
        return ready, began, attempted, definitive, failed;
      }
      ghost var validated := events[|events| - 1];
      assert validated in events;
      attempted := true;
      result, definitive, error := SendCommit(ready, plan);
      assert validated in events;
    }

    /** The call behind its checks: the body, and the deferred part. */
    method Perform(script: ValidatedScript, params: seq<string>, options: Options, ghost plan: Plan)
      returns (result: AtomicResult, error: Option<Code>)
      requires events == [] && 1 <= RowLimit(options)
      requires plan == Plan(script.sql, !script.allowWrite, options.schema)
      modifies this
      ensures UpTo(events, 6, plan) && (CommitAnswer(events).Some? ==> exists p :: Validated(p, true) in events)
      ensures result.outcome.Unknown? || server.commits == old(server.commits) + if result.outcome.Committed? then 1 else 0
      ensures old(server.commits) <= server.commits <= old(server.commits) + 1
      ensures result.outcome.NotStarted? <==> !Begun(events)
      ensures result.outcome.NotStarted? ==> UpTo(events, 0, plan)
      ensures Reported(result.outcome, events)
      ensures RollbackSent(events) <==>
        Begun(events) && !Confirmed(CommitAnswer(events)) && !DeniedIdle(CommitAnswer(events))
      ensures Told(result, events, Whole(jsonLength, received, script.statements, RowLimit(options), events))
      ensures error.Some? ==>
        old(closed) || old(status) != 'I' || interrupted || SomeBad(events)
        || (ScriptSent(events)
            && !(Readable(jsonLength, received, script.statements, RowLimit(options)) && |received| == script.statements))
      ensures error.Some? ==> result.results == []
      ensures error.None? ==> result.outcome.Committed? && result.execution == Completed && Validated(result, true) in events
      ensures error.None? ==>
        |result.results| == script.statements
        && Faithful(jsonLength, received, result.results, result.truncated, RowLimit(options))
    {
      hide Faithful, Readable, SomeBad, ScriptSent, ScriptBad, InOrder, Planned, Told, Whole;
      var began, attempted, definitive;
      result, began, attempted, definitive, error := Attempt(script, params, options, plan);
      ghost var attempt, sent := result, events;
      if began && !result.outcome.Committed? && !result.outcome.RolledBack? {
        var settled := Settle(result.outcome, attempted, definitive, plan);
        result := result.(outcome := settled);
      }
      if error.Some? {
        result := result.(results := []);
      }
      ToldStays(jsonLength, received, script.statements, RowLimit(options), attempt, sent, result, events);
    }

    /** The call. Its outcome is true whatever the server and the connection do. */
    method ExecuteTemporaryAtomic(script: ValidatedScript, params: seq<string>, options: Options, precommit: bool)
      returns (result: AtomicResult, error: Option<Code>)
      requires events == []
      modifies this
      // A refused call sends nothing.
      ensures Refusal(temporary, script, params, options, precommit).Some? ==>
        error == Refusal(temporary, script, params, options, precommit) && result == NOTHING
        && events == [] && server == old(server)
      // Script, callback and COMMIT happen at most once, and in this order.
      ensures UpTo(events, 6, Plan(script.sql, !script.allowWrite, options.schema))
      ensures CommitAnswer(events).Some? ==> exists p :: Validated(p, true) in events
      // What the outcome says about the server is and stays true.
      ensures result.outcome.Unknown? || server.commits == old(server.commits) + if result.outcome.Committed? then 1 else 0
      ensures old(server.commits) <= server.commits <= old(server.commits) + 1
      // Which outcome is reported, by what was sent and answered.
      ensures result.outcome.NotStarted? <==> !Begun(events)
      ensures result.outcome.NotStarted? ==> UpTo(events, 0, Plan(script.sql, !script.allowWrite, options.schema))
      ensures Reported(result.outcome, events)
      // The deferred ROLLBACK is sent exactly when a transaction was begun and its end is not settled.
      ensures RollbackSent(events) <==>
        Begun(events) && !Confirmed(CommitAnswer(events)) && !DeniedIdle(CommitAnswer(events))
      // What is reported of the execution.
      ensures 1 <= RowLimit(options) ==>
        Told(result, events, Whole(jsonLength, received, script.statements, RowLimit(options), events))
      // An error has a reason: the refusal, the connection's state, the context, an answer or verdict, or results
      // that cannot be read within the limits.
      ensures error.Some? ==>
        || Refusal(temporary, script, params, options, precommit).Some?
        || old(closed) || old(status) != 'I' || interrupted || SomeBad(events)
        || (ScriptSent(events)
            && !(Readable(jsonLength, received, script.statements, RowLimit(options)) && |received| == script.statements))
      // Success publishes exactly what the callback accepted: all results, with the first rows of all rows.
      ensures error.Some? ==> result.results == []
      ensures error.None? ==> result.outcome.Committed? && result.execution == Completed && Validated(result, true) in events
      ensures error.None? ==>
        1 <= RowLimit(options) <= 1000 && |result.results| == script.statements
        && Faithful(jsonLength, received, result.results, result.truncated, RowLimit(options))
    {
      assert UpTo(events, 6, Plan(script.sql, !script.allowWrite, options.schema));
      ToldNothing(1 <= RowLimit(options) && Whole(jsonLength, received, script.statements, RowLimit(options), events));
      hide Faithful, Readable, SomeBad, ScriptSent, ScriptBad, InOrder, Planned, Told, Whole;
      result := NOTHING;
      if !temporary {
        return result, Some(PolicyDenied);
      }
      if !script.validated || script.statements == 0 || script.parameterCount != |params|
         || (|params| > 0 && script.statements != 1) || !precommit {
        return result, Some(InvalidInput);
      }
      if script.writes && !script.allowWrite {
        return result, Some(PolicyDenied);
      }
      if script.statements > 256 {
        return result, Some(ResourceFailure);
      }
      if !(1 <= RowLimit(options) <= 1000) || |params| > 256 || |options.schema| > MAX_BYTES || !Text(options.schema) {
        return result, Some(InvalidInput);
      }
      var allowed := CheckParameters(params);
      if !allowed {
        return result, Some(InvalidInput);
      }
      result, error := Perform(script, params, options, Plan(script.sql, !script.allowWrite, options.schema));
    }
  }
}
