/** Streaming a result to the UI with acknowledgement (pkg/tasks/result_buffer_manager.go): the worker that
    drains the stream, the UI thread that appends batches, and the waiters of ReadToEndWithCompletion. The
    steps of the goroutines interleave freely. */
module ResultDelivery {
  import opened Common

  type Row = string

  datatype Error = Cancelled | StreamFailed | DeliveryFailed | ContextDone

  /** How a drain ended. */
  datatype End = More | AtEof | Failed

  /** runTask: opening, the loop, a drained batch about to be dispatched, the deferred cleanup. */
  datatype Worker =
    | Opening
    | Looping
    | Dispatching(batch: seq<Row>, end: End)
    | Leaving(err: Option<Error>)
    | Closed(err: Option<Error>)
    | Done

  datatype Source = Source(rows: seq<Row>, taken: nat, worker: Worker, stopped: bool)

  /** The driver's stream: its rows in order, then the end; or a failure at any row. */
  class RowStream {
    const rows: seq<Row>
    var taken: nat

    constructor (rows: seq<Row>)
      ensures this.rows == rows && taken == 0
    {
      this.rows, taken := rows, 0;
    }

    method Next() returns (row: Option<Row>, failed: bool)
      requires taken <= |rows|
      modifies `taken
      ensures row.Some? ==> !failed && old(taken) < |rows| && row.value == rows[old(taken)] && taken == old(taken) + 1
      ensures row.None? ==> taken == old(taken) && (failed || taken == |rows|)
    {
      failed := *;
      if failed || taken == |rows| {
        return None, failed;
      }
      row, taken := Some(rows[taken]), taken + 1;
    }
  }

  /** drainRows: up to `want` rows (-1: all). What has been pulled is always returned; the end is reported
      only at the end, a full batch or a stop as More. */
  method DrainRows(stream: RowStream, want: int) returns (out: seq<Row>, end: End, stopped: bool)
    requires -1 <= want && stream.taken <= |stream.rows|
    modifies stream`taken
    ensures stream.taken == old(stream.taken) + |out| <= |stream.rows|
    ensures out == stream.rows[old(stream.taken)..stream.taken]
    ensures end.AtEof? ==> stream.taken == |stream.rows|
    ensures want >= 0 ==> |out| <= want
    ensures end.More? && !stopped ==> |out| == want
    ensures stopped ==> end.More?
  {
    out, end := [], More;
    while want == -1 || |out| < want
      invariant stream.taken == old(stream.taken) + |out| <= |stream.rows|
      invariant out == stream.rows[old(stream.taken)..stream.taken]
      invariant want >= 0 ==> |out| <= want
      decreases |stream.rows| - stream.taken
    {
      stopped := *;
      if stopped {
        return out, More, true;
      }
      var row, failed := stream.Next();
      if failed {
        return out, Failed, false;
      }
      if row.None? {
        return out, AtEof, false;
      }
      out := out + [row.value];
    }
    stopped := false;
  }

  /** streamCompletion. `due` counts settleReady calls still to come. */
  datatype Completion = Completion(terminal: bool, err: Option<Error>, deliveryErr: Option<Error>, pending: int,
                                   retired: bool, cancelled: bool, due: nat)

  /** The UI thread: batches queued for it, the one it has just handled, and the rows it has appended. */
  datatype Screen = Screen(queue: seq<seq<Row>>, running: Option<Option<Error>>, appended: seq<Row>)

  /** `collected` are waiters taken out of the set with the error they are about to be given, `expired`
      those whose context callback has taken them out; `fired` is what each waiter's callback was called
      with, and `calls` how often. */
  datatype Waiters = Waiters(waiting: set<nat>, collected: map<nat, Option<Error>>, expired: set<nat>,
                             fired: map<nat, Option<Error>>, calls: map<nat, nat>)

  datatype State = State(source: Source, completion: Completion, screen: Screen, waiters: Waiters)

  function New(rows: seq<Row>): State {
    State(Source(rows, 0, Opening, false), Completion(false, None, None, 0, false, false, 0),
          Screen([], None, []), Waiters({}, map[], {}, map[], map[]))
  }

  datatype Step =
    | Open(ok: bool)
    | LeaveStopped
    | Drain(n: nat, end: End)
    | Dispatch
    | CloseStream(fails: bool)
    | FinishCompletion
    | Retire
    | CancelContext
    | CloseStop
    | RunOnUI
    | DropOnUI
    | Acknowledge
    | AddWaiter(id: nat)
    | SettleReady
    | FinishWaiter(id: nat, contextDone: bool)
    | ContextEnds(id: nat)
    | FinishExpired(id: nat)

  predicate Known(w: Waiters, id: nat) { id in w.waiting || id in w.collected || id in w.expired || id in w.fired }

  predicate Enabled(s: State, step: Step) {
    var source, c, screen, w := s.source, s.completion, s.screen, s.waiters;
    match step
    case Open(_) => source.worker.Opening?
    case LeaveStopped => source.worker.Looping? && source.stopped
    case Drain(n, end) =>
      source.worker.Looping? && source.taken + n <= |source.rows| && (end.AtEof? ==> source.taken + n == |source.rows|)
    case Dispatch => source.worker.Dispatching?
    case CloseStream(_) => source.worker.Leaving?
    case FinishCompletion => source.worker.Closed?
    case Retire => true
    case CancelContext => c.retired
    case CloseStop => c.retired
    case RunOnUI => screen.running.None? && screen.queue != []
    case DropOnUI => screen.running.None? && screen.queue != []
    case Acknowledge => screen.running.Some?
    case AddWaiter(id) => !Known(w, id)
    case SettleReady => c.due > 0
    case FinishWaiter(id, _) => id in w.collected
    case ContextEnds(id) => Known(w, id) && id !in w.expired
    case FinishExpired(id) => id in w.expired
  }

  /** The error a settled stream gives its waiters. */
  function Verdict(c: Completion): Option<Error> { if c.err.Some? then c.err else c.deliveryErr }

  predicate Ready(c: Completion) { c.terminal && (Verdict(c).Some? || c.pending == 0) }

  /** completionWaiter.finish: only the first call reaches the callback. */
  function Called(w: Waiters, id: nat, err: Option<Error>): Waiters {
    if id in w.fired then w
    else w.(fired := w.fired[id := err], calls := w.calls[id := (if id in w.calls then w.calls[id] else 0) + 1])
  }

  /** settleReady's part under the lock: every waiter is taken out with the verdict. */
  function Collect(w: Waiters, verdict: Option<Error>): Waiters {
    w.(collected := map id | id in w.waiting + w.collected.Keys ::
         (if id in w.collected then w.collected[id] else verdict),
       waiting := {})
  }

  function SourceAfter(s: State, step: Step): Source
    requires Enabled(s, step)
  {
    var source := s.source;
    match step
    case Open(ok) =>
      source.(worker := if !ok then Leaving(Some(StreamFailed)) else if source.stopped then Leaving(None) else Looping)
    case LeaveStopped => source.(worker := Leaving(None))
    case Drain(n, end) =>
      source.(worker := Dispatching(source.rows[source.taken..source.taken + n], end), taken := source.taken + n)
    case Dispatch =>
      source.(worker := match source.worker.end
                        case More => Looping
                        case AtEof => Leaving(None)
                        case Failed => Leaving(Some(StreamFailed)))
    case CloseStream(fails) =>
      source.(worker := Closed(if fails && source.worker.err.None? then Some(StreamFailed) else source.worker.err))
    case FinishCompletion => source.(worker := Done)
    case CloseStop => source.(stopped := true)
    case _ => source
  }

  function CompletionAfter(s: State, step: Step): Completion
    requires Enabled(s, step)
  {
    var c := s.completion;
    match step
    case Dispatch => if s.source.worker.batch == [] then c else c.(pending := c.pending + 1)
    case FinishCompletion =>
      (if c.terminal then c else c.(terminal := true, err := s.source.worker.err)).(due := c.due + 1)
    case Retire =>
      (if !c.terminal || c.pending != 0 then c.(terminal := true, err := Some(Cancelled)) else c)
      .(retired := true, due := c.due + 1)
    case CancelContext => c.(cancelled := true)
    case Acknowledge =>
      c.(pending := c.pending - 1, due := c.due + 1,
         deliveryErr := if c.deliveryErr.None? then s.screen.running.value else c.deliveryErr)
    case AddWaiter(_) => c.(due := c.due + 1)
    case SettleReady => c.(due := c.due - 1)
    case _ => c
  }

  function ScreenAfter(s: State, step: Step): Screen
    requires Enabled(s, step)
  {
    var screen := s.screen;
    match step
    case Dispatch => if s.source.worker.batch == [] then screen else screen.(queue := screen.queue + [s.source.worker.batch])
    case RunOnUI =>
      if s.completion.cancelled then Screen(screen.queue[1..], Some(Some(Cancelled)), screen.appended)
      else Screen(screen.queue[1..], Some(None), screen.appended + screen.queue[0])
    case DropOnUI => Screen(screen.queue[1..], Some(Some(DeliveryFailed)), screen.appended)
    case Acknowledge => screen.(running := None)
    case _ => screen
  }

  function WaitersAfter(s: State, step: Step): Waiters
    requires Enabled(s, step)
  {
    var w := s.waiters;
    match step
    case AddWaiter(id) => w.(waiting := w.waiting + {id})
    case SettleReady => if Ready(s.completion) then Collect(w, Verdict(s.completion)) else w
    case FinishWaiter(id, contextDone) =>
      Called(w.(collected := w.collected - {id}), id,
             if w.collected[id].None? && contextDone then Some(ContextDone) else w.collected[id])
    case ContextEnds(id) => w.(waiting := w.waiting - {id}, expired := w.expired + {id})
    case FinishExpired(id) => Called(w.(expired := w.expired - {id}), id, Some(ContextDone))
    case _ => w
  }

  function After(s: State, step: Step): State
    requires Enabled(s, step)
  {
    State(SourceAfter(s, step), CompletionAfter(s, step), ScreenAfter(s, step), WaitersAfter(s, step))
  }

  predicate Lawful(s: State, steps: seq<Step>)
    decreases |steps|
  {
    steps == [] || (Enabled(s, steps[0]) && Lawful(After(s, steps[0]), steps[1..]))
  }

  function Run(s: State, steps: seq<Step>): State
    requires Lawful(s, steps)
    decreases |steps|
  {
    if steps == [] then s else Run(After(s, steps[0]), steps[1..])
  }

  // ---------------------------------------------------------------------------------------------
  // The invariant

  function Flat(batches: seq<seq<Row>>): seq<Row> {
    if batches == [] then [] else batches[0] + Flat(batches[1..])
  }

  lemma {:induction false} FlatSnoc(batches: seq<seq<Row>>, batch: seq<Row>)
    ensures Flat(batches + [batch]) == Flat(batches) + batch
    decreases |batches|
  {
    if batches != [] {
      FlatSnoc(batches[1..], batch);
      assert (batches + [batch])[1..] == batches[1..] + [batch];
    }
  }

  function Held(worker: Worker): seq<Row> { if worker.Dispatching? then worker.batch else [] }

  predicate Lost(s: State) {
    s.completion.deliveryErr.Some? || (s.screen.running.Some? && s.screen.running.value.Some?)
  }

  /** What has been taken from the stream is on the UI, queued for it or held by the worker, in order,
      unless a delivery has failed. */
  ghost predicate Flowing(s: State) {
    && s.source.taken <= |s.source.rows|
    && (Lost(s) || s.screen.appended + Flat(s.screen.queue) + Held(s.source.worker) == s.source.rows[..s.source.taken])
  }

  ghost predicate Counted(s: State) {
    s.completion.pending == |s.screen.queue| + if s.screen.running.Some? then 1 else 0
  }

  /** The worker leaves without an error only at the end of the stream, or stopped. */
  predicate AllTaken(source: Source, retired: bool) {
    match source.worker
    case Dispatching(_, end) => end.AtEof? ==> source.taken == |source.rows|
    case Leaving(err) => err.None? && !retired ==> source.taken == |source.rows|
    case Closed(err) => err.None? && !retired ==> source.taken == |source.rows|
    case _ => true
  }

  /** A stream that has ended without an error has ended cleanly and been drained. */
  ghost predicate EndedCleanly(source: Source, c: Completion) {
    && AllTaken(source, c.retired)
    && (source.stopped ==> c.retired)
    && (source.worker.Done? ==> c.terminal)
    && (c.terminal && c.err.None? ==> source.worker.Done? && source.taken == |source.rows|)
    && (c.retired && !source.worker.Done? ==> c.terminal && c.err.Some?)
  }

  /** All rows are on the UI and acknowledged. */
  predicate Complete(s: State) {
    && s.source.worker.Done? && s.completion.terminal && Verdict(s.completion).None?
    && s.completion.pending == 0 && s.screen.appended == s.source.rows
  }

  predicate AnySuccess(w: Waiters, id: nat) {
    (id in w.collected && w.collected[id].None?) || (id in w.fired && w.fired[id].None?)
  }

  ghost predicate Truthful(s: State) { forall id :: AnySuccess(s.waiters, id) ==> Complete(s) }

  ghost predicate FiredOnce(w: Waiters) {
    && w.fired.Keys == w.calls.Keys
    && (forall id :: id in w.calls ==> w.calls[id] == 1)
    && (forall id :: id in w.waiting ==> id !in w.fired && id !in w.expired && id !in w.collected)
  }

  /** A settled stream has no waiter left that no coming settleReady will find. */
  ghost predicate NoneForgotten(c: Completion, w: Waiters) { Ready(c) && w.waiting != {} ==> c.due > 0 }

  ghost predicate Inv(s: State) {
    && Flowing(s) && Counted(s) && EndedCleanly(s.source, s.completion)
    && Truthful(s) && FiredOnce(s.waiters) && NoneForgotten(s.completion, s.waiters)
  }

  lemma StepCounts(s: State, step: Step)
    requires Counted(s) && Enabled(s, step)
    ensures Counted(After(s, step))
  {
  }

  lemma DrainFlows(s: State, n: nat, end: End)
    requires Flowing(s) && Enabled(s, Drain(n, end))
    ensures Flowing(After(s, Drain(n, end)))
  {
    var source := s.source;
    assert source.rows[..source.taken] + source.rows[source.taken..source.taken + n] == source.rows[..source.taken + n];
  }

  lemma DispatchFlows(s: State)
    requires Flowing(s) && Enabled(s, Dispatch)
    ensures Flowing(After(s, Dispatch))
  {
    var a, batch := s.screen.appended, s.source.worker.batch;
    FlatSnoc(s.screen.queue, batch);
    assert a + Flat(s.screen.queue) + batch == a + (Flat(s.screen.queue) + batch) + [];
  }

  lemma RunFlows(s: State)
    requires Flowing(s) && Enabled(s, RunOnUI)
    ensures Flowing(After(s, RunOnUI))
  {
    var a, queue := s.screen.appended, s.screen.queue;
    assert a + (queue[0] + Flat(queue[1..])) == a + queue[0] + Flat(queue[1..]);
  }

  lemma StepFlows(s: State, step: Step)
    requires Flowing(s) && Enabled(s, step)
    ensures Flowing(After(s, step))
  {
    match step
    case Drain(n, end) => DrainFlows(s, n, end);
    case Dispatch => DispatchFlows(s);
    case RunOnUI => RunFlows(s);
    case _ =>
      assert Held(SourceAfter(s, step).worker) == Held(s.source.worker);
  }

  lemma StepEndsCleanly(s: State, step: Step)
    requires Flowing(s) && EndedCleanly(s.source, s.completion) && Enabled(s, step)
    ensures EndedCleanly(SourceAfter(s, step), CompletionAfter(s, step))
  {
  }

  lemma CompleteStays(s: State, step: Step)
    requires Counted(s) && Complete(s) && Enabled(s, step)
    ensures Complete(After(s, step))
  {
  }

  /** The verdict of a settled stream without an error is earned. */
  lemma ReadyIsComplete(s: State)
    requires Flowing(s) && Counted(s) && EndedCleanly(s.source, s.completion)
    requires Ready(s.completion) && Verdict(s.completion).None?
    ensures Complete(s)
  {
    assert s.screen.appended + [] + [] == s.screen.appended;
  }

  lemma SuccessIsOld(s: State, step: Step, id: nat)
    requires Enabled(s, step) && AnySuccess(WaitersAfter(s, step), id)
    ensures AnySuccess(s.waiters, id) || (Ready(s.completion) && Verdict(s.completion).None?)
  {
  }

  lemma StepIsTruthful(s: State, step: Step)
    requires Flowing(s) && Counted(s) && EndedCleanly(s.source, s.completion) && Truthful(s) && Enabled(s, step)
    ensures Truthful(After(s, step))
  {
    forall id | AnySuccess(WaitersAfter(s, step), id) ensures Complete(After(s, step)) {
      SuccessIsOld(s, step, id);
      if !AnySuccess(s.waiters, id) {
        ReadyIsComplete(s);
      }
      CompleteStays(s, step);
    }
  }

  lemma StepFiresOnce(s: State, step: Step)
    requires FiredOnce(s.waiters) && Enabled(s, step)
    ensures FiredOnce(WaitersAfter(s, step))
  {
  }

  lemma StepForgetsNone(s: State, step: Step)
    requires Counted(s) && NoneForgotten(s.completion, s.waiters) && Enabled(s, step)
    ensures NoneForgotten(CompletionAfter(s, step), WaitersAfter(s, step))
  {
  }

  lemma StepKeepsInv(s: State, step: Step)
    requires Inv(s) && Enabled(s, step)
    ensures Inv(After(s, step))
  {
    StepFlows(s, step);
    StepCounts(s, step);
    StepEndsCleanly(s, step);
    StepIsTruthful(s, step);
    StepFiresOnce(s, step);
    StepForgetsNone(s, step);
  }

  lemma {:induction false} RunKeepsInv(s: State, steps: seq<Step>)
    requires Inv(s) && Lawful(s, steps)
    ensures Inv(Run(s, steps))
    decreases |steps|
  {
    if steps != [] {
      StepKeepsInv(s, steps[0]);
      RunKeepsInv(After(s, steps[0]), steps[1..]);
    }
  }

  lemma NewIsValid(rows: seq<Row>)
    ensures Inv(New(rows))
  {
  }

  lemma {:induction false} RowsStay(s: State, steps: seq<Step>)
    requires Lawful(s, steps)
    ensures Run(s, steps).source.rows == s.source.rows
    decreases |steps|
  {
    if steps != [] {
      RowsStay(After(s, steps[0]), steps[1..]);
    }
  }

  // ---------------------------------------------------------------------------------------------
  // What a waiter may rely on

  /** A waiter that is told of success: the rows on the UI are the whole stream, in order, each delivery
      is acknowledged, and this stays so. */
  lemma SuccessMeansAllRows(rows: seq<Row>, steps: seq<Step>, id: nat)
    requires Lawful(New(rows), steps)
    requires var w := Run(New(rows), steps).waiters; id in w.fired && w.fired[id].None?
    ensures var s := Run(New(rows), steps);
      s.screen.appended == rows && s.completion.pending == 0 && s.screen.queue == [] && s.completion.deliveryErr.None?
  {
    NewIsValid(rows);
    RunKeepsInv(New(rows), steps);
    RowsStay(New(rows), steps);
    assert AnySuccess(Run(New(rows), steps).waiters, id);
  }

  /** Without a lost delivery, what the UI shows at any time is the beginning of the stream. */
  lemma ShownIsAPrefix(rows: seq<Row>, steps: seq<Step>)
    requires Lawful(New(rows), steps) && !Lost(Run(New(rows), steps))
    ensures Run(New(rows), steps).screen.appended <= rows
  {
    NewIsValid(rows);
    RunKeepsInv(New(rows), steps);
    RowsStay(New(rows), steps);
    var s := Run(New(rows), steps);
    var a := s.screen.appended;
    assert a == (a + Flat(s.screen.queue) + Held(s.source.worker))[..|a|];
  }

  /** Every waiter is called at most once, and none is left behind: once the stream is settled and every
      call to settleReady has returned, each waiter has been called or is about to be. */
  lemma WaitersAreSettled(rows: seq<Row>, steps: seq<Step>, id: nat)
    requires Lawful(New(rows), steps)
    ensures var w := Run(New(rows), steps).waiters; id in w.calls ==> w.calls[id] == 1
    ensures var s := Run(New(rows), steps);
      Ready(s.completion) && s.completion.due == 0 && Known(s.waiters, id) ==>
        id in s.waiters.fired || id in s.waiters.collected || id in s.waiters.expired
  {
    NewIsValid(rows);
    RunKeepsInv(New(rows), steps);
  }

  lemma {:induction false} NoWaiterIsDropped(s: State, steps: seq<Step>, id: nat)
    requires Lawful(s, steps) && Known(s.waiters, id)
    ensures Known(Run(s, steps).waiters, id)
    decreases |steps|
  {
    if steps != [] {
      NoWaiterIsDropped(After(s, steps[0]), steps[1..], id);
    }
  }
}
