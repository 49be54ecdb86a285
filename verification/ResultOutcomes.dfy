/** Why a waiter of a streamed result gets an error, and that a clean stream gives none (the steps of
    ResultDelivery.dfy). */
module ResultOutcomes {
  import opened Common
  import opened ResultDelivery

  // ---------------------------------------------------------------------------------------------
  // Errors have causes

  /** The stream failed to open, while it was read, or when it was closed. */
  predicate FailsStream(step: Step) {
    step == Open(false) || (step.Drain? && step.end.Failed?) || step == CloseStream(true)
  }

  /** What in a run can have led to an error for the waiter `id`. */
  predicate Caused(steps: seq<Step>, err: Error, id: nat) {
    match err
    case StreamFailed => exists k :: 0 <= k < |steps| && FailsStream(steps[k])
    case Cancelled => Retire in steps
    case DeliveryFailed => DropOnUI in steps
    case ContextDone => ContextEnds(id) in steps || FinishWaiter(id, true) in steps
  }

  lemma CausedLater(steps: seq<Step>, step: Step, err: Error, id: nat)
    ensures Caused(steps, err, id) ==> Caused(steps + [step], err, id)
    ensures FailsStream(step) ==> Caused(steps + [step], StreamFailed, id)
    ensures step in steps + [step] && forall x :: x in steps ==> x in steps + [step]
  {
    var all := steps + [step];
    assert all[|steps|] == step;
    assert forall k :: 0 <= k < |steps| ==> all[k] == steps[k];
  }

  lemma AllCausedLater(steps: seq<Step>, step: Step, id: nat)
    ensures forall err :: Caused(steps, err, id) ==> Caused(steps + [step], err, id)
    ensures FailsStream(step) ==> Caused(steps + [step], StreamFailed, id)
    ensures step == Retire ==> Caused(steps + [step], Cancelled, id)
    ensures Retire in steps ==> Caused(steps + [step], Cancelled, id)
    ensures step == DropOnUI ==> Caused(steps + [step], DeliveryFailed, id)
    ensures step == FinishWaiter(id, true) || ContextEnds(id) in steps ==> Caused(steps + [step], ContextDone, id)
    ensures step in steps + [step] && forall x :: x in steps ==> x in steps + [step]
  {
    forall err ensures Caused(steps, err, id) ==> Caused(steps + [step], err, id) {
      CausedLater(steps, step, err, id);
    }
    CausedLater(steps, step, StreamFailed, id);
  }

  predicate Excused(steps: seq<Step>, err: Option<Error>, id: nat) { err.Some? ==> Caused(steps, err.value, id) }

  /** No error of the stream as a whole is a waiter's own. */
  predicate Shared(err: Option<Error>) { err != Some(ContextDone) }

  predicate SourceExcused(source: Source, steps: seq<Step>) {
    match source.worker
    case Dispatching(_, end) => end.Failed? ==> Excused(steps, Some(StreamFailed), 0)
    case Leaving(err) => Shared(err) && Excused(steps, err, 0)
    case Closed(err) => Shared(err) && Excused(steps, err, 0)
    case _ => true
  }

  predicate CompletionExcused(c: Completion, screen: Screen, steps: seq<Step>) {
    && Shared(c.err) && Excused(steps, c.err, 0) && Shared(c.deliveryErr) && Excused(steps, c.deliveryErr, 0)
    && (c.retired || c.cancelled ==> Retire in steps)
    && (screen.running.Some? ==> Shared(screen.running.value) && Excused(steps, screen.running.value, 0))
  }

  predicate WaiterExcused(w: Waiters, steps: seq<Step>, id: nat) {
    && (id in w.collected ==> Excused(steps, w.collected[id], id))
    && (id in w.fired ==> Excused(steps, w.fired[id], id))
    && (id in w.expired ==> ContextEnds(id) in steps)
  }

  lemma SharedByAll(steps: seq<Step>, err: Option<Error>, id: nat, other: nat)
    requires Shared(err) && Excused(steps, err, id)
    ensures Excused(steps, err, other)
  {
  }

  lemma SourceStaysExcused(s: State, steps: seq<Step>, step: Step)
    requires SourceExcused(s.source, steps) && Enabled(s, step)
    ensures SourceExcused(SourceAfter(s, step), steps + [step])
  {
    hide Caused, CompletionAfter, ScreenAfter, WaitersAfter, Known;
    AllCausedLater(steps, step, 0);
  }

  lemma CompletionStaysExcused(s: State, steps: seq<Step>, step: Step)
    requires SourceExcused(s.source, steps) && CompletionExcused(s.completion, s.screen, steps) && Enabled(s, step)
    ensures CompletionExcused(CompletionAfter(s, step), ScreenAfter(s, step), steps + [step])
  {
    hide Caused, FailsStream, Known;
    AllCausedLater(steps, step, 0);
  }

  lemma WaiterStaysExcused(s: State, steps: seq<Step>, step: Step, id: nat)
    requires CompletionExcused(s.completion, s.screen, steps) && WaiterExcused(s.waiters, steps, id) && Enabled(s, step)
    ensures WaiterExcused(WaitersAfter(s, step), steps + [step], id)
  {
    hide Caused, FailsStream, Known;
    AllCausedLater(steps, step, id);
    SharedByAll(steps, Verdict(s.completion), 0, id);
  }

  lemma {:induction false} RunStaysExcused(s: State, before: seq<Step>, steps: seq<Step>, id: nat)
    requires Lawful(s, steps) && SourceExcused(s.source, before) && CompletionExcused(s.completion, s.screen, before)
    requires WaiterExcused(s.waiters, before, id)
    ensures WaiterExcused(Run(s, steps).waiters, before + steps, id)
    decreases |steps|
  {
    hide Enabled, SourceExcused, CompletionExcused, WaiterExcused, SourceAfter, CompletionAfter, ScreenAfter, WaitersAfter;
    if steps == [] {
      assert before + steps == before;
    } else {
      SourceStaysExcused(s, before, steps[0]);
      CompletionStaysExcused(s, before, steps[0]);
      WaiterStaysExcused(s, before, steps[0], id);
      RunStaysExcused(After(s, steps[0]), before + [steps[0]], steps[1..], id);
      assert before + [steps[0]] + steps[1..] == before + steps;
    }
  }

  /** Over every run, an error given to a waiter has its cause among the steps: a failure of the stream, a
      retirement, a delivery the UI dropped, or the waiter's own context. */
  lemma ErrorsHaveCauses(rows: seq<Row>, steps: seq<Step>, id: nat)
    requires Lawful(New(rows), steps) && id in Run(New(rows), steps).waiters.fired
    ensures var err := Run(New(rows), steps).waiters.fired[id];
      err.Some? ==> Caused(steps, err.value, id)
  {
    RunStaysExcused(New(rows), [], steps, id);
    assert [] + steps == steps;
  }

  /** Nothing in the run can be to blame. */
  predicate Blameless(steps: seq<Step>, id: nat) {
    forall k :: 0 <= k < |steps| ==>
      !FailsStream(steps[k]) && !steps[k].Retire? && !steps[k].DropOnUI?
      && steps[k] != ContextEnds(id) && steps[k] != FinishWaiter(id, true)
  }

  /** Hence a stream that opens, reads, closes and is shown without a failure, and is not retired, gives every
      waiter with a live context success, once it is settled and each settleReady has returned. */
  lemma CleanStreamSucceeds(rows: seq<Row>, steps: seq<Step>, id: nat)
    requires Lawful(New(rows), steps) && Blameless(steps, id)
    ensures var s := Run(New(rows), steps);
      && (id in s.waiters.fired ==> s.waiters.fired[id].None?)
      && (Ready(s.completion) && s.completion.due == 0 && Known(s.waiters, id) ==>
            (id in s.waiters.fired && s.waiters.fired[id].None?)
            || (id in s.waiters.collected && s.waiters.collected[id].None?))
  {
    RunStaysExcused(New(rows), [], steps, id);
    assert [] + steps == steps;
    WaitersAreSettled(rows, steps, id);
  }

  // ---------------------------------------------------------------------------------------------
  // A clean stream is delivered

  /** Nothing has gone wrong so far, neither for the stream nor for the waiter. */
  predicate Clean(s: State, id: nat) {
    var c, w := s.completion, s.waiters;
    && (match s.source.worker
        case Dispatching(_, end) => !end.Failed?
        case Leaving(err) => err.None?
        case Closed(err) => err.None?
        case _ => true)
    && !s.source.stopped && c.err.None? && c.deliveryErr.None? && !c.retired && !c.cancelled
    && (s.screen.running.Some? ==> s.screen.running.value.None?)
    && (id in w.collected ==> w.collected[id].None?)
    && (id in w.fired ==> w.fired[id].None?)
    && id !in w.expired
  }

  function Toward(s: State, id: nat): Step {
    match s.source.worker
    case Opening => Open(true)
    case Looping => if s.source.taken <= |s.source.rows| then Drain(|s.source.rows| - s.source.taken, AtEof) else Retire
    case Dispatching(_, _) => Dispatch
    case Leaving(_) => CloseStream(false)
    case Closed(_) => FinishCompletion
    case Done =>
      if s.screen.running.Some? then Acknowledge
      else if s.screen.queue != [] then RunOnUI
      else if id in s.waiters.waiting then SettleReady
      else FinishWaiter(id, false)
  }

  function WorkerRank(worker: Worker): nat {
    match worker
    case Opening => 7
    case Dispatching(_, end) => if end.More? then 6 else 4
    case Looping => 5
    case Leaving(_) => 3
    case Closed(_) => 2
    case Done => 0
  }

  function ScreenRank(screen: Screen): nat { 2 * |screen.queue| + if screen.running.Some? then 1 else 0 }

  function WaiterRank(w: Waiters, id: nat): nat {
    if id in w.fired then 0 else if id in w.collected then 1 else 2
  }

  lemma TowardAdvances(s: State, id: nat)
    requires Inv(s) && Clean(s, id) && Known(s.waiters, id)
    requires id !in s.waiters.fired || !Complete(s)
    ensures Enabled(s, Toward(s, id)) && Blameless([Toward(s, id)], id)
    ensures var t := After(s, Toward(s, id));
      && Clean(t, id) && Known(t.waiters, id)
      && (WorkerRank(t.source.worker) < WorkerRank(s.source.worker)
          || (t.source.worker == s.source.worker
              && (ScreenRank(t.screen) < ScreenRank(s.screen)
                  || (t.screen == s.screen && WaiterRank(t.waiters, id) < WaiterRank(s.waiters, id)))))
  {
    if s.source.worker.Done? && s.screen.running.None? && s.screen.queue == [] {
      ReadyIsComplete(s);
    }
  }

  /** From every state in which nothing has gone wrong, a waiter can be told of success with every row shown, by
      steps none of which fails: the promise is never out of reach. */
  lemma {:induction false} CleanStreamIsDelivered(s: State, id: nat) returns (steps: seq<Step>)
    requires Inv(s) && Clean(s, id) && Known(s.waiters, id)
    ensures Lawful(s, steps) && Blameless(steps, id)
    ensures var t := Run(s, steps);
      Complete(t) && id in t.waiters.fired && t.waiters.fired[id].None?
    decreases WorkerRank(s.source.worker), ScreenRank(s.screen), WaiterRank(s.waiters, id)
  {
    hide Inv, Enabled, After, Toward, WorkerRank, ScreenRank, WaiterRank, Complete;
    if Complete(s) && id in s.waiters.fired {
      steps := [];
    } else {
      TowardAdvances(s, id);
      var step := Toward(s, id);
      StepKeepsInv(s, step);
      var rest := CleanStreamIsDelivered(After(s, step), id);
      steps := [step] + rest;
      assert steps[1..] == rest && [step][0] == step;
    }
  }

  lemma NewIsClean(rows: seq<Row>, id: nat)
    ensures Inv(New(rows)) && Clean(New(rows), id)
  {
    NewIsValid(rows);
  }
}
