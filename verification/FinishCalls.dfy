/** RunHandle.finish called by any number of goroutines at once (pkg/session/run_handle.go): the end of the
    rows, a Close, a failed Next. A sync.Once lets one of them execute the body, whose operations on the
    session lock, the active run, the fan-out and the two channels follow the caller's own program counter.
    Nothing but the Once keeps two callers from executing it; that it does is what is proved here, and that
    the session then behaves as if each run ended by itself. */
module FinishCalls {
  import opened Common
  import B = NoticeBarrier

  /** A call of finish on a run. Inside: it executes the body, and what it has done last names its place.
      Closing and Leaving: the notices, and then the done channel, are closed. */
  datatype Call =
    | Calling(run: nat)
    | Inside(run: nat, at: B.Phase)
    | Closing(run: nat)
    | Leaving(run: nat)
    | Returned(run: nat)

  /** The sync.Once of a run that has been entered. */
  datatype Once = Busy(caller: nat) | Done

  /** Calls, the entered Onces, the acknowledgements the fan-out has given and the call it is flushing for,
      and the runs whose channels are closed. */
  datatype Calls = Calls(calls: map<nat, Call>, once: map<nat, Once>, acks: set<nat>, flusher: Option<nat>,
                         notices: set<nat>, done: set<nat>)

  datatype System = System(session: B.Session, f: Calls)

  const NEW := System(B.NEW, Calls(map[], map[], {}, None, {}, {}))

  datatype Step =
    | Base(step: B.Step)
    | CallFinish(caller: nat, run: nat)
    | EnterOnce(caller: nat)
    | SendFlush(caller: nat)
    | SkipFlush(caller: nat)
    | TakeAck(caller: nat)
    | ClearActive(caller: nat)
    | Unlock(caller: nat)
    | CloseNotices(caller: nat)
    | CloseDone(caller: nat)
    | LeaveOnce(caller: nat)
    | ReturnWaiting(caller: nat)

  /** The operations of the body of finish: no goroutine but a caller performs them. */
  predicate Body(step: B.Step) {
    step.BeginFinish? || step.AcceptFlush? || step.SkipFlush? || step.Clear? || step.Unlock? || step.CloseNotices?
  }

  /** The handle of a run is out: the driver has accepted its statement. */
  predicate Started(phase: B.Phase) { phase.Running? || Past(phase) }

  predicate Past(phase: B.Phase) {
    phase.Finishing? || phase.Flushing? || phase.Flushed? || phase.Cleared? || phase.Unlocked? || phase.Ended?
  }

  predicate At(f: Calls, c: nat, phase: B.Phase) { c in f.calls && f.calls[c].Inside? && f.calls[c].at == phase }

  predicate Enabled(t: System, step: Step) {
    var f := t.f;
    match step
    case Base(b) => !Body(b) && B.Enabled(t.session, b)
    case CallFinish(c, r) => c !in f.calls && r in t.session.runs.phases && Started(t.session.runs.phases[r])
    case EnterOnce(c) => c in f.calls && f.calls[c].Calling? && f.calls[c].run !in f.once
    case SendFlush(c) => At(f, c, B.Finishing) && t.session.fan.Idle?
    case SkipFlush(c) => At(f, c, B.Finishing) && t.session.fan.Exited?
    case TakeAck(c) => At(f, c, B.Flushing) && c in f.acks
    case ClearActive(c) => At(f, c, B.Flushed)
    case Unlock(c) => At(f, c, B.Cleared)
    case CloseNotices(c) => At(f, c, B.Unlocked)
    case CloseDone(c) => c in f.calls && f.calls[c].Closing?
    case LeaveOnce(c) => c in f.calls && f.calls[c].Leaving?
    case ReturnWaiting(c) =>
      c in f.calls && f.calls[c].Calling? && f.calls[c].run in f.once && f.once[f.calls[c].run].Done?
  }

  /** What the step does to the session. */
  function Operation(t: System, step: Step): Option<B.Step>
    requires Enabled(t, step)
  {
    var calls := t.f.calls;
    match step
    case Base(b) => Some(b)
    case EnterOnce(c) => Some(B.BeginFinish(calls[c].run))
    case SendFlush(c) => Some(B.AcceptFlush(calls[c].run))
    case SkipFlush(c) => Some(B.SkipFlush(calls[c].run))
    case ClearActive(c) => Some(B.Clear(calls[c].run))
    case Unlock(c) => Some(B.Unlock(calls[c].run))
    case CloseNotices(c) => Some(B.CloseNotices(calls[c].run))
    case _ => None
  }

  function Go(f: Calls, c: nat, call: Call): Calls { f.(calls := f.calls[c := call]) }

  function CallsAfter(t: System, step: Step): Calls
    requires Enabled(t, step)
  {
    var f := t.f;
    match step
    case Base(b) =>
      if b.DrainEnd? && f.flusher.Some? then f.(acks := f.acks + {f.flusher.value}, flusher := None) else f
    case CallFinish(c, r) => Go(f, c, Calling(r))
    case EnterOnce(c) => Go(f, c, Inside(f.calls[c].run, B.Finishing)).(once := f.once[f.calls[c].run := Busy(c)])
    case SendFlush(c) => Go(f, c, Inside(f.calls[c].run, B.Flushing)).(flusher := Some(c))
    case SkipFlush(c) => Go(f, c, Inside(f.calls[c].run, B.Flushed))
    case TakeAck(c) => Go(f, c, Inside(f.calls[c].run, B.Flushed))
    case ClearActive(c) => Go(f, c, Inside(f.calls[c].run, B.Cleared))
    case Unlock(c) => Go(f, c, Inside(f.calls[c].run, B.Unlocked))
    case CloseNotices(c) => Go(f, c, Closing(f.calls[c].run)).(notices := f.notices + {f.calls[c].run})
    case CloseDone(c) => Go(f, c, Leaving(f.calls[c].run)).(done := f.done + {f.calls[c].run})
    case LeaveOnce(c) => Go(f, c, Returned(f.calls[c].run)).(once := f.once[f.calls[c].run := Done])
    case ReturnWaiting(c) => Go(f, c, Returned(f.calls[c].run))
  }

  function After(t: System, step: Step): System
    requires Enabled(t, step)
  {
    var b := Operation(t, step);
    System(if b.Some? then B.After(t.session, b.value) else t.session, CallsAfter(t, step))
  }

  predicate Lawful(t: System, steps: seq<Step>)
    decreases |steps|
  {
    steps == [] || (Enabled(t, steps[0]) && Lawful(After(t, steps[0]), steps[1..]))
  }

  function Run(t: System, steps: seq<Step>): System
    requires Lawful(t, steps)
    decreases |steps|
  {
    if steps == [] then t else Run(After(t, steps[0]), steps[1..])
  }

  // ---------------------------------------------------------------------------------------------
  // The invariant

  predicate Phased(t: System, r: nat, phase: B.Phase) { B.In(t.session.runs, r, phase) }

  predicate Executes(f: Calls, c: nat, r: nat) {
    c in f.calls && f.calls[c].run == r && (f.calls[c].Inside? || f.calls[c].Closing? || f.calls[c].Leaving?)
  }

  /** A caller in the body has entered the Once, and its place is the run's. */
  predicate CallAt(t: System, c: nat) {
    var f := t.f;
    c in f.calls ==>
      var r := f.calls[c].run;
      match f.calls[c]
      case Calling(_) => r in t.session.runs.phases && Started(t.session.runs.phases[r])
      case Inside(_, phase) =>
        && r in f.once && f.once[r] == Busy(c) && r !in f.notices && r !in f.done && Past(phase) && !phase.Ended?
        && Phased(t, r, if phase.Flushing? && c in f.acks then B.Flushed else phase)
      case Closing(_) => r in f.once && f.once[r] == Busy(c) && r in f.notices && r !in f.done && Phased(t, r, B.Ended)
      case Leaving(_) => r in f.once && f.once[r] == Busy(c) && r in f.notices && r in f.done && Phased(t, r, B.Ended)
      case Returned(_) => r in f.once && f.once[r].Done?
  }

  predicate OnceAt(t: System, r: nat) {
    var f := t.f;
    if r !in f.once then r !in f.notices && r !in f.done && (r in t.session.runs.phases ==> !Past(t.session.runs.phases[r]))
    else
      match f.once[r]
      case Busy(c) => Executes(f, c, r)
      case Done => Phased(t, r, B.Ended) && r in f.notices && r in f.done
  }

  /** Only a call that has asked for a flush is acknowledged. */
  predicate AckAt(f: Calls, c: nat) {
    c in f.acks ==> c in f.calls && !f.calls[c].Calling? && !At(f, c, B.Finishing)
  }

  /** The fan-out drains for a caller that waits. */
  predicate FlushedFor(t: System) {
    t.session.fan.Draining? ==>
      && t.f.flusher.Some? && t.f.flusher.value in t.f.calls && t.f.flusher.value !in t.f.acks
      && t.f.calls[t.f.flusher.value] == Inside(t.session.fan.run, B.Flushing)
  }

  ghost predicate AllCalls(t: System) { forall c: nat :: CallAt(t, c) }

  ghost predicate AllOnces(t: System) { forall r: nat :: OnceAt(t, r) }

  ghost predicate AllAcks(f: Calls) { forall c: nat :: AckAt(f, c) }

  ghost predicate Inv(t: System) {
    B.Inv(t.session) && AllCalls(t) && AllOnces(t) && AllAcks(t.f) && FlushedFor(t)
  }

  /** The caller of a step, if it is not one of the session's own. */
  function Actor(step: Step): nat {
    match step
    case Base(_) => 0
    case CallFinish(c, _) => c
    case EnterOnce(c) => c
    case SendFlush(c) => c
    case SkipFlush(c) => c
    case TakeAck(c) => c
    case ClearActive(c) => c
    case Unlock(c) => c
    case CloseNotices(c) => c
    case CloseDone(c) => c
    case LeaveOnce(c) => c
    case ReturnWaiting(c) => c
  }

  /** The run the step is about: the actor's, or the one the fan-out drains. */
  function Subject(t: System, step: Step): nat {
    match step
    case Base(b) => if t.session.fan.Draining? then t.session.fan.run else 0
    case CallFinish(_, r) => r
    case _ => if Actor(step) in t.f.calls then t.f.calls[Actor(step)].run else 0
  }

  /** Because of the Once, the session could have performed each operation by itself. */
  lemma StepRefines(t: System, step: Step)
    requires Enabled(t, step) && CallAt(t, Actor(step)) && OnceAt(t, Subject(t, step)) && AckAt(t.f, Actor(step))
    ensures var b := Operation(t, step);
      b.Some? ==> B.Enabled(t.session, b.value) && After(t, step).session == B.After(t.session, b.value)
    ensures Operation(t, step).None? ==> After(t, step).session == t.session
  {
  }

  predicate Near(t: System, step: Step) {
    && CallAt(t, Actor(step)) && OnceAt(t, Subject(t, step)) && AckAt(t.f, Actor(step)) && FlushedFor(t)
    && B.FlushAt(t.session.runs, t.session.fan, Subject(t, step))
  }

  /** The session's own steps end no run; only the fan-out's last drain moves one past its start. */
  lemma OwnStepPhases(s: B.Session, b: B.Step, r: nat)
    requires B.Enabled(s, b) && !Body(b)
    ensures var before, after := s.runs.phases, B.RunsAfter(s, b).phases;
      if b.DrainEnd? && r == s.fan.run then r in after && after[r].Flushed?
      else if r in before && Started(before[r]) then r in after && after[r] == before[r]
      else r in after ==> !Past(after[r])
  {
  }

  lemma OwnStepKeeps(t: System, b: B.Step, c: nat, r: nat)
    requires Enabled(t, Base(b)) && Near(t, Base(b)) && CallAt(t, c) && OnceAt(t, r)
    requires c in t.f.calls ==> OnceAt(t, t.f.calls[c].run)
    requires t.session.fan.Draining? ==> CallAt(t, t.f.flusher.value)
    ensures CallAt(After(t, Base(b)), c) && OnceAt(After(t, Base(b)), r)
  {
    hide B.RunsAfter, B.WireAfter, B.FanAfter;
    OwnStepPhases(t.session, b, r);
    if c in t.f.calls {
      OwnStepPhases(t.session, b, t.f.calls[c].run);
    }
  }

  /** The place a caller's step moves its run to. */
  function Place(step: Step): Option<B.Phase> {
    match step
    case EnterOnce(_) => Some(B.Finishing)
    case SendFlush(_) => Some(B.Flushing)
    case SkipFlush(_) => Some(B.Flushed)
    case ClearActive(_) => Some(B.Cleared)
    case Unlock(_) => Some(B.Unlocked)
    case CloseNotices(_) => Some(B.Ended)
    case _ => None
  }

  lemma CallStepPhases(t: System, step: Step)
    requires Enabled(t, step) && !step.Base?
    ensures var before, after := t.session.runs.phases, After(t, step).session.runs.phases;
      after == if Place(step).Some? then before[Subject(t, step) := Place(step).value] else before
  {
  }

  lemma CallStepKeepsCallAt(t: System, step: Step, c: nat)
    requires Enabled(t, step) && !step.Base? && Near(t, step) && CallAt(t, c)
    ensures CallAt(After(t, step), c)
  {
    hide FlushedFor, B.After, B.FlushAt, Operation;
    CallStepPhases(t, step);
  }

  lemma CallStepKeepsOnceAt(t: System, step: Step, r: nat)
    requires Enabled(t, step) && !step.Base? && Near(t, step) && OnceAt(t, r)
    ensures OnceAt(After(t, step), r)
  {
    hide AckAt, FlushedFor, B.After, B.FlushAt, Operation;
    CallStepPhases(t, step);
  }

  lemma StepKeepsAckAt(t: System, step: Step, c: nat)
    requires Enabled(t, step) && Near(t, step) && AckAt(t.f, c)
    ensures AckAt(CallsAfter(t, step), c)
  {
  }

  lemma StepKeepsFlushedFor(t: System, step: Step)
    requires Enabled(t, step) && Near(t, step)
    ensures FlushedFor(After(t, step))
  {
  }

  lemma InvNear(t: System, step: Step)
    requires Inv(t)
    ensures Near(t, step)
  {
    hide B.AllPlaced, B.Unique, B.ReleasedOnce;
    B.AtRun(t.session, Subject(t, step));
  }

  lemma StepKeepsInv(t: System, step: Step)
    requires Inv(t) && Enabled(t, step)
    ensures Inv(After(t, step))
    ensures var b := Operation(t, step);
      if b.Some? then B.Enabled(t.session, b.value) && After(t, step).session == B.After(t.session, b.value)
      else After(t, step).session == t.session
  {
    hide B.Inv, B.Enabled, B.After, CallAt, OnceAt, AckAt, FlushedFor, Near, CallsAfter;
    var u := After(t, step);
    InvNear(t, step);
    NearParts(t, step);
    StepRefines(t, step);
    if Operation(t, step).Some? {
      B.StepKeepsInv(t.session, Operation(t, step).value);
    }
    forall c: nat ensures CallAt(u, c) && AckAt(u.f, c) {
      assert CallAt(t, c) && AckAt(t.f, c);
      StepKeepsAckAt(t, step, c);
      StepKeepsCallAt(t, step, c);
    }
    forall r: nat ensures OnceAt(u, r) {
      assert OnceAt(t, r);
      StepKeepsOnceAt(t, step, r);
    }
    StepKeepsFlushedFor(t, step);
  }

  lemma NearParts(t: System, step: Step)
    requires Near(t, step)
    ensures CallAt(t, Actor(step)) && OnceAt(t, Subject(t, step)) && AckAt(t.f, Actor(step))
  {
  }

  lemma StepKeepsCallAt(t: System, step: Step, c: nat)
    requires Enabled(t, step) && Inv(t)
    ensures CallAt(After(t, step), c)
  {
    hide B.Inv, B.Enabled, B.After, Near, CallsAfter, FlushedFor;
    InvNear(t, step);
    assert CallAt(t, c) && (c in t.f.calls ==> OnceAt(t, t.f.calls[c].run));
    match step
    case Base(b) =>
      FlusherCall(t);
      OwnStepKeeps(t, b, c, 0);
    case _ => CallStepKeepsCallAt(t, step, c);
  }

  lemma FlusherCall(t: System)
    requires Inv(t)
    ensures t.session.fan.Draining? ==> t.f.flusher.Some? && CallAt(t, t.f.flusher.value)
  {
  }

  lemma StepKeepsOnceAt(t: System, step: Step, r: nat)
    requires Enabled(t, step) && Inv(t)
    ensures OnceAt(After(t, step), r)
  {
    hide B.Inv, B.Enabled, B.After, Near, CallsAfter, FlushedFor;
    InvNear(t, step);
    assert OnceAt(t, r);
    match step
    case Base(b) =>
      FlusherCall(t);
      assert CallAt(t, 0) && (0 in t.f.calls ==> OnceAt(t, t.f.calls[0].run));
      OwnStepKeeps(t, b, 0, r);
    case _ => CallStepKeepsOnceAt(t, step, r);
  }

  lemma {:induction false} RunKeepsInv(t: System, steps: seq<Step>)
    requires Inv(t) && Lawful(t, steps)
    ensures Inv(Run(t, steps))
    decreases |steps|
  {
    hide Inv, Enabled, After;
    if steps != [] {
      StepKeepsInv(t, steps[0]);
      RunKeepsInv(After(t, steps[0]), steps[1..]);
    }
  }

  lemma NewIsValid()
    ensures Inv(NEW)
  {
    B.NewIsValid();
  }

  // ---------------------------------------------------------------------------------------------
  // What the callers get

  /** Whatever the callers do, the session goes through a run in which each run of a statement ends by
      itself: everything proved of those holds with any number of callers. */
  lemma {:induction false} CallsRefineSession(t: System, steps: seq<Step>) returns (own: seq<B.Step>)
    requires Inv(t) && Lawful(t, steps)
    ensures B.Lawful(t.session, own) && B.Run(t.session, own) == Run(t, steps).session
    decreases |steps|
  {
    hide Inv, Enabled, After, B.Enabled, B.After;
    if steps == [] {
      own := [];
    } else {
      StepKeepsInv(t, steps[0]);
      own := CallsRefineSession(After(t, steps[0]), steps[1..]);
      var b := Operation(t, steps[0]);
      if b.Some? {
        var all := [b.value] + own;
        assert all[1..] == own;
        own := all;
      }
    }
  }

  /** The callers that execute the body for a run, in the course of a run of the system. */
  function Entries(t: System, steps: seq<Step>, r: nat): nat
    requires Lawful(t, steps)
    decreases |steps|
  {
    if steps == [] then 0
    else
      (if steps[0].EnterOnce? && t.f.calls[steps[0].caller].run == r then 1 else 0)
      + Entries(After(t, steps[0]), steps[1..], r)
  }

  lemma OnlyEntryTakesOnce(t: System, step: Step, r: nat)
    requires Enabled(t, step) && CallAt(t, Actor(step))
    ensures var enters := step.EnterOnce? && t.f.calls[step.caller].run == r;
      && (enters ==> r !in t.f.once)
      && (r in After(t, step).f.once <==> r in t.f.once || enters)
  {
  }

  /** However many calls a run gets, over any run of the system at most one of them executes the body, and
      exactly one once the Once has been entered, as it has been when any call returns. */
  lemma {:induction false} OneCallerExecutes(t: System, steps: seq<Step>, r: nat)
    requires Inv(t) && Lawful(t, steps)
    ensures var end := Run(t, steps);
      && Entries(t, steps, r) + (if r in t.f.once then 1 else 0) == (if r in end.f.once then 1 else 0)
      && forall c :: c in end.f.calls && end.f.calls[c] == Returned(r) ==> r in end.f.once
    decreases |steps|
  {
    hide Enabled, After, Inv, CallAt;
    ActorIsValid(t, if steps == [] then CallFinish(0, 0) else steps[0]);
    if steps == [] {
      ReturnedEntered(t, r);
    } else {
      OnlyEntryTakesOnce(t, steps[0], r);
      StepKeepsInv(t, steps[0]);
      OneCallerExecutes(After(t, steps[0]), steps[1..], r);
    }
  }

  lemma ActorIsValid(t: System, step: Step)
    requires Inv(t)
    ensures CallAt(t, Actor(step))
  {
  }

  lemma ReturnedEntered(t: System, r: nat)
    requires Inv(t)
    ensures forall c :: c in t.f.calls && t.f.calls[c] == Returned(r) ==> r in t.f.once
  {
    forall c | c in t.f.calls && t.f.calls[c] == Returned(r) ensures r in t.f.once {
      assert CallAt(t, c);
    }
  }

  /** In the body, a caller unlocks a session lock that its own run holds and has never released, and closes
      channels that are open: no unlock of a free lock, or of another run's, and no second close. */
  lemma BodyIsSafe(t: System, step: Step)
    requires Inv(t) && Enabled(t, step)
    ensures step.Unlock? ==>
      var r := t.f.calls[step.caller].run;
      t.session.runs.mutex == Some(B.ByRun(r)) && B.Releases(t.session.runs, r) == 0
    ensures step.CloseNotices? ==> t.f.calls[step.caller].run !in t.f.notices
    ensures step.CloseDone? ==> t.f.calls[step.caller].run !in t.f.done
  {
    hide B.AllPlaced, B.Unique;
    assert CallAt(t, Actor(step));
    if step.Unlock? {
      var r := t.f.calls[step.caller].run;
      assert B.LockAt(t.session.runs, r) && B.ReleasedAt(t.session.runs, r);
    }
  }

  /** No call returns early: when any of them is back, the channels are closed, the session lock has been
      released exactly once, and every notice of the run has been routed to it. */
  lemma ReturnedIsFinished(steps: seq<Step>, c: nat)
    requires Lawful(NEW, steps)
    requires c in Run(NEW, steps).f.calls && Run(NEW, steps).f.calls[c].Returned?
    ensures var t := Run(NEW, steps);
      var r := t.f.calls[c].run;
      && r in t.f.notices && r in t.f.done
      && B.Releases(t.session.runs, r) == 1 && t.session.runs.mutex != Some(B.ByRun(r)) && t.session.runs.active != Some(r)
      && forall id :: id in t.session.wire.era && t.session.wire.era[id] == Some(r) ==> B.RoutedTo(t.session.wire, id, r)
  {
    NewIsValid();
    RunKeepsInv(NEW, steps);
    var t := Run(NEW, steps);
    var r := t.f.calls[c].run;
    assert CallAt(t, c) && OnceAt(t, r);
    ReturnedRun(t, r);
  }

  lemma ReturnedRun(t: System, r: nat)
    requires B.Inv(t.session) && Phased(t, r, B.Ended)
    ensures var q, w := t.session.runs, t.session.wire;
      && B.Releases(q, r) == 1 && q.mutex != Some(B.ByRun(r)) && q.active != Some(r)
      && forall id :: id in w.era && w.era[id] == Some(r) ==> B.RoutedTo(w, id, r)
  {
    var q, w := t.session.runs, t.session.wire;
    assert B.LockAt(q, r) && B.ActiveAt(q, r) && B.ReleasedAt(q, r);
    forall id | id in w.era && w.era[id] == Some(r) ensures B.RoutedTo(w, id, r) {
      assert B.PlacedIn(t.session, id, r);
    }
  }

  /** A step of the call itself, or of the fan-out. */
  predicate Serves(step: Step, c: nat) {
    match step
    case Base(b) => b.Load? || b.Route? || b.DrainOne? || b.DrainEnd?
    case CallFinish(_, _) => false
    case _ => Actor(step) == c
  }

  /** How far a call in the body is from its return. */
  function Stage(f: Calls, c: nat): nat
    requires c in f.calls
  {
    match f.calls[c]
    case Inside(_, Finishing) => 9
    case Inside(_, Flushing) => if c in f.acks then 7 else 8
    case Inside(_, Flushed) => 6
    case Inside(_, Cleared) => 5
    case Inside(_, _) => 4
    case Closing(_) => 3
    case Leaving(_) => 2
    case _ => 0
  }

  /** What the fan-out has before it. */
  function Backlog(s: B.Session): nat {
    |s.wire.queue| + match s.fan
      case Got(_) => 2
      case Loaded(_, _) => 1
      case _ => 0
  }

  /** The next step of a call in the body, or of the fan-out it waits for. */
  function NextStep(t: System, c: nat): Step
    requires c in t.f.calls
  {
    match t.f.calls[c]
    case Inside(_, Finishing) =>
      (match t.session.fan
       case Idle => SendFlush(c)
       case Exited => SkipFlush(c)
       case Got(_) => Base(B.Load)
       case _ => Base(B.Route))
    case Inside(_, Flushing) =>
      if c in t.f.acks then TakeAck(c) else if t.session.wire.queue == [] then Base(B.DrainEnd) else Base(B.DrainOne)
    case Inside(_, Flushed) => ClearActive(c)
    case Inside(_, Cleared) => Unlock(c)
    case Inside(_, _) => CloseNotices(c)
    case Closing(_) => CloseDone(c)
    case _ => LeaveOnce(c)
  }

  /** While a run is finishing or flushing, the fan-out drains for no other. */
  lemma DrainsForRun(t: System, c: nat)
    requires Inv(t) && c in t.f.calls && t.f.calls[c].Inside?
    ensures t.f.calls[c].at.Finishing? ==> !t.session.fan.Draining?
    ensures t.f.calls[c].at.Flushing? && c !in t.f.acks ==>
      t.session.fan == B.Draining(t.f.calls[c].run) && t.f.flusher == Some(c)
  {
    hide B.AllPlaced, B.Unique, B.ReleasedOnce;
    var r := t.f.calls[c].run;
    assert CallAt(t, c);
    B.AtRun(t.session, r);
    if t.session.fan.Draining? {
      B.AtRun(t.session, t.session.fan.run);
      assert CallAt(t, t.f.flusher.value);
    }
  }

  lemma NextStepAdvances(t: System, c: nat)
    requires Inv(t) && c in t.f.calls && Executes(t.f, c, t.f.calls[c].run)
    ensures var step := NextStep(t, c);
      Enabled(t, step) && Serves(step, c)
    ensures var u := After(t, NextStep(t, c));
      && c in u.f.calls && u.f.calls[c].run == t.f.calls[c].run
      && (u.f.calls[c].Returned? || (
            && Executes(u.f, c, u.f.calls[c].run)
            && (Stage(u.f, c) < Stage(t.f, c)
                || (Stage(u.f, c) == Stage(t.f, c) && Backlog(u.session) < Backlog(t.session)))))
  {
    hide B.Inv, AllOnces, AllAcks, FlushedFor, B.RunsAfter, B.ReleasedAt, Started, Phased;
    assert CallAt(t, c);
    if t.f.calls[c].Inside? {
      DrainsForRun(t, c);
    }
  }

  /** Steps that serve a call leave the others where they are. */
  lemma OthersStay(t: System, step: Step, c: nat, d: nat)
    requires Enabled(t, step) && Serves(step, c) && d != c && d in t.f.calls
    ensures d in After(t, step).f.calls && After(t, step).f.calls[d] == t.f.calls[d]
  {
  }

  /** From the body every call returns, by steps of its own and of the fan-out alone. */
  lemma {:induction false} BodyReturns(t: System, c: nat) returns (steps: seq<Step>)
    requires Inv(t) && c in t.f.calls && Executes(t.f, c, t.f.calls[c].run)
    ensures Lawful(t, steps) && forall k :: 0 <= k < |steps| ==> Serves(steps[k], c)
    ensures var u := Run(t, steps);
      && Inv(u) && c in u.f.calls && u.f.calls[c] == Returned(t.f.calls[c].run)
      && forall d :: d in t.f.calls && d != c ==> d in u.f.calls && u.f.calls[d] == t.f.calls[d]
    decreases Stage(t.f, c), Backlog(t.session)
  {
    hide Inv, Enabled, After, Executes, Serves, Stage, Backlog, NextStep;
    NextStepAdvances(t, c);
    var step := NextStep(t, c);
    var u := After(t, step);
    StepKeepsInv(t, step);
    forall d | d in t.f.calls && d != c ensures d in u.f.calls && u.f.calls[d] == t.f.calls[d] {
      OthersStay(t, step, c, d);
    }
    if u.f.calls[c].Returned? {
      steps := [step];
      assert steps[1..] == [];
    } else {
      var rest := BodyReturns(u, c);
      steps := [step] + rest;
      assert steps[1..] == rest;
    }
  }

  /** The call serves itself, or the one in the body serves it. */
  predicate Helps(t: System, d: nat, c: nat) {
    c in t.f.calls && (d == c || Executes(t.f, d, t.f.calls[c].run))
  }

  /** No call hangs: from every reachable state it can return, by its own steps, those of the call in the body
      and those of the fan-out, without any new notice or call. */
  lemma FinishNeverHangs(t: System, c: nat) returns (steps: seq<Step>)
    requires Inv(t) && c in t.f.calls
    ensures Lawful(t, steps)
    ensures c in Run(t, steps).f.calls && Run(t, steps).f.calls[c] == Returned(t.f.calls[c].run)
    ensures forall k :: 0 <= k < |steps| ==> exists d :: Helps(t, d, c) && Serves(steps[k], d)
  {
    var r := t.f.calls[c].run;
    assert CallAt(t, c) && OnceAt(t, r);
    hide Inv, Serves;
    if t.f.calls[c].Returned? {
      steps := [];
    } else if !t.f.calls[c].Calling? {
      steps := BodyReturns(t, c);
      assert Helps(t, c, c);
    } else if r !in t.f.once {
      steps := EntersAndReturns(t, c);
      assert Helps(t, c, c);
    } else {
      match t.f.once[r]
      case Done =>
        steps := WaitedReturns(t, c);
        assert Helps(t, c, c);
      case Busy(d) =>
        var first := BodyReturns(t, d);
        OnceDone(Run(t, first), d);
        var last := WaitedReturns(Run(t, first), c);
        RunJoins(t, first, last);
        steps := first + last;
        assert Helps(t, c, c) && Helps(t, d, c);
    }
  }

  lemma OnceDone(t: System, d: nat)
    requires Inv(t) && d in t.f.calls && t.f.calls[d].Returned?
    ensures t.f.calls[d].run in t.f.once && t.f.once[t.f.calls[d].run].Done?
  {
    assert CallAt(t, d);
  }

  lemma EntersAndReturns(t: System, c: nat) returns (steps: seq<Step>)
    requires Inv(t) && Enabled(t, EnterOnce(c))
    ensures Lawful(t, steps) && forall k :: 0 <= k < |steps| ==> Serves(steps[k], c)
    ensures c in Run(t, steps).f.calls && Run(t, steps).f.calls[c] == Returned(t.f.calls[c].run)
  {
    hide Inv;
    var u := After(t, EnterOnce(c));
    StepKeepsInv(t, EnterOnce(c));
    var rest := BodyReturns(u, c);
    steps := [EnterOnce(c)] + rest;
    assert steps[1..] == rest;
  }

  lemma WaitedReturns(t: System, c: nat) returns (steps: seq<Step>)
    requires Enabled(t, ReturnWaiting(c))
    ensures Lawful(t, steps) && forall k :: 0 <= k < |steps| ==> Serves(steps[k], c)
    ensures c in Run(t, steps).f.calls && Run(t, steps).f.calls[c] == Returned(t.f.calls[c].run)
  {
    steps := [ReturnWaiting(c)];
    assert steps[1..] == [];
  }

  lemma {:induction false} RunJoins(t: System, first: seq<Step>, last: seq<Step>)
    requires Lawful(t, first) && Lawful(Run(t, first), last)
    ensures Lawful(t, first + last) && Run(t, first + last) == Run(Run(t, first), last)
    decreases |first|
  {
    hide Enabled, After;
    if first == [] {
      assert first + last == last;
    } else {
      RunJoins(After(t, first[0]), first[1..], last);
      assert (first + last)[1..] == first[1..] + last;
    }
  }
}
