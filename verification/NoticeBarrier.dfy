/** The queue of runs on one session and the notice barrier between them (pkg/session/sql_session.go and
    RunHandle.finish): the session lock, the active run, the fan-out goroutine, and the flush a finishing
    run sends through it. Every lock, atomic and channel operation is one step. Here a run ends by itself, once;
    that any number of callers of finish amount to this is the subject of FinishCalls.dfy. */
module NoticeBarrier {
  import opened Common

  /** A run, from taking the session lock to closing its channels. Dropping and Refused: the driver's call
      failed. */
  datatype Phase =
    | Locked | Active | Running | Finishing | Flushing | Flushed | Cleared | Unlocked | Ended
    | Dropping | Refused

  /** The fan-out goroutine. */
  datatype Fan = Idle | Got(id: nat) | Loaded(id: nat, target: Option<nat>) | Draining(run: nat) | Exited

  datatype Holder = ByRun(run: nat) | ByCall

  /** The runs and the session lock. */
  datatype Queue = Queue(mutex: Option<Holder>, active: Option<nat>, phases: map<nat, Phase>, releases: map<nat, nat>)

  /** The notices. A notice is its number; `era` is the run it belongs to: the active one, until its flush
      is done. */
  datatype Wire = Wire(queue: seq<nat>, closed: bool, era: map<nat, Option<nat>>, routed: map<nat, nat>)

  datatype Session = Session(runs: Queue, wire: Wire, fan: Fan)

  const NEW := Session(Queue(None, None, map[], map[]), Wire([], false, map[], map[]), Idle)

  datatype Step =
    | Lock(run: nat)
    | Publish(run: nat)
    | DriverStarts(run: nat)
    | DriverFails(run: nat)
    | FailUnlock(run: nat)
    | BeginFinish(run: nat)
    | AcceptFlush(run: nat)
    | SkipFlush(run: nat)
    | Clear(run: nat)
    | Unlock(run: nat)
    | CloseNotices(run: nat)
    | LockCall
    | UnlockCall
    | Emit(id: nat)
    | CloseQueue
    | Take
    | Load
    | Route
    | DrainOne
    | DrainEnd
    | Exit

  predicate In(q: Queue, r: nat, phase: Phase) { r in q.phases && q.phases[r] == phase }

  predicate Enabled(s: Session, step: Step) {
    var q, wire := s.runs, s.wire;
    match step
    case Lock(r) => q.mutex.None? && r !in q.phases
    case Publish(r) => In(q, r, Locked)
    case DriverStarts(r) => In(q, r, Active)
    case DriverFails(r) => In(q, r, Active)
    case FailUnlock(r) => In(q, r, Dropping)
    case BeginFinish(r) => In(q, r, Running)
    case AcceptFlush(r) => In(q, r, Finishing) && s.fan.Idle?
    case SkipFlush(r) => In(q, r, Finishing) && s.fan.Exited?
    case Clear(r) => In(q, r, Flushed)
    case Unlock(r) => In(q, r, Cleared)
    case CloseNotices(r) => In(q, r, Unlocked)
    case LockCall => q.mutex.None?
    case UnlockCall => q.mutex == Some(ByCall)
    case Emit(id) => !wire.closed && id !in wire.era
    case CloseQueue => !wire.closed
    case Take => s.fan.Idle? && wire.queue != []
    case Load => s.fan.Got?
    case Route => s.fan.Loaded?
    case DrainOne => s.fan.Draining? && wire.queue != []
    case DrainEnd => s.fan.Draining? && wire.queue == []
    case Exit => s.fan.Idle? && wire.closed && wire.queue == []
  }

  /** What a step needs to have an effect at all. */
  predicate Defined(s: Session, step: Step) {
    match step
    case Take => s.wire.queue != []
    case Load => s.fan.Got?
    case Route => s.fan.Loaded?
    case DrainOne => s.fan.Draining? && s.wire.queue != []
    case DrainEnd => s.fan.Draining?
    case _ => true
  }

  function To(q: Queue, r: nat, phase: Phase): Queue { q.(phases := q.phases[r := phase]) }

  function Released(q: Queue, r: nat): Queue {
    q.(mutex := None, releases := q.releases[r := (if r in q.releases then q.releases[r] else 0) + 1])
  }

  /** Still open for notices: active and not flushed. */
  predicate Open(phase: Phase) { phase.Active? || phase.Running? || phase.Finishing? || phase.Flushing? }

  function Era(q: Queue): Option<nat> {
    if q.active.Some? && q.active.value in q.phases && Open(q.phases[q.active.value]) then q.active else None
  }

  function RunsAfter(s: Session, step: Step): Queue
    requires Defined(s, step)
  {
    var q := s.runs;
    match step
    case Lock(r) => To(q, r, Locked).(mutex := Some(ByRun(r)))
    case Publish(r) => To(q, r, Active).(active := Some(r))
    case DriverStarts(r) => To(q, r, Running)
    case DriverFails(r) => To(q, r, Dropping).(active := None)
    case FailUnlock(r) => Released(To(q, r, Refused), r)
    case BeginFinish(r) => To(q, r, Finishing)
    case AcceptFlush(r) => To(q, r, Flushing)
    case SkipFlush(r) => To(q, r, Flushed)
    case Clear(r) => To(q, r, Cleared).(active := None)
    case Unlock(r) => Released(To(q, r, Unlocked), r)
    case CloseNotices(r) => To(q, r, Ended)
    case LockCall => q.(mutex := Some(ByCall))
    case UnlockCall => q.(mutex := None)
    case DrainEnd => To(q, s.fan.run, Flushed)
    case _ => q
  }

  function WireAfter(s: Session, step: Step): Wire
    requires Defined(s, step)
  {
    var w := s.wire;
    match step
    case Emit(id) => w.(queue := w.queue + [id], era := w.era[id := Era(s.runs)])
    case CloseQueue => w.(closed := true)
    case Take => w.(queue := w.queue[1..])
    case Route => if s.fan.target.Some? then w.(routed := w.routed[s.fan.id := s.fan.target.value]) else w
    case DrainOne => w.(queue := w.queue[1..], routed := w.routed[w.queue[0] := s.fan.run])
    case _ => w
  }

  function FanAfter(s: Session, step: Step): Fan
    requires Defined(s, step)
  {
    match step
    case AcceptFlush(r) => Draining(r)
    case Take => Got(s.wire.queue[0])
    case Load => Loaded(s.fan.id, s.runs.active)
    case Route => Idle
    case DrainEnd => if s.wire.closed then Exited else Idle
    case Exit => Exited
    case _ => s.fan
  }

  function After(s: Session, step: Step): Session
    requires Defined(s, step)
  {
    Session(RunsAfter(s, step), WireAfter(s, step), FanAfter(s, step))
  }

  predicate Lawful(s: Session, steps: seq<Step>)
    decreases |steps|
  {
    steps == [] || (Enabled(s, steps[0]) && Lawful(After(s, steps[0]), steps[1..]))
  }

  function Run(s: Session, steps: seq<Step>): Session
    requires Lawful(s, steps)
    decreases |steps|
  {
    if steps == [] then s else Run(After(s, steps[0]), steps[1..])
  }

  // ---------------------------------------------------------------------------------------------
  // The invariant

  predicate Holds(phase: Phase) { !phase.Unlocked? && !phase.Ended? && !phase.Refused? }

  predicate IsActive(phase: Phase) { Open(phase) || phase.Flushed? }

  predicate Settled(phase: Phase) { phase.Flushed? || phase.Cleared? || phase.Unlocked? || phase.Ended? }

  /** The run that holds the session lock is the one between its Lock and its Unlock. */
  predicate LockAt(q: Queue, r: nat) {
    q.mutex == Some(ByRun(r)) <==> r in q.phases && Holds(q.phases[r])
  }

  predicate ActiveAt(q: Queue, r: nat) { q.active == Some(r) <==> r in q.phases && IsActive(q.phases[r]) }

  predicate FlushAt(q: Queue, fan: Fan, r: nat) { fan == Draining(r) <==> In(q, r, Flushing) }

  function Releases(q: Queue, r: nat): nat { if r in q.releases then q.releases[r] else 0 }

  /** The session lock has been released once for every run that is past its Unlock. */
  predicate ReleasedAt(q: Queue, r: nat) {
    Releases(q, r) == if r !in q.phases || Holds(q.phases[r]) then 0 else 1
  }

  ghost predicate LockHeld(q: Queue) { forall r: nat :: LockAt(q, r) }

  ghost predicate ActiveMatches(q: Queue) { forall r: nat :: ActiveAt(q, r) }

  ghost predicate FlushMatches(q: Queue, fan: Fan) { forall r: nat :: FlushAt(q, fan, r) }

  ghost predicate ReleasedOnce(q: Queue) { forall r: nat :: ReleasedAt(q, r) }

  predicate InHand(fan: Fan, id: nat) { (fan.Got? || fan.Loaded?) && fan.id == id }

  /** A notice is queued, in the fan-out's hand, or past it, and only once. */
  ghost predicate Unique(w: Wire, fan: Fan) {
    && (forall i :: 0 <= i < |w.queue| ==> w.queue[i] in w.era && w.queue[i] !in w.routed && !InHand(fan, w.queue[i]))
    && (forall i, j :: 0 <= i < j < |w.queue| ==> w.queue[i] != w.queue[j])
    && (fan.Got? || fan.Loaded? ==> fan.id in w.era && fan.id !in w.routed)
    && w.routed.Keys <= w.era.Keys
    && (fan.Exited? ==> w.closed && w.queue == [])
  }

  predicate RoutedTo(w: Wire, id: nat, r: nat) { id in w.routed && w.routed[id] == r }

  /** Where a notice of run `r` may be while the run is open, and must be once it is flushed. */
  ghost predicate PlacedIn(s: Session, id: nat, r: nat) {
    && r in s.runs.phases && !s.runs.phases[r].Locked?
    && (Open(s.runs.phases[r]) ==> id in s.wire.queue || InHand(s.fan, id) || RoutedTo(s.wire, id, r))
    && (Settled(s.runs.phases[r]) ==> RoutedTo(s.wire, id, r))
    && (Open(s.runs.phases[r]) && s.fan.Loaded? && s.fan.id == id ==> s.fan.target == Some(r))
  }

  ghost predicate AllPlaced(s: Session) {
    forall id :: id in s.wire.era && s.wire.era[id].Some? ==> PlacedIn(s, id, s.wire.era[id].value)
  }

  ghost predicate Serialized(s: Session) {
    LockHeld(s.runs) && ActiveMatches(s.runs) && FlushMatches(s.runs, s.fan)
  }

  ghost predicate Inv(s: Session) {
    && Serialized(s) && ReleasedOnce(s.runs)
    && Unique(s.wire, s.fan) && AllPlaced(s)
  }

  /** The run a step is about. */
  function Subject(s: Session, step: Step): Option<nat> {
    match step
    case Lock(r) => Some(r)
    case Publish(r) => Some(r)
    case DriverStarts(r) => Some(r)
    case DriverFails(r) => Some(r)
    case FailUnlock(r) => Some(r)
    case BeginFinish(r) => Some(r)
    case AcceptFlush(r) => Some(r)
    case SkipFlush(r) => Some(r)
    case Clear(r) => Some(r)
    case Unlock(r) => Some(r)
    case CloseNotices(r) => Some(r)
    case DrainEnd => if s.fan.Draining? then Some(s.fan.run) else None
    case _ => None
  }

  predicate RunAt(s: Session, r: nat) {
    LockAt(s.runs, r) && ActiveAt(s.runs, r) && FlushAt(s.runs, s.fan, r) && ReleasedAt(s.runs, r)
  }

  lemma AtRun(s: Session, r: nat)
    requires Serialized(s)
    ensures LockAt(s.runs, r) && ActiveAt(s.runs, r) && FlushAt(s.runs, s.fan, r)
  {
  }

  lemma StepKeepsLockAt(s: Session, step: Step, r: nat)
    requires RunAt(s, r) && Enabled(s, step)
    requires Subject(s, step).Some? ==> RunAt(s, Subject(s, step).value)
    ensures LockAt(RunsAfter(s, step), r) && ReleasedAt(RunsAfter(s, step), r)
  {
  }

  lemma StepKeepsActiveAt(s: Session, step: Step, r: nat)
    requires RunAt(s, r) && Enabled(s, step)
    requires Subject(s, step).Some? ==> RunAt(s, Subject(s, step).value)
    ensures ActiveAt(RunsAfter(s, step), r)
  {
  }

  lemma StepKeepsFlushAt(s: Session, step: Step, r: nat)
    requires FlushAt(s.runs, s.fan, r) && Enabled(s, step)
    ensures FlushAt(RunsAfter(s, step), FanAfter(s, step), r)
  {
  }

  lemma StepSerializes(s: Session, step: Step)
    requires Serialized(s) && ReleasedOnce(s.runs) && Enabled(s, step)
    ensures Serialized(After(s, step)) && ReleasedOnce(RunsAfter(s, step))
  {
    hide LockAt, ActiveAt, FlushAt, ReleasedAt, RunsAfter, FanAfter;
    var t := After(s, step);
    var actor := if Subject(s, step).Some? then Subject(s, step).value else 0;
    assert LockAt(s.runs, actor) && ActiveAt(s.runs, actor) && FlushAt(s.runs, s.fan, actor) && ReleasedAt(s.runs, actor);
    forall r: nat
      ensures LockAt(t.runs, r) && ActiveAt(t.runs, r) && FlushAt(t.runs, t.fan, r) && ReleasedAt(t.runs, r)
    {
      assert LockAt(s.runs, r) && ActiveAt(s.runs, r) && FlushAt(s.runs, s.fan, r) && ReleasedAt(s.runs, r);
      StepKeepsLockAt(s, step, r);
      StepKeepsActiveAt(s, step, r);
      StepKeepsFlushAt(s, step, r);
    }
  }

  lemma StepKeepsUnique(s: Session, step: Step)
    requires Unique(s.wire, s.fan) && Enabled(s, step)
    ensures Unique(WireAfter(s, step), FanAfter(s, step))
  {
  }

  lemma NewNoticeIsPlaced(s: Session, id: nat)
    requires Serialized(s) && Enabled(s, Emit(id)) && Era(s.runs).Some? && Unique(s.wire, s.fan)
    ensures PlacedIn(After(s, Emit(id)), id, Era(s.runs).value)
  {
    AtRun(s, Era(s.runs).value);
    assert (s.wire.queue + [id])[|s.wire.queue|] == id;
  }

  /** Moving notices keeps each of them where it may be. */
  lemma MovePlaces(s: Session, step: Step, id: nat, r: nat)
    requires Serialized(s) && Unique(s.wire, s.fan) && Enabled(s, step) && MovesNotices(step)
    requires id in s.wire.era && s.wire.era[id] == Some(r) && PlacedIn(s, id, r)
    ensures PlacedIn(After(s, step), id, r)
  {
    AtRun(s, r);
    if s.fan.Draining? {
      AtRun(s, s.fan.run);
    }
    var queue := s.wire.queue;
    if id in queue && queue != [] && id != queue[0] {
      var k :| 0 <= k < |queue| && queue[k] == id;
      assert queue[1..][k - 1] == id;
    }
    if id in queue && step.Emit? {
      var k :| 0 <= k < |queue| && queue[k] == id;
      assert (queue + [step.id])[k] == id;
    }
  }

  predicate MovesNotices(step: Step) {
    step.Emit? || step.Take? || step.Load? || step.Route? || step.DrainOne? || step.CloseQueue? || step.Exit?
  }

  /** So do the steps of the runs. */
  lemma PhasePlaces(s: Session, step: Step, id: nat, r: nat)
    requires Serialized(s) && Unique(s.wire, s.fan) && Enabled(s, step) && !MovesNotices(step)
    requires id in s.wire.era && s.wire.era[id] == Some(r) && PlacedIn(s, id, r)
    ensures PlacedIn(After(s, step), id, r)
  {
    hide LockHeld, ActiveMatches, FlushMatches;
    AtRun(s, r);
    if Subject(s, step).Some? {
      AtRun(s, Subject(s, step).value);
    }
    assert WireAfter(s, step) == s.wire;
  }

  lemma StepPlaces(s: Session, step: Step)
    requires Serialized(s) && Unique(s.wire, s.fan) && AllPlaced(s) && Enabled(s, step)
    ensures AllPlaced(After(s, step))
  {
    var era := WireAfter(s, step).era;
    forall id | id in era && era[id].Some? ensures PlacedIn(After(s, step), id, era[id].value) {
      if id !in s.wire.era {
        NewNoticeIsPlaced(s, id);
      } else if MovesNotices(step) {
        MovePlaces(s, step, id, era[id].value);
      } else {
        PhasePlaces(s, step, id, era[id].value);
      }
    }
  }

  lemma StepKeepsInv(s: Session, step: Step)
    requires Inv(s) && Enabled(s, step)
    ensures Inv(After(s, step))
  {
    StepSerializes(s, step);
    StepKeepsUnique(s, step);
    StepPlaces(s, step);
  }

  lemma {:induction false} RunKeepsInv(s: Session, steps: seq<Step>)
    requires Inv(s) && Lawful(s, steps)
    ensures Inv(Run(s, steps))
    decreases |steps|
  {
    if steps != [] {
      StepKeepsInv(s, steps[0]);
      RunKeepsInv(After(s, steps[0]), steps[1..]);
    }
  }

  lemma NewIsValid()
    ensures Inv(NEW)
  {
  }

  // ---------------------------------------------------------------------------------------------
  // What the session promises

  /** Over every interleaving: once a run is flushed, every notice that was emitted while it was active and
      not yet flushed has been routed to it. */
  lemma FlushedNoticesArrive(steps: seq<Step>, id: nat, r: nat)
    requires Lawful(NEW, steps)
    requires var s := Run(NEW, steps);
      id in s.wire.era && s.wire.era[id] == Some(r) && r in s.runs.phases && Settled(s.runs.phases[r])
    ensures RoutedTo(Run(NEW, steps).wire, id, r)
  {
    NewIsValid();
    RunKeepsInv(NEW, steps);
    assert PlacedIn(Run(NEW, steps), id, r);
  }

  lemma StepKeepsRouted(s: Session, step: Step, id: nat, r: nat)
    requires Unique(s.wire, s.fan) && Enabled(s, step) && RoutedTo(s.wire, id, r)
    ensures RoutedTo(WireAfter(s, step), id, r)
  {
  }

  /** A routed notice is never routed again, so it reaches no later run. */
  lemma {:induction false} RoutedOnce(s: Session, steps: seq<Step>, id: nat, r: nat)
    requires Inv(s) && Lawful(s, steps) && RoutedTo(s.wire, id, r)
    ensures RoutedTo(Run(s, steps).wire, id, r)
    decreases |steps|
  {
    if steps != [] {
      StepKeepsRouted(s, steps[0], id, r);
      StepKeepsInv(s, steps[0]);
      RoutedOnce(After(s, steps[0]), steps[1..], id, r);
    }
  }

  /** At most one run is between its Lock and its Unlock, and a run past it has released the lock once. */
  lemma OneRunAtATime(steps: seq<Step>, p: nat, r: nat)
    requires Lawful(NEW, steps)
    requires var q := Run(NEW, steps).runs; p in q.phases && r in q.phases && Holds(q.phases[p])
    ensures var q := Run(NEW, steps).runs;
      (Holds(q.phases[r]) ==> p == r) && Releases(q, r) == if Holds(q.phases[r]) then 0 else 1
  {
    NewIsValid();
    RunKeepsInv(NEW, steps);
    var q := Run(NEW, steps).runs;
    assert LockAt(q, p) && LockAt(q, r) && ReleasedAt(q, r);
  }

  /** A finishing run never waits for nothing: the fan-out can take a step, or the flush can be skipped. */
  lemma FlushNeverBlocks(s: Session, r: nat) returns (step: Step)
    requires Inv(s) && (In(s.runs, r, Finishing) || In(s.runs, r, Flushing))
    ensures Enabled(s, step)
    ensures step in {Load, Route, DrainOne, DrainEnd, AcceptFlush(r), SkipFlush(r)}
  {
    AtRun(s, r);
    if s.fan.Draining? {
      AtRun(s, s.fan.run);
    }
    match s.fan
    case Idle => step := AcceptFlush(r);
    case Got(_) => step := Load;
    case Loaded(_, _) => step := Route;
    case Exited => step := SkipFlush(r);
    case Draining(_) => step := if s.wire.queue == [] then DrainEnd else DrainOne;
  }

  /** A notice emitted while a run is active and not yet flushed is that run's, over every continuation: once the
      run is flushed the notice has been routed to it, and to it alone. */
  lemma EmittedIsRouted(s: Session, id: nat, steps: seq<Step>, r: nat)
    requires Inv(s) && Enabled(s, Emit(id)) && r in s.runs.phases && Open(s.runs.phases[r])
    requires Lawful(After(s, Emit(id)), steps)
    ensures var t := Run(After(s, Emit(id)), steps);
      r in t.runs.phases && (Settled(t.runs.phases[r]) ==> RoutedTo(t.wire, id, r))
  {
    hide Inv, Enabled, After;
    BelongsToActive(s, id, r);
    StepKeepsInv(s, Emit(id));
    EraStays(After(s, Emit(id)), steps, id);
    RunKeepsInv(After(s, Emit(id)), steps);
    PlacedAtEnd(Run(After(s, Emit(id)), steps), id, r);
  }

  lemma BelongsToActive(s: Session, id: nat, r: nat)
    requires Inv(s) && r in s.runs.phases && Open(s.runs.phases[r])
    ensures var w := After(s, Emit(id)).wire; id in w.era && w.era[id] == Some(r)
  {
    hide AllPlaced, Unique;
    AtRun(s, r);
  }

  lemma PlacedAtEnd(t: Session, id: nat, r: nat)
    requires Inv(t) && id in t.wire.era && t.wire.era[id] == Some(r)
    ensures r in t.runs.phases && (Settled(t.runs.phases[r]) ==> RoutedTo(t.wire, id, r))
  {
    assert PlacedIn(t, id, r);
  }

  lemma {:induction false} EraStays(s: Session, steps: seq<Step>, id: nat)
    requires Lawful(s, steps) && id in s.wire.era
    ensures var w := Run(s, steps).wire; id in w.era && w.era[id] == s.wire.era[id]
    decreases |steps|
  {
    if steps != [] {
      EraStays(After(s, steps[0]), steps[1..], id);
    }
  }

  /** The notice the fan-out has taken goes to the run that is active when it looks, and is dropped when there is
      none. */
  lemma TakenIsRouted(s: Session)
    requires Inv(s) && s.fan.Got?
    ensures var steps := [Load, Route];
      && Lawful(s, steps)
      && (if s.runs.active.Some? then RoutedTo(Run(s, steps).wire, s.fan.id, s.runs.active.value)
          else s.fan.id !in Run(s, steps).wire.routed)
      && Run(s, steps).fan.Idle? && Run(s, steps).wire.queue == s.wire.queue
  {
    var t := After(s, Load);
    assert [Load, Route][1..] == [Route] && [Route][1..] == [];
    assert Run(s, [Load, Route]) == Run(t, [Route]);
  }
}
