/** The debounced store of pkg/common/app_state_store.go. Every critical section and every I/O step is one
    step; steps of any number of goroutines interleave freely. The state's content is represented by the
    number of mutations made to it, and a write by the version it was copied from. */
module AppStateStore {
  import opened Common

  /** A background ticket is first armed, then its callback waits for the write lock; a direct Save
      starts waiting. With the lock held it copies the state, publishes the copy, and reports. */
  datatype Phase = Armed | Waiting | Writing | Copied(version: nat) | Published(version: nat, ok: bool)

  datatype Job = Job(direct: bool, phase: Phase)

  datatype Closing = Running | Flagged | Draining | Returned

  /** Tickets and direct Saves under way, the armed or fired ticket the store remembers, the two counters,
      and who holds the write lock. */
  datatype Writers = Writers(jobs: map<nat, Job>, nextJob: nat, timer: Option<nat>, pending: int, saving: int,
                             holder: Option<nat>)

  /** The number of mutations made, the version on disk, and whether lastSaveErr is set. */
  datatype Content = Content(version: nat, disk: nat, failed: bool)

  /** `mutating`: a MutateAndSave holds the state lock, past its check. `dropped`: Close has stopped a timer
      that was still armed. */
  datatype Gate = Gate(mutating: bool, closing: Closing, dropped: bool)

  datatype Store = Store(w: Writers, c: Content, g: Gate)

  const NEW := Store(Writers(map[], 0, None, 0, 0, None), Content(0, 0, false), Gate(false, Running, false))

  datatype Step =
    | BeginMutation
    | EndMutation
    | Fire(job: nat)
    | AdmitSave
    | Acquire(job: nat)
    | Copy(job: nat)
    | Publish(job: nat, ok: bool)
    | Finish(job: nat)
    | Release
    | FlagClosed
    | StopTimer
    | CloseReturns

  predicate At(w: Writers, id: nat, phase: Phase) { id in w.jobs && w.jobs[id].phase == phase }

  predicate Enabled(s: Store, step: Step) {
    var w, g := s.w, s.g;
    match step
    case BeginMutation => !g.mutating
    case EndMutation => g.mutating
    case Fire(id) => At(w, id, Armed)
    case AdmitSave => !g.mutating
    case Acquire(id) => At(w, id, Waiting) && w.holder.None?
    case Copy(id) => At(w, id, Writing) && !g.mutating
    case Publish(id, _) => id in w.jobs && w.jobs[id].phase.Copied?
    case Finish(id) => id in w.jobs && w.jobs[id].phase.Published? && !g.mutating
    case Release => w.holder.Some? && w.holder.value !in w.jobs
    case FlagClosed => g.closing.Running?
    case StopTimer => g.closing.Flagged? && !g.mutating
    case CloseReturns => g.closing.Draining? && !g.mutating && w.pending <= 0 && w.saving <= 0
  }

  function Moved(w: Writers, id: nat, phase: Phase): Writers
    requires id in w.jobs
  {
    w.(jobs := w.jobs[id := w.jobs[id].(phase := phase)])
  }

  predicate TimerIsArmed(w: Writers) { w.timer.Some? && At(w, w.timer.value, Armed) }

  /** timer.Stop() with its bookkeeping: only a timer that has not fired is stopped. */
  function TimerStopped(w: Writers): Writers {
    if TimerIsArmed(w) then w.(jobs := w.jobs - {w.timer.value}, pending := w.pending - 1) else w
  }

  function Scheduled(w: Writers): Writers {
    w.(jobs := w.jobs[w.nextJob := Job(false, Armed)], timer := Some(w.nextJob), nextJob := w.nextJob + 1,
       pending := w.pending + 1)
  }

  function Finished(w: Writers, id: nat): Writers
    requires id in w.jobs
  {
    var t := w.(jobs := w.jobs - {id});
    if w.jobs[id].direct then t.(saving := w.saving - 1)
    else t.(pending := w.pending - 1, timer := if w.timer == Some(id) then None else w.timer)
  }

  function WritersAfter(s: Store, step: Step): Writers
    requires Enabled(s, step)
  {
    var w := s.w;
    match step
    case EndMutation => Scheduled(TimerStopped(w))
    case Fire(id) => Moved(w, id, Waiting)
    case AdmitSave =>
      w.(jobs := w.jobs[w.nextJob := Job(true, Waiting)], nextJob := w.nextJob + 1, saving := w.saving + 1)
    case Acquire(id) => Moved(w, id, Writing).(holder := Some(id))
    case Copy(id) => Moved(w, id, Copied(s.c.version))
    case Publish(id, ok) => Moved(w, id, Published(w.jobs[id].phase.version, ok))
    case Finish(id) => Finished(w, id)
    case Release => w.(holder := None)
    case StopTimer => TimerStopped(w).(timer := None)
    case _ => w
  }

  function ContentAfter(s: Store, step: Step): Content
    requires Enabled(s, step)
  {
    var c := s.c;
    match step
    case BeginMutation => if s.g.closing.Running? then c else c.(failed := true)
    case EndMutation => c.(version := c.version + 1)
    case Publish(id, ok) => if ok then c.(disk := s.w.jobs[id].phase.version) else c
    case Finish(id) => if s.w.jobs[id].direct then c else c.(failed := !s.w.jobs[id].phase.ok)
    case _ => c
  }

  function GateAfter(s: Store, step: Step): Gate
    requires Enabled(s, step)
  {
    var g := s.g;
    match step
    case BeginMutation => g.(mutating := g.closing.Running?)
    case EndMutation => g.(mutating := false)
    case FlagClosed => g.(closing := Flagged)
    case StopTimer => g.(closing := Draining, dropped := g.dropped || TimerIsArmed(s.w))
    case CloseReturns => g.(closing := Returned)
    case _ => g
  }

  function After(s: Store, step: Step): Store
    requires Enabled(s, step)
  {
    Store(WritersAfter(s, step), ContentAfter(s, step), GateAfter(s, step))
  }

  predicate Lawful(s: Store, steps: seq<Step>)
    decreases |steps|
  {
    steps == [] || (Enabled(s, steps[0]) && Lawful(After(s, steps[0]), steps[1..]))
  }

  function Run(s: Store, steps: seq<Step>): Store
    requires Lawful(s, steps)
    decreases |steps|
  {
    if steps == [] then s else Run(After(s, steps[0]), steps[1..])
  }

  // ---------------------------------------------------------------------------------------------
  // The invariant

  function Kind(jobs: map<nat, Job>, direct: bool): set<nat> {
    set id | id in jobs && jobs[id].direct == direct
  }

  /** The two counters count what they should: `pending` the armed and the fired, unfinished tickets. */
  ghost predicate Counted(w: Writers) {
    w.pending == |Kind(w.jobs, false)| && w.saving == |Kind(w.jobs, true)|
  }

  /** At most one ticket is armed, the one `timer` names. */
  ghost predicate OneArmed(w: Writers) {
    && (w.timer.Some? ==> w.timer.value in w.jobs && !w.jobs[w.timer.value].direct)
    && (forall id :: id in w.jobs ==> id < w.nextJob)
    && (forall id :: id in w.jobs && w.jobs[id].phase.Armed? ==> w.timer == Some(id))
  }

  /** Only the holder of the write lock is past waiting. */
  ghost predicate OneWriter(w: Writers) {
    && (w.holder.Some? ==> w.holder.value < w.nextJob)
    && (forall id :: id in w.jobs ==>
          (w.holder == Some(id) <==> !w.jobs[id].phase.Armed? && !w.jobs[id].phase.Waiting?))
  }

  /** A copy is never older than the disk nor newer than the state; a published one is the disk. */
  predicate Consistent(phase: Phase, c: Content) {
    match phase
    case Copied(v) => c.disk <= v <= c.version
    case Published(v, ok) => v <= c.version && (ok ==> c.disk == v)
    case _ => true
  }

  ghost predicate Ordered(w: Writers, c: Content) {
    c.disk <= c.version && forall id :: id in w.jobs ==> Consistent(w.jobs[id].phase, c)
  }

  predicate Ahead(w: Writers, id: nat) {
    id in w.jobs && !w.jobs[id].direct && (w.jobs[id].phase.Armed? || w.jobs[id].phase.Waiting? || w.jobs[id].phase.Writing?)
  }

  predicate HasCopy(w: Writers, id: nat) { id in w.jobs && (w.jobs[id].phase.Copied? || w.jobs[id].phase.Published?) }

  predicate Covers(w: Writers, version: nat, id: nat) {
    Ahead(w, id) || (HasCopy(w, id) && !w.jobs[id].direct && w.jobs[id].phase.version == version)
  }

  predicate Stale(w: Writers, version: nat, id: nat) { HasCopy(w, id) && w.jobs[id].phase.version < version }

  /** A copy that later mutations have overtaken leaves a ticket that will copy again. */
  ghost predicate Followed(s: Store) {
    s.g.dropped || forall id :: Stale(s.w, s.c.version, id) ==> exists u :: Ahead(s.w, u)
  }

  predicate Durable(s: Store) { s.c.disk == s.c.version }

  /** What is not on disk is covered by a ticket, reported as an error, or dropped by Close. */
  ghost predicate Accounted(s: Store) {
    s.g.dropped || s.c.failed || Durable(s) || exists id :: Covers(s.w, s.c.version, id)
  }

  ghost predicate Closes(s: Store) {
    && (s.g.dropped ==> s.g.closing.Draining? || s.g.closing.Returned?)
    && (s.g.closing.Draining? || s.g.closing.Returned? ==> s.w.timer.None? && !s.g.mutating)
    && (s.g.closing.Returned? ==> s.w.pending == 0)
  }

  ghost predicate Inv(s: Store) {
    && Counted(s.w) && OneArmed(s.w) && OneWriter(s.w) && Ordered(s.w, s.c)
    && Followed(s) && Accounted(s) && Closes(s)
  }

  // ---------------------------------------------------------------------------------------------
  // Every step keeps it

  lemma KindAdded(jobs: map<nat, Job>, id: nat, job: Job, direct: bool)
    requires id !in jobs
    ensures Kind(jobs[id := job], direct) == Kind(jobs, direct) + if job.direct == direct then {id} else {}
  {
  }

  lemma KindMoved(jobs: map<nat, Job>, id: nat, phase: Phase, direct: bool)
    requires id in jobs
    ensures Kind(jobs[id := jobs[id].(phase := phase)], direct) == Kind(jobs, direct)
  {
  }

  lemma KindRemoved(jobs: map<nat, Job>, id: nat, direct: bool)
    requires id in jobs
    ensures Kind(jobs - {id}, direct) == Kind(jobs, direct) - {id}
    ensures id in Kind(jobs, direct) <==> jobs[id].direct == direct
  {
  }

  lemma MovedCounts(w: Writers, id: nat, phase: Phase)
    requires id in w.jobs && Counted(w)
    ensures Counted(Moved(w, id, phase))
  {
    KindMoved(w.jobs, id, phase, false);
    KindMoved(w.jobs, id, phase, true);
  }

  lemma StoppedCounts(w: Writers)
    requires Counted(w) && OneArmed(w)
    ensures Counted(TimerStopped(w))
  {
    if w.timer.Some? {
      KindRemoved(w.jobs, w.timer.value, false);
      KindRemoved(w.jobs, w.timer.value, true);
    }
  }

  lemma AddedCounts(w: Writers, id: nat, job: Job)
    requires Counted(w) && id !in w.jobs
    ensures |Kind(w.jobs[id := job], false)| == w.pending + if job.direct then 0 else 1
    ensures |Kind(w.jobs[id := job], true)| == w.saving + if job.direct then 1 else 0
  {
    KindAdded(w.jobs, id, job, false);
    KindAdded(w.jobs, id, job, true);
  }

  lemma FinishCounts(w: Writers, id: nat)
    requires Counted(w) && id in w.jobs
    ensures Counted(Finished(w, id))
  {
    KindRemoved(w.jobs, id, false);
    KindRemoved(w.jobs, id, true);
  }

  lemma StepCounts(s: Store, step: Step)
    requires Counted(s.w) && OneArmed(s.w) && Enabled(s, step)
    ensures Counted(WritersAfter(s, step))
  {
    match step
    case EndMutation =>
      StoppedCounts(s.w);
      AddedCounts(TimerStopped(s.w), s.w.nextJob, Job(false, Armed));
    case StopTimer => StoppedCounts(s.w);
    case AdmitSave => AddedCounts(s.w, s.w.nextJob, Job(true, Waiting));
    case Finish(id) => FinishCounts(s.w, id);
    case Fire(id) => MovedCounts(s.w, id, Waiting);
    case Acquire(id) => MovedCounts(s.w, id, Writing);
    case Copy(id) => MovedCounts(s.w, id, Copied(s.c.version));
    case Publish(id, ok) => MovedCounts(s.w, id, Published(s.w.jobs[id].phase.version, ok));
    case _ =>
  }

  lemma StepKeepsOneArmed(s: Store, step: Step)
    requires OneArmed(s.w) && Enabled(s, step)
    ensures OneArmed(WritersAfter(s, step))
  {
  }

  lemma StepKeepsOneWriter(s: Store, step: Step)
    requires OneArmed(s.w) && OneWriter(s.w) && Enabled(s, step)
    ensures OneWriter(WritersAfter(s, step))
  {
  }

  lemma StepKeepsOrder(s: Store, step: Step)
    requires OneWriter(s.w) && Ordered(s.w, s.c) && Enabled(s, step)
    ensures Ordered(WritersAfter(s, step), ContentAfter(s, step))
  {
  }

  /** No write moves the disk backwards: the copy was made under the write lock. */
  lemma StepAdvances(s: Store, step: Step)
    requires Ordered(s.w, s.c) && Enabled(s, step)
    ensures s.c.disk <= ContentAfter(s, step).disk && s.c.version <= ContentAfter(s, step).version
  {
  }

  lemma StaleBefore(s: Store, step: Step, id: nat)
    requires Enabled(s, step) && !step.EndMutation? && Stale(WritersAfter(s, step), s.c.version, id)
    ensures Stale(s.w, s.c.version, id)
  {
  }

  lemma StillAhead(s: Store, step: Step, stale: nat, u: nat)
    requires OneArmed(s.w) && OneWriter(s.w) && Enabled(s, step) && !step.EndMutation?
    requires Stale(s.w, s.c.version, stale) && Ahead(s.w, u) && Stale(WritersAfter(s, step), s.c.version, stale)
    ensures GateAfter(s, step).dropped || Ahead(WritersAfter(s, step), u)
  {
  }

  lemma StepFollows(s: Store, step: Step)
    requires OneArmed(s.w) && OneWriter(s.w) && Followed(s) && Enabled(s, step)
    ensures Followed(After(s, step))
  {
    hide OneArmed, OneWriter, Stale;
    var t := After(s, step);
    if step.EndMutation? {
      assert Ahead(t.w, s.w.nextJob);
    } else {
      forall id | Stale(t.w, t.c.version, id) ensures t.g.dropped || exists u :: Ahead(t.w, u) {
        StaleBefore(s, step, id);
        if !s.g.dropped {
          var u :| Ahead(s.w, u);
          StillAhead(s, step, id, u);
        }
      }
    }
  }

  lemma StillCovers(s: Store, step: Step, u: nat)
    requires OneArmed(s.w) && OneWriter(s.w) && Ordered(s.w, s.c) && Enabled(s, step) && !step.EndMutation?
    requires Covers(s.w, s.c.version, u)
    ensures var t := After(s, step); t.g.dropped || t.c.failed || Durable(t) || Covers(t.w, t.c.version, u)
  {
  }

  /** A report that clears an error comes from a copy of the current state, or another ticket follows. */
  lemma ErrorIsOverwritten(s: Store, id: nat)
    requires Ordered(s.w, s.c) && Followed(s) && Enabled(s, Finish(id)) && !s.w.jobs[id].direct
    ensures s.g.dropped || !s.w.jobs[id].phase.ok || Durable(s) || exists u :: Covers(s.w, s.c.version, u)
  {
    if s.w.jobs[id].phase.version < s.c.version {
      assert Stale(s.w, s.c.version, id);
      if !s.g.dropped {
        var u :| Ahead(s.w, u);
        assert Covers(s.w, s.c.version, u);
      }
    }
  }

  lemma DurableStays(s: Store, step: Step)
    requires Ordered(s.w, s.c) && Enabled(s, step) && !step.EndMutation? && Durable(s)
    ensures Durable(After(s, step))
  {
  }

  lemma StepAccounts(s: Store, step: Step)
    requires OneArmed(s.w) && OneWriter(s.w) && Ordered(s.w, s.c) && Followed(s) && Accounted(s) && Enabled(s, step)
    ensures Accounted(After(s, step))
  {
    hide OneArmed, OneWriter, Ordered, Followed;
    var t := After(s, step);
    if step.EndMutation? {
      assert Covers(t.w, t.c.version, s.w.nextJob);
    } else {
      if step.Finish? && !s.w.jobs[step.job].direct {
        ErrorIsOverwritten(s, step.job);
      }
      if Durable(s) {
        DurableStays(s, step);
      } else if u :| Covers(s.w, s.c.version, u) {
        StillCovers(s, step, u);
      }
    }
  }

  lemma StepCloses(s: Store, step: Step)
    requires Counted(s.w) && OneArmed(s.w) && Closes(s) && Enabled(s, step)
    ensures Closes(After(s, step))
  {
    hide Kind;
    if step.Finish? {
      TicketIsPending(s.w, step.job);
    }
  }

  /** A live ticket is counted as pending. */
  lemma TicketIsPending(w: Writers, id: nat)
    requires Counted(w) && id in w.jobs
    ensures !w.jobs[id].direct ==> w.pending > 0
    ensures w.pending + w.saving > 0
  {
    assert id in Kind(w.jobs, w.jobs[id].direct);
  }

  lemma StepKeepsInv(s: Store, step: Step)
    requires Inv(s) && Enabled(s, step)
    ensures Inv(After(s, step))
  {
    StepCounts(s, step);
    StepKeepsOneArmed(s, step);
    StepKeepsOneWriter(s, step);
    StepKeepsOrder(s, step);
    StepFollows(s, step);
    StepAccounts(s, step);
    StepCloses(s, step);
  }

  lemma {:induction false} RunKeepsInv(s: Store, steps: seq<Step>)
    requires Inv(s) && Lawful(s, steps)
    ensures Inv(Run(s, steps))
    decreases |steps|
  {
    if steps != [] {
      StepKeepsInv(s, steps[0]);
      RunKeepsInv(After(s, steps[0]), steps[1..]);
    }
  }

  lemma NewIsValid()
    ensures Inv(NEW)
  {
  }

  // ---------------------------------------------------------------------------------------------
  // What the store promises

  ghost predicate Reachable(s: Store) { exists steps :: Lawful(NEW, steps) && Run(NEW, steps) == s }

  lemma ReachableIsValid(s: Store)
    requires Reachable(s)
    ensures Inv(s)
  {
    var steps :| Lawful(NEW, steps) && Run(NEW, steps) == s;
    NewIsValid();
    RunKeepsInv(NEW, steps);
  }

  /** Flush may return when nothing is pending or saving; it returns nil when lastSaveErr is nil. */
  predicate FlushReturnsNil(s: Store) { !s.g.mutating && s.w.pending <= 0 && s.w.saving <= 0 && !s.c.failed }

  lemma CoverIsPending(w: Writers, version: nat)
    requires Counted(w)
    ensures (exists id :: Covers(w, version, id)) ==> w.pending > 0
  {
    if id :| Covers(w, version, id) {
      TicketIsPending(w, id);
    }
  }

  /** A nil Flush, after any run of any goroutines, leaves every mutation made so far on disk, unless Close
      has dropped an armed timer; before Close takes the lock nothing is dropped. */
  lemma FlushIsDurable(s: Store)
    requires Reachable(s) && FlushReturnsNil(s)
    ensures s.g.dropped || Durable(s)
    ensures s.g.closing.Running? || s.g.closing.Flagged? ==> Durable(s)
  {
    ReachableIsValid(s);
    CoverIsPending(s.w, s.c.version);
  }

  lemma {:induction false} RunSnoc(s: Store, steps: seq<Step>, step: Step)
    requires Lawful(s, steps) && Enabled(Run(s, steps), step)
    ensures Lawful(s, steps + [step]) && Run(s, steps + [step]) == After(Run(s, steps), step)
    decreases |steps|
  {
    hide Enabled, After;
    if steps == [] {
      assert [step][1..] == [] && steps + [step] == [step];
    } else {
      RunSnoc(After(s, steps[0]), steps[1..], step);
      assert (steps + [step])[1..] == steps[1..] + [step];
    }
  }

  lemma StepIsReachable(s: Store, step: Step)
    requires Reachable(s) && Enabled(s, step)
    ensures Reachable(After(s, step))
  {
    hide Enabled, After;
    var steps :| Lawful(NEW, steps) && Run(NEW, steps) == s;
    RunSnoc(NEW, steps, step);
  }

  lemma NewIsReachable()
    ensures Reachable(NEW)
  {
    assert Lawful(NEW, []) && Run(NEW, []) == NEW;
  }

  /** With Close the promise can fail: a mutation whose timer Close stops is lost without an error, from Flush or
      from Close, which has returned with nothing left to write. */
  lemma CloseDropsAMutation() returns (s: Store)
    ensures Reachable(s) && FlushReturnsNil(s) && !Durable(s) && s.g.closing.Returned? && s.w.jobs == map[]
  {
    hide Reachable;
    NewIsReachable();
    StepIsReachable(NEW, BeginMutation);
    var a := After(NEW, BeginMutation);
    StepIsReachable(a, EndMutation);
    var b := After(a, EndMutation);
    assert TimerIsArmed(b.w);
    StepIsReachable(b, FlagClosed);
    var c := After(b, FlagClosed);
    StepIsReachable(c, StopTimer);
    var d := After(c, StopTimer);
    StepIsReachable(d, CloseReturns);
    s := After(d, CloseReturns);
  }

  // ---------------------------------------------------------------------------------------------
  // After Close has stopped the timer

  predicate Stopped(s: Store) { s.g.closing.Draining? || s.g.closing.Returned? }

  predicate WritesCurrent(s: Store, step: Step) {
    step.Publish? && step.ok && At(s.w, step.job, Copied(s.c.version))
  }

  /** The jobs that put the current version on disk in the course of a run. */
  function LateWriters(s: Store, steps: seq<Step>): set<nat>
    requires Lawful(s, steps)
    decreases |steps|
  {
    if steps == [] then {}
    else (if WritesCurrent(s, steps[0]) then {steps[0].job} else {}) + LateWriters(After(s, steps[0]), steps[1..])
  }

  /** A fired ticket or an admitted Save that has not copied the state yet, or has copied the current one. */
  predicate MayWrite(s: Store, id: nat) { At(s.w, id, Waiting) || At(s.w, id, Writing) || At(s.w, id, Copied(s.c.version)) }

  lemma StepAfterStop(s: Store, step: Step)
    requires Inv(s) && Stopped(s) && Enabled(s, step)
    ensures var t := After(s, step);
      && Stopped(t) && t.c.version == s.c.version && t.w.nextJob >= s.w.nextJob
      && (Durable(t) <==> Durable(s) || WritesCurrent(s, step))
  {
  }

  lemma NewWriter(s: Store, step: Step, id: nat)
    requires Inv(s) && Stopped(s) && Enabled(s, step) && MayWrite(After(s, step), id)
    ensures MayWrite(s, id) || (id == s.w.nextJob && step == AdmitSave)
  {
  }

  /** Once Close has stopped the timer nothing mutates, and whatever runs then, the last mutations are on disk
      at the end if and only if they were at the stop or some job wrote them since. Such a job had not yet
      taken its copy at the stop, or held a current one, or is a Save admitted later. */
  lemma {:induction false} LateWritersDecide(s: Store, steps: seq<Step>)
    requires Inv(s) && Stopped(s) && Lawful(s, steps)
    ensures Run(s, steps).c.version == s.c.version
    ensures Durable(Run(s, steps)) <==> Durable(s) || LateWriters(s, steps) != {}
    ensures forall id :: id in LateWriters(s, steps) ==> MayWrite(s, id) || (id >= s.w.nextJob && AdmitSave in steps)
    decreases |steps|
  {
    hide Inv, Enabled, After, MayWrite;
    if steps != [] {
      var t, rest := After(s, steps[0]), steps[1..];
      StepAfterStop(s, steps[0]);
      StepKeepsInv(s, steps[0]);
      LateWritersDecide(t, rest);
      forall id | id in LateWriters(s, steps)
        ensures MayWrite(s, id) || (id >= s.w.nextJob && AdmitSave in steps)
      {
        if WritesCurrent(s, steps[0]) && id == steps[0].job {
          CopyMayWrite(s, id);
        } else if MayWrite(t, id) {
          NewWriter(s, steps[0], id);
        }
      }
    }
  }

  lemma CopyMayWrite(s: Store, id: nat)
    requires At(s.w, id, Copied(s.c.version))
    ensures MayWrite(s, id)
  {
  }

  /** The next step towards the write of a job. */
  function Towards(s: Store, id: nat): Step {
    if At(s.w, id, Copied(s.c.version)) then Publish(id, true)
    else if At(s.w, id, Writing) then Copy(id)
    else if s.w.holder.None? then Acquire(id)
    else
      var h := s.w.holder.value;
      if h !in s.w.jobs then Release
      else
        match s.w.jobs[h].phase
        case Writing => Copy(h)
        case Copied(_) => Publish(h, false)
        case _ => Finish(h)
  }

  function Distance(s: Store, id: nat): nat {
    if At(s.w, id, Copied(s.c.version)) then 1
    else if At(s.w, id, Writing) then 2
    else if s.w.holder.None? then 3
    else
      var h := s.w.holder.value;
      if h !in s.w.jobs then 4
      else
        match s.w.jobs[h].phase
        case Writing => 7
        case Copied(_) => 6
        case _ => 5
  }

  lemma TowardsWrite(s: Store, id: nat)
    requires Inv(s) && Stopped(s) && MayWrite(s, id)
    ensures var step := Towards(s, id);
      Enabled(s, step) && step != AdmitSave
      && (WritesCurrent(s, step) || (MayWrite(After(s, step), id) && Distance(After(s, step), id) < Distance(s, id)))
  {
  }

  /** Each such job really can: without any later Save, some continuation has it write the mutations. */
  lemma {:induction false} LateWriteIsPossible(s: Store, id: nat) returns (steps: seq<Step>)
    requires Inv(s) && Stopped(s) && MayWrite(s, id)
    ensures Lawful(s, steps) && AdmitSave !in steps && Durable(Run(s, steps))
    decreases Distance(s, id)
  {
    hide Inv, Enabled, After, MayWrite, Towards, Distance;
    var step := Towards(s, id);
    TowardsWrite(s, id);
    var t := After(s, step);
    StepAfterStop(s, step);
    StepKeepsInv(s, step);
    if WritesCurrent(s, step) {
      steps := [step];
      assert steps[1..] == [];
    } else {
      var rest := LateWriteIsPossible(t, id);
      steps := [step] + rest;
      assert steps[1..] == rest;
    }
  }

  /** What Close loses. If no Save is admitted after it has stopped the timer, some continuation has the last
      mutations on disk if and only if they were there at the stop or a fired ticket or an earlier Save has yet
      to copy the state or publish a current copy; otherwise no continuation has. */
  lemma StoppedTimerDecides(s: Store)
    requires Inv(s) && Enabled(s, StopTimer)
    ensures var t := After(s, StopTimer);
      (exists steps :: Lawful(t, steps) && AdmitSave !in steps && Durable(Run(t, steps)))
      <==> Durable(s) || exists id :: MayWrite(t, id)
  {
    hide MayWrite;
    var t := After(s, StopTimer);
    StepKeepsInv(s, StopTimer);
    if steps :| Lawful(t, steps) && AdmitSave !in steps && Durable(Run(t, steps)) {
      LateWritersDecide(t, steps);
      if LateWriters(t, steps) != {} {
        var id :| id in LateWriters(t, steps);
        assert MayWrite(t, id);
      }
    }
    if Durable(s) {
      assert Lawful(t, []) && Run(t, []) == t;
    } else if id :| MayWrite(t, id) {
      var steps := LateWriteIsPossible(t, id);
    }
  }

  /** Over any run the disk only moves forward. */
  lemma {:induction false} DiskNeverMovesBack(s: Store, steps: seq<Step>)
    requires Inv(s) && Lawful(s, steps)
    ensures s.c.disk <= Run(s, steps).c.disk <= Run(s, steps).c.version
    decreases |steps|
  {
    if steps != [] {
      StepAdvances(s, steps[0]);
      StepKeepsInv(s, steps[0]);
      DiskNeverMovesBack(After(s, steps[0]), steps[1..]);
    }
  }

  /** When Close returns no admitted write is outstanding. */
  lemma CloseDrains(s: Store)
    requires Reachable(s) && Enabled(s, CloseReturns)
    ensures s.w.jobs == map[]
  {
    ReachableIsValid(s);
    NothingIsPending(s.w);
  }

  lemma NothingIsPending(w: Writers)
    requires Counted(w)
    ensures w.jobs == map[] || w.pending + w.saving > 0
  {
    if w.jobs != map[] {
      var id :| id in w.jobs;
      TicketIsPending(w, id);
    }
  }

  /** After Close has returned nothing mutates the state or arms a timer; only direct Saves still run. */
  lemma {:induction false} NothingAfterClose(s: Store, steps: seq<Step>)
    requires Inv(s) && s.g.closing.Returned? && Lawful(s, steps)
    ensures var t := Run(s, steps);
      t.g.closing.Returned? && t.c.version == s.c.version && t.w.pending == 0 && t.w.timer.None?
    decreases |steps|
  {
    if steps != [] {
      StepKeepsInv(s, steps[0]);
      NothingAfterClose(After(s, steps[0]), steps[1..]);
    }
  }
}
