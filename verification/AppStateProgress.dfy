/** What the store of pkg/common/app_state_store.go gets done: that a mutation is written and a nil Flush reports it,
    that a Save writes, and that Close returns, as long as the file system takes the writes. */
module AppStateProgress {
  import opened Common
  import opened AppStateStore

  /** Steps that only finish what has been started, with successful writes. */
  predicate Quiet(step: Step) {
    match step
    case Fire(_) => true
    case Acquire(_) => true
    case Copy(_) => true
    case Publish(_, ok) => ok
    case Finish(_) => true
    case Release => true
    case _ => false
  }

  /** The ticket that holds the lock will clear the error, or there is none to clear. */
  predicate Clearing(s: Store) {
    var h := s.w.holder;
    if h.Some? && h.value in s.w.jobs && !s.w.jobs[h.value].direct then
      match s.w.jobs[h.value].phase
      case Copied(_) => true
      case Published(_, ok) => ok
      case _ => !s.c.failed
    else !s.c.failed
  }

  /** No error will be left when everything has been written. */
  ghost predicate Promising(s: Store) { Clearing(s) || exists u :: Ahead(s.w, u) }

  /** What is left of the write under way, or of the way to the next one. */
  function Stage(w: Writers): nat {
    if w.holder.None? then if TimerIsArmed(w) then 5 else 4
    else if w.holder.value !in w.jobs then 6
    else
      match w.jobs[w.holder.value].phase
      case Writing => 3
      case Copied(_) => 2
      case _ => 1
  }

  lemma QuietStep(s: Store) returns (step: Step)
    requires Inv(s) && !s.g.mutating && s.w.jobs != map[]
    ensures Enabled(s, step) && Quiet(step)
    ensures var t := WritersAfter(s, step);
      |t.jobs| < |s.w.jobs| || (|t.jobs| == |s.w.jobs| && Stage(t) < Stage(s.w))
  {
    hide Counted, Ordered, Followed, Accounted, Closes;
    var w := s.w;
    if w.holder.None? {
      if TimerIsArmed(w) {
        step := Fire(w.timer.value);
        MovedIsAsLarge(w, w.timer.value, Waiting);
      } else {
        var id :| id in w.jobs;
        assert At(w, id, Waiting);
        step := Acquire(id);
        MovedIsAsLarge(w, id, Writing);
      }
    } else {
      var h := w.holder.value;
      if h !in w.jobs {
        step := Release;
      } else {
        match w.jobs[h].phase
        case Writing =>
          step := Copy(h);
          MovedIsAsLarge(w, h, Copied(s.c.version));
        case Copied(v) =>
          step := Publish(h, true);
          MovedIsAsLarge(w, h, Published(v, true));
        case Published(_, _) =>
          step := Finish(h);
          FewerJobs(w.jobs, h);
      }
    }
  }

  lemma MovedIsAsLarge(w: Writers, id: nat, phase: Phase)
    requires id in w.jobs
    ensures |Moved(w, id, phase).jobs| == |w.jobs|
  {
    assert Moved(w, id, phase).jobs.Keys == w.jobs.Keys;
    SizeIsOfKeys(w.jobs);
    SizeIsOfKeys(Moved(w, id, phase).jobs);
  }

  lemma SizeIsOfKeys(m: map<nat, Job>)
    ensures |m| == |m.Keys|
  {
  }

  lemma FewerJobs(m: map<nat, Job>, id: nat)
    requires id in m
    ensures |m - {id}| < |m|
  {
    assert (m - {id}).Keys == m.Keys - {id};
    SizeIsOfKeys(m);
    SizeIsOfKeys(m - {id});
  }

  lemma QuietKeepsPromise(s: Store, step: Step)
    requires Inv(s) && Promising(s) && Enabled(s, step) && Quiet(step)
    ensures Promising(After(s, step))
  {
    hide Counted, Ordered, Followed, Accounted, Closes;
    if !Clearing(s) {
      var u :| Ahead(s.w, u);
      AheadStays(s, step, u);
    }
  }

  lemma AheadStays(s: Store, step: Step, u: nat)
    requires OneWriter(s.w) && Ahead(s.w, u) && Enabled(s, step) && Quiet(step)
    ensures Ahead(WritersAfter(s, step), u) || Clearing(After(s, step))
  {
  }

  lemma QuietKeepsWriter(s: Store, step: Step, id: nat)
    requires Inv(s) && Enabled(s, step) && Quiet(step) && (MayWrite(s, id) || Durable(s))
    ensures MayWrite(After(s, step), id) || Durable(After(s, step))
  {
    hide Counted, Followed, Accounted, Closes;
  }

  /** Everything under way can be finished. No error is left if none was to be expected, and a job that was to
      write the current state has written it. */
  lemma {:induction false} Drains(s: Store) returns (steps: seq<Step>)
    requires Inv(s) && !s.g.mutating
    ensures Lawful(s, steps) && forall k :: 0 <= k < |steps| ==> Quiet(steps[k])
    ensures var t := Run(s, steps);
      && Inv(t) && t.w.jobs == map[] && t.g == s.g && t.c.version == s.c.version
      && (Promising(s) ==> !t.c.failed)
      && ((exists id :: MayWrite(s, id)) || Durable(s) ==> Durable(t))
    decreases |s.w.jobs|, Stage(s.w)
  {
    hide Enabled, After, Stage, MayWrite, Inv, Promising;
    if s.w.jobs == map[] {
      steps := [];
      NothingUnderWay(s);
    } else {
      var step := QuietStep(s);
      var t := After(s, step);
      assert t.w == WritersAfter(s, step) by { QuietChanges(s, step); }
      QuietChanges(s, step);
      StepKeepsInv(s, step);
      var rest := Drains(t);
      steps := [step] + rest;
      assert steps[1..] == rest;
      if Promising(s) {
        QuietKeepsPromise(s, step);
      }
      if Durable(s) {
        QuietKeepsWriter(s, step, 0);
      }
      if id :| MayWrite(s, id) {
        QuietKeepsWriter(s, step, id);
      }
    }
  }

  lemma QuietChanges(s: Store, step: Step)
    requires Enabled(s, step) && Quiet(step)
    ensures After(s, step).w == WritersAfter(s, step) && After(s, step).g == s.g && After(s, step).c.version == s.c.version
  {
  }

  lemma NothingUnderWay(s: Store)
    requires s.w.jobs == map[]
    ensures Promising(s) ==> !s.c.failed
    ensures forall id :: !MayWrite(s, id)
  {
  }

  /** With no job left, no error and nothing dropped by Close, a Flush returns nil, and truly. */
  lemma NothingLeftIsDurable(s: Store)
    requires Inv(s) && s.w.jobs == map[] && !s.g.mutating
    ensures s.w.pending == 0 && s.w.saving == 0
    ensures !s.c.failed ==> FlushReturnsNil(s) && (s.g.dropped || Durable(s))
  {
    assert Kind(s.w.jobs, false) == {} && Kind(s.w.jobs, true) == {};
  }

  /** A mutation is made and scheduled, whatever else is under way and whatever error is recorded: if the writes then
      succeed, it is on disk and Flush returns nil. */
  lemma MutationIsSaved(s: Store) returns (steps: seq<Step>)
    requires Inv(s) && !s.g.mutating && s.g.closing.Running?
    ensures Lawful(s, [BeginMutation, EndMutation] + steps) && forall k :: 0 <= k < |steps| ==> Quiet(steps[k])
    ensures var t := Run(s, [BeginMutation, EndMutation] + steps);
      t.c.version == s.c.version + 1 && Durable(t) && FlushReturnsNil(t)
  {
    hide Inv, Durable, FlushReturnsNil, Promising;
    var a := After(s, BeginMutation);
    StepKeepsInv(s, BeginMutation);
    var b := After(a, EndMutation);
    StepKeepsInv(a, EndMutation);
    NothingDropped(b);
    NewTicketIsAhead(a);
    steps := Drains(b);
    NothingLeftIsDurable(Run(b, steps));
    var all := [BeginMutation, EndMutation] + steps;
    assert all[1..] == [EndMutation] + steps && all[1..][1..] == steps;
  }

  lemma NothingDropped(s: Store)
    requires Inv(s) && s.g.closing.Running?
    ensures !s.g.dropped
  {
  }

  lemma NewTicketIsAhead(s: Store)
    requires Enabled(s, EndMutation)
    ensures Promising(After(s, EndMutation))
  {
    assert Ahead(After(s, EndMutation).w, s.w.nextJob);
  }

  /** A Save, before or after Close: if the writes succeed, the state is on disk. */
  lemma SaveIsWritten(s: Store) returns (steps: seq<Step>)
    requires Inv(s) && !s.g.mutating
    ensures Lawful(s, [AdmitSave] + steps) && forall k :: 0 <= k < |steps| ==> Quiet(steps[k])
    ensures var t := Run(s, [AdmitSave] + steps);
      t.c.version == s.c.version && Durable(t) && t.w.saving == 0
  {
    hide Inv, Durable;
    var a := After(s, AdmitSave);
    StepKeepsInv(s, AdmitSave);
    assert MayWrite(a, s.w.nextJob);
    steps := Drains(a);
    NothingLeftIsDurable(Run(a, steps));
    assert ([AdmitSave] + steps)[1..] == steps;
  }

  /** Close returns: it flags the store, stops the timer, waits for what has been admitted, and is back. */
  lemma CloseReturnsOnce(s: Store) returns (steps: seq<Step>)
    requires Inv(s) && !s.g.mutating && s.g.closing.Running?
    ensures forall k :: 0 <= k < |steps| ==> Quiet(steps[k])
    ensures var all := [FlagClosed, StopTimer] + (steps + [CloseReturns]);
      Lawful(s, all) && Run(s, all).g.closing.Returned? && Run(s, all).c.version == s.c.version
  {
    hide Inv;
    var a := After(s, FlagClosed);
    StepKeepsInv(s, FlagClosed);
    var b := After(a, StopTimer);
    StepKeepsInv(a, StopTimer);
    steps := Drains(b);
    NothingLeftIsDurable(Run(b, steps));
    RunSnoc(b, steps, CloseReturns);
    var all := [FlagClosed, StopTimer] + (steps + [CloseReturns]);
    assert all[1..] == [StopTimer] + (steps + [CloseReturns]) && all[1..][1..] == steps + [CloseReturns];
  }

  /** A mutation that comes after Close is refused with an error that stays. */
  lemma {:induction false} RefusalIsReported(s: Store, steps: seq<Step>)
    requires Inv(s) && s.g.closing.Returned? && Lawful(s, steps) && (BeginMutation in steps || s.c.failed)
    ensures Run(s, steps).c.failed && !FlushReturnsNil(Run(s, steps))
    decreases |steps|
  {
    hide Inv, After;
    if steps != [] {
      StepKeepsInv(s, steps[0]);
      ReturnedStep(s, steps[0]);
      RefusalIsReported(After(s, steps[0]), steps[1..]);
    }
  }

  lemma ReturnedStep(s: Store, step: Step)
    requires Inv(s) && s.g.closing.Returned? && Enabled(s, step)
    ensures After(s, step).g.closing.Returned?
    ensures step == BeginMutation || s.c.failed ==> After(s, step).c.failed
  {
    hide Ordered, Followed, Accounted;
    if step.Finish? {
      TicketIsPending(s.w, step.job);
    }
  }
}
