/** What a session gets done (pkg/session/sql_session.go and run_handle.go): whatever its runs, their callers and the
    fan-out are doing, the session lock can be had, and another run can take it, become the active one and start. */
module SessionProgress {
  import opened Common
  import B = NoticeBarrier
  import opened FinishCalls

  /** The lock is free or held by whom it was, and no new run is known. */
  predicate Freer(s: B.Session, t: B.Session) {
    && (t.runs.mutex == s.runs.mutex || t.runs.mutex.None?)
    && t.runs.phases.Keys == s.runs.phases.Keys
  }

  lemma ServingFrees(t: System, step: Step, c: nat)
    requires Inv(t) && Enabled(t, step) && Serves(step, c)
    ensures Freer(t.session, After(t, step).session)
  {
    hide B.AllPlaced, B.Unique, B.ReleasedOnce, AllOnces, AllAcks;
    InvNear(t, step);
    if !step.Base? {
      CallStepPhases(t, step);
      assert CallAt(t, c);
    } else {
      OwnPhases(t.session, step.step);
    }
  }

  lemma OwnPhases(s: B.Session, b: B.Step)
    requires B.Serialized(s) && B.Enabled(s, b) && (b.Load? || b.Route? || b.DrainOne? || b.DrainEnd?)
    ensures Freer(s, B.After(s, b))
  {
    if b.DrainEnd? {
      B.AtRun(s, s.fan.run);
    }
  }

  lemma {:induction false} ServedRunFrees(t: System, steps: seq<Step>, c: nat)
    requires Inv(t) && Lawful(t, steps) && forall k :: 0 <= k < |steps| ==> Serves(steps[k], c)
    ensures Freer(t.session, Run(t, steps).session)
    decreases |steps|
  {
    hide Inv, Enabled, After, Serves;
    if steps != [] {
      ServingFrees(t, steps[0], c);
      StepKeepsInv(t, steps[0]);
      ServedRunFrees(After(t, steps[0]), steps[1..], c);
    }
  }

  lemma HolderIsGone(t: System, r: nat, c: nat)
    requires Inv(t) && c in t.f.calls && t.f.calls[c] == Returned(r)
    ensures t.session.runs.mutex != Some(B.ByRun(r))
  {
    hide B.AllPlaced, B.Unique;
    assert CallAt(t, c) && OnceAt(t, r);
    assert B.LockAt(t.session.runs, r);
  }

  /** The call in the body frees the lock. */
  lemma BodyFrees(t: System, r: nat, c: nat) returns (steps: seq<Step>)
    requires Inv(t) && c in t.f.calls && Executes(t.f, c, r) && t.session.runs.mutex == Some(B.ByRun(r))
    ensures Lawful(t, steps) && Inv(Run(t, steps))
    ensures Run(t, steps).session.runs.mutex.None? && Run(t, steps).session.runs.phases.Keys == t.session.runs.phases.Keys
  {
    hide Inv, Serves;
    steps := BodyReturns(t, c);
    ServedRunFrees(t, steps, c);
    HolderIsGone(Run(t, steps), r, c);
  }

  lemma FreshCaller(keys: set<nat>) returns (c: nat)
    ensures c !in keys && forall k :: k in keys ==> k < c
    decreases keys
  {
    c := 0;
    if keys != {} {
      var k :| k in keys;
      var d := FreshCaller(keys - {k});
      c := if k < d then d else k + 1;
      assert forall j :: j in keys ==> j == k || j in keys - {k};
    }
  }

  lemma EnteredIsPast(t: System, r: nat)
    requires Inv(t) && r in t.f.once
    ensures r in t.session.runs.phases && Past(t.session.runs.phases[r])
  {
    assert OnceAt(t, r);
    match t.f.once[r]
    case Busy(c) => assert CallAt(t, c);
    case Done =>
  }

  lemma PastIsEntered(t: System, r: nat)
    requires Inv(t) && r in t.session.runs.phases && Past(t.session.runs.phases[r]) && B.Holds(t.session.runs.phases[r])
    ensures r in t.f.once && t.f.once[r].Busy? && t.f.once[r].caller in t.f.calls && Executes(t.f, t.f.once[r].caller, r)
  {
    assert OnceAt(t, r);
  }

  lemma Cons(t: System, step: Step, rest: seq<Step>)
    requires Enabled(t, step) && Lawful(After(t, step), rest)
    ensures Lawful(t, [step] + rest) && Run(t, [step] + rest) == Run(After(t, step), rest)
  {
    hide Enabled, After;
    assert ([step] + rest)[1..] == rest;
  }

  lemma Entered(t: System, r: nat, c: nat) returns (v: System)
    requires Inv(t) && Phased(t, r, B.Running) && c !in t.f.calls && r !in t.f.once
    ensures Enabled(t, CallFinish(c, r)) && Enabled(After(t, CallFinish(c, r)), EnterOnce(c))
    ensures v == After(After(t, CallFinish(c, r)), EnterOnce(c)) && Inv(v) && Executes(v.f, c, r) && c in v.f.calls
    ensures v.session.runs.mutex == t.session.runs.mutex && v.session.runs.phases.Keys == t.session.runs.phases.Keys
  {
    hide Inv;
    var u := After(t, CallFinish(c, r));
    StepKeepsInv(t, CallFinish(c, r));
    v := After(u, EnterOnce(c));
    StepKeepsInv(u, EnterOnce(c));
    assert v.session.runs.phases.Keys == t.session.runs.phases.Keys;
  }

  /** A run that has started and holds the lock gives it back, by a call of finish. */
  lemma StartedFrees(t: System, r: nat) returns (steps: seq<Step>)
    requires Inv(t) && t.session.runs.mutex == Some(B.ByRun(r))
    requires r in t.session.runs.phases && Started(t.session.runs.phases[r]) && B.Holds(t.session.runs.phases[r])
    ensures Lawful(t, steps) && Inv(Run(t, steps))
    ensures Run(t, steps).session.runs.mutex.None? && Run(t, steps).session.runs.phases.Keys == t.session.runs.phases.Keys
  {
    hide Inv, Executes;
    if t.session.runs.phases[r].Running? {
      var c := FreshCaller(t.f.calls.Keys);
      if r in t.f.once {
        EnteredIsPast(t, r);
      }
      var v := Entered(t, r, c);
      var rest := BodyFrees(v, r, c);
      steps := [EnterOnce(c)] + rest;
      Cons(After(t, CallFinish(c, r)), EnterOnce(c), rest);
      Cons(t, CallFinish(c, r), steps);
      steps := [CallFinish(c, r)] + steps;
    } else {
      PastIsEntered(t, r);
      steps := BodyFrees(t, r, t.f.once[r].caller);
    }
  }

  lemma HolderIsKnown(t: System, r: nat)
    requires Inv(t) && t.session.runs.mutex == Some(B.ByRun(r))
    ensures r in t.session.runs.phases && B.Holds(t.session.runs.phases[r])
  {
    assert B.LockAt(t.session.runs, r);
  }

  /** How many steps a holder is from its start, or from its failure. */
  function Before(phase: B.Phase): nat { if phase.Locked? then 2 else if phase.Active? then 1 else 0 }

  /** From every state the session lock can be free. */
  lemma {:induction false} LockComesFree(t: System) returns (steps: seq<Step>)
    requires Inv(t)
    ensures Lawful(t, steps) && Inv(Run(t, steps))
    ensures Run(t, steps).session.runs.mutex.None? && Run(t, steps).session.runs.phases.Keys == t.session.runs.phases.Keys
    decreases match t.session.runs.mutex
      case Some(ByRun(r)) => if r in t.session.runs.phases then Before(t.session.runs.phases[r]) else 0
      case _ => 0
  {
    hide Inv;
    var q := t.session.runs;
    match q.mutex
    case None => steps := [];
    case Some(ByCall) =>
      steps := [Base(B.UnlockCall)];
      StepKeepsInv(t, steps[0]);
      assert steps[1..] == [];
    case Some(ByRun(r)) =>
      HolderIsKnown(t, r);
      if Started(q.phases[r]) {
        steps := StartedFrees(t, r);
      } else {
        var step := if q.phases[r].Locked? then Base(B.Publish(r)) else if q.phases[r].Active? then Base(B.DriverStarts(r))
                    else Base(B.FailUnlock(r));
        StepKeepsInv(t, step);
        var u := After(t, step);
        assert u.session.runs.phases.Keys == q.phases.Keys;
        if step == Base(B.FailUnlock(r)) {
          steps := [step];
          assert steps[1..] == [];
        } else {
          var rest := LockComesFree(u);
          steps := [step] + rest;
          assert steps[1..] == rest;
        }
      }
  }

  /** From every reachable state another run can go through: it takes the session lock, becomes the active run, and
      its statement starts. */
  lemma AnotherRunStarts(t: System, r: nat) returns (steps: seq<Step>)
    requires Inv(t) && r !in t.session.runs.phases
    ensures Lawful(t, steps) && Inv(Run(t, steps))
    ensures var q := Run(t, steps).session.runs;
      B.In(q, r, B.Running) && q.mutex == Some(B.ByRun(r)) && q.active == Some(r)
  {
    hide Inv;
    var first := LockComesFree(t);
    var u := Run(t, first);
    var last := [Base(B.Lock(r)), Base(B.Publish(r)), Base(B.DriverStarts(r))];
    Starts(u, r);
    RunJoins(t, first, last);
    steps := first + last;
  }

  lemma Starts(t: System, r: nat)
    requires Inv(t) && t.session.runs.mutex.None? && r !in t.session.runs.phases
    ensures var steps := [Base(B.Lock(r)), Base(B.Publish(r)), Base(B.DriverStarts(r))];
      && Lawful(t, steps) && Inv(Run(t, steps))
      && B.In(Run(t, steps).session.runs, r, B.Running)
      && Run(t, steps).session.runs.mutex == Some(B.ByRun(r)) && Run(t, steps).session.runs.active == Some(r)
  {
    hide Inv, Lawful, Run;
    var lock, publish, start := Base(B.Lock(r)), Base(B.Publish(r)), Base(B.DriverStarts(r));
    var a := After(t, lock);
    StepKeepsInv(t, lock);
    var b := After(a, publish);
    StepKeepsInv(a, publish);
    StepKeepsInv(b, start);
    Nothing(After(b, start));
    Cons(b, start, []);
    Cons(a, publish, [start] + []);
    Cons(t, lock, [publish] + ([start] + []));
    assert [lock, publish, start] == [lock] + ([publish] + ([start] + []));
  }

  lemma Nothing(t: System)
    ensures Lawful(t, []) && Run(t, []) == t
  {
  }

  /** A run that has started can be finished by any caller, over every state in between, with the notices it was
      given: nothing hangs, the lock is free of it, and the caller finds it finished. */
  lemma StartedRunFinishes(t: System, c: nat, r: nat) returns (steps: seq<Step>)
    requires Inv(t) && c !in t.f.calls && r in t.session.runs.phases && Started(t.session.runs.phases[r])
    ensures Lawful(t, [CallFinish(c, r)] + steps)
    ensures var u := Run(t, [CallFinish(c, r)] + steps);
      && c in u.f.calls && u.f.calls[c] == Returned(r) && u.session.runs.mutex != Some(B.ByRun(r))
      && forall id :: id in u.session.wire.era && u.session.wire.era[id] == Some(r) ==> B.RoutedTo(u.session.wire, id, r)
  {
    hide Inv;
    var step := CallFinish(c, r);
    StepKeepsInv(t, step);
    var a := After(t, step);
    steps := FinishNeverHangs(a, c);
    assert ([step] + steps)[1..] == steps;
    RunKeepsInv(a, steps);
    ReturnedKnown(Run(a, steps), r, c);
  }

  lemma ReturnedKnown(t: System, r: nat, c: nat)
    requires Inv(t) && c in t.f.calls && t.f.calls[c] == Returned(r)
    ensures t.session.runs.mutex != Some(B.ByRun(r))
    ensures forall id :: id in t.session.wire.era && t.session.wire.era[id] == Some(r) ==> B.RoutedTo(t.session.wire, id, r)
  {
    assert CallAt(t, c) && OnceAt(t, r);
    ReturnedRun(t, r);
  }
}
