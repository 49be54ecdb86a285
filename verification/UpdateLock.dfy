/** The update lock of pkg/app/update.go and update_lock_unix.go. Any number of updaters run the acquire
    loop against one directory, beside updaters of older versions that create the lock file exclusively and
    remove it by name when they end. Each system call is one step; a process may stop at any of them. */
module UpdateLock {
  import opened Common

  /** What an inode holds: nothing yet, the new-format marker, or anything else. */
  datatype Content = Blank | Marker | Foreign

  /** Where a process is in acquireUpdateLock and publishUpdateLock. */
  datatype Phase =
    | Outside
    | Opening
    | Opened(inode: nat)
    | Missing
    | Created(inode: nat)
    | Written(inode: nat)
    | Reopened(inode: nat)
    | Locked(inode: nat)
    | Checking(inode: nat)
    | Owner(inode: nat)

  /** `stable` is the inode the lock path names, `locks` who holds the flock of an inode, `legacy` the
      running older updaters and the inode each has created. */
  datatype World = World(stable: Option<nat>, content: map<nat, Content>, locks: map<nat, nat>,
                         procs: map<nat, Phase>, legacy: map<nat, nat>)

  const EMPTY := World(None, map[], map[], map[], map[])

  datatype Step =
    | Start(p: nat)
    | Open(p: nat)
    | Lock(p: nat)
    | Check(p: nat)
    | Create(p: nat, inode: nat)
    | Write(p: nat)
    | Reopen(p: nat)
    | LockPrivate(p: nat)
    | Link(p: nat)
    | Stop(p: nat)
    | LegacyCreate(q: nat, inode: nat)
    | LegacyRemove(q: nat)
    | LegacyCrash(q: nat)
    | UserRemove

  function PhaseOf(w: World, p: nat): Phase { if p in w.procs then w.procs[p] else Outside }

  predicate Enabled(w: World, step: Step) {
    match step
    case Start(p) => PhaseOf(w, p).Outside?
    case Open(p) => PhaseOf(w, p).Opening?
    case Lock(p) => PhaseOf(w, p).Opened?
    case Check(p) => PhaseOf(w, p).Checking?
    case Create(p, i) => PhaseOf(w, p).Missing? && i !in w.content
    case Write(p) => PhaseOf(w, p).Created?
    case Reopen(p) => PhaseOf(w, p).Written?
    case LockPrivate(p) => PhaseOf(w, p).Reopened?
    case Link(p) => PhaseOf(w, p).Locked?
    case Stop(p) => !PhaseOf(w, p).Outside?
    case LegacyCreate(q, i) => w.stable.None? && i !in w.content && q !in w.legacy
    case LegacyRemove(q) => q in w.legacy
    case LegacyCrash(q) => q in w.legacy
    case UserRemove =>
      // The documented manual repair: never a new-format lock, and only when its updater does not run.
      w.stable.Some? && w.stable.value in w.content && w.content[w.stable.value] != Marker
      && forall q :: q in w.legacy ==> w.legacy[q] != w.stable.value
  }

  function StableAfter(w: World, step: Step): Option<nat>
    requires Enabled(w, step)
  {
    match step
    case Link(p) => if w.stable.None? then Some(PhaseOf(w, p).inode) else w.stable // Link never overwrites.
    case LegacyCreate(_, i) => Some(i)
    case LegacyRemove(_) => None
    case UserRemove => None
    case _ => w.stable
  }

  function ContentAfter(w: World, step: Step): map<nat, Content>
    requires Enabled(w, step)
  {
    match step
    case Create(_, i) => w.content[i := Blank]
    case Write(p) => w.content[PhaseOf(w, p).inode := Marker]
    case LegacyCreate(_, i) => w.content[i := Foreign]
    case _ => w.content
  }

  /** Closing a descriptor gives up its lock, and so does the end of the process. */
  function WithoutLocksOf(locks: map<nat, nat>, p: nat): map<nat, nat> {
    map i | i in locks && locks[i] != p :: locks[i]
  }

  predicate IsMarker(w: World, i: nat) { i in w.content && w.content[i] == Marker }

  predicate Locks(step: Step) { step.Lock? || step.LockPrivate? }

  /** The step closes the process's descriptor: a foreign marker, a lost race, or the end. */
  predicate Closes(w: World, step: Step)
    requires Enabled(w, step)
  {
    match step
    case Check(p) => !IsMarker(w, PhaseOf(w, p).inode)
    case Link(_) => w.stable.Some?
    case Stop(_) => true
    case _ => false
  }

  function LocksAfter(w: World, step: Step): map<nat, nat>
    requires Enabled(w, step)
  {
    if Locks(step) then
      if PhaseOf(w, step.p).inode in w.locks then w.locks else w.locks[PhaseOf(w, step.p).inode := step.p]
    else if Closes(w, step) then WithoutLocksOf(w.locks, step.p)
    else w.locks
  }

  predicate OfProcess(step: Step) {
    !step.LegacyCreate? && !step.LegacyRemove? && !step.LegacyCrash? && !step.UserRemove?
  }

  /** Where the process of the step is after it. */
  function Next(w: World, step: Step): Phase
    requires Enabled(w, step) && OfProcess(step)
  {
    match step
    case Start(p) => Opening
    case Open(p) => if w.stable.Some? then Opened(w.stable.value) else Missing
    case Lock(p) => if PhaseOf(w, p).inode in w.locks then Outside else Checking(PhaseOf(w, p).inode)
    case Check(p) => if IsMarker(w, PhaseOf(w, p).inode) then Owner(PhaseOf(w, p).inode) else Outside
    case Create(p, i) => Created(i)
    case Write(p) => Written(PhaseOf(w, p).inode)
    case Reopen(p) => Reopened(PhaseOf(w, p).inode)
    case LockPrivate(p) => if PhaseOf(w, p).inode in w.locks then Outside else Locked(PhaseOf(w, p).inode)
    case Link(p) => if w.stable.None? then Checking(PhaseOf(w, p).inode) else Opening // The loop goes round.
    case Stop(p) => Outside
  }

  function ProcsAfter(w: World, step: Step): map<nat, Phase>
    requires Enabled(w, step)
  {
    if OfProcess(step) then w.procs[step.p := Next(w, step)] else w.procs
  }

  function LegacyAfter(w: World, step: Step): map<nat, nat>
    requires Enabled(w, step)
  {
    match step
    case LegacyCreate(q, i) => w.legacy[q := i]
    case LegacyRemove(q) => w.legacy - {q}
    case LegacyCrash(q) => w.legacy - {q}
    case _ => w.legacy
  }

  function After(w: World, step: Step): World
    requires Enabled(w, step)
  {
    World(StableAfter(w, step), ContentAfter(w, step), LocksAfter(w, step), ProcsAfter(w, step), LegacyAfter(w, step))
  }

  predicate Lawful(w: World, steps: seq<Step>)
    decreases |steps|
  {
    steps == [] || (Enabled(w, steps[0]) && Lawful(After(w, steps[0]), steps[1..]))
  }

  function Run(w: World, steps: seq<Step>): World
    requires Lawful(w, steps)
    decreases |steps|
  {
    if steps == [] then w else Run(After(w, steps[0]), steps[1..])
  }

  // ---------------------------------------------------------------------------------------------
  // The invariant

  predicate Published(w: World) {
    w.stable.Some? && w.stable.value in w.content && w.content[w.stable.value] == Marker
  }

  predicate Private(phase: Phase) { phase.Created? || phase.Written? || phase.Reopened? || phase.Locked? }

  predicate Holds(phase: Phase) { phase.Locked? || phase.Checking? || phase.Owner? }

  predicate HasInode(phase: Phase) { Private(phase) || phase.Opened? || phase.Checking? || phase.Owner? }

  /** Older updaters own the name they created, and it is not a new-format lock. */
  ghost predicate LegacyOwns(w: World) {
    && (w.stable.Some? ==> w.stable.value in w.content && w.content[w.stable.value] != Blank)
    && (forall q :: q in w.legacy ==>
          w.stable == Some(w.legacy[q]) && w.legacy[q] in w.content && w.content[w.legacy[q]] == Foreign)
    && (forall q, r :: q in w.legacy && r in w.legacy ==> q == r)
  }

  predicate KnownAt(w: World, p: nat) { HasInode(PhaseOf(w, p)) ==> PhaseOf(w, p).inode in w.content }

  /** A private inode is not yet named, and its creator has filled it before it locks it. */
  predicate UnnamedAt(w: World, p: nat) {
    var phase := PhaseOf(w, p);
    Private(phase) ==>
      w.stable != Some(phase.inode) && phase.inode in w.content
      && w.content[phase.inode] == (if phase.Created? then Blank else Marker)
  }

  /** Nobody else knows a private inode. */
  predicate UnsharedAt(w: World, p: nat, q: nat) {
    p != q && Private(PhaseOf(w, p)) && HasInode(PhaseOf(w, q)) ==> PhaseOf(w, p).inode != PhaseOf(w, q).inode
  }

  /** Whoever has opened a new-format lock has opened the one the path still names. */
  predicate OpenedAt(w: World, p: nat) {
    var phase := PhaseOf(w, p);
    HasInode(phase) && !Private(phase) ==>
      phase.inode in w.content && w.content[phase.inode] != Blank
      && (w.content[phase.inode] == Marker ==> w.stable == Some(phase.inode))
  }

  predicate HolderAt(w: World, p: nat) {
    Holds(PhaseOf(w, p)) ==> PhaseOf(w, p).inode in w.locks && w.locks[PhaseOf(w, p).inode] == p
  }

  predicate LockAt(w: World, i: nat) {
    i in w.locks ==>
      i in w.content && Holds(PhaseOf(w, w.locks[i])) && PhaseOf(w, w.locks[i]).inode == i
  }

  predicate OwnerAt(w: World, p: nat) { PhaseOf(w, p).Owner? ==> IsMarker(w, PhaseOf(w, p).inode) }

  ghost predicate Inv(w: World) {
    && LegacyOwns(w)
    && (forall p: nat :: KnownAt(w, p))
    && (forall p: nat :: UnnamedAt(w, p))
    && (forall p: nat, q: nat :: UnsharedAt(w, p, q))
    && (forall p: nat :: OpenedAt(w, p))
    && (forall p: nat :: HolderAt(w, p))
    && (forall i: nat :: LockAt(w, i))
    && (forall p: nat :: OwnerAt(w, p))
  }

  lemma StepKeepsLegacy(w: World, step: Step)
    requires LegacyOwns(w) && Enabled(w, step) && (OfProcess(step) ==> UnnamedAt(w, step.p))
    ensures LegacyOwns(After(w, step))
  {
  }

  lemma StepKeepsKnown(w: World, step: Step, p: nat)
    requires LegacyOwns(w) && KnownAt(w, p) && Enabled(w, step) && (OfProcess(step) ==> KnownAt(w, step.p))
    ensures KnownAt(After(w, step), p)
  {
  }

  lemma StepKeepsUnnamed(w: World, step: Step, p: nat)
    requires LegacyOwns(w) && KnownAt(w, p) && UnnamedAt(w, p) && Enabled(w, step)
    requires OfProcess(step) ==> KnownAt(w, step.p) && UnnamedAt(w, step.p) && UnsharedAt(w, p, step.p)
    ensures UnnamedAt(After(w, step), p)
  {
  }

  lemma StepKeepsUnshared(w: World, step: Step, p: nat, q: nat)
    requires LegacyOwns(w) && KnownAt(w, p) && KnownAt(w, q) && UnnamedAt(w, p) && Enabled(w, step)
    requires UnsharedAt(w, p, q)
    ensures UnsharedAt(After(w, step), p, q)
  {
  }

  lemma StepKeepsOpened(w: World, step: Step, p: nat)
    requires LegacyOwns(w) && OpenedAt(w, p) && Enabled(w, step)
    requires OfProcess(step) ==> KnownAt(w, p) && UnnamedAt(w, step.p) && UnsharedAt(w, step.p, p)
    ensures OpenedAt(After(w, step), p)
  {
  }

  lemma StepKeepsHolder(w: World, step: Step, p: nat)
    requires HolderAt(w, p) && Enabled(w, step)
    ensures HolderAt(After(w, step), p)
  {
  }

  lemma StepKeepsLock(w: World, step: Step, i: nat)
    requires LockAt(w, i) && Enabled(w, step)
    requires OfProcess(step) ==> KnownAt(w, step.p) && HolderAt(w, step.p)
    ensures LockAt(After(w, step), i)
  {
  }

  lemma StepKeepsOwner(w: World, step: Step, p: nat)
    requires OwnerAt(w, p) && Enabled(w, step)
    requires OfProcess(step) ==> KnownAt(w, p) && UnnamedAt(w, step.p) && UnsharedAt(w, step.p, p)
    ensures OwnerAt(After(w, step), p)
  {
  }

  lemma StepKeepsInv(w: World, step: Step)
    requires Inv(w) && Enabled(w, step)
    ensures Inv(After(w, step))
  {
    var t := After(w, step);
    var actor := if OfProcess(step) then step.p else 0;
    assert KnownAt(w, actor) && UnnamedAt(w, actor) && HolderAt(w, actor);
    StepKeepsLegacy(w, step);
    forall p: nat ensures KnownAt(t, p) && HolderAt(t, p) {
      assert KnownAt(w, p) && HolderAt(w, p);
      StepKeepsKnown(w, step, p);
      StepKeepsHolder(w, step, p);
    }
    forall p: nat ensures UnnamedAt(t, p) {
      assert KnownAt(w, p) && UnnamedAt(w, p) && UnsharedAt(w, p, actor);
      StepKeepsUnnamed(w, step, p);
    }
    forall p: nat, q: nat ensures UnsharedAt(t, p, q) {
      assert KnownAt(w, p) && KnownAt(w, q) && UnnamedAt(w, p) && UnsharedAt(w, p, q);
      StepKeepsUnshared(w, step, p, q);
    }
    forall p: nat ensures OpenedAt(t, p) && OwnerAt(t, p) {
      assert KnownAt(w, p) && OpenedAt(w, p) && OwnerAt(w, p) && UnsharedAt(w, actor, p);
      StepKeepsOpened(w, step, p);
      StepKeepsOwner(w, step, p);
    }
    forall i: nat ensures LockAt(t, i) {
      assert LockAt(w, i);
      StepKeepsLock(w, step, i);
    }
  }

  lemma {:induction false} RunKeepsInv(w: World, steps: seq<Step>)
    requires Inv(w) && Lawful(w, steps)
    ensures Inv(Run(w, steps))
    decreases |steps|
  {
    if steps != [] {
      StepKeepsInv(w, steps[0]);
      RunKeepsInv(After(w, steps[0]), steps[1..]);
    }
  }

  lemma EmptyIsValid()
    ensures Inv(EMPTY)
  {
  }

  // ---------------------------------------------------------------------------------------------
  // What the lock promises

  /** Over every interleaving, with stops at any step: at most one process owns the update, it holds the
      flock of the inode the path names, and no older updater runs beside it. */
  lemma AtMostOneOwner(steps: seq<Step>, p: nat, q: nat)
    requires Lawful(EMPTY, steps)
    requires PhaseOf(Run(EMPTY, steps), p).Owner? && PhaseOf(Run(EMPTY, steps), q).Owner?
    ensures p == q
    ensures var w := Run(EMPTY, steps);
      Published(w) && w.stable.value in w.locks && w.locks[w.stable.value] == p && w.legacy == map[]
  {
    EmptyIsValid();
    RunKeepsInv(EMPTY, steps);
    OwnerHoldsStable(Run(EMPTY, steps), p);
    OwnerHoldsStable(Run(EMPTY, steps), q);
  }

  lemma OwnerHoldsStable(w: World, p: nat)
    requires Inv(w) && PhaseOf(w, p).Owner?
    ensures Published(w) && w.stable.value in w.locks && w.locks[w.stable.value] == p && w.legacy == map[]
  {
    assert OwnerAt(w, p) && OpenedAt(w, p) && HolderAt(w, p);
    PublishedExcludesLegacy(w);
  }

  lemma LegacyOrPublished(w: World)
    requires LegacyOwns(w)
    ensures w.legacy == map[] || !Published(w)
  {
    if w.legacy != map[] {
      var q :| q in w.legacy;
      assert w.content[w.legacy[q]] == Foreign;
    }
  }

  /** A new-format lock keeps older updaters out even while nobody holds it. */
  lemma PublishedExcludesLegacy(w: World)
    requires Inv(w) && Published(w)
    ensures w.legacy == map[]
    ensures forall q, i :: !Enabled(w, LegacyCreate(q, i))
    ensures forall q :: !Enabled(w, LegacyRemove(q))
  {
    LegacyOrPublished(w);
  }

  lemma StepKeepsPublished(w: World, step: Step)
    requires Inv(w) && Published(w) && Enabled(w, step)
    ensures Published(After(w, step)) && After(w, step).stable == w.stable
  {
    PublishedExcludesLegacy(w);
  }

  /** A published new-format lock is never replaced or removed. */
  lemma {:induction false} PublishedStays(w: World, steps: seq<Step>)
    requires Inv(w) && Published(w) && Lawful(w, steps)
    ensures Published(Run(w, steps)) && Run(w, steps).stable == w.stable
    decreases |steps|
  {
    if steps != [] {
      StepKeepsInv(w, steps[0]);
      StepKeepsPublished(w, steps[0]);
      PublishedStays(After(w, steps[0]), steps[1..]);
    }
  }

  /** How many steps of its own a process can still take once a new-format lock is published. */
  function Rank(phase: Phase): nat {
    match phase
    case Outside => 0
    case Owner(_) => 0
    case Checking(_) => 1
    case Opened(_) => 2
    case Opening => 3
    case Locked(_) => 4
    case Reopened(_) => 5
    case Written(_) => 6
    case Created(_) => 7
    case Missing => 8
  }

  predicate Own(step: Step, p: nat) {
    match step
    case Open(q) => p == q
    case Lock(q) => p == q
    case Check(q) => p == q
    case Create(q, _) => p == q
    case Write(q) => p == q
    case Reopen(q) => p == q
    case LockPrivate(q) => p == q
    case Link(q) => p == q
    case _ => false
  }

  function OwnSteps(steps: seq<Step>, p: nat): nat {
    if steps == [] then 0 else (if Own(steps[0], p) then 1 else 0) + OwnSteps(steps[1..], p)
  }

  lemma StepLowersRank(w: World, step: Step, p: nat)
    requires Published(w) && Enabled(w, step) && step != Start(p)
    ensures Rank(PhaseOf(After(w, step), p)) + (if Own(step, p) then 1 else 0) <= Rank(PhaseOf(w, p))
  {
  }

  /** Once a new-format lock is published the loop of every process ends: a process takes at most `Rank`
      more steps, so one that has lost the publish race (three steps left) ends on its next pass. */
  lemma {:induction false} LoopEnds(w: World, steps: seq<Step>, p: nat)
    requires Inv(w) && Published(w) && Lawful(w, steps) && Start(p) !in steps
    ensures OwnSteps(steps, p) + Rank(PhaseOf(Run(w, steps), p)) <= Rank(PhaseOf(w, p))
    decreases |steps|
  {
    if steps != [] {
      StepLowersRank(w, steps[0], p);
      StepKeepsInv(w, steps[0]);
      StepKeepsPublished(w, steps[0]);
      LoopEnds(After(w, steps[0]), steps[1..], p);
    }
  }

  lemma RunCons(w: World, step: Step, rest: seq<Step>)
    requires Enabled(w, step) && Lawful(After(w, step), rest)
    ensures Lawful(w, [step] + rest) && Run(w, [step] + rest) == Run(After(w, step), rest)
  {
    assert ([step] + rest)[1..] == rest;
  }

  lemma RunOne(w: World, step: Step)
    requires Enabled(w, step)
    ensures Lawful(w, [step]) && Run(w, [step]) == After(w, step)
  {
    assert [step][1..] == [];
    assert Lawful(After(w, step), []) && Run(After(w, step), []) == After(w, step);
  }

  /** An owner that ends, however it ends, leaves the lock to the next process. */
  lemma OwnershipPassesOn(w: World, p: nat, q: nat) returns (steps: seq<Step>)
    requires Inv(w) && PhaseOf(w, p).Owner? && PhaseOf(w, q).Opening?
    ensures Lawful(w, steps) && PhaseOf(Run(w, steps), q).Owner?
  {
    OwnerHoldsStable(w, p);
    var a := After(w, Stop(p));
    var b := After(a, Open(q));
    var c := After(b, Lock(q));
    assert PhaseOf(b, q) == Opened(w.stable.value) && w.stable.value !in b.locks;
    RunOne(c, Check(q));
    RunCons(b, Lock(q), [Check(q)]);
    RunCons(a, Open(q), [Lock(q)] + [Check(q)]);
    RunCons(w, Stop(p), [Open(q)] + ([Lock(q)] + [Check(q)]));
    steps := [Stop(p)] + ([Open(q)] + ([Lock(q)] + [Check(q)]));
  }

  // ---------------------------------------------------------------------------------------------
  // Acquiring alone

  /** The process's own steps and no others. */
  predicate Alone(steps: seq<Step>, p: nat) { forall k :: 0 <= k < |steps| ==> OfProcess(steps[k]) && steps[k].p == p }

  lemma LinksAndOwns(w: World, p: nat, i: nat) returns (steps: seq<Step>)
    requires PhaseOf(w, p) == Written(i) && IsMarker(w, i) && w.stable.None? && i !in w.locks
    ensures Lawful(w, steps) && Alone(steps, p)
    ensures var t := Run(w, steps);
      PhaseOf(t, p) == Owner(i) && t.stable == Some(i) && IsMarker(t, i) && i in t.locks && t.locks[i] == p
  {
    var e := After(w, Reopen(p));
    var f := After(e, LockPrivate(p));
    var g := After(f, Link(p));
    assert PhaseOf(e, p) == Reopened(i) && PhaseOf(f, p) == Locked(i) && f.locks[i] == p && PhaseOf(g, p) == Checking(i);
    RunOne(g, Check(p));
    RunCons(f, Link(p), [Check(p)]);
    RunCons(e, LockPrivate(p), [Link(p)] + [Check(p)]);
    RunCons(w, Reopen(p), [LockPrivate(p)] + ([Link(p)] + [Check(p)]));
    steps := [Reopen(p)] + ([LockPrivate(p)] + ([Link(p)] + [Check(p)]));
  }

  lemma CreatesAndOwns(w: World, p: nat, i: nat) returns (steps: seq<Step>)
    requires w.stable.None? && PhaseOf(w, p).Missing? && i !in w.content && i !in w.locks
    ensures Lawful(w, steps) && Alone(steps, p)
    ensures var t := Run(w, steps);
      PhaseOf(t, p) == Owner(i) && t.stable == Some(i) && IsMarker(t, i) && i in t.locks && t.locks[i] == p
  {
    var c := After(w, Create(p, i));
    var d := After(c, Write(p));
    assert PhaseOf(c, p) == Created(i) && PhaseOf(d, p) == Written(i) && IsMarker(d, i);
    var rest := LinksAndOwns(d, p, i);
    RunCons(c, Write(p), rest);
    RunCons(w, Create(p, i), [Write(p)] + rest);
    steps := [Create(p, i)] + ([Write(p)] + rest);
  }

  /** A process that finds the path missing publishes a fresh inode, already locked, and owns it. */
  lemma PublishesAndOwns(w: World, p: nat, i: nat) returns (steps: seq<Step>)
    requires w.stable.None? && PhaseOf(w, p).Outside? && i !in w.content && i !in w.locks
    ensures Lawful(w, steps) && Alone(steps, p)
    ensures var t := Run(w, steps);
      PhaseOf(t, p) == Owner(i) && t.stable == Some(i) && IsMarker(t, i) && i in t.locks && t.locks[i] == p
  {
    var a := After(w, Start(p));
    var b := After(a, Open(p));
    var rest := CreatesAndOwns(b, p, i);
    RunCons(a, Open(p), rest);
    RunCons(w, Start(p), [Open(p)] + rest);
    steps := [Start(p)] + ([Open(p)] + rest);
  }

  /** From an empty directory an updater owns the update, by its own steps. */
  lemma FirstUpdaterOwns(p: nat) returns (steps: seq<Step>)
    ensures Lawful(EMPTY, steps) && Alone(steps, p) && PhaseOf(Run(EMPTY, steps), p).Owner?
  {
    steps := PublishesAndOwns(EMPTY, p, 0);
  }

  lemma LocksPublished(w: World, p: nat) returns (steps: seq<Step>)
    requires Published(w) && w.stable.value !in w.locks && PhaseOf(w, p).Outside?
    ensures Lawful(w, steps) && Alone(steps, p) && PhaseOf(Run(w, steps), p) == Owner(w.stable.value)
  {
    var a := After(w, Start(p));
    var b := After(a, Open(p));
    var c := After(b, Lock(p));
    assert PhaseOf(b, p) == Opened(w.stable.value) && PhaseOf(c, p) == Checking(w.stable.value);
    RunOne(c, Check(p));
    RunCons(b, Lock(p), [Check(p)]);
    RunCons(a, Open(p), [Lock(p)] + [Check(p)]);
    RunCons(w, Start(p), [Open(p)] + ([Lock(p)] + [Check(p)]));
    steps := [Start(p)] + ([Open(p)] + ([Lock(p)] + [Check(p)]));
  }

  /** The path is missing, or names a new-format lock that nobody holds. */
  predicate Acquirable(w: World) { w.stable.None? || (Published(w) && w.stable.value !in w.locks) }

  /** The path names a foreign marker or a lock that another process holds, and p has not got past it. */
  predicate Barred(w: World, p: nat) {
    && w.stable.Some?
    && var j := w.stable.value;
      && (!IsMarker(w, j) || (j in w.locks && w.locks[j] != p))
      && var phase := PhaseOf(w, p);
        phase.Outside? || phase.Opening? || phase == Opened(j) || (phase == Checking(j) && !IsMarker(w, j))
  }

  lemma {:induction false} BarredStays(w: World, steps: seq<Step>, p: nat)
    requires Barred(w, p) && Lawful(w, steps) && Alone(steps, p)
    ensures Barred(Run(w, steps), p)
    decreases |steps|
  {
    if steps != [] {
      assert OfProcess(steps[0]) && steps[0].p == p;
      assert Barred(After(w, steps[0]), p);
      assert forall k :: 0 <= k < |steps[1..]| ==> steps[1..][k] == steps[k + 1];
      BarredStays(After(w, steps[0]), steps[1..], p);
    }
  }

  lemma {:induction false} UnusedInode(used: set<nat>) returns (i: nat)
    ensures i !in used && forall k :: k in used ==> k < i
    decreases |used|
  {
    i := 0;
    if used != {} {
      var k :| k in used;
      var j := UnusedInode(used - {k});
      i := if j <= k then k + 1 else j;
      assert forall m :: m in used ==> m == k || m in used - {k};
    }
  }

  /** With no other process between, an updater can own the update if and only if the path is missing or names a
      new-format lock nobody holds; a path that is missing ends up naming an inode of its own. */
  lemma AloneAcquires(w: World, p: nat)
    requires Inv(w) && PhaseOf(w, p).Outside?
    ensures (exists steps :: Lawful(w, steps) && Alone(steps, p) && PhaseOf(Run(w, steps), p).Owner?) <==> Acquirable(w)
    ensures w.stable.None? ==>
      exists steps :: Lawful(w, steps) && Alone(steps, p) && PhaseOf(Run(w, steps), p).Owner?
        && PhaseOf(Run(w, steps), p).inode !in w.content
  {
    if w.stable.None? {
      var i := UnusedInode(w.content.Keys);
      assert LockAt(w, i);
      var steps := PublishesAndOwns(w, p, i);
    } else if Acquirable(w) {
      var steps := LocksPublished(w, p);
    } else {
      assert LockAt(w, w.stable.value);
      forall steps | Lawful(w, steps) && Alone(steps, p) ensures !PhaseOf(Run(w, steps), p).Owner? {
        BarredStays(w, steps, p);
      }
    }
  }
}
