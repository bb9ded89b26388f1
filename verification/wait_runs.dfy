/** What every run of the exit and wait4 protocol promises: wakeups, reaps, and who holds a process. */
module WaitRuns {
  import opened Common
  import opened Ids
  import opened WaitProtocol

  ghost predicate Sleeps(s: State, p: Obj) {
    && p < |s.procs| && s.procs[p].stage.Waiting? && s.procs[p].stage.phase.Asleep? && !s.procs[p].stage.notified
  }

  /** A zombie `p` waits for while it sleeps. */
  ghost predicate Awaited(s: State, p: Obj, c: Obj)
    requires Sleeps(s, p)
  {
    c in s.procs[p].children && c < |s.procs| && s.procs[c].status.Zombie? && Matches(s.procs[p].stage.want, s.procs[c].pid)
  }

  /** No lost wakeup. A process asleep in wait4 whose listener was not notified has the notification of a
      zombie it waits for still to come exactly when the zombie took it as its parent when its exit began.
      Every zombie the sleeper forked did, and only init waits for others. */
  lemma NoLostWakeup(s: State, p: Obj, c: Obj)
    requires Reachable(s) && Sleeps(s, p) && Awaited(s, p, c)
    ensures Owed(s.procs[c].stage) == Some(p) <==> s.procs[c].told == Some(p)
    ensures s.procs[c].forker == Some(p) ==> s.procs[c].told == Some(p)
    ensures p != INIT ==> s.procs[c].forker == Some(p)
  {
    ReachableInv(s);
    WakeupOwed(s, p, c);
  }

  lemma WakeupOwed(s: State, p: Obj, c: Obj)
    requires Inv(s) && Sleeps(s, p) && Awaited(s, p, c)
    ensures Owed(s.procs[c].stage) == Some(p) <==> s.procs[c].told == Some(p)
    ensures s.procs[c].forker == Some(p) ==> s.procs[c].told == Some(p)
    ensures p != INIT ==> s.procs[c].forker == Some(p)
  {
    assert Fine(s.procs, p) && Fine(s.procs, c) && HoldsOk(s.procs, p);
    assert IsAt(s.procs, c, Listed(p)) && !Settled(s.procs, p, c);
  }

  /** That notification ends the sleep. */
  lemma NotifyWakes(s: State, p: Obj, c: Obj)
    requires Sleeps(s, p) && Enabled(s, Notify(c)) && s.procs[c].stage.parent == Some(p)
    ensures p < |Next(s, Notify(c)).procs| && Next(s, Notify(c)).procs[p].stage == s.procs[p].stage.(notified := true)
  {
  }

  /** `steps` are taken by `p` and `c` alone and end with `p` reaping a child. */
  ghost predicate EndsReaping(s: State, steps: seq<Step>, p: Obj, c: Obj) {
    && Runs(s, steps) && (forall i | 0 <= i < |steps| :: steps[i].p == p || steps[i].p == c)
    && p < |Run(s, steps).procs| && Run(s, steps).procs[p].stage.Reaping?
  }

  lemma StepThen(s: State, step: Step, rest: seq<Step>, p: Obj, c: Obj)
    requires Enabled(s, step) && (step.p == p || step.p == c) && EndsReaping(Next(s, step), rest, p, c)
    ensures EndsReaping(s, [step] + rest, p, c)
  {
    assert ([step] + rest)[1..] == rest;
  }

  /** `p` is in wait4 and the zombie `c` is a child that fits. */
  ghost predicate WaitsFor(s: State, p: Obj, c: Obj) {
    && p < |s.procs| && s.procs[p].stage.Waiting?
    && c in s.procs[p].children && c < |s.procs| && s.procs[c].status.Zombie? && Matches(s.procs[p].stage.want, s.procs[c].pid)
  }

  lemma WaitersKnown(s: State, p: Obj, c: Obj)
    requires Inv(s) && WaitsFor(s, p, c)
    ensures p in s.live && c in s.live && c != p && c != INIT
    ensures forall i | 0 <= i < |s.procs[p].children| :: s.procs[p].children[i] < |s.procs|
  {
    assert Fine(s.procs, p) && Fine(s.procs, c) && HoldsOk(s.procs, p) && IsAt(s.procs, c, Listed(p));
    assert Managed(s.procs, s.live, s.manager, p) && Managed(s.procs, s.live, s.manager, c);
    forall i | 0 <= i < |s.procs[p].children| ensures s.procs[p].children[i] < |s.procs| {
      assert IsAt(s.procs, s.procs[p].children[i], Listed(p));
    }
  }

  /** A scan that has found a zombie, or has one ahead, ends in a reap. */
  lemma {:induction false} ScanReaps(s: State, p: Obj, c: Obj) returns (steps: seq<Step>)
    requires Inv(s) && WaitsFor(s, p, c) && s.procs[p].stage.phase.Scanning?
    requires s.procs[p].stage.phase.found.Some? || c in s.procs[p].children[Position(s, p)..]
    ensures EndsReaping(s, steps, p, c)
    decreases |s.procs[p].children| - Position(s, p)
  {
    WaitersKnown(s, p, c);
    if Position(s, p) < |s.procs[p].children| {
      ScanNears(s, p, c);
      StepInv(s, ScanOne(p));
      var rest := ScanReaps(Next(s, ScanOne(p)), p, c);
      StepThen(s, ScanOne(p), rest, p, c);
      steps := [ScanOne(p)] + rest;
    } else {
      ScanFound(s, p, c);
      StepThen(s, ScanEnd(p), [], p, c);
      steps := [ScanEnd(p)] + [];
    }
  }

  lemma ScanFound(s: State, p: Obj, c: Obj)
    requires Inv(s) && Enabled(s, ScanEnd(p)) && s.procs[p].stage.phase.found.Some?
    ensures EndsReaping(Next(s, ScanEnd(p)), [], p, c)
  {
    assert Fine(s.procs, p);
  }

  /** One position of a scan brings it nearer to `c`. */
  lemma ScanNears(s: State, p: Obj, c: Obj)
    requires WaitsFor(s, p, c) && Enabled(s, ScanOne(p)) && c != p
    ensures var s' := Next(s, ScanOne(p));
            && WaitsFor(s', p, c) && s'.procs[p].stage.phase.Scanning? && s'.procs[p].children == s.procs[p].children
            && Position(s', p) == Position(s, p) + 1
            && (s.procs[p].stage.phase.found.Some? || c in s.procs[p].children[Position(s, p)..] ==>
                  s'.procs[p].stage.phase.found.Some? || c in s'.procs[p].children[Position(s', p)..])
  {
  }

  ghost function Position(s: State, p: Obj): nat
    requires p < |s.procs| && s.procs[p].stage.Waiting? && s.procs[p].stage.phase.Scanning?
  {
    if s.procs[p].stage.phase.i < |s.procs[p].children| then s.procs[p].stage.phase.i else |s.procs[p].children|
  }

  /** A notified sleeper wakes and reaps. */
  lemma WakeReaps(s: State, p: Obj, c: Obj) returns (steps: seq<Step>)
    requires Inv(s) && WaitsFor(s, p, c) && s.procs[p].stage.phase.Asleep? && s.procs[p].stage.notified
    ensures EndsReaping(s, steps, p, c)
  {
    WaitersKnown(s, p, c);
    StepInv(s, Wake(p));
    var rest := ScanReaps(Next(s, Wake(p)), p, c);
    StepThen(s, Wake(p), rest, p, c);
    steps := [Wake(p)] + rest;
  }

  /** Handing on, or ending the handover, leaves the sleeper and the owed notification in place. */
  lemma HandKeeps(s: State, p: Obj, c: Obj, step: Step)
    requires WaitsFor(s, p, c) && Sleeps(s, p) && c != p && s.procs[c].stage.Stored? && s.procs[c].stage.parent == Some(p)
    requires Enabled(s, step) && (step == HandOne(c) || step == HandDone(c))
    ensures var s' := Next(s, step);
            && WaitsFor(s', p, c) && Sleeps(s', p)
            && (if step.HandDone? then s'.procs[c].stage.Handed? else
                  s'.procs[c].stage.Stored? && |s'.procs[c].stage.kids| < |s.procs[c].stage.kids|)
            && s'.procs[c].stage.parent == Some(p)
  {
  }

  /** While the child's notification is to come, the child's own steps lead to it. Locks are not part of the
      state: in the kernel `HandOne` also waits for init's lock. */
  lemma {:induction false} NotificationArrives(s: State, p: Obj, c: Obj) returns (steps: seq<Step>)
    requires Inv(s) && WaitsFor(s, p, c) && Sleeps(s, p)
    requires (s.procs[c].stage.Stored? || s.procs[c].stage.Handed?) && s.procs[c].stage.parent == Some(p)
    ensures EndsReaping(s, steps, p, c)
    decreases if s.procs[c].stage.Stored? then 1 + |s.procs[c].stage.kids| else 0
  {
    WaitersKnown(s, p, c);
    var step := if s.procs[c].stage.Handed? then Notify(c) else if s.procs[c].stage.kids == [] then HandDone(c) else HandOne(c);
    assert HoldsOk(s.procs, c) && (step.HandOne? ==> s.procs[c].stage.kids[0] in Kids(s.procs[c].stage));
    StepInv(s, step);
    var rest;
    if step.Notify? {
      NotifyWakes(s, p, c);
      rest := WakeReaps(Next(s, step), p, c);
    } else {
      HandKeeps(s, p, c, step);
      rest := NotificationArrives(Next(s, step), p, c);
    }
    StepThen(s, step, rest, p, c);
    steps := [step] + rest;
  }

  /** Waiting for such a zombie always can end: steps of the two processes alone lead to a reap. While the zombie
      hands orphans on it needs init's lock, so in the kernel the run starts once no other process holds that. */
  lemma SleeperReaps(s: State, p: Obj, c: Obj) returns (steps: seq<Step>)
    requires Reachable(s) && Sleeps(s, p) && Awaited(s, p, c) && s.procs[c].told == Some(p)
    ensures EndsReaping(s, steps, p, c)
  {
    NoLostWakeup(s, p, c);
    ReachableInv(s);
    assert Fine(s.procs, c);
    steps := NotificationArrives(s, p, c);
  }

  // ------------------------------------------------------ every run of a wait

  /** `p` is in wait4 over the zombie `c` and cannot miss it: asleep without a notification it has one to come, and a
      scan has found a zombie or has `c` ahead. */
  ghost predicate InWait(s: State, p: Obj, c: Obj) {
    && WaitsFor(s, p, c)
    && match s.procs[p].stage.phase
       case Asleep => s.procs[p].stage.notified || Owed(s.procs[c].stage) == Some(p)
       case Scanning(_, _, found) => found.Some? || c in s.procs[p].children[Position(s, p)..]
  }

  /** The steps an exit still has to take before its last word is said. */
  function Dues(st: Stage): nat {
    if st.Stored? then 2 + |st.kids| else if st.Handed? then 1 else 0
  }

  /** The steps a sleeper has taken since it was woken. */
  ghost function Turns(s: State, p: Obj): nat
    requires p < |s.procs| && s.procs[p].stage.Waiting?
  {
    if s.procs[p].stage.phase.Asleep? then 0 else 1 + Position(s, p)
  }

  function Count(steps: seq<Step>, p: Obj): nat {
    if steps == [] then 0 else (if steps[0].p == p then 1 else 0) + Count(steps[1..], p)
  }

  /** Somewhere in the run `p` reaps. */
  ghost predicate ReapsIn(s: State, steps: seq<Step>, p: Obj)
    requires Runs(s, steps)
    decreases |steps|
  {
    (p < |s.procs| && s.procs[p].stage.Reaping?) || (steps != [] && ReapsIn(Next(s, steps[0]), steps[1..], p))
  }

  /** The wait goes on, by the steps `p` and `c` take and by nobody else's. */
  ghost predicate GoesOn(s: State, s': State, p: Obj, c: Obj, byP: nat, byC: nat)
    requires InWait(s, p, c)
  {
    && InWait(s', p, c) && Turns(s', p) == Turns(s, p) + byP && Dues(s'.procs[c].stage) + byC == Dues(s.procs[c].stage)
    && s.procs[p].children <= s'.procs[p].children && (p != INIT ==> s'.procs[p].children == s.procs[p].children)
  }

  /** What `p` and `c` see of themselves stays, but for a notification and for orphans that reach init. */
  ghost predicate SeenAlike(procs: seq<Proc>, procs': seq<Proc>, p: Obj, c: Obj) {
    && p < |procs| <= |procs'| && c < |procs| && procs[p].stage.Waiting? && procs'[p].stage.Waiting?
    && procs'[p].stage.(notified := procs[p].stage.notified) == procs[p].stage
    && (procs[p].stage.notified ==> procs'[p].stage.notified)
    && procs[p].children <= procs'[p].children && (p != INIT ==> procs'[p].children == procs[p].children)
    && procs'[c].pid == procs[c].pid && procs'[c].status == procs[c].status
  }

  lemma AlikeGoesOn(s: State, s': State, p: Obj, c: Obj, byC: nat)
    requires Inv(s) && InWait(s, p, c) && SeenAlike(s.procs, s'.procs, p, c)
    requires Dues(s'.procs[c].stage) + byC == Dues(s.procs[c].stage)
    requires Owed(s.procs[c].stage) == Some(p) ==> s'.procs[p].stage.notified || Owed(s'.procs[c].stage) == Some(p)
    ensures GoesOn(s, s', p, c, 0, byC)
  {
    assert Fine(s.procs, p) && c in s'.procs[p].children;
    if s.procs[p].stage.phase.Scanning? {
      var n := Position(s, p);
      assert s'.procs[p].children[n..][..|s.procs[p].children| - n] == s.procs[p].children[n..];
    }
  }

  lemma HandAlike(procs: seq<Proc>, q: Obj, p: Obj, c: Obj)
    requires q < |procs| && procs[q].stage.Stored? && procs[q].stage.kids != [] && procs[q].stage.kids[0] < |procs|
    requires p < |procs| && c < |procs| && p != c && p != q && procs[p].stage.Waiting?
    ensures SeenAlike(procs, HandedOn(procs, q), p, c)
    ensures HandedOn(procs, q)[c].stage == if c == q then Stored(procs[q].stage.parent, procs[q].stage.kids[1..]) else procs[c].stage
  {
  }

  lemma TakeAlike(procs: seq<Proc>, q: Obj, code: int, p: Obj, c: Obj)
    requires q < |procs| && p < |procs| && c < |procs| && q != p && q != c && procs[p].stage.Waiting?
    ensures SeenAlike(procs, TakenBy(procs, q, code), p, c) && TakenBy(procs, q, code)[c].stage == procs[c].stage
  {
  }

  lemma ReapAlike(procs: seq<Proc>, q: Obj, i: nat, p: Obj, c: Obj)
    requires q < |procs| && i < |procs[q].children| && procs[q].children[i] < |procs|
    requires p < |procs| && c < |procs| && q != p && q != c && procs[p].stage.Waiting?
    ensures SeenAlike(procs, ReapedAt(procs, q, i), p, c) && ReapedAt(procs, q, i)[c].stage == procs[c].stage
  {
  }

  lemma TellAlike(procs: seq<Proc>, q: Obj, p: Obj, c: Obj)
    requires q < |procs| && procs[q].stage.Handed? && p < |procs| && c < |procs| && p != c && procs[p].stage.Waiting?
    requires !procs[c].stage.Waiting?
    ensures var procs' := Told(Moved(procs, q, Gone), procs[q].stage.parent);
            && SeenAlike(procs, procs', p, c) && procs'[c].stage == (if q == c then Gone else procs[c].stage)
            && (procs[q].stage.parent == Some(p) ==> procs'[p].stage.notified)
  {
  }

  /** A step of neither. */
  lemma OthersLeaveWait(s: State, step: Step, p: Obj, c: Obj)
    requires Inv(s) && InWait(s, p, c) && Enabled(s, step) && step.p != p && step.p != c
    ensures GoesOn(s, Next(s, step), p, c, 0, 0)
  {
    WaitersKnown(s, p, c);
    assert !s.procs[c].stage.Waiting? by { assert Fine(s.procs, c); }
    AlikeByOther(s, step, p, c);
    AlikeGoesOn(s, Next(s, step), p, c, 0);
  }

  lemma AlikeByOther(s: State, step: Step, p: Obj, c: Obj)
    requires Inv(s) && Enabled(s, step) && step.p != p && step.p != c && p < |s.procs| && c < |s.procs| && p != c
    requires s.procs[p].stage.Waiting? && !s.procs[c].stage.Waiting?
    ensures SeenAlike(s.procs, Next(s, step).procs, p, c) && Next(s, step).procs[c].stage == s.procs[c].stage
  {
    var procs, q := s.procs, step.p;
    Effect(s, step);
    hide Next, Enabled, Inv;
    if step.HandOne? {
      HandAlike(procs, q, p, c);
    } else if step.ExitTake? {
      TakeAlike(procs, q, step.code, p, c);
    } else if step.ScanEnd? && Reaps(procs, q) {
      ReapAlike(procs, q, procs[q].stage.phase.found.value, p, c);
    } else if step.Notify? {
      TellAlike(procs, q, p, c);
    } else if step.Fork? || step.Forget? {
    } else {
      QuietStep(s, step);
    }
  }

  /** The steps of a process that is exiting and still listed. */
  lemma ZombieStep(s: State, step: Step, p: Obj, c: Obj)
    requires Inv(s) && WaitsFor(s, p, c) && Enabled(s, step) && step.p == c
    ensures (step.HandOne? && s.procs[c].stage.Stored?) || (step.HandDone? && s.procs[c].stage.Stored?) ||
            (step.Notify? && s.procs[c].stage.Handed?)
  {
    WaitersKnown(s, p, c);
    assert Fine(s.procs, c) && p in s.live && c in s.procs[p].children;
  }

  /** A step of the zombie: handing an orphan on, ending the handover, or the notification. */
  lemma ZombieSteps(s: State, step: Step, p: Obj, c: Obj)
    requires Inv(s) && InWait(s, p, c) && Enabled(s, step) && step.p == c
    ensures GoesOn(s, Next(s, step), p, c, 0, 1)
  {
    var procs := s.procs;
    WaitersKnown(s, p, c);
    ZombieStep(s, step, p, c);
    Effect(s, step);
    if step.HandOne? {
      HandAlike(procs, c, p, c);
    } else if step.Notify? {
      TellAlike(procs, c, p, c);
    }
    AlikeGoesOn(s, Next(s, step), p, c, 1);
  }

  /** A step of the sleeper: waking, looking at one child, or ending the scan with a reap. */
  lemma SleeperSteps(s: State, step: Step, p: Obj, c: Obj)
    requires Inv(s) && InWait(s, p, c) && Enabled(s, step) && step.p == p
    ensures Next(s, step).procs[p].stage.Reaping? || GoesOn(s, Next(s, step), p, c, 1, 0)
  {
    WaitersKnown(s, p, c);
    assert Fine(s.procs, p);
    if step.ScanOne? {
      ScanNears(s, p, c);
    } else if step.ScanEnd? {
      ScanFound(s, p, c);
    }
  }

  lemma GoesOnTwice(s: State, s1: State, s2: State, p: Obj, c: Obj, byP: nat, byC: nat, byP': nat, byC': nat)
    requires InWait(s, p, c) && GoesOn(s, s1, p, c, byP, byC) && GoesOn(s1, s2, p, c, byP', byC')
    ensures GoesOn(s, s2, p, c, byP + byP', byC + byC')
  {
  }

  lemma WaitStep(s: State, step: Step, p: Obj, c: Obj)
    requires Inv(s) && InWait(s, p, c) && Enabled(s, step)
    ensures p < |Next(s, step).procs|
    ensures Next(s, step).procs[p].stage.Reaping? ||
            GoesOn(s, Next(s, step), p, c, if step.p == p then 1 else 0, if step.p == c then 1 else 0)
  {
    WaitersKnown(s, p, c);
    hide Inv, InWait, GoesOn, Next, Enabled;
    if step.p == p {
      SleeperSteps(s, step, p, c);
    } else if step.p == c {
      ZombieSteps(s, step, p, c);
    } else {
      OthersLeaveWait(s, step, p, c);
    }
  }

  /** On every run the sleeper reaps, or the wait has gone on by exactly the steps the two took. */
  lemma {:induction false} WaitRun(s: State, steps: seq<Step>, p: Obj, c: Obj)
    requires Inv(s) && InWait(s, p, c) && Runs(s, steps)
    ensures ReapsIn(s, steps, p) || GoesOn(s, Run(s, steps), p, c, Count(steps, p), Count(steps, c))
    decreases |steps|
  {
    hide Inv, InWait, Next, Enabled;
    if steps == [] {
      WaitStands(s, p, c);
    } else {
      var s1 := Next(s, steps[0]);
      StepInv(s, steps[0]);
      WaitStep(s, steps[0], p, c);
      if s1.procs[p].stage.Reaping? {
        assert ReapsIn(s1, steps[1..], p);
      } else {
        WaitRun(s1, steps[1..], p, c);
        if !ReapsIn(s1, steps[1..], p) {
          GoesOnTwice(s, s1, Run(s, steps), p, c, if steps[0].p == p then 1 else 0, if steps[0].p == c then 1 else 0,
                      Count(steps[1..], p), Count(steps[1..], c));
        }
      }
    }
  }

  lemma WaitStands(s: State, p: Obj, c: Obj)
    requires InWait(s, p, c)
    ensures GoesOn(s, s, p, c, 0, 0)
  {
  }

  /** Every wait over an owed zombie ends, on every run: until the sleeper reaps, the zombie has taken fewer steps than it
      had left or the sleeper is awake, and the sleeper has taken at most one step per child and one to wake. For a sleeper
      other than init these are the children it had; init's list may grow meanwhile, in the kernel not during a scan. */
  lemma EveryRunReaps(s: State, steps: seq<Step>, p: Obj, c: Obj)
    requires Reachable(s) && Sleeps(s, p) && Awaited(s, p, c) && s.procs[c].told == Some(p) && Runs(s, steps)
    ensures ReapsIn(s, steps, p) ||
            var s' := Run(s, steps);
            && p < |s'.procs| && Count(steps, c) <= Dues(s.procs[c].stage)
            && (Count(steps, c) == Dues(s.procs[c].stage) ==> !Sleeps(s', p))
            && Count(steps, p) <= 1 + |s'.procs[p].children| && (p != INIT ==> s'.procs[p].children == s.procs[p].children)
  {
    NoLostWakeup(s, p, c);
    ReachableInv(s);
    RunInv(s, steps);
    hide Inv, Reachable, Runs;
    WaitRun(s, steps, p, c);
    if !ReapsIn(s, steps, p) { WaitBound(s, Run(s, steps), p, c, Count(steps, p), Count(steps, c)); }
  }

  lemma WaitBound(s: State, s': State, p: Obj, c: Obj, byP: nat, byC: nat)
    requires InWait(s, p, c) && Sleeps(s, p) && GoesOn(s, s', p, c, byP, byC) && Inv(s')
    ensures byC <= Dues(s.procs[c].stage) && (byC == Dues(s.procs[c].stage) ==> !Sleeps(s', p))
    ensures byP <= 1 + |s'.procs[p].children|
  {
    assert Fine(s'.procs, c);
  }

  /** And nothing but a lock can hold the two up: one of them always has its next step. */
  lemma WaitNeverStuck(s: State, steps: seq<Step>, p: Obj, c: Obj) returns (step: Step)
    requires Reachable(s) && Sleeps(s, p) && Awaited(s, p, c) && s.procs[c].told == Some(p) && Runs(s, steps)
    ensures ReapsIn(s, steps, p) || (Enabled(Run(s, steps), step) && (step.p == p || step.p == c))
  {
    NoLostWakeup(s, p, c);
    ReachableInv(s);
    RunInv(s, steps);
    WaitRun(s, steps, p, c);
    step := Wake(p);
    if !ReapsIn(s, steps, p) { step := NextOf(Run(s, steps), p, c); }
  }

  lemma NextOf(s: State, p: Obj, c: Obj) returns (step: Step)
    requires Inv(s) && InWait(s, p, c)
    ensures Enabled(s, step) && (step.p == p || step.p == c)
  {
    WaitersKnown(s, p, c);
    assert HoldsOk(s.procs, c) && Fine(s.procs, c);
    var st, me := s.procs[c].stage, s.procs[p].stage;
    if me.phase.Scanning? {
      step := if me.phase.i < |s.procs[p].children| then ScanOne(p) else ScanEnd(p);
    } else if me.notified {
      step := Wake(p);
    } else {
      step := if st.Handed? then Notify(c) else if st.kids == [] then HandDone(c) else HandOne(c);
      assert step.HandOne? ==> st.kids[0] in Kids(st);
    }
  }

  /** Whether the last word of `c` goes to init was settled by where its exit stood when init got it. */
  ghost predicate Pledged(procs: seq<Proc>, c: Obj, toInit: bool) {
    && c < |procs|
    && if Exiting(procs[c].stage) || procs[c].stage.Gone? then procs[c].told == Some(INIT) <==> toInit
       else toInit && procs[c].parent == Some(INIT)
  }

  lemma PledgeKept(s: State, step: Step, c: Obj, toInit: bool)
    requires Inv(s) && Enabled(s, step) && Pledged(s.procs, c, toInit)
    ensures Pledged(Next(s, step).procs, c, toInit)
  {
    var procs, p := s.procs, step.p;
    Effect(s, step);
    hide Next, Enabled, Inv;
    if step.ExitTake? {
      TakePledge(procs, p, step.code, c, toInit);
    } else if step.HandOne? {
      HandPledge(procs, p, c, toInit);
    } else if step.Forget? {
      StandPledge(procs, Forgotten(procs, p), c, toInit);
    } else if step.ScanEnd? && Reaps(procs, p) {
      StandPledge(procs, ReapedAt(procs, p, procs[p].stage.phase.found.value), c, toInit);
    } else if step.Fork? {
      StandPledge(procs, Forked(procs, p, Taken(s.pids).0), c, toInit);
    } else if step.Notify? {
      NotifyPledge(procs, p, c, toInit);
    } else {
      QuietPledge(s, step, c, toInit);
    }
  }

  lemma StandPledge(procs: seq<Proc>, procs': seq<Proc>, c: Obj, toInit: bool)
    requires Pledged(procs, c, toInit) && c < |procs'| && procs'[c].parent == procs[c].parent && procs'[c].told == procs[c].told
    requires (Exiting(procs[c].stage) || procs[c].stage.Gone?) <==> (Exiting(procs'[c].stage) || procs'[c].stage.Gone?)
    ensures Pledged(procs', c, toInit)
  {
  }

  lemma NotifyPledge(procs: seq<Proc>, p: Obj, c: Obj, toInit: bool)
    requires p < |procs| && procs[p].stage.Handed? && Pledged(procs, c, toInit)
    ensures Pledged(Told(Moved(procs, p, Gone), procs[p].stage.parent), c, toInit)
  {
  }

  lemma QuietPledge(s: State, step: Step, c: Obj, toInit: bool)
    requires Inv(s) && Enabled(s, step) && Pledged(s.procs, c, toInit)
    requires !step.Fork? && !step.Forget? && !step.ExitTake? && !step.HandOne? && !(step.ScanEnd? && Reaps(s.procs, step.p))
    requires !step.Notify?
    ensures Pledged(Next(s, step).procs, c, toInit)
  {
    QuietStep(s, step);
  }

  lemma TakePledge(procs: seq<Proc>, p: Obj, code: int, c: Obj, toInit: bool)
    requires p < |procs| && procs[p].stage.Running? && Pledged(procs, c, toInit)
    ensures Pledged(TakenBy(procs, p, code), c, toInit)
  {
  }

  lemma HandPledge(procs: seq<Proc>, p: Obj, c: Obj, toInit: bool)
    requires p < |procs| && procs[p].stage.Stored? && procs[p].stage.kids != [] && procs[p].stage.kids[0] < |procs|
    requires Pledged(procs, c, toInit)
    ensures Pledged(HandedOn(procs, p), c, toInit)
  {
  }

  lemma {:induction false} PledgeRun(s: State, steps: seq<Step>, c: Obj, toInit: bool)
    requires Inv(s) && Runs(s, steps) && Pledged(s.procs, c, toInit)
    ensures Inv(Run(s, steps)) && Pledged(Run(s, steps).procs, c, toInit)
    decreases |steps|
  {
    if steps != [] {
      StepInv(s, steps[0]);
      PledgeKept(s, steps[0], c, toInit);
      PledgeRun(Next(s, steps[0]), steps[1..], c, toInit);
    }
  }

  /** The exact condition for an orphan: whatever runs after init got it, a sleeping init has its notification still
      to come exactly when the orphan had not begun to exit when it was handed over. */
  lemma OrphanHeardIff(s: State, p: Obj, steps: seq<Step>)
    requires Reachable(s) && Enabled(s, HandOne(p)) && Runs(Next(s, HandOne(p)), steps)
    ensures var c, s' := s.procs[p].stage.kids[0], Run(Next(s, HandOne(p)), steps);
            Sleeps(s', INIT) && Awaited(s', INIT, c) ==>
              (Owed(s'.procs[c].stage) == Some(INIT) <==> !Exiting(s.procs[c].stage) && !s.procs[c].stage.Gone?)
  {
    var c, s1 := s.procs[p].stage.kids[0], Next(s, HandOne(p));
    var alive := !Exiting(s.procs[c].stage) && !s.procs[c].stage.Gone?;
    ReachableInv(s);
    OrphanPledged(s, p);
    StepInv(s, HandOne(p));
    PledgeRun(s1, steps, c, alive);
    if Sleeps(Run(s1, steps), INIT) && Awaited(Run(s1, steps), INIT, c) { PledgeOwed(Run(s1, steps), c, alive); }
  }

  lemma PledgeOwed(s: State, c: Obj, toInit: bool)
    requires Inv(s) && Sleeps(s, INIT) && Awaited(s, INIT, c) && Pledged(s.procs, c, toInit)
    ensures Owed(s.procs[c].stage) == Some(INIT) <==> toInit
  {
    WakeupOwed(s, INIT, c);
    assert Fine(s.procs, c);
  }

  lemma OrphanPledged(s: State, p: Obj)
    requires Inv(s) && Enabled(s, HandOne(p))
    ensures var c := s.procs[p].stage.kids[0];
            Pledged(Next(s, HandOne(p)).procs, c, !Exiting(s.procs[c].stage) && !s.procs[c].stage.Gone?)
  {
    var c := s.procs[p].stage.kids[0];
    assert HoldsOk(s.procs, p) && c in Kids(s.procs[p].stage) && IsAt(s.procs, c, Handover(p)) && Fine(s.procs, c);
  }

  datatype Holder = ChildOf(p: Obj) | InExitOf(p: Obj)

  ghost predicate Holds(s: State, h: Holder, c: Obj) {
    h.p < |s.procs| && (if h.ChildOf? then c in s.procs[h.p].children else c in Kids(s.procs[h.p].stage))
  }

  /** Conservation. Every forked process that was not reaped is in exactly one children list or in the
      hands of exactly one exiting process, and there once. */
  lemma HeldOnce(s: State, c: Obj) returns (h: Holder)
    requires Reachable(s) && c < |s.procs| && c != INIT && c !in s.reaps
    ensures Holds(s, h, c) && forall h' :: Holds(s, h', c) ==> h' == h
    ensures Distinct(s.procs[h.p].children) && Distinct(Kids(s.procs[h.p].stage))
    ensures c in s.live && s.procs[c].pid in s.manager && s.manager[s.procs[c].pid] == c
  {
    ReachableInv(s);
    assert HeldWhere(s.procs, c) && Managed(s.procs, s.live, s.manager, c);
    h := if s.procs[c].place.Listed? then ChildOf(s.procs[c].place.holder) else InExitOf(s.procs[c].place.holder);
    assert HoldsOk(s.procs, h.p);
    forall h': Holder | Holds(s, h', c) ensures h' == h { assert HoldsOk(s.procs, h'.p); }
  }

  /** Reaping happens at most once per process, and only to zombies. */
  lemma ReapedOnce(s: State)
    requires Reachable(s)
    ensures Distinct(s.reaps) && forall c | c in s.reaps :: c != INIT && c < |s.procs| && s.procs[c].status.Zombie?
  {
    ReachableInv(s);
    forall c | c in s.reaps ensures c != INIT && s.procs[c].status.Zombie? { assert Fine(s.procs, c); }
  }

  /** Live processes have distinct pids. */
  lemma PidsUnique(s: State, a: Obj, b: Obj)
    requires Reachable(s) && a in s.live && b in s.live && a != b
    ensures a < |s.procs| && b < |s.procs| && s.procs[a].pid != s.procs[b].pid
  {
    ReachableInv(s);
  }

  /** A fork takes a pid that no live process has and no manager entry is kept under. */
  lemma ForkOverwritesNothing(s: State, a: Obj)
    requires Reachable(s) && a in s.live
    ensures a < |s.procs| && Taken(s.pids).0 != s.procs[a].pid && Taken(s.pids).0 !in s.manager
  {
    ReachableInv(s);
    ForkManager(s.procs, s.live, s.pids, s.manager, a);
    TakenFresh(s.pids, 1);
  }

  /** Init can always be looked up. */
  lemma InitManaged(s: State)
    requires Reachable(s)
    ensures INITPROC_PID in s.manager && s.manager[INITPROC_PID] == INIT
  {
    ReachableInv(s);
    assert Managed(s.procs, s.live, s.manager, INIT);
  }

  /** What a scan answers: it fails exactly when no child fits, and reaps a zombie that fits. */
  lemma ScanAnswers(s: State, p: Obj)
    requires Reachable(s) && Enabled(s, ScanEnd(p))
    ensures s.procs[p].stage.phase.has <==> exists i :: Fits(s.procs, p, i)
    ensures Reaps(s.procs, p) ==>
              var c := s.procs[p].children[s.procs[p].stage.phase.found.value];
              s.procs[c].status.Zombie? && Matches(s.procs[p].stage.want, s.procs[c].pid)
  {
    ReachableInv(s);
    assert Fine(s.procs, p);
  }

  // ------------------------------------------------------------ the gap for init

  lemma {:induction false} RunAppend(s: State, steps: seq<Step>, step: Step)
    requires Runs(s, steps) && Enabled(Run(s, steps), step)
    ensures Runs(s, steps + [step]) && Run(s, steps + [step]) == Next(Run(s, steps), step)
    decreases |steps|
  {
    if steps == [] {
      assert Runs(Next(s, step), []) && [step][1..] == [];
    } else {
      assert (steps + [step])[1..] == steps[1..] + [step];
      RunAppend(Next(s, steps[0]), steps[1..], step);
    }
  }

  lemma Go(s: State, step: Step) returns (s': State)
    requires Reachable(s) && Enabled(s, step)
    ensures s' == Next(s, step) && Reachable(s')
  {
    var steps :| Runs(Boot(), steps) && Run(Boot(), steps) == s;
    RunAppend(Boot(), steps, step);
    s' := Next(s, step);
  }

  /** Init forks 1, which forks 2, which forks 3. */
  lemma ThreeGenerations() returns (s: State)
    ensures Reachable(s) && |s.procs| == 4 && s.live == {0, 1, 2, 3}
    ensures s.procs[0] == Proc(1, Normal, Running, None, [1], None, Root, None)
    ensures s.procs[1] == Proc(2, Normal, Running, Some(0), [2], Some(0), Listed(0), None)
    ensures s.procs[2] == Proc(3, Normal, Running, Some(1), [3], Some(1), Listed(1), None)
    ensures s.procs[3] == Proc(4, Normal, Running, Some(2), [], Some(2), Listed(2), None)
  {
    assert Runs(Boot(), []) && Run(Boot(), []) == Boot();
    s := Go(Boot(), Fork(0));
    s := Go(s, Fork(1));
    s := Go(s, Fork(2));
  }

  /** A childless process takes its parent and becomes a zombie. */
  lemma BecomeZombie(s: State, p: Obj) returns (s': State)
    requires Reachable(s) && p in s.live && p < |s.procs| && s.procs[p].stage.Running? && s.procs[p].status.Normal?
    requires s.procs[p].children == []
    ensures Reachable(s') && s'.live == s.live
    ensures s'.procs == s.procs[p := s.procs[p].(stage := Stored(s.procs[p].parent, []), status := Zombie(0), parent := None, told := s.procs[p].parent)]
  {
    s' := Go(s, ExitTake(p, 0));
    s' := Go(s', StoreZombie(p));
  }

  /** A childless process whose parent does not wait exits whole. */
  lemma ExitQuietly(s: State, p: Obj) returns (s': State)
    requires Reachable(s) && p in s.live && p < |s.procs| && s.procs[p].stage.Running? && s.procs[p].status.Normal?
    requires s.procs[p].children == [] && s.procs[p].parent.Some? && s.procs[p].parent.value < |s.procs|
    requires s.procs[p].parent.value != p && s.procs[s.procs[p].parent.value].stage.Running?
    ensures Reachable(s') && s'.live == s.live
    ensures s'.procs == s.procs[p := s.procs[p].(stage := Gone, status := Zombie(0), parent := None, told := s.procs[p].parent)]
  {
    s' := BecomeZombie(s, p);
    s' := Go(s', HandDone(p));
    s' := Go(s', Notify(p));
  }

  /** Process 3 is a zombie its running parent 2 has not reaped, and init is asleep. */
  lemma ZombieGrandchild() returns (s: State)
    ensures Reachable(s) && |s.procs| == 4 && s.live == {0, 1, 2, 3}
    ensures s.procs[0] == Proc(1, Normal, Waiting(AnyChild, true, false, Asleep), None, [1], None, Root, None)
    ensures s.procs[1] == Proc(2, Normal, Running, Some(0), [2], Some(0), Listed(0), None)
    ensures s.procs[2] == Proc(3, Normal, Running, Some(1), [3], Some(1), Listed(1), None)
    ensures s.procs[3] == Proc(4, Zombie(0), Gone, None, [], Some(2), Listed(2), Some(2))
  {
    s := ThreeGenerations();
    s := ExitQuietly(s, 3);
    s := Go(s, Register(0, AnyChild, true));
    s := Go(s, ScanOne(0));
    s := Go(s, ScanEnd(0));
  }

  /** Then 2 exits and has the zombie 3 in its hands. */
  lemma OrphanHeld() returns (s: State)
    ensures Reachable(s) && |s.procs| == 4 && s.live == {0, 1, 2, 3}
    ensures s.procs[0] == Proc(1, Normal, Waiting(AnyChild, true, false, Asleep), None, [1], None, Root, None)
    ensures s.procs[1] == Proc(2, Normal, Running, Some(0), [2], Some(0), Listed(0), None)
    ensures s.procs[2] == Proc(3, Zombie(0), Stored(Some(1), [3]), None, [], Some(1), Listed(1), Some(1))
    ensures s.procs[3] == Proc(4, Zombie(0), Gone, None, [], Some(2), Handover(2), Some(2))
  {
    s := ZombieGrandchild();
    s := Go(s, ExitTake(2, 0));
    s := Go(s, StoreZombie(2));
  }

  /** The gap the kernel's own remark points at: an orphan that was already a zombie when its parent
      exited reaches init's list, its exit is over, and init sleeps on with its listener not notified
      and no notification to come. */
  lemma OrphanCanBeMissed() returns (s: State, c: Obj)
    ensures Reachable(s) && Sleeps(s, INIT) && Awaited(s, INIT, c) && s.procs[c].stage.Gone?
    ensures forall q: nat | q < |s.procs| :: Owed(s.procs[q].stage) != Some(INIT)
  {
    s := OrphanHeld();
    s := Go(s, HandOne(2));
    c := 3;
    assert s.procs[INIT].children == [1, 3] && c in s.procs[INIT].children;
  }
}
