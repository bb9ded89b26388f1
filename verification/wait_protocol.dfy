/** Exit, reparenting and wait4 as interleaved steps. Locks only remove interleavings, so a step
    that waits for a lock in the kernel is simply enabled here; statuses are read one child at a time. */
module WaitProtocol {
  import opened Common
  import opened Ids

  /** A process object; `INIT` is the first process. */
  type Obj = nat
  const INIT: Obj := 0
  const INITPROC_PID := 1

  datatype Status = Normal | Exited(code: int) | Zombie(code: int)
  datatype Want = AnyChild | Child(pid: nat)

  /** Where the one thread of a process stands. While it waits, its listener is registered and may
      have been notified; while it exits, it carries the parent and the children it took. */
  datatype Stage =
    | Running
    | Waiting(want: Want, hang: bool, notified: bool, phase: Phase)
    | Reaping(child: Obj)
    | Took(code: int, parent: Option<Obj>, kids: seq<Obj>)
    | Stored(parent: Option<Obj>, kids: seq<Obj>)
    | Handed(parent: Option<Obj>)
    | Gone

  datatype Phase = Scanning(i: nat, has: bool, found: Option<nat>) | Asleep

  /** History: where a process object is held, and whom it took as its parent when its exit began. */
  datatype Place = Root | Listed(holder: Obj) | Handover(holder: Obj) | InHand(holder: Obj) | Reaped

  datatype Proc = Proc(pid: nat, status: Status, stage: Stage, parent: Option<Obj>, children: seq<Obj>,
                       forker: Option<Obj>, place: Place, told: Option<Obj>)

  /** `live` are the objects not yet dropped; `reaps` lists the objects wait4 removed, in order. */
  datatype State = State(procs: seq<Proc>, live: set<Obj>, manager: map<nat, Obj>, pids: Pool, reaps: seq<Obj>)

  datatype Step =
    | Fork(p: Obj)
    | MarkExit(p: Obj, code: int)
    | Register(p: Obj, want: Want, hang: bool)
    | ScanOne(p: Obj)
    | ScanEnd(p: Obj)
    | Wake(p: Obj)
    | Forget(p: Obj)
    | ExitTake(p: Obj, code: int)
    | StoreZombie(p: Obj)
    | HandOne(p: Obj)
    | HandDone(p: Obj)
    | Notify(p: Obj)
    | Drop(p: Obj)

  function Kids(st: Stage): seq<Obj> {
    if st.Took? || st.Stored? then st.kids else []
  }

  function Owed(st: Stage): Option<Obj> {
    if st.Took? || st.Stored? || st.Handed? then st.parent else None
  }

  predicate Matches(want: Want, pid: nat) {
    want.AnyChild? || want.pid == pid
  }

  function Boot(): State {
    State([Proc(INITPROC_PID, Normal, Running, None, [], None, Root, None)], {INIT}, map[INITPROC_PID := INIT], Pool(2, []), [])
  }

  /** No `Arc` to `o` is left: its thread is gone and no live process or table holds it. */
  ghost predicate Unreferenced(s: State, o: Obj)
    requires o < |s.procs|
  {
    && s.procs[o].stage.Gone? && o !in s.manager.Values
    && forall p | p in s.live && p < |s.procs| ::
         && o !in s.procs[p].children && o !in Kids(s.procs[p].stage) && s.procs[p].stage != Reaping(o)
         && Owed(s.procs[p].stage) != Some(o) && s.procs[p].parent != Some(o)
  }

  ghost predicate Enabled(s: State, step: Step) {
    && step.p < |s.procs| && step.p in s.live
    && var me := s.procs[step.p];
    match step
    case Fork(_) => me.stage.Running?
    case MarkExit(_, _) => me.stage.Running? && me.status.Normal?
    case Register(_, _, _) => me.stage.Running?
    case ScanOne(_) => me.stage.Waiting? && me.stage.phase.Scanning? && me.stage.phase.i < |me.children| &&
                       me.children[me.stage.phase.i] < |s.procs|
    case ScanEnd(_) => me.stage.Waiting? && me.stage.phase.Scanning? && me.stage.phase.i >= |me.children|
    case Wake(_) => me.stage.Waiting? && me.stage.phase.Asleep? && me.stage.notified
    case Forget(_) => me.stage.Reaping? && me.stage.child < |s.procs|
    case ExitTake(_, _) => me.stage.Running?
    case StoreZombie(_) => me.stage.Took?
    case HandOne(p) => me.stage.Stored? && me.stage.kids != [] && p != INIT && me.stage.kids[0] < |s.procs|
    case HandDone(_) => me.stage.Stored? && me.stage.kids == []
    case Notify(_) => me.stage.Handed?
    case Drop(p) => Unreferenced(s, p)
  }

  /** A status that says how the process ended, and the code it ended with. */
  function Ended(status: Status, code: int): Status {
    if status.Normal? then Zombie(code) else Zombie(status.code)
  }

  function Without(xs: seq<Obj>, i: nat): seq<Obj>
    requires i < |xs|
  {
    xs[..i] + xs[i + 1..]
  }

  // What each step does to the list of processes.

  function Forked(procs: seq<Proc>, p: Obj, pid: nat): seq<Proc>
    requires p < |procs|
  {
    procs[p := procs[p].(children := procs[p].children + [|procs|])] +
    [Proc(pid, procs[p].status, Running, Some(p), [], Some(p), Listed(p), None)]
  }

  function Moved(procs: seq<Proc>, p: Obj, st: Stage): seq<Proc>
    requires p < |procs|
  {
    procs[p := procs[p].(stage := st)]
  }

  function ReapedAt(procs: seq<Proc>, p: Obj, i: nat): seq<Proc>
    requires p < |procs| && i < |procs[p].children| && procs[p].children[i] < |procs|
  {
    var c := procs[p].children[i];
    var procs1 := procs[c := procs[c].(place := InHand(p))];
    procs1[p := procs1[p].(stage := Reaping(c), children := Without(procs[p].children, i))]
  }

  function Forgotten(procs: seq<Proc>, p: Obj): seq<Proc>
    requires p < |procs| && procs[p].stage.Reaping? && procs[p].stage.child < |procs|
  {
    var c := procs[p].stage.child;
    var procs1 := procs[c := procs[c].(place := Reaped)];
    procs1[p := procs1[p].(stage := Running)]
  }

  function TakenBy(procs: seq<Proc>, p: Obj, code: int): seq<Proc>
    requires p < |procs|
  {
    var me := procs[p];
    var procs1 := seq(|procs|, c requires 0 <= c < |procs| =>
                                 if c in me.children then procs[c].(place := Handover(p)) else procs[c]);
    procs1[p := procs1[p].(stage := Took(code, me.parent, me.children), parent := None, children := [], told := me.parent)]
  }

  function Ending(procs: seq<Proc>, p: Obj): seq<Proc>
    requires p < |procs| && procs[p].stage.Took?
  {
    var me := procs[p];
    procs[p := me.(status := Ended(me.status, me.stage.code), stage := Stored(me.stage.parent, me.stage.kids))]
  }

  function HandedOn(procs: seq<Proc>, p: Obj): seq<Proc>
    requires p < |procs| && procs[p].stage.Stored? && procs[p].stage.kids != [] && procs[p].stage.kids[0] < |procs|
  {
    var st := procs[p].stage;
    var c := st.kids[0];
    var procs1 := procs[p := procs[p].(stage := Stored(st.parent, st.kids[1..]))];
    var procs2 := procs1[c := procs1[c].(parent := Some(INIT), place := Listed(INIT))];
    procs2[INIT := procs2[INIT].(children := procs2[INIT].children + [c])]
  }

  function Told(procs: seq<Proc>, q: Option<Obj>): seq<Proc> {
    if q.Some? && q.value < |procs| && procs[q.value].stage.Waiting?
    then Moved(procs, q.value, procs[q.value].stage.(notified := true))
    else procs
  }

  /** The scan's next position, what it has seen so far, and the last zombie that fits. */
  function Seen(procs: seq<Proc>, p: Obj): Stage
    requires p < |procs| && procs[p].stage.Waiting? && procs[p].stage.phase.Scanning?
    requires procs[p].stage.phase.i < |procs[p].children| && procs[p].children[procs[p].stage.phase.i] < |procs|
  {
    var ph := procs[p].stage.phase;
    var child := procs[procs[p].children[ph.i]];
    var fits := Matches(procs[p].stage.want, child.pid);
    procs[p].stage.(phase := Scanning(ph.i + 1, ph.has || fits,
                                      if fits && child.status.Zombie? then Some(ph.i) else ph.found))
  }

  predicate Reaps(procs: seq<Proc>, p: Obj)
    requires p < |procs|
  {
    var st := procs[p].stage;
    && st.Waiting? && st.phase.Scanning? && st.phase.has && st.phase.found.Some?
    && st.phase.found.value < |procs[p].children| && procs[p].children[st.phase.found.value] < |procs|
  }

  /** The one step `step`, taken whole. */
  ghost function Next(s: State, step: Step): State
    requires Enabled(s, step)
  {
    var p := step.p;
    var me := s.procs[p];
    match step
    case Fork(_) =>
      var (pid, pids) := Taken(s.pids);
      State(Forked(s.procs, p, pid), s.live + {|s.procs|}, s.manager[pid := |s.procs|], pids, s.reaps)
    case MarkExit(_, code) => s.(procs := s.procs[p := me.(status := Exited(code))])
    case Register(_, want, hang) => s.(procs := Moved(s.procs, p, Waiting(want, hang, false, Scanning(0, false, None))))
    case ScanOne(_) => s.(procs := Moved(s.procs, p, Seen(s.procs, p)))
    case ScanEnd(_) =>
      if Reaps(s.procs, p) then
        var i := me.stage.phase.found.value;
        s.(procs := ReapedAt(s.procs, p, i), reaps := s.reaps + [me.children[i]])
      else if !me.stage.phase.has || !me.stage.hang then s.(procs := Moved(s.procs, p, Running))
      else s.(procs := Moved(s.procs, p, me.stage.(phase := Asleep)))
    case Wake(_) =>
      s.(procs := Moved(s.procs, p, Waiting(me.stage.want, me.stage.hang, false, Scanning(0, false, None))))
    case Forget(_) => s.(procs := Forgotten(s.procs, p), manager := s.manager - {s.procs[me.stage.child].pid})
    case ExitTake(_, code) => s.(procs := TakenBy(s.procs, p, code))
    case StoreZombie(_) => s.(procs := Ending(s.procs, p))
    case HandOne(_) => s.(procs := HandedOn(s.procs, p))
    case HandDone(_) => s.(procs := Moved(s.procs, p, Handed(me.stage.parent)))
    case Notify(_) => s.(procs := Told(Moved(s.procs, p, Gone), me.stage.parent))
    case Drop(_) => s.(live := s.live - {p}, pids := Returned(s.pids, me.pid))
  }

  ghost predicate Runs(s: State, steps: seq<Step>)
    decreases |steps|
  {
    steps == [] || (Enabled(s, steps[0]) && Runs(Next(s, steps[0]), steps[1..]))
  }

  ghost function Run(s: State, steps: seq<Step>): State
    requires Runs(s, steps)
    decreases |steps|
  {
    if steps == [] then s else Run(Next(s, steps[0]), steps[1..])
  }

  // --------------------------------------------------------------- invariants

  ghost predicate IsAt(procs: seq<Proc>, c: Obj, place: Place) {
    c < |procs| && procs[c].place == place
  }

  /** What the lists and the hand of `p` hold knows that they do, and is held once. */
  ghost predicate HoldsOk(procs: seq<Proc>, p: Obj)
    requires p < |procs|
  {
    && (forall c | c in procs[p].children :: IsAt(procs, c, Listed(p)))
    && (forall c | c in Kids(procs[p].stage) :: IsAt(procs, c, Handover(p)))
    && (procs[p].stage.Reaping? ==> IsAt(procs, procs[p].stage.child, InHand(p)))
    && Distinct(procs[p].children) && Distinct(Kids(procs[p].stage))
  }

  ghost predicate ListsOk(procs: seq<Proc>) {
    forall p: nat | p < |procs| :: HoldsOk(procs, p)
  }

  ghost predicate HeldWhere(procs: seq<Proc>, c: Obj)
    requires c < |procs|
  {
    match procs[c].place
    case Root => c == INIT
    case Listed(p) => p < |procs| && c in procs[p].children
    case Handover(p) => p < |procs| && c in Kids(procs[p].stage)
    case InHand(p) => p < |procs| && procs[p].stage == Reaping(c)
    case Reaped => true
  }

  /** Every object is held where it says. */
  ghost predicate PlacesOk(procs: seq<Proc>) {
    && |procs| > 0 && procs[INIT].place == Root && procs[INIT].pid == INITPROC_PID
    && forall c: nat | c < |procs| :: HeldWhere(procs, c)
  }

  /** Live processes have distinct pids, each in use in the pool. */
  ghost predicate PidsOk(procs: seq<Proc>, live: set<Obj>, pids: Pool) {
    && PoolOk(pids) && pids.current >= 1 && (forall i | 0 <= i < |pids.recycled| :: pids.recycled[i] >= 1)
    && (forall o | o in live :: o < |procs| && InUse(pids, 1, procs[o].pid))
    && (forall a, b | a in live && b in live && a != b :: procs[a].pid != procs[b].pid)
  }

  ghost predicate Managed(procs: seq<Proc>, live: set<Obj>, manager: map<nat, Obj>, c: Obj)
    requires c < |procs|
  {
    c in live && procs[c].pid in manager && manager[procs[c].pid] == c
  }

  /** The manager maps a pid to the live process that has it, and holds every process not yet forgotten. */
  ghost predicate ManagerOk(procs: seq<Proc>, live: set<Obj>, manager: map<nat, Obj>) {
    && (forall k | k in manager :: manager[k] in live && manager[k] < |procs| && procs[manager[k]].pid == k)
    && (forall c: nat | c < |procs| && !procs[c].place.Reaped? :: Managed(procs, live, manager, c))
  }

  predicate Finished(st: Stage) { st.Stored? || st.Handed? || st.Gone? }

  /** A process is a zombie exactly from the moment it stored that status, only zombies are reaped,
      and what a scan has found is a zombie that fits. */
  ghost predicate StatusAt(procs: seq<Proc>, p: Obj)
    requires p < |procs|
  {
    && (procs[p].status.Zombie? <==> Finished(procs[p].stage))
    && (procs[p].place.InHand? || procs[p].place.Reaped? ==> procs[p].status.Zombie?)
    && FoundOk(procs, p)
  }

  ghost predicate FoundOk(procs: seq<Proc>, p: Obj)
    requires p < |procs|
  {
    var st := procs[p].stage;
    st.Waiting? && st.phase.Scanning? ==>
      && st.phase.i <= |procs[p].children|
      && (st.phase.found.Some? ==>
            && st.phase.has && st.phase.found.value < |procs[p].children|
            && var c := procs[p].children[st.phase.found.value];
               c < |procs| && procs[c].status.Zombie? && Matches(st.want, procs[c].pid))
      && (st.phase.has <==> exists i :: 0 <= i < st.phase.i && Fits(procs, p, i))
  }

  ghost predicate Fits(procs: seq<Proc>, p: Obj, i: int)
    requires p < |procs|
  {
    && 0 <= i < |procs[p].children| && procs[p].children[i] < |procs| && procs[p].stage.Waiting?
    && Matches(procs[p].stage.want, procs[procs[p].children[i]].pid)
  }

  predicate Exiting(st: Stage) { st.Took? || st.Stored? || st.Handed? }

  /** A process that has not begun to exit names its holder as its parent. One that has owes its last word
      to whom it took as its parent then: its holder, unless that is init and adopted it. Only init adopts. */
  ghost predicate ParentAt(procs: seq<Proc>, c: Obj)
    requires c < |procs|
  {
    && (Exiting(procs[c].stage) ==> procs[c].stage.parent == procs[c].told)
    && (procs[c].place.Listed? || procs[c].place.Handover? ==>
          var p := procs[c].place.holder;
          && (p == INIT || procs[c].forker == Some(p))
          && (if Exiting(procs[c].stage) || procs[c].stage.Gone? then procs[c].forker == Some(p) ==> procs[c].told == Some(p)
              else procs[c].parent == Some(p)))
  }

  /** A zombie that `p` waits for, that was to notify `p`, and whose exit is over. */
  ghost predicate Settled(procs: seq<Proc>, p: Obj, c: Obj)
    requires p < |procs| && procs[p].stage.Waiting?
  {
    && c < |procs| && procs[c].told == Some(p) && Matches(procs[p].stage.want, procs[c].pid) && procs[c].stage.Gone?
  }

  /** While no notification came, the scan so far has missed no settled child. */
  ghost predicate AwakeAt(procs: seq<Proc>, p: Obj)
    requires p < |procs|
  {
    procs[p].stage.Waiting? && !procs[p].stage.notified ==>
      match procs[p].stage.phase
      case Asleep => forall c | c in procs[p].children :: !Settled(procs, p, c)
      case Scanning(n, _, found) =>
        found.None? ==> forall i | 0 <= i < n && i < |procs[p].children| :: !Settled(procs, p, procs[p].children[i])
  }

  ghost predicate Fine(procs: seq<Proc>, p: Obj)
    requires p < |procs|
  {
    StatusAt(procs, p) && ParentAt(procs, p) && AwakeAt(procs, p)
  }

  ghost predicate EachOk(procs: seq<Proc>) {
    forall p: nat | p < |procs| :: Fine(procs, p)
  }

  /** What wait4 removed, each once. */
  ghost predicate ReapsOk(procs: seq<Proc>, reaps: seq<Obj>) {
    && Distinct(reaps)
    && (forall c | c in reaps :: c < |procs|)
    && (forall c: nat | c < |procs| :: c in reaps <==> procs[c].place.InHand? || procs[c].place.Reaped?)
  }

  ghost predicate Inv(s: State) {
    && ListsOk(s.procs) && PlacesOk(s.procs) && PidsOk(s.procs, s.live, s.pids) &&
       ManagerOk(s.procs, s.live, s.manager) && EachOk(s.procs) && ReapsOk(s.procs, s.reaps)
  }

  // ------------------------------------------------- lists and places, step by step

  lemma WithoutIs(xs: seq<Obj>, i: nat)
    requires i < |xs| && Distinct(xs)
    ensures Distinct(Without(xs, i)) && forall x :: x in Without(xs, i) <==> x in xs && x != xs[i]
  {
    forall x ensures x in Without(xs, i) <==> x in xs && x != xs[i] {
      if x in xs && x != xs[i] {
        var j :| 0 <= j < |xs| && xs[j] == x;
        assert Without(xs, i)[if j < i then j else j - 1] == x;
      }
    }
  }

  lemma PushIs(xs: seq<Obj>, x: Obj)
    requires Distinct(xs) && x !in xs
    ensures Distinct(xs + [x]) && forall y :: y in xs + [x] <==> y in xs || y == x
  {
    assert forall i | 0 <= i < |xs| :: xs[i] in xs;
  }

  lemma TailIs(xs: seq<Obj>)
    requires |xs| > 0 && Distinct(xs)
    ensures Distinct(xs[1..]) && forall x :: x in xs[1..] <==> x in xs && x != xs[0]
  {
    assert xs == [xs[0]] + xs[1..];
  }

  ghost predicate Held(procs: seq<Proc>) {
    ListsOk(procs) && PlacesOk(procs)
  }

  /** Only the stage and status of `p` change, and neither its kids nor a child in its hand. */
  ghost predicate Quiet(procs: seq<Proc>, procs': seq<Proc>, p: Obj) {
    && p < |procs| == |procs'| && !procs[p].stage.Reaping? && !procs'[p].stage.Reaping?
    && Kids(procs'[p].stage) == Kids(procs[p].stage)
    && procs' == procs[p := procs[p].(stage := procs'[p].stage, status := procs'[p].status)]
  }

  lemma QuietHeld(procs: seq<Proc>, procs': seq<Proc>, p: Obj)
    requires Held(procs) && Quiet(procs, procs', p)
    ensures Held(procs')
  {
    forall q: nat | q < |procs'| ensures HoldsOk(procs', q) && HeldWhere(procs', q) {
      assert HoldsOk(procs, q) && HeldWhere(procs, q);
    }
  }

  lemma ForkHeld(procs: seq<Proc>, p: Obj, pid: nat)
    requires Held(procs) && p < |procs| && procs[p].stage.Running?
    ensures Held(Forked(procs, p, pid))
  {
    var procs' := Forked(procs, p, pid);
    assert HoldsOk(procs, p);
    PushIs(procs[p].children, |procs|);
    forall q: nat | q < |procs'| ensures HoldsOk(procs', q) && HeldWhere(procs', q) {
      if q < |procs| { assert HoldsOk(procs, q) && HeldWhere(procs, q); }
    }
  }

  lemma ReapHeld(procs: seq<Proc>, p: Obj, i: nat)
    requires Held(procs) && p < |procs| && procs[p].stage.Waiting? && i < |procs[p].children|
    requires procs[p].children[i] < |procs|
    ensures Held(ReapedAt(procs, p, i))
  {
    var procs' := ReapedAt(procs, p, i);
    forall q: nat | q < |procs'| ensures HoldsOk(procs', q) && HeldWhere(procs', q) {
      ReapHolds(procs, p, i, q);
      ReapWhere(procs, p, i, q);
    }
    ReapWhere(procs, p, i, INIT);
  }

  lemma ReapHolds(procs: seq<Proc>, p: Obj, i: nat, q: Obj)
    requires Held(procs) && p < |procs| && procs[p].stage.Waiting? && i < |procs[p].children|
    requires procs[p].children[i] < |procs| && q < |procs|
    ensures HoldsOk(ReapedAt(procs, p, i), q)
  {
    var c := procs[p].children[i];
    assert HoldsOk(procs, p) && HoldsOk(procs, q) && c in procs[p].children && IsAt(procs, c, Listed(p));
    WithoutIs(procs[p].children, i);
    ReapMoves(procs, p, i);
    hide ReapedAt, Without, Distinct, Held;
  }

  lemma ReapWhere(procs: seq<Proc>, p: Obj, i: nat, q: Obj)
    requires Held(procs) && p < |procs| && procs[p].stage.Waiting? && i < |procs[p].children|
    requires procs[p].children[i] < |procs| && q < |procs|
    ensures HeldWhere(ReapedAt(procs, p, i), q)
    ensures var x := ReapedAt(procs, p, i)[INIT]; x.place == Root && x.pid == INITPROC_PID
  {
    var c := procs[p].children[i];
    assert HoldsOk(procs, p) && HeldWhere(procs, q) && c in procs[p].children && IsAt(procs, c, Listed(p));
    WithoutIs(procs[p].children, i);
    ReapMoves(procs, p, i);
    hide ReapedAt, Without, Distinct, ListsOk;
  }

  /** The reap, field by field. */
  lemma ReapMoves(procs: seq<Proc>, p: Obj, i: nat)
    requires p < |procs| && i < |procs[p].children| && procs[p].children[i] < |procs|
    ensures var procs', c := ReapedAt(procs, p, i), procs[p].children[i];
            && |procs'| == |procs|
            && forall q: nat | q < |procs| ::
                 && procs'[q].children == (if q == p then Without(procs[p].children, i) else procs[q].children)
                 && procs'[q].place == (if q == c then InHand(p) else procs[q].place)
                 && procs'[q].stage == (if q == p then Reaping(c) else procs[q].stage) && procs'[q].pid == procs[q].pid
  {
  }

  lemma ForgetHeld(procs: seq<Proc>, p: Obj)
    requires Held(procs) && p < |procs| && procs[p].stage.Reaping? && procs[p].stage.child < |procs|
    ensures Held(Forgotten(procs, p))
  {
    var procs' := Forgotten(procs, p);
    assert HoldsOk(procs, p);
    forall q: nat | q < |procs'| ensures HoldsOk(procs', q) && HeldWhere(procs', q) {
      assert HoldsOk(procs, q) && HeldWhere(procs, q);
    }
  }

  lemma TakeHeld(procs: seq<Proc>, p: Obj, code: int)
    requires Held(procs) && p < |procs| && procs[p].stage.Running?
    ensures Held(TakenBy(procs, p, code))
  {
    var procs' := TakenBy(procs, p, code);
    assert HoldsOk(procs, p) && procs'[INIT].place == Root;
    forall q: nat | q < |procs'| ensures HoldsOk(procs', q) { TakeHolds(procs, p, code, q); }
    forall q: nat | q < |procs'| ensures HeldWhere(procs', q) { assert HeldWhere(procs, q); }
  }

  lemma TakeHolds(procs: seq<Proc>, p: Obj, code: int, q: Obj)
    requires ListsOk(procs) && p < |procs| && procs[p].stage.Running? && q < |procs|
    ensures HoldsOk(TakenBy(procs, p, code), q)
  {
    assert HoldsOk(procs, q) && HoldsOk(procs, p);
  }

  lemma HandHeld(procs: seq<Proc>, p: Obj)
    requires Held(procs) && p < |procs| && procs[p].stage.Stored? && procs[p].stage.kids != [] && p != INIT
    requires procs[p].stage.kids[0] < |procs|
    ensures Held(HandedOn(procs, p))
  {
    var procs' := HandedOn(procs, p);
    HandWhere(procs, p, INIT);
    forall q: nat | q < |procs'| ensures HoldsOk(procs', q) && HeldWhere(procs', q) {
      HandHolds(procs, p, q);
      HandWhere(procs, p, q);
    }
  }

  lemma HandHolds(procs: seq<Proc>, p: Obj, q: Obj)
    requires Held(procs) && p < |procs| && procs[p].stage.Stored? && procs[p].stage.kids != [] && p != INIT
    requires procs[p].stage.kids[0] < |procs| && q < |procs|
    ensures HoldsOk(HandedOn(procs, p), q)
  {
    var procs', c := HandedOn(procs, p), procs[p].stage.kids[0];
    assert HoldsOk(procs, p) && HoldsOk(procs, INIT) && HoldsOk(procs, q);
    assert c in Kids(procs[p].stage) && IsAt(procs, c, Handover(p));
    HandMoves(procs, p, c);
    hide HandedOn;
    if q == p {
      TailIs(procs[p].stage.kids);
    } else if q == INIT {
      PushIs(procs[INIT].children, c);
    }
  }

  /** The handover, field by field. */
  lemma HandMoves(procs: seq<Proc>, p: Obj, c: Obj)
    requires p < |procs| && procs[p].stage.Stored? && procs[p].stage.kids != [] && c == procs[p].stage.kids[0] && c < |procs|
    ensures |HandedOn(procs, p)| == |procs|
    ensures forall q: nat | q < |procs| :: var x := HandedOn(procs, p)[q];
              && x.children == (if q == INIT then procs[q].children + [c] else procs[q].children)
              && x.place == (if q == c then Listed(INIT) else procs[q].place)
              && x.stage == (if q == p then Stored(procs[p].stage.parent, procs[p].stage.kids[1..]) else procs[q].stage)
  {
  }

  lemma HandWhere(procs: seq<Proc>, p: Obj, q: Obj)
    requires Held(procs) && p < |procs| && procs[p].stage.Stored? && procs[p].stage.kids != [] && p != INIT
    requires procs[p].stage.kids[0] < |procs| && q < |procs|
    ensures HeldWhere(HandedOn(procs, p), q) && HandedOn(procs, p)[INIT].place == Root
  {
    assert HoldsOk(procs, p) && HeldWhere(procs, q);
    TailIs(procs[p].stage.kids);
    assert procs[p].stage.kids[0] in Kids(procs[p].stage);
  }

  /** The steps that move no process from one place to another. */
  lemma QuietStep(s: State, step: Step)
    requires Inv(s) && Enabled(s, step)
    requires !step.Fork? && !step.Forget? && !step.ExitTake? && !step.HandOne? && !(step.ScanEnd? && Reaps(s.procs, step.p))
    requires !step.Notify?
    ensures Quiet(s.procs, Next(s, step).procs, step.p)
  {
  }

  /** What the other steps make of the list of processes. */
  lemma Effect(s: State, step: Step)
    requires Enabled(s, step)
    ensures var procs, procs', p := s.procs, Next(s, step).procs, step.p;
            && p < |procs|
            && (step.Fork? ==> procs[p].stage.Running? && procs' == Forked(procs, p, Taken(s.pids).0))
            && (step.Forget? ==> procs[p].stage.Reaping? && procs[p].stage.child < |procs| && procs' == Forgotten(procs, p))
            && (step.ExitTake? ==> procs[p].stage.Running? && procs' == TakenBy(procs, p, step.code))
            && (step.HandOne? ==> procs[p].stage.Stored? && procs[p].stage.kids != [] && p != INIT &&
                                  procs[p].stage.kids[0] < |procs| && procs' == HandedOn(procs, p))
            && (step.ScanEnd? && Reaps(procs, p) ==> procs' == ReapedAt(procs, p, procs[p].stage.phase.found.value))
            && (step.Notify? ==> procs[p].stage.Handed? && procs' == Told(Moved(procs, p, Gone), procs[p].stage.parent))
  {
  }

  lemma HeldKept(s: State, step: Step)
    requires Inv(s) && Enabled(s, step)
    ensures Held(Next(s, step).procs)
  {
    var procs, p := s.procs, step.p;
    if step.Fork? {
      ForkHeld(procs, p, Taken(s.pids).0);
    } else if step.Forget? {
      ForgetHeld(procs, p);
    } else if step.ExitTake? {
      TakeHeld(procs, p, step.code);
    } else if step.HandOne? {
      HandHeld(procs, p);
    } else if step.ScanEnd? && Reaps(procs, p) {
      ReapHeld(procs, p, procs[p].stage.phase.found.value);
    } else if step.Notify? {
      var procs1 := Moved(procs, p, Gone);
      QuietHeld(procs, procs1, p);
      if Told(procs1, procs[p].stage.parent) != procs1 {
        QuietHeld(procs1, Told(procs1, procs[p].stage.parent), procs[p].stage.parent.value);
      }
    } else {
      QuietStep(s, step);
      QuietHeld(procs, Next(s, step).procs, p);
    }
  }

  // ------------------------------------------------------- pids and the manager

  /** Every pid stays, and only `forgotten` newly counts as reaped. */
  ghost predicate SameNames(procs: seq<Proc>, procs': seq<Proc>, forgotten: set<Obj>) {
    && |procs'| == |procs|
    && forall c: nat | c < |procs| ::
         procs'[c].pid == procs[c].pid && (procs'[c].place.Reaped? <==> procs[c].place.Reaped? || c in forgotten)
  }

  lemma NamesKept(s: State, step: Step)
    requires Inv(s) && Enabled(s, step) && !step.Fork?
    ensures SameNames(s.procs, Next(s, step).procs, if step.Forget? then {s.procs[step.p].stage.child} else {})
  {
    var procs, p := s.procs, step.p;
    Effect(s, step);
    assert ListsOk(procs);
    hide Next, Enabled, Inv;
    if step.Forget? {
      ForgetNames(procs, p);
    } else if step.ExitTake? {
      TakeNames(procs, p, step.code);
    } else if step.HandOne? {
      HandNames(procs, p);
    } else if step.ScanEnd? && Reaps(procs, p) {
      ReapNames(procs, p, procs[p].stage.phase.found.value);
    } else if step.Notify? {
      NotifyNames(procs, p);
    } else {
      QuietStep(s, step);
    }
  }

  lemma ForgetNames(procs: seq<Proc>, p: Obj)
    requires p < |procs| && procs[p].stage.Reaping? && procs[p].stage.child < |procs|
    ensures SameNames(procs, Forgotten(procs, p), {procs[p].stage.child})
  {
  }

  lemma NotifyNames(procs: seq<Proc>, p: Obj)
    requires p < |procs| && procs[p].stage.Handed?
    ensures SameNames(procs, Told(Moved(procs, p, Gone), procs[p].stage.parent), {})
  {
  }

  lemma TakeNames(procs: seq<Proc>, p: Obj, code: int)
    requires ListsOk(procs) && p < |procs|
    ensures SameNames(procs, TakenBy(procs, p, code), {})
  {
    assert HoldsOk(procs, p);
  }

  lemma HandNames(procs: seq<Proc>, p: Obj)
    requires ListsOk(procs) && p < |procs| && procs[p].stage.Stored? && procs[p].stage.kids != []
    requires procs[p].stage.kids[0] < |procs|
    ensures SameNames(procs, HandedOn(procs, p), {})
  {
    assert HoldsOk(procs, p) && procs[p].stage.kids[0] in Kids(procs[p].stage);
  }

  lemma ReapNames(procs: seq<Proc>, p: Obj, i: nat)
    requires ListsOk(procs) && p < |procs| && i < |procs[p].children| && procs[p].children[i] < |procs|
    ensures SameNames(procs, ReapedAt(procs, p, i), {})
  {
    assert HoldsOk(procs, p) && procs[p].children[i] in procs[p].children;
  }

  lemma SameNamesPids(procs: seq<Proc>, procs': seq<Proc>, forgotten: set<Obj>, live: set<Obj>, pids: Pool)
    requires PidsOk(procs, live, pids) && SameNames(procs, procs', forgotten)
    ensures PidsOk(procs', live, pids)
  {
  }

  lemma ForkPids(procs: seq<Proc>, live: set<Obj>, pids: Pool, p: Obj)
    requires PidsOk(procs, live, pids) && p < |procs|
    ensures PidsOk(Forked(procs, p, Taken(pids).0), live + {|procs|}, Taken(pids).1)
  {
    TakenFresh(pids, 1);
    var procs' := Forked(procs, p, Taken(pids).0);
    assert forall o | o in live :: procs'[o].pid == procs[o].pid;
  }

  lemma DropPids(procs: seq<Proc>, live: set<Obj>, pids: Pool, p: Obj)
    requires PidsOk(procs, live, pids) && p in live
    ensures PidsOk(procs, live - {p}, Returned(pids, procs[p].pid))
  {
    ReturnedOk(pids, 1, procs[p].pid);
  }

  lemma PidsKept(s: State, step: Step)
    requires Inv(s) && Enabled(s, step)
    ensures PidsOk(Next(s, step).procs, Next(s, step).live, Next(s, step).pids)
  {
    if step.Fork? {
      ForkPids(s.procs, s.live, s.pids, step.p);
    } else if step.Drop? {
      DropPids(s.procs, s.live, s.pids, step.p);
    } else {
      NamesKept(s, step);
      SameNamesPids(s.procs, Next(s, step).procs, if step.Forget? then {s.procs[step.p].stage.child} else {}, s.live, s.pids);
    }
  }

  /** A new process never takes the manager entry of another. */
  lemma ForkManager(procs: seq<Proc>, live: set<Obj>, pids: Pool, manager: map<nat, Obj>, p: Obj)
    requires PidsOk(procs, live, pids) && ManagerOk(procs, live, manager) && p < |procs|
    ensures Taken(pids).0 !in manager
    ensures ManagerOk(Forked(procs, p, Taken(pids).0), live + {|procs|}, manager[Taken(pids).0 := |procs|])
  {
    TakenFresh(pids, 1);
    var procs', manager' := Forked(procs, p, Taken(pids).0), manager[Taken(pids).0 := |procs|];
    forall c: nat | c < |procs'| && !procs'[c].place.Reaped? ensures Managed(procs', live + {|procs|}, manager', c) {
      if c < |procs| { assert Managed(procs, live, manager, c); }
    }
  }

  lemma DropManager(procs: seq<Proc>, live: set<Obj>, manager: map<nat, Obj>, p: Obj)
    requires ManagerOk(procs, live, manager) && p < |procs| && p !in manager.Values
    ensures ManagerOk(procs, live - {p}, manager)
  {
    forall c: nat | c < |procs| && !procs[c].place.Reaped? ensures Managed(procs, live - {p}, manager, c) {
      assert Managed(procs, live, manager, c) && manager[procs[c].pid] in manager.Values;
    }
    assert forall k | k in manager :: manager[k] in manager.Values;
  }

  lemma SameNamesManager(procs: seq<Proc>, procs': seq<Proc>, live: set<Obj>, manager: map<nat, Obj>)
    requires ManagerOk(procs, live, manager) && SameNames(procs, procs', {})
    ensures ManagerOk(procs', live, manager)
  {
    forall c: nat | c < |procs'| && !procs'[c].place.Reaped? ensures Managed(procs', live, manager, c) {
      assert Managed(procs, live, manager, c);
    }
  }

  lemma ForgetManager(procs: seq<Proc>, procs': seq<Proc>, live: set<Obj>, pids: Pool, manager: map<nat, Obj>, o: Obj)
    requires PidsOk(procs, live, pids) && ManagerOk(procs, live, manager) && SameNames(procs, procs', {o})
    requires o < |procs| && !procs[o].place.Reaped?
    ensures ManagerOk(procs', live, manager - {procs[o].pid})
  {
    assert Managed(procs, live, manager, o);
    forall c: nat | c < |procs'| && !procs'[c].place.Reaped?
      ensures Managed(procs', live, manager - {procs[o].pid}, c)
    {
      assert Managed(procs, live, manager, c) && c != o;
    }
  }

  lemma ManagerKept(s: State, step: Step)
    requires Inv(s) && Enabled(s, step)
    ensures ManagerOk(Next(s, step).procs, Next(s, step).live, Next(s, step).manager)
  {
    if step.Fork? {
      ForkManager(s.procs, s.live, s.pids, s.manager, step.p);
    } else if step.Drop? {
      DropManager(s.procs, s.live, s.manager, step.p);
    } else {
      NamesKept(s, step);
      if step.Forget? {
        assert HoldsOk(s.procs, step.p);
        ForgetManager(s.procs, Next(s, step).procs, s.live, s.pids, s.manager, s.procs[step.p].stage.child);
      } else {
        SameNamesManager(s.procs, Next(s, step).procs, s.live, s.manager);
      }
    }
  }

  // ------------------------------------------------- statuses, parents, wakeups

  /** Only `p` moves on, stays a zombie if it was one, and does not go. */
  ghost predicate MovesOn(procs: seq<Proc>, procs': seq<Proc>, p: Obj) {
    && p < |procs| == |procs'|
    && procs' == procs[p := procs[p].(stage := procs'[p].stage, status := procs'[p].status)]
    && (procs[p].status.Zombie? ==> procs'[p].status.Zombie?) && !procs'[p].stage.Gone?
  }

  lemma SameFits(procs: seq<Proc>, procs': seq<Proc>, q: Obj)
    requires q < |procs| <= |procs'| && HoldsOk(procs, q) && procs[q].stage.Waiting? && procs'[q].stage.Waiting?
    requires procs[q].children <= procs'[q].children && procs'[q].stage.want == procs[q].stage.want
    requires forall c: nat | c < |procs| :: procs'[c].pid == procs[c].pid
    ensures forall i | 0 <= i < |procs[q].children| :: Fits(procs', q, i) <==> Fits(procs, q, i)
  {
    forall i | 0 <= i < |procs[q].children| ensures Fits(procs', q, i) <==> Fits(procs, q, i) {
      assert procs[q].children[i] in procs[q].children;
    }
  }

  lemma OthersFine(procs: seq<Proc>, procs': seq<Proc>, p: Obj, q: Obj)
    requires MovesOn(procs, procs', p) && q < |procs| && q != p && Fine(procs, q) && HoldsOk(procs, q)
    ensures Fine(procs', q)
  {
    var st := procs[q].stage;
    if st.Waiting? { SameFits(procs, procs', q); }
    if st.Waiting? && !st.notified {
      assert forall c | c in procs[q].children && Settled(procs', q, c) :: Settled(procs, q, c);
      assert forall i | 0 <= i < |procs[q].children| && Settled(procs', q, procs[q].children[i]) ::
               Settled(procs, q, procs[q].children[i]);
    }
  }

  lemma ActorFine(s: State, step: Step)
    requires Inv(s) && Enabled(s, step)
    requires step.MarkExit? || step.Register? || step.Wake? || step.StoreZombie? || step.HandDone?
    ensures MovesOn(s.procs, Next(s, step).procs, step.p) && Fine(Next(s, step).procs, step.p)
  {
    assert Fine(s.procs, step.p);
  }

  lemma ScanOneMoves(s: State, p: Obj)
    requires Enabled(s, ScanOne(p))
    ensures var st := s.procs[p].stage;
            && st.Waiting? && st.phase.Scanning? && st.phase.i < |s.procs[p].children| && s.procs[p].children[st.phase.i] < |s.procs|
            && Next(s, ScanOne(p)).procs == Moved(s.procs, p, Seen(s.procs, p))
  {
  }

  lemma ScanOneFine(s: State, step: Step)
    requires Inv(s) && Enabled(s, step) && step.ScanOne?
    ensures MovesOn(s.procs, Next(s, step).procs, step.p) && Fine(Next(s, step).procs, step.p)
  {
    var procs, p := s.procs, step.p;
    assert Fine(procs, p) && Fine(procs, procs[p].children[procs[p].stage.phase.i]) && HoldsOk(procs, p);
    ScanOneMoves(s, p);
    ScanOneFound(procs, p);
    ScanOneAwake(procs, p);
    hide Next, Enabled, Inv, HoldsOk, FoundOk, AwakeAt, Settled;
  }

  ghost predicate Looking(procs: seq<Proc>, p: Obj) {
    && p < |procs| && procs[p].stage.Waiting? && procs[p].stage.phase.Scanning?
    && procs[p].stage.phase.i < |procs[p].children| && procs[p].children[procs[p].stage.phase.i] < |procs|
  }

  lemma ScanOneFound(procs: seq<Proc>, p: Obj)
    requires Looking(procs, p) && FoundOk(procs, p) && HoldsOk(procs, p)
    ensures FoundOk(Moved(procs, p, Seen(procs, p)), p)
  {
    var procs', n := Moved(procs, p, Seen(procs, p)), procs[p].stage.phase.i;
    SameFits(procs, procs', p);
    hide HoldsOk;
    assert procs'[p].stage.phase.has <==> procs[p].stage.phase.has || Fits(procs', p, n);
  }

  lemma ScanOneAwake(procs: seq<Proc>, p: Obj)
    requires Looking(procs, p) && AwakeAt(procs, p) && StatusAt(procs, procs[p].children[procs[p].stage.phase.i])
    ensures AwakeAt(Moved(procs, p, Seen(procs, p)), p)
  {
    var procs', n := Moved(procs, p, Seen(procs, p)), procs[p].stage.phase.i;
    forall i | 0 <= i <= n && procs'[p].stage.phase.found.None? && !procs[p].stage.notified
      ensures !Settled(procs', p, procs'[p].children[i])
    {
      assert !Settled(procs, p, procs[p].children[i]);
    }
  }

  lemma ScanEndFine(s: State, step: Step)
    requires Inv(s) && Enabled(s, step) && step.ScanEnd? && !Reaps(s.procs, step.p)
    ensures MovesOn(s.procs, Next(s, step).procs, step.p) && Fine(Next(s, step).procs, step.p)
  {
    var procs, procs', p := s.procs, Next(s, step).procs, step.p;
    assert Fine(procs, p);
    forall c | c in procs[p].children && procs'[p].stage.Waiting? && !procs[p].stage.notified
      ensures !Settled(procs', p, c)
    {
      var i :| 0 <= i < |procs[p].children| && procs[p].children[i] == c;
      assert !Settled(procs, p, procs[p].children[i]);
    }
  }

  lemma ForkFine(procs: seq<Proc>, p: Obj, pid: nat, q: Obj)
    requires Held(procs) && EachOk(procs) && p < |procs| && procs[p].stage.Running? && q <= |procs|
    ensures Fine(Forked(procs, p, pid), q)
  {
    var procs' := Forked(procs, p, pid);
    assert Fine(procs, p);
    if q < |procs| {
      assert Fine(procs, q) && HoldsOk(procs, q);
      SameChildrenFine(procs, procs', q);
    }
  }

  /** Zombies stay zombies, and no process ends its exit. */
  ghost predicate NoneGoes(procs: seq<Proc>, procs': seq<Proc>) {
    && |procs| <= |procs'|
    && forall c: nat | c < |procs| ::
         && procs'[c].pid == procs[c].pid
         && (procs[c].status.Zombie? ==> procs'[c].status.Zombie?) && (procs'[c].stage.Gone? ==> procs[c].stage.Gone? && procs'[c].told == procs[c].told)
  }

  /** What `q` sees of its children is as it was, but for their places and parents. */
  lemma SameChildrenFine(procs: seq<Proc>, procs': seq<Proc>, q: Obj)
    requires q < |procs| <= |procs'| && Fine(procs, q) && HoldsOk(procs, q)
    requires procs'[q].status == procs[q].status
    requires procs'[q].stage == procs[q].stage && (procs[q].stage.Waiting? ==> procs'[q].children == procs[q].children)
    requires NoneGoes(procs, procs')
    requires procs'[q].place.InHand? || procs'[q].place.Reaped? ==> procs[q].status.Zombie?
    ensures StatusAt(procs', q) && AwakeAt(procs', q)
  {
    if procs[q].stage.Waiting? { SameFits(procs, procs', q); }
    if procs[q].stage.Waiting? && !procs[q].stage.notified {
      forall c | c in procs[q].children && Settled(procs', q, c) ensures Settled(procs, q, c) {
        assert IsAt(procs, c, Listed(q));
      }
      forall i | 0 <= i < |procs[q].children| && Settled(procs', q, procs[q].children[i])
        ensures Settled(procs, q, procs[q].children[i])
      {
        assert procs[q].children[i] in procs[q].children;
      }
    }
  }

  lemma ReapFine(procs: seq<Proc>, p: Obj, i: nat, q: Obj)
    requires Held(procs) && EachOk(procs) && p < |procs| && Reaps(procs, p) && q < |procs|
    requires i == procs[p].stage.phase.found.value
    ensures Fine(ReapedAt(procs, p, i), q)
  {
    var procs' := ReapedAt(procs, p, i);
    assert Fine(procs, p) && Fine(procs, q) && HoldsOk(procs, q);
    if q != p { SameChildrenFine(procs, procs', q); }
  }

  lemma ForgetFine(procs: seq<Proc>, p: Obj, q: Obj)
    requires Held(procs) && EachOk(procs) && p < |procs| && procs[p].stage.Reaping? && procs[p].stage.child < |procs| && q < |procs|
    ensures Fine(Forgotten(procs, p), q)
  {
    assert HoldsOk(procs, p) && Fine(procs, procs[p].stage.child) && Fine(procs, q) && HoldsOk(procs, q);
    if q != p { SameChildrenFine(procs, Forgotten(procs, p), q); }
  }

  lemma TakeFine(procs: seq<Proc>, p: Obj, code: int, q: Obj)
    requires Held(procs) && EachOk(procs) && p < |procs| && procs[p].stage.Running? && q < |procs|
    ensures Fine(TakenBy(procs, p, code), q)
  {
    assert HoldsOk(procs, p) && Fine(procs, p) && Fine(procs, q) && HoldsOk(procs, q);
    if q != p { SameChildrenFine(procs, TakenBy(procs, p, code), q); }
  }

  lemma HandFine(procs: seq<Proc>, p: Obj, q: Obj)
    requires Held(procs) && EachOk(procs) && p < |procs| && procs[p].stage.Stored? && procs[p].stage.kids != [] && p != INIT
    requires procs[p].stage.kids[0] < |procs| && q < |procs|
    ensures Fine(HandedOn(procs, p), q)
  {
    var procs', c := HandedOn(procs, p), procs[p].stage.kids[0];
    assert HoldsOk(procs, p) && c in Kids(procs[p].stage) && IsAt(procs, c, Handover(p)) && c != INIT;
    assert Fine(procs, c) && Fine(procs, p) && Fine(procs, q) && HoldsOk(procs, q);
    if q == p {
    } else if q == INIT {
      InitFine(procs, procs', c);
    } else {
      SameChildrenFine(procs, procs', q);
    }
  }

  /** A child handed to init after its exit is over was not to notify init. */
  lemma InitFine(procs: seq<Proc>, procs': seq<Proc>, c: Obj)
    requires Held(procs) && Fine(procs, INIT) && NoneGoes(procs, procs') && |procs'| == |procs|
    requires procs'[INIT] == procs[INIT].(children := procs[INIT].children + [c]) && c < |procs|
    requires procs[c].stage.Gone? ==> procs[c].told != Some(INIT)
    ensures Fine(procs', INIT)
  {
    assert HoldsOk(procs, INIT);
    var cs := procs[INIT].children;
    if procs[INIT].stage.Waiting? { SameFits(procs, procs', INIT); }
    if procs[INIT].stage.Waiting? && !procs[INIT].stage.notified {
      forall i | 0 <= i < |cs| && Settled(procs', INIT, cs[i]) ensures Settled(procs, INIT, cs[i]) {
        assert cs[i] in cs;
      }
      forall x | x in cs && Settled(procs', INIT, x) ensures Settled(procs, INIT, x) {}
    }
  }

  /** The last word of an exit reaches the parent it is owed to. */
  lemma NotifyFine(procs: seq<Proc>, p: Obj, q: Obj)
    requires Held(procs) && EachOk(procs) && p < |procs| && procs[p].stage.Handed? && q < |procs|
    ensures Fine(Told(Moved(procs, p, Gone), procs[p].stage.parent), q)
  {
    var procs' := Told(Moved(procs, p, Gone), procs[p].stage.parent);
    assert Fine(procs, p) && Fine(procs, q) && HoldsOk(procs, q);
    hide EachOk, Held;
    if procs'[q].stage.Waiting? { SameFits(procs, procs', q); }
    if procs'[q].stage.Waiting? && !procs'[q].stage.notified {
      forall c | c in procs[q].children ensures Settled(procs', q, c) ==> Settled(procs, q, c) {
        assert IsAt(procs, c, Listed(q));
      }
      forall i | 0 <= i < |procs[q].children| ensures procs[q].children[i] in procs[q].children {}
    }
  }

  lemma FineKept(s: State, step: Step, q: Obj)
    requires Inv(s) && Enabled(s, step) && q < |Next(s, step).procs|
    ensures Fine(Next(s, step).procs, q)
  {
    var procs, p := s.procs, step.p;
    if step.Fork? {
      ForkFine(procs, p, Taken(s.pids).0, q);
    } else if step.Forget? {
      ForgetFine(procs, p, q);
    } else if step.ExitTake? {
      TakeFine(procs, p, step.code, q);
    } else if step.HandOne? {
      HandFine(procs, p, q);
    } else if step.ScanEnd? && Reaps(procs, p) {
      ReapFine(procs, p, procs[p].stage.phase.found.value, q);
    } else if step.Notify? {
      NotifyFine(procs, p, q);
    } else if step.Drop? {
      assert Fine(procs, q);
    } else {
      MoveFine(s, step, q);
    }
  }

  lemma MoveFine(s: State, step: Step, q: Obj)
    requires Inv(s) && Enabled(s, step) && q < |s.procs|
    requires step.MarkExit? || step.Register? || step.Wake? || step.StoreZombie? || step.HandDone? || step.ScanOne? ||
             (step.ScanEnd? && !Reaps(s.procs, step.p))
    ensures |Next(s, step).procs| == |s.procs| && Fine(Next(s, step).procs, q)
  {
    if step.ScanOne? {
      ScanOneFine(s, step);
    } else if step.ScanEnd? {
      ScanEndFine(s, step);
    } else {
      ActorFine(s, step);
    }
    if q != step.p {
      assert Fine(s.procs, q) && HoldsOk(s.procs, q);
      OthersFine(s.procs, Next(s, step).procs, step.p, q);
    }
  }

  // ----------------------------------------------------------------- reaping

  /** Places change, but not into or out of the reaped ones. */
  ghost predicate SamePlaces(procs: seq<Proc>, procs': seq<Proc>) {
    && |procs| <= |procs'|
    && (forall c: nat | c < |procs| ::
          (procs'[c].place.InHand? || procs'[c].place.Reaped?) <==> (procs[c].place.InHand? || procs[c].place.Reaped?))
    && (forall c: nat | |procs| <= c < |procs'| :: procs'[c].place.Listed?)
  }

  lemma PlacesSame(s: State, step: Step)
    requires Inv(s) && Enabled(s, step) && !(step.ScanEnd? && Reaps(s.procs, step.p))
    ensures SamePlaces(s.procs, Next(s, step).procs)
  {
    var procs, p := s.procs, step.p;
    Effect(s, step);
    assert HoldsOk(procs, p);
    hide Next, Enabled, Inv;
    if step.HandOne? {
      HandPlaces(procs, p);
    } else if step.ExitTake? {
      TakePlaces(procs, p, step.code);
    } else if step.Forget? {
      ForgetPlaces(procs, p);
    } else if step.Fork? || step.Notify? {
    } else {
      QuietStep(s, step);
    }
  }

  lemma HandPlaces(procs: seq<Proc>, p: Obj)
    requires p < |procs| && HoldsOk(procs, p) && procs[p].stage.Stored? && procs[p].stage.kids != []
    requires procs[p].stage.kids[0] < |procs|
    ensures SamePlaces(procs, HandedOn(procs, p))
  {
    assert procs[p].stage.kids[0] in Kids(procs[p].stage);
  }

  lemma TakePlaces(procs: seq<Proc>, p: Obj, code: int)
    requires p < |procs| && HoldsOk(procs, p)
    ensures SamePlaces(procs, TakenBy(procs, p, code))
  {
  }

  lemma ForgetPlaces(procs: seq<Proc>, p: Obj)
    requires p < |procs| && HoldsOk(procs, p) && procs[p].stage.Reaping?
    ensures procs[p].stage.child < |procs| && SamePlaces(procs, Forgotten(procs, p))
  {
  }

  lemma ReapAdds(procs: seq<Proc>, reaps: seq<Obj>, p: Obj, i: nat)
    requires ReapsOk(procs, reaps) && p < |procs| && HoldsOk(procs, p) && i < |procs[p].children|
    requires procs[p].children[i] < |procs|
    ensures ReapsOk(ReapedAt(procs, p, i), reaps + [procs[p].children[i]])
  {
    assert procs[p].children[i] in procs[p].children;
    PushIs(reaps, procs[p].children[i]);
  }

  lemma ReapsKept(s: State, step: Step)
    requires Inv(s) && Enabled(s, step)
    ensures ReapsOk(Next(s, step).procs, Next(s, step).reaps)
  {
    if step.ScanEnd? && Reaps(s.procs, step.p) {
      assert HoldsOk(s.procs, step.p);
      ReapAdds(s.procs, s.reaps, step.p, s.procs[step.p].stage.phase.found.value);
    } else {
      PlacesSame(s, step);
      SameReaps(s.procs, Next(s, step).procs, s.reaps);
    }
  }

  lemma SameReaps(procs: seq<Proc>, procs': seq<Proc>, reaps: seq<Obj>)
    requires ReapsOk(procs, reaps) && SamePlaces(procs, procs')
    ensures ReapsOk(procs', reaps)
  {
  }

  // -------------------------------------------------------------- over all runs

  lemma BootInv()
    ensures Inv(Boot())
  {
  }

  lemma StepInv(s: State, step: Step)
    requires Inv(s) && Enabled(s, step)
    ensures Inv(Next(s, step))
  {
    HeldKept(s, step);
    PidsKept(s, step);
    ManagerKept(s, step);
    ReapsKept(s, step);
    forall q: nat | q < |Next(s, step).procs| ensures Fine(Next(s, step).procs, q) { FineKept(s, step, q); }
  }

  lemma {:induction false} RunInv(s: State, steps: seq<Step>)
    requires Inv(s) && Runs(s, steps)
    ensures Inv(Run(s, steps))
    decreases |steps|
  {
    if steps != [] {
      StepInv(s, steps[0]);
      RunInv(Next(s, steps[0]), steps[1..]);
    }
  }

  ghost predicate Reachable(s: State) {
    exists steps :: Runs(Boot(), steps) && Run(Boot(), steps) == s
  }

  lemma ReachableInv(s: State)
    requires Reachable(s)
    ensures Inv(s)
  {
    var steps :| Runs(Boot(), steps) && Run(Boot(), steps) == s;
    BootInv();
    RunInv(Boot(), steps);
  }
}
