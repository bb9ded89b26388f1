/** The fill protocol of one cached page, for any number of readers and writers at once. The page
    starts as a zeroed frame; locks only remove interleavings, so only the state guard is kept. */
module PageFill {
  import opened Common
  import opened Sv39

  datatype PageState = Invalid | Synced | Dirty

  /** A writer brings bytes for a place in the page, and whether it wants the page filled first. */
  datatype Role = Reader | Writer(wantsFill: bool, at: nat, data: seq<Byte>)

  datatype Pc =
    | Entering(role: Role)
    | WantsGuard(role: Role)
    | Checking(role: Role)
    | Filling(role: Role)
    | Storing(role: Role)
    | Ready(role: Role)
    | Done

  /** History: `fills` counts finished fills, `log` has the writers' copies in order, `start` is what the frame held
      before the fill, and `failed` says whether a failed read has left bytes in it. */
  datatype State = State(state: PageState, guard: Option<nat>, content: seq<Byte>, agents: map<nat, Pc>,
                         fills: nat, log: seq<Role>, start: seq<Byte>, failed: bool)

  datatype Step =
    | Enter(a: nat, role: Role)
    | LoadState(a: nat)
    | LockGuard(a: nat)
    | Recheck(a: nat)
    | Fill(a: nat)
    | FillFails(a: nat, left: seq<Byte>)
    | Store(a: nat)
    | Copy(a: nat)

  /** Bytes copied over a page, as far as they fit. */
  function Patch(page: seq<Byte>, at: nat, data: seq<Byte>): (r: seq<Byte>)
    ensures |r| == |page|
  {
    seq(|page|, i requires 0 <= i < |page| => if at <= i < at + |data| then data[i - at] else page[i])
  }

  function Patched(page: seq<Byte>, log: seq<Role>): seq<Byte> {
    if log == [] then page else
      var before := Patched(page, log[..|log| - 1]);
      var w := log[|log| - 1];
      if w.Writer? then Patch(before, w.at, w.data) else before
  }

  predicate HoldsGuard(pc: Pc) { pc.Checking? || pc.Filling? || pc.Storing? }

  function Begin(zero: seq<Byte>): State { State(Invalid, None, zero, map[], 0, [], zero, false) }

  ghost predicate Enabled(s: State, step: Step) {
    if step.Enter? then step.a !in s.agents else
      && step.a in s.agents
      && var pc := s.agents[step.a];
      match step
      case LoadState(_) => pc.Entering?
      case LockGuard(_) => pc.WantsGuard? && s.guard.None?
      case Recheck(_) => pc.Checking?
      case Fill(_) => pc.Filling?
      case FillFails(_, left) => pc.Filling? && |left| == |s.content|
      case Store(_) => pc.Storing?
      case Copy(_) => pc.Ready?
  }

  /** One step of one agent; `back` is what the file behind holds for this page, less than a page at its end. A read
      that fails may leave anything in the frame; the page then stays `Invalid`. */
  ghost function Next(s: State, step: Step, back: seq<Byte>): State
    requires Enabled(s, step)
  {
    var a := step.a;
    match step
    case Enter(_, role) => s.(agents := s.agents[a := Entering(role)])
    case LoadState(_) =>
      var role := s.agents[a].role;
      s.(agents := s.agents[a := if s.state.Invalid? then WantsGuard(role) else Ready(role)])
    case LockGuard(_) => s.(guard := Some(a), agents := s.agents[a := Checking(s.agents[a].role)])
    case Recheck(_) =>
      var role := s.agents[a].role;
      if s.state.Invalid? && (role.Reader? || role.wantsFill) then s.(agents := s.agents[a := Filling(role)])
      else if role.Reader? then s.(guard := None, agents := s.agents[a := Ready(role)])
      else s.(agents := s.agents[a := Storing(role)])
    case Fill(_) => s.(content := Patch(s.content, 0, back), fills := s.fills + 1, agents := s.agents[a := Storing(s.agents[a].role)])
    case FillFails(_, left) => s.(content := left, start := left, failed := true, guard := None, agents := s.agents[a := Done])
    case Store(_) =>
      var role := s.agents[a].role;
      s.(state := if role.Reader? then Synced else Dirty, guard := None, agents := s.agents[a := Ready(role)])
    case Copy(_) =>
      var role := s.agents[a].role;
      if role.Reader? then s.(agents := s.agents[a := Done])
      else s.(content := Patch(s.content, role.at, role.data), log := s.log + [role], agents := s.agents[a := Done])
  }

  /** Exactly the holder of the guard is past taking it. */
  ghost predicate GuardOk(s: State) {
    && (forall a | a in s.agents :: HoldsGuard(s.agents[a]) <==> s.guard == Some(a))
    && (s.guard.Some? ==> s.guard.value in s.agents)
  }

  ghost predicate AgentsOk(s: State) {
    forall a | a in s.agents :: AgentOk(s, s.agents[a])
  }

  /** An `Invalid` page has no copies, and at most the fill of a holder that has not stored yet. */
  ghost predicate FillsOk(s: State) {
    s.fills <= 1 &&
    (s.state.Invalid? ==> s.log == [] && (s.fills == 1 ==> s.guard.Some? && s.guard.value in s.agents && s.agents[s.guard.value].Storing?))
  }

  ghost predicate ContentOk(s: State, zero: seq<Byte>, back: seq<Byte>) {
    s.content == Patched(Filled(s, back), s.log) && |s.start| == |s.content| == |zero| && (!s.failed ==> s.start == zero)
  }

  ghost predicate Inv(s: State, zero: seq<Byte>, back: seq<Byte>) {
    GuardOk(s) && AgentsOk(s) && FillsOk(s) && ContentOk(s, zero, back)
  }

  /** What the frame held when the first copy came. */
  ghost function Filled(s: State, back: seq<Byte>): seq<Byte> {
    if s.fills == 1 then Patch(s.start, 0, back) else s.start
  }

  ghost predicate AgentOk(s: State, pc: Pc) {
    && (pc.Filling? ==> s.state.Invalid? && s.fills == 0)
    && (pc.Ready? ==> !s.state.Invalid?)
  }

  lemma StepInv(s: State, step: Step, zero: seq<Byte>, back: seq<Byte>)
    requires Inv(s, zero, back) && Enabled(s, step)
    ensures Inv(Next(s, step, back), zero, back)
  {
    hide GuardOk, AgentsOk, FillsOk, ContentOk, Enabled, Next;
    GuardKept(s, step, back);
    AgentsKept(s, step, back);
    FillsKept(s, step, back);
    ContentKept(s, step, zero, back);
  }

  lemma GuardKept(s: State, step: Step, back: seq<Byte>)
    requires GuardOk(s) && Enabled(s, step)
    ensures GuardOk(Next(s, step, back))
  {
  }

  lemma AgentsKept(s: State, step: Step, back: seq<Byte>)
    requires GuardOk(s) && AgentsOk(s) && FillsOk(s) && Enabled(s, step)
    ensures AgentsOk(Next(s, step, back))
  {
    var s' := Next(s, step, back);
    forall a | a in s'.agents ensures AgentOk(s', s'.agents[a]) {
      if a in s.agents { assert AgentOk(s, s.agents[a]); }
    }
  }

  lemma FillsKept(s: State, step: Step, back: seq<Byte>)
    requires GuardOk(s) && AgentsOk(s) && FillsOk(s) && Enabled(s, step)
    ensures FillsOk(Next(s, step, back))
  {
    if step.a in s.agents { assert AgentOk(s, s.agents[step.a]); }
  }

  /** The bytes of the page, step by step. */
  lemma ContentKept(s: State, step: Step, zero: seq<Byte>, back: seq<Byte>)
    requires AgentsOk(s) && FillsOk(s) && ContentOk(s, zero, back) && Enabled(s, step)
    ensures ContentOk(Next(s, step, back), zero, back)
  {
    var s' := Next(s, step, back);
    if step.Copy? && s.agents[step.a].role.Writer? {
      assert s'.log[..|s'.log| - 1] == s.log;
    } else if step.Fill? || step.FillFails? {
      assert AgentOk(s, s.agents[step.a]);
    }
  }

  ghost predicate Runs(s: State, steps: seq<Step>, back: seq<Byte>)
    decreases |steps|
  {
    steps == [] || (Enabled(s, steps[0]) && Runs(Next(s, steps[0], back), steps[1..], back))
  }

  ghost function Run(s: State, steps: seq<Step>, back: seq<Byte>): State
    requires Runs(s, steps, back)
    decreases |steps|
  {
    if steps == [] then s else Run(Next(s, steps[0], back), steps[1..], back)
  }

  lemma {:induction false} RunInv(s: State, steps: seq<Step>, zero: seq<Byte>, back: seq<Byte>)
    requires Inv(s, zero, back) && Runs(s, steps, back)
    ensures Inv(Run(s, steps, back), zero, back)
    ensures !s.state.Invalid? ==> !Run(s, steps, back).state.Invalid? && Run(s, steps, back).fills == s.fills
    decreases |steps|
  {
    if steps != [] {
      StepInv(s, steps[0], zero, back);
      if steps[0].Fill? { assert AgentOk(s, s.agents[steps[0].a]); }
      RunInv(Next(s, steps[0], back), steps[1..], zero, back);
    }
  }

  /** In every run the page is filled at most once, and what it holds is what the fill or the frame before it
      put there with every writer's copy on top, in order: no fill ever covered a copy. The frame was the fresh one
      unless a read failed; a fill of a whole page leaves nothing of it. */
  lemma FilledOnce(steps: seq<Step>, zero: seq<Byte>, back: seq<Byte>)
    requires Runs(Begin(zero), steps, back)
    ensures var s := Run(Begin(zero), steps, back);
            && s.fills <= 1
            && s.content == Patched(if s.fills == 1 then Patch(s.start, 0, back) else s.start, s.log)
            && (!s.failed ==> s.start == zero) && (s.fills == 1 && |back| == |zero| ==> s.content == Patched(back, s.log))
            && (s.state.Invalid? ==> s.log == [])
  {
    RunInv(Begin(zero), steps, zero, back);
    var s := Run(Begin(zero), steps, back);
    assert |back| == |zero| ==> Patch(s.start, 0, back) == back;
  }

  ghost predicate Copied(log: seq<Role>, i: nat) {
    exists k :: 0 <= k < |log| && log[k].Writer? && log[k].at <= i < log[k].at + |log[k].data|
  }

  /** A byte of the page is the frame's own exactly where no copy went; elsewhere the frame does not matter. */
  lemma {:induction false} PatchedAt(page: seq<Byte>, other: seq<Byte>, log: seq<Role>, i: nat)
    requires i < |page| == |other|
    ensures |Patched(page, log)| == |page| && |Patched(other, log)| == |page|
    ensures Patched(page, log)[i] == if Copied(log, i) then Patched(other, log)[i] else page[i]
  {
    if log != [] {
      var n := |log| - 1;
      PatchedAt(page, other, log[..n], i);
      if Copied(log[..n], i) {
        var k :| 0 <= k < n && log[..n][k].Writer? && log[..n][k].at <= i < log[..n][k].at + |log[..n][k].data|;
        assert log[k] == log[..n][k];
      }
      if Copied(log, i) && !(log[n].Writer? && log[n].at <= i < log[n].at + |log[n].data|) {
        var k :| 0 <= k < |log| && log[k].Writer? && log[k].at <= i < log[k].at + |log[k].data|;
        assert log[..n][k] == log[k];
      }
    }
  }

  /** What the page would hold had no read failed. */
  ghost function Clean(s: State, zero: seq<Byte>, back: seq<Byte>): seq<Byte> {
    Patched(if s.fills == 1 then Patch(zero, 0, back) else zero, s.log)
  }

  /** What a failed read left shows in byte `i` exactly where neither the fill nor a copy went. */
  lemma StaleByte(steps: seq<Step>, zero: seq<Byte>, back: seq<Byte>, i: nat)
    requires Runs(Begin(zero), steps, back) && i < |zero|
    ensures var s := Run(Begin(zero), steps, back);
            && |s.content| == |s.start| == |Clean(s, zero, back)| == |zero|
            && if (s.fills == 1 && i < |back|) || Copied(s.log, i) then s.content[i] == Clean(s, zero, back)[i]
               else s.content[i] == s.start[i] && Clean(s, zero, back)[i] == zero[i]
  {
    RunInv(Begin(zero), steps, zero, back);
    var s := Run(Begin(zero), steps, back);
    var clean := if s.fills == 1 then Patch(zero, 0, back) else zero;
    PatchedAt(Filled(s, back), clean, s.log, i);
    PatchedAt(clean, Filled(s, back), s.log, i);
  }

  ghost predicate Reached(s: State, zero: seq<Byte>, back: seq<Byte>) {
    exists steps :: Runs(Begin(zero), steps, back) && Run(Begin(zero), steps, back) == s
  }

  lemma {:induction false} RunAppend(s: State, steps: seq<Step>, step: Step, back: seq<Byte>)
    requires Runs(s, steps, back) && Enabled(Run(s, steps, back), step)
    ensures Runs(s, steps + [step], back) && Run(s, steps + [step], back) == Next(Run(s, steps, back), step, back)
    decreases |steps|
  {
    if steps == [] {
      assert Runs(Next(s, step, back), [], back) && [step][1..] == [];
    } else {
      assert (steps + [step])[1..] == steps[1..] + [step];
      RunAppend(Next(s, steps[0], back), steps[1..], step, back);
    }
  }

  lemma Go(s: State, step: Step, zero: seq<Byte>, back: seq<Byte>) returns (s': State)
    requires Reached(s, zero, back) && Enabled(s, step)
    ensures s' == Next(s, step, back) && Reached(s', zero, back)
  {
    var steps :| Runs(Begin(zero), steps, back) && Run(Begin(zero), steps, back) == s;
    RunAppend(Begin(zero), steps, step, back);
    s' := Next(s, step, back);
  }

  /** A reader's read fails and leaves anything at all in the frame. */
  lemma ReadFails(zero: seq<Byte>, left: seq<Byte>, back: seq<Byte>) returns (s: State)
    requires |left| == |zero|
    ensures Reached(s, zero, back) && s == State(Invalid, None, left, map[0 := Done], 0, [], left, true)
  {
    assert Runs(Begin(zero), [], back) && Run(Begin(zero), [], back) == Begin(zero);
    s := Go(Begin(zero), Enter(0, Reader), zero, back);
    s := Go(s, LoadState(0), zero, back);
    s := Go(s, LockGuard(0), zero, back);
    s := Go(s, Recheck(0), zero, back);
    s := Go(s, FillFails(0, left), zero, back);
  }

  /** Then a writer that does not fill first makes it visible to every later reader. */
  lemma FailedReadShows(zero: seq<Byte>, left: seq<Byte>, back: seq<Byte>) returns (s: State)
    requires |left| == |zero|
    ensures Reached(s, zero, back) && !s.state.Invalid? && s.content == left && Clean(s, zero, back) == zero
  {
    var w := Writer(false, 0, []);
    s := ReadFails(zero, left, back);
    s := Go(s, Enter(1, w), zero, back);
    s := Go(s, LoadState(1), zero, back);
    s := Go(s, LockGuard(1), zero, back);
    s := Go(s, Recheck(1), zero, back);
    s := Go(s, Store(1), zero, back);
  }

  /** Whoever is about to copy finds the page out of `Invalid`, and it never goes back. */
  lemma NeverInvalidAgain(steps: seq<Step>, more: seq<Step>, a: nat, zero: seq<Byte>, back: seq<Byte>)
    requires Runs(Begin(zero), steps, back) && Runs(Run(Begin(zero), steps, back), more, back)
    requires a in Run(Begin(zero), steps, back).agents && Run(Begin(zero), steps, back).agents[a].Ready?
    ensures var s := Run(Begin(zero), steps, back);
            !s.state.Invalid? && !Run(s, more, back).state.Invalid? && Run(s, more, back).fills == s.fills
  {
    var s := Run(Begin(zero), steps, back);
    RunInv(Begin(zero), steps, zero, back);
    assert AgentOk(s, s.agents[a]);
    RunInv(s, more, zero, back);
  }
}
