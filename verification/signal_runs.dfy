/** Whole runs of a thread with nested handlers: what a return restores, and how deep handlers nest. */
module SignalRuns {
  import opened Signals

  /** A handler that has not returned: where its frame is, what is in it, and for which signal. */
  datatype Live = Live(addr: Word, frame: Frame, sig: nat)

  /** A thread with its live handlers; `over` once a return has ended it. */
  datatype Machine = Machine(s: State, stack: seq<Live>, over: bool)

  /** `Run` is user code up to the next trap: it leaves any context and memory, but for live frames. */
  datatype Step =
    | Arrive(sig: nat)
    | Take(sig: nat, act: Action)
    | Run(ctx: Context, frames: map<Word, Frame>)
    | EditMask(mask: set<nat>)
    | Return

  ghost predicate Kept(stack: seq<Live>, frames: map<Word, Frame>) {
    forall i | 0 <= i < |stack| :: stack[i].addr in frames && frames[stack[i].addr] == stack[i].frame
  }

  function Sp(m: Machine): Word { m.s.ctx.regs[SP] }

  /** A signal is taken with the stack pointer at or below the innermost live frame and room for one
      more; a handler returns with the stack pointer on its frame. */
  ghost predicate Enabled(m: Machine, step: Step) {
    && !m.over
    && match step
    case Arrive(sig) => sig < SIGNALS
    case Take(sig, act) =>
      && sig < SIGNALS && Lowest(m.s.pending - m.s.mask, sig) && Sp(m) >= FRAME_SIZE
      && (m.stack != [] ==> Sp(m) <= m.stack[|m.stack| - 1].addr)
    case Run(_, frames) => Kept(m.stack, frames)
    case EditMask(_) => true
    case Return => m.stack != [] && Sp(m) == m.stack[|m.stack| - 1].addr && Sp(m) in m.s.frames
  }

  ghost function Next(m: Machine, step: Step): Machine
    requires Enabled(m, step)
  {
    match step
    case Arrive(sig) => m.(s := m.s.(pending := m.s.pending + {sig}))
    case Take(sig, act) => Machine(Deliver(m.s, sig, act), m.stack + [Live(FrameAddr(m.s.ctx), Saved(m.s), sig)], false)
    case Run(ctx, frames) => m.(s := m.s.(ctx := ctx, frames := frames))
    case EditMask(mask) => m.(s := m.s.(mask := mask))
    case Return =>
      var f := m.s.frames[Sp(m)];
      Machine(m.s.(ctx := f.oldContext, mask := f.oldMask), m.stack[..|m.stack| - 1], f.oldContext.regs[A0] == BREAK_RESULT)
  }

  /** Live frames stand in memory as written, each below the one it interrupted. */
  ghost predicate Stacked(m: Machine) {
    && Kept(m.stack, m.s.frames)
    && forall i, j | 0 <= i < j < |m.stack| :: m.stack[j].addr + FRAME_SIZE <= m.stack[i].addr
  }

  lemma StackedKept(m: Machine, step: Step)
    requires Stacked(m) && Enabled(m, step)
    ensures Stacked(Next(m, step))
  {
    if step.Take? {
      var addr := FrameAddr(m.s.ctx);
      assert addr == Sp(m) - FRAME_SIZE;
      forall i | 0 <= i < |m.stack| ensures addr + FRAME_SIZE <= m.stack[i].addr && !Overlaps(addr, m.stack[i].addr) {
        var n := |m.stack| - 1;
        if i < n { assert m.stack[n].addr + FRAME_SIZE <= m.stack[i].addr; }
      }
    }
  }

  /** A run during which the handler at depth `d` is live, and whose last step ends it. */
  ghost predicate Nested(m: Machine, steps: seq<Step>, d: nat)
    decreases |steps|
  {
    && steps != [] && Enabled(m, steps[0])
    && var m' := Next(m, steps[0]);
       if |steps| == 1 then |m'.stack| == d else |m'.stack| > d && Nested(m', steps[1..], d)
  }

  ghost function Last(m: Machine, steps: seq<Step>, d: nat): Machine
    requires Nested(m, steps, d)
    decreases |steps|
  {
    if |steps| == 1 then Next(m, steps[0]) else Last(Next(m, steps[0]), steps[1..], d)
  }

  lemma {:induction false} NestedRestores(m: Machine, steps: seq<Step>, d: nat)
    requires Stacked(m) && |m.stack| > d && Nested(m, steps, d)
    ensures var last := Last(m, steps, d);
            && last.s.ctx == m.stack[d].frame.oldContext && last.s.mask == m.stack[d].frame.oldMask
            && last.stack == m.stack[..d] && Stacked(last) && (last.over <==> last.s.ctx.regs[A0] == BREAK_RESULT)
    decreases |steps|
  {
    StackedKept(m, steps[0]);
    var m' := Next(m, steps[0]);
    if |steps| > 1 {
      assert m'.stack[..d] == m.stack[..d] && m'.stack[d] == m.stack[d];
      NestedRestores(m', steps[1..], d);
    }
  }

  /** However handlers nest, and whatever they do to the mask, when the handler of a signal has
      returned, every integer register, the return address and the mask are what they were when the
      signal was taken; and the thread goes on exactly when the interrupted a0 did not hold -1023. */
  lemma DeliveryUndone(m: Machine, sig: nat, act: Action, steps: seq<Step>)
    requires Stacked(m) && Enabled(m, Take(sig, act)) && Nested(Next(m, Take(sig, act)), steps, |m.stack|)
    ensures var last := Last(Next(m, Take(sig, act)), steps, |m.stack|);
            && last.s.ctx.regs == m.s.ctx.regs && last.s.ctx.sepc == m.s.ctx.sepc && last.s.ctx.fs == m.s.ctx.fs
            && (m.s.ctx.fs.Dirty? ==> last.s.ctx.floatValid)
            && last.s.mask == m.s.mask && last.stack == m.stack && Stacked(last)
            && (last.over <==> m.s.ctx.regs[A0] == BREAK_RESULT)
  {
    StackedKept(m, Take(sig, act));
    NestedRestores(Next(m, Take(sig, act)), steps, |m.stack|);
  }

  // ------------------------------------------------------------------- depth

  predicate Deferring(step: Step) {
    !step.EditMask? && (step.Take? ==> !step.act.noDefer)
  }

  ghost predicate AllMasked(stack: seq<Live>, n: nat, mask: set<nat>)
    requires n <= |stack|
  {
    forall i | 0 <= i < n :: stack[i].sig in mask
  }

  /** Every live handler's signal is masked, and was when each deeper one was taken. */
  ghost predicate Masked(m: Machine) {
    && AllMasked(m.stack, |m.stack|, m.s.mask)
    && (forall j | 0 <= j < |m.stack| :: AllMasked(m.stack, j, m.stack[j].frame.oldMask))
    && (forall i, j | 0 <= i < j < |m.stack| :: m.stack[i].sig != m.stack[j].sig)
    && (forall i | 0 <= i < |m.stack| :: m.stack[i].sig < SIGNALS)
  }

  lemma MaskedKept(m: Machine, step: Step)
    requires Stacked(m) && Masked(m) && Enabled(m, step) && Deferring(step)
    ensures Masked(Next(m, step))
  {
    var m' := Next(m, step);
    if step.Return? {
      var n := |m.stack| - 1;
      assert m.s.frames[Sp(m)] == m.stack[n].frame && AllMasked(m.stack, n, m.stack[n].frame.oldMask);
      forall j | 0 <= j < n ensures AllMasked(m'.stack, j, m'.stack[j].frame.oldMask) {
        assert AllMasked(m.stack, j, m.stack[j].frame.oldMask);
      }
    } else if step.Take? {
      forall j | 0 <= j < |m'.stack| ensures AllMasked(m'.stack, j, m'.stack[j].frame.oldMask) {
        if j < |m.stack| { assert AllMasked(m.stack, j, m.stack[j].frame.oldMask); }
      }
    }
  }

  ghost predicate Runs(m: Machine, steps: seq<Step>)
    decreases |steps|
  {
    steps == [] || (Enabled(m, steps[0]) && Runs(Next(m, steps[0]), steps[1..]))
  }

  ghost function End(m: Machine, steps: seq<Step>): Machine
    requires Runs(m, steps)
    decreases |steps|
  {
    if steps == [] then m else End(Next(m, steps[0]), steps[1..])
  }

  lemma {:induction false} MaskedRun(m: Machine, steps: seq<Step>)
    requires Stacked(m) && Masked(m) && Runs(m, steps) && forall i | 0 <= i < |steps| :: Deferring(steps[i])
    ensures Stacked(End(m, steps)) && Masked(End(m, steps))
    decreases |steps|
  {
    if steps != [] {
      StackedKept(m, steps[0]);
      MaskedKept(m, steps[0]);
      MaskedRun(Next(m, steps[0]), steps[1..]);
    }
  }

  lemma {:induction false} FewDistinct(xs: seq<nat>, n: nat)
    requires (forall i | 0 <= i < |xs| :: xs[i] < n) && forall i, j | 0 <= i < j < |xs| :: xs[i] != xs[j]
    ensures |xs| <= n
  {
    if xs != [] {
      assert xs[0] < n;
      var top: nat := n - 1;
      if top in xs {
        var k :| 0 <= k < |xs| && xs[k] == top;
        FewDistinct(xs[..k] + xs[k + 1..], top);
      } else {
        assert forall i | 0 <= i < |xs| :: xs[i] in xs;
        FewDistinct(xs, top);
      }
    }
  }

  /** Without SA_NODEFER and without mask edits, at most 31 handlers are ever live at once. */
  lemma DepthBound(s: State, steps: seq<Step>)
    requires Runs(Machine(s, [], false), steps) && forall i | 0 <= i < |steps| :: Deferring(steps[i])
    ensures |End(Machine(s, [], false), steps).stack| <= SIGNALS
  {
    MaskedRun(Machine(s, [], false), steps);
    var stack := End(Machine(s, [], false), steps).stack;
    FewDistinct(seq(|stack|, i requires 0 <= i < |stack| => stack[i].sig), SIGNALS);
  }
}
