/** Signal delivery and return as a stack of saved contexts in user memory. */
module Signals {
  const SIGNALS := 31
  const U64 := 0x1_0000_0000_0000_0000
  const SIG_DFL := 0
  const SIG_IGN := 1
  const SIG_ERR := U64 - 1
  /** Bytes of a saved context: the mask, and a trap context with its float registers. */
  const FRAME_SIZE := 656
  /** The result by which a system call ends its thread, -1023 as an unsigned word. */
  const BREAK_RESULT := U64 - 1023
  const EINVAL_RESULT := U64 - 22

  const RA := 0
  const SP := 1
  const A0 := 9

  type Word = w: int | 0 <= w < U64
  type Regs = r: seq<Word> | |r| == 31 witness seq(31, _ => 0)
  datatype FloatState = Off | Initial | Clean | Dirty

  /** What is kept of a trap context: the registers, the return address, the float state and whether
      float registers are saved with it. */
  datatype Context = Context(regs: Regs, sepc: Word, fs: FloatState, floatValid: bool)
  datatype Frame = Frame(oldMask: set<nat>, oldContext: Context)
  datatype Action = Action(handler: Word, mask: set<nat>, noDefer: bool, restorer: Word)

  /** A thread, and the saved contexts in its memory by address. */
  datatype State = State(ctx: Context, mask: set<nat>, pending: set<nat>, frames: map<Word, Frame>)

  function Wrap64(x: int): Word { x % U64 }

  // --------------------------------------------------------------- signal sets

  /** The lowest pending signal: the position of the lowest set bit. */
  method FirstPending(pending: set<nat>) returns (r: nat)
    requires forall s | s in pending :: s < SIGNALS
    ensures r == SIGNALS <==> pending == {}
    ensures r < SIGNALS ==> r in pending && forall s | s in pending :: r <= s
    ensures r <= SIGNALS
  {
    r := 0;
    while r < SIGNALS && r !in pending
      invariant 0 <= r <= SIGNALS && forall s | s in pending :: r <= s
    {
      r := r + 1;
    }
  }

  /** A user's 64-bit signal set is shifted by one and cut to the 31 known signals. */
  function FromUser(bits: bv64): bv64 { (bits >> 1) & 0x7fff_ffff }
  function ToUser(signals: bv64): bv64 { signals << 1 }

  /** Known signals survive the way to the user and back; the other way around, only they do. */
  lemma MaskRoundTrip(signals: bv64, bits: bv64)
    ensures FromUser(ToUser(signals)) == signals <==> signals & 0x7fff_ffff == signals
    ensures ToUser(FromUser(bits)) == bits & 0xffff_fffe
  {
  }

  // ---------------------------------------------------------------- one signal

  datatype Default = Terminate | Ignore | CoreDump | Stop | Continue

  /** What an unhandled signal does, by its number from 0. */
  function DefaultOf(sig: nat): Default {
    if sig in {5, 6, 3, 2, 10, 30, 4, 23, 24} then CoreDump
    else if sig in {16, 22, 27} then Ignore
    else if sig in {18, 19, 20, 21} then Stop
    else if sig == 17 then Continue
    else Terminate
  }

  datatype Outcome = Nothing | Ignored(sig: nat) | Terminated(code: int) | Delivered(sig: nat) | Unimplemented

  function FrameAddr(ctx: Context): Word { Wrap64(ctx.regs[SP] - FRAME_SIZE) }

  predicate Overlaps(a: Word, b: Word) { a < b + FRAME_SIZE && b < a + FRAME_SIZE }

  /** Memory after a frame is written: whatever it covers is gone. */
  function Stored(frames: map<Word, Frame>, a: Word, f: Frame): map<Word, Frame> {
    (map b | b in frames && !Overlaps(a, b) :: frames[b])[a := f]
  }

  function Saved(s: State): Frame {
    Frame(s.mask, if s.ctx.fs.Dirty? then s.ctx.(floatValid := true) else s.ctx)
  }

  function HandlerContext(ctx: Context, sig: nat, act: Action): Context
    requires sig < SIGNALS
  {
    var regs: Regs := ctx.regs[SP := FrameAddr(ctx)][RA := act.restorer][A0 := sig + 1];
    Context(regs, act.handler, if ctx.fs.Dirty? then Clean else ctx.fs, false)
  }

  function HandlerMask(mask: set<nat>, sig: nat, act: Action): set<nat> {
    mask + act.mask + if act.noDefer then {} else {sig}
  }

  /** The state in which the handler of `sig` starts. */
  function Deliver(s: State, sig: nat, act: Action): State
    requires sig < SIGNALS
  {
    State(HandlerContext(s.ctx, sig, act), HandlerMask(s.mask, sig, act), s.pending - {sig}, Stored(s.frames, FrameAddr(s.ctx), Saved(s)))
  }

  class UserThread {
    var ctx: Context
    var mask: set<nat>
    var pending: set<nat>
    var frames: map<Word, Frame>

    constructor (ctx: Context)
      ensures View() == State(ctx, {}, {}, map[])
    {
      this.ctx, mask, pending, frames := ctx, {}, {}, map[];
    }

    function View(): State
      reads this
    {
      State(ctx, mask, pending, frames)
    }

    ghost predicate Valid()
      reads this
    {
      forall s | s in pending :: s < SIGNALS
    }

    /** Take the lowest pending signal that is not masked, and act on it. */
    method CheckSignal(actions: seq<Action>, writable: Word -> bool) returns (r: Outcome)
      requires Valid() && |actions| == SIGNALS
      modifies this
      ensures Valid()
      ensures r.Nothing? <==> old(pending) - old(mask) == {}
      ensures r.Nothing? ==> View() == old(View())
      ensures !r.Nothing? ==> exists sig :: Lowest(old(pending) - old(mask), sig) && Acted(old(View()), View(), sig, actions, writable, r)
    {
      var sig := FirstPending(pending - mask);
      if sig == SIGNALS {
        return Nothing;
      }
      pending := pending - {sig};
      assert Lowest(old(pending) - old(mask), sig);
      r := Act(sig, actions, writable, old(View()));
    }

    method Act(sig: nat, actions: seq<Action>, writable: Word -> bool, ghost before: State) returns (r: Outcome)
      requires Valid() && |actions| == SIGNALS && sig < SIGNALS && View() == before.(pending := before.pending - {sig})
      modifies this
      ensures Valid() && !r.Nothing? && Acted(before, View(), sig, actions, writable, r)
    {
      var act := actions[sig];
      if act.handler == SIG_ERR {
        return Unimplemented;
      }
      if act.handler == SIG_DFL {
        match DefaultOf(sig)
        case Terminate => return Terminated(sig - 128);
        case CoreDump => return Terminated(sig - 128);
        case Ignore => return Ignored(sig);
        case Stop => return Unimplemented;
        case Continue => return Unimplemented;
      }
      if act.handler == SIG_IGN {
        return Ignored(sig);
      }
      var oldMask := mask;
      mask := mask + act.mask;
      if !act.noDefer {
        mask := mask + {sig};
      }
      var saved := ctx;
      if ctx.fs.Dirty? {
        saved := saved.(floatValid := true);
      }
      var at := Wrap64(ctx.regs[SP] - FRAME_SIZE);
      var regs: Regs := ctx.regs[SP := at][RA := act.restorer][A0 := sig + 1];
      ctx := Context(regs, act.handler, if ctx.fs.Dirty? then Clean else ctx.fs, false);
      if at == 0 || !writable(at) {
        return Terminated(sig - 128);
      }
      frames := Stored(frames, at, Frame(oldMask, saved));
      r := Delivered(sig);
    }

    /** The system call that ends a handler, with the glue around it: step over the call instruction,
        restore what the bytes at the stack pointer say, write the result to a0. `decoded` is what bytes say where no
        saved context stands. */
    method TrapSigreturn(readable: Word -> bool, decoded: Word -> Frame) returns (breaks: bool)
      modifies this
      ensures pending == old(pending) && frames == old(frames)
      ensures var sp, past := old(ctx).regs[SP], old(ctx).(sepc := Wrap64(old(ctx).sepc + 4));
              if sp == 0 then !breaks && mask == old(mask) && ctx == past.(regs := past.regs[A0 := EINVAL_RESULT])
              else if !readable(sp) then breaks && mask == old(mask) && ctx == past
              else var f := FrameAt(old(frames), sp, decoded);
                   mask == f.oldMask && ctx == f.oldContext && (breaks <==> ctx.regs[A0] == BREAK_RESULT)
    {
      var sepc: Word := Wrap64(ctx.sepc + 4);
      ctx := ctx.(sepc := sepc);
      var sp := ctx.regs[SP];
      var result: Word;
      if sp == 0 {
        result := EINVAL_RESULT;
      } else if !readable(sp) {
        result := BREAK_RESULT;
      } else {
        var f := FrameAt(frames, sp, decoded);
        mask := f.oldMask;
        ctx := f.oldContext;
        result := ctx.regs[A0];
      }
      breaks := result == BREAK_RESULT;
      if !breaks {
        var regs: Regs := ctx.regs[A0 := result];
        assert sp != 0 ==> regs == ctx.regs;
        ctx := ctx.(regs := regs);
      }
    }
  }

  function FrameAt(frames: map<Word, Frame>, at: Word, decoded: Word -> Frame): Frame {
    if at in frames then frames[at] else decoded(at)
  }

  /** A thread interrupted while a0 held -1023 is ended by the return from its handler. */
  method ReturnCanEnd() returns (breaks: bool)
    ensures breaks
  {
    var act := Action(0x1000, {}, false, 0x2000);
    var regs: Regs := seq(31, i => if i == A0 then BREAK_RESULT else 0x8000);
    var t := new UserThread(Context(regs, 0x4000, Off, false));
    t.pending := {9};
    ghost var before := t.View();
    var r := t.CheckSignal(seq(SIGNALS, _ => act), _ => true);
    assert before.pending - before.mask == {9};
    assert t.View() == Deliver(before, 9, act);
    breaks := t.TrapSigreturn(_ => true, _ => Frame({}, Context(regs, 0, Off, false)));
  }

  predicate Lowest(signals: set<nat>, sig: nat) {
    sig in signals && forall s | s in signals :: sig <= s
  }

  /** What acting on `sig` may do, by its action. */
  ghost predicate Acted(s: State, s': State, sig: nat, actions: seq<Action>, writable: Word -> bool, r: Outcome) {
    && sig < SIGNALS == |actions|
    && var act := actions[sig];
    var quiet := s' == s.(pending := s.pending - {sig});
    if act.handler == SIG_ERR then r == Unimplemented && quiet
    else if act.handler == SIG_IGN then r == Ignored(sig) && quiet
    else if act.handler == SIG_DFL then
      quiet && match DefaultOf(sig)
               case Ignore => r == Ignored(sig)
               case Stop => r == Unimplemented
               case Continue => r == Unimplemented
               case _ => r == Terminated(sig - 128)
    else if FrameAddr(s.ctx) == 0 || !writable(FrameAddr(s.ctx)) then r == Terminated(sig - 128)
    else r == Delivered(sig) && s' == Deliver(s, sig, act)
  }
}
