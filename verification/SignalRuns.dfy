/**
 Whole runs of signal delivery and return: handlers nest, every return restores what its delivery
 interrupted, blocked signals wait, and SIGKILL and SIGSTOP stay out of reach.
 */
module SignalRuns {
  import opened Options
  import opened Processes
  import opened Sectors
  import opened Signals

  datatype Event =
    | Deliver
    | Return
    | Send(i: nat)
    | Action(sig: int, handler: Word, use: bool, restorer: Word)
    | Procmask(how: How, v: set<nat>)
    | Suspend(v: set<nat>)
    | User(regs: Regs, mem: seq<Byte>)

  /** One event in the life of a process; none when it is killed. */
  function Step(m: Machine, e: Event): (r: Option<Machine>)
    requires Shape(m)
    ensures r.Some? ==> Shape(r.value)
  {
    match e
    case Deliver => (var d := Signals.Deliver(m); if d.Dead? then None else Some(d.next))
    case Return => Some(Signals.Return(m).1)
    case Send(i) => Some(m.(sig := m.sig.(pending := m.sig.pending + {i})))
    case Action(sig, handler, use, restorer) => Some(m.(sig := SetAction(m.sig, sig, handler, use, restorer)))
    case Procmask(how, v) => Some(m.(sig := Mask(m.sig, how, v)))
    case Suspend(v) => Some(m.(sig := Mask(m.sig, SetMask, v)))
    case User(regs, mem) => if |mem| == |m.mem| then Some(m.(regs := regs, mem := mem)) else Some(m)
  }

  /** `ms[k + 1]` is what event `es[k]` makes of `ms[k]`. */
  ghost predicate Trace(ms: seq<Machine>, es: seq<Event>) {
    && |ms| == |es| + 1 && (forall k | 0 <= k < |ms| :: Shape(ms[k]))
    && forall k | 0 <= k < |es| :: Step(ms[k], es[k]) == Some(ms[k + 1])
  }

  // ---------------------------------------------------------------- one delivery

  /** `n` is `m` with a handler entered: one more frame just below the stack, nothing else overwritten. */
  predicate OneMore(m: Machine, n: Machine) {
    && Shape(m) && Shape(n) && m.regs.esp >= FRAME && GoodBase(m.regs.esp - FRAME)
    && n.sig.frames == m.sig.frames + [m.regs.esp - FRAME] && n.regs.esp == m.regs.esp - FRAME - 8
    && FrameAt(n.mem, m.regs.esp - FRAME) == FrameWords(m.regs)
    && forall x | 0 <= x < |m.mem| && !(m.regs.esp - FRAME - 8 <= x < m.regs.esp) :: n.mem[x] == m.mem[x]
  }

  /** The words from the third on are the frame. */
  lemma FrameBack(mem: seq<Byte>, at: nat, ws: seq<Word>, base: nat)
    requires |ws| == 14 && at + 56 <= |mem| && base == at + 8
    ensures FrameAt(Splice(mem, at, Words(ws)), base) == ws[2..]
  {
    var next := Splice(mem, at, Words(ws));
    forall k | 0 <= k < 12 ensures ReadWord(next, base + 4 * k) == ws[2 + k] {
      ReadBack(mem, at, ws, 2 + k, base + 4 * k);
    }
    FrameIs(next, base, ws[2..]);
  }

  lemma FrameIs(mem: seq<Byte>, base: nat, ws: seq<Word>)
    requires |ws| == 12 && base + FRAME <= |mem| && forall k | 0 <= k < 12 :: ReadWord(mem, base + 4 * k) == ws[k]
    ensures FrameAt(mem, base) == ws
  {
  }

  lemma PushedFrame(m: Machine, sig: nat)
    requires Shape(m) && sig < NSIG && m.regs.esp >= FRAME && GoodBase(m.regs.esp - FRAME)
    ensures FrameAt(Pushed(m, sig), m.regs.esp - FRAME) == FrameWords(m.regs)
  {
    FrameBack(m.mem, m.regs.esp - FRAME - 8, StackWords(m, sig), m.regs.esp - FRAME);
  }

  lemma EnterFrame(m: Machine, sig: nat)
    requires Shape(m) && 0 < sig < NSIG && Enter(m, sig).Entered?
    ensures OneMore(m, Enter(m, sig).next)
  {
    PushedFrame(m, sig);
  }

  lemma TakeFrame(m: Machine, gone: set<nat>, e: nat)
    requires Shape(m) && 0 < e < NSIG && Acts(m.sig, e) && !Take(Without(m, gone), e).Dead?
    ensures Take(Without(m, gone), e).Entered? && OneMore(m, Take(Without(m, gone), e).next)
  {
    EnterFrame(Without(m, gone), e);
  }

  /** A delivery that leaves the process alive enters one handler or leaves registers, memory and frames alone. */
  lemma DeliverFrame(m: Machine)
    requires Shape(m) && !Signals.Deliver(m).Dead?
    ensures var d := Signals.Deliver(m);
            if d.Entered? then OneMore(m, d.next)
            else d.next.regs == m.regs && d.next.mem == m.mem && d.next.sig.frames == m.sig.frames
  {
    if i :| i in Deliverable(m.sig) && Acts(m.sig, i) {
      var e := FirstExists(m.sig, i);
      DeliverTakes(m, e);
      TakeFrame(m, UpTo(m.sig, e), e);
    } else {
      DeliverQuiet(m);
    }
  }

  // ---------------------------------------------------------------- what a handler finds

  /** Process `n` is about to run the handler of `e`: where, with which argument and return address, and over which frame. */
  predicate Runs(m: Machine, e: nat, n: Machine) {
    && Shape(m) && Shape(n) && e < NSIG && m.regs.esp >= FRAME + 8 && m.regs.esp <= |n.mem|
    && var (r, top) := (m.regs, m.regs.esp - FRAME - 8);
       && n.regs == r.(eip := m.sig.handler[e], eax := e, esp := top)
       && ReadWord(n.mem, top) == (if m.sig.restorer[e] != 0 then m.sig.restorer[e] else SIGTRAMP)
       && ReadWord(n.mem, top + 4) == e
       && FrameAt(n.mem, top + 8) == [r.eax, r.ebx, r.ecx, r.edx, r.esi, r.edi, r.ebp, r.esp, r.eflags, r.fs, r.gs, r.eip]
  }

  lemma PushedWords(m: Machine, sig: nat)
    requires Shape(m) && sig < NSIG && m.regs.esp >= FRAME && GoodBase(m.regs.esp - FRAME)
    ensures var top := m.regs.esp - FRAME - 8;
            && ReadWord(Pushed(m, sig), top) == (if m.sig.restorer[sig] != 0 then m.sig.restorer[sig] else SIGTRAMP)
            && ReadWord(Pushed(m, sig), top + 4) == sig
  {
    var top, ws := m.regs.esp - FRAME - 8, StackWords(m, sig);
    ReadBack(m.mem, top, ws, 0, top);
    ReadBack(m.mem, top, ws, 1, top + 4);
  }

  lemma EnterRuns(m: Machine, sig: nat)
    requires Shape(m) && 0 < sig < NSIG && Enter(m, sig).Entered?
    ensures Runs(m, sig, Enter(m, sig).next)
  {
    PushedFrame(m, sig);
    PushedWords(m, sig);
  }

  /** The conditions under which a handler is entered. */
  predicate CanEnter(m: Machine, e: nat)
    requires Shape(m) && e < NSIG
  {
    m.sig.handler[e] != DFL && |m.sig.frames| < DEPTH && USER_BASE + FRAME <= m.regs.esp < SIGTRAMP + FRAME
  }

  /** The code a process ends with that cannot. */
  function ExitCode(m: Machine, e: nat): (c: nat)
    requires Shape(m) && e < NSIG
  {
    if m.sig.handler[e] == DFL || |m.sig.frames| >= DEPTH then 128 + e else 139
  }

  lemma TakeRuns(m: Machine, gone: set<nat>, e: nat)
    requires Shape(m) && 0 < e < NSIG && Acts(m.sig, e) && CanEnter(m, e)
    ensures var d := Take(Without(m, gone), e);
            && d.Entered? && Runs(m, e, d.next) && OneMore(m, d.next)
            && d.next.sig == m.sig.(pending := m.sig.pending - gone, frames := m.sig.frames + [m.regs.esp - FRAME])
  {
    EnterRuns(Without(m, gone), e);
    EnterFrame(Without(m, gone), e);
  }

  lemma TakeEnds(m: Machine, gone: set<nat>, e: nat)
    requires Shape(m) && 0 < e < NSIG && Acts(m.sig, e) && !CanEnter(m, e)
    ensures Take(Without(m, gone), e) == Dead(Without(m, gone), ExitCode(m, e), m.sig.handler[e] != DFL)
  {
  }

  /**
   What becomes of the lowest ready signal that does something. Its handler runs, if it has one, unless
   four handlers are active already or the stack is outside the window; then, and by default, the process
   ends with the code its parent will see. The signal and the ready ones below it are no longer pending.
   */
  lemma HandlerRuns(m: Machine, e: nat)
    requires Shape(m) && First(m.sig, e)
    ensures var (d, gone) := (Signals.Deliver(m), UpTo(m.sig, e));
            if CanEnter(m, e) then
              && d.Entered? && Runs(m, e, d.next) && OneMore(m, d.next)
              && d.next.sig == m.sig.(pending := m.sig.pending - gone, frames := m.sig.frames + [m.regs.esp - FRAME])
            else d == Dead(Without(m, gone), ExitCode(m, e), m.sig.handler[e] != DFL)
  {
    DeliverTakes(m, e);
    if CanEnter(m, e) {
      TakeRuns(m, UpTo(m.sig, e), e);
    } else {
      TakeEnds(m, UpTo(m.sig, e), e);
    }
  }

  /** The only ready signal is the first to act on. */
  lemma OnlyFirst(s: Sig, e: nat)
    requires |s.handler| == NSIG && s.pending == {e} && e !in s.blocked && 0 < e < NSIG && Acts(s, e)
    ensures First(s, e)
  {
    assert Deliverable(s) == {e};
  }

  /** A handler set for a signal, then that signal: the handler runs and returns where it was told to. */
  lemma CaughtRuns(m: Machine, i: nat, handler: Word, use: bool, restorer: Word)
    requires Shape(m) && m.sig.pending == {} && i !in m.sig.blocked && |m.sig.frames| < DEPTH
    requires USER_BASE + FRAME <= m.regs.esp < SIGTRAMP + FRAME
    requires 0 < i < NSIG && i != KILL && i != STOP && handler != DFL && handler != IGN
    ensures var ready := Step(m, Action(i, handler, use, restorer)).value;
            var sent := Step(ready, Send(i)).value;
            var d := Signals.Deliver(sent);
            && d.Entered? && d.next.regs.eip == handler && d.next.regs.eax == i && d.next.regs.esp == m.regs.esp - FRAME - 8
            && ReadWord(d.next.mem, d.next.regs.esp) == (if use && restorer != 0 then restorer else SIGTRAMP)
  {
    var ready := Step(m, Action(i, handler, use, restorer)).value;
    var sent := Step(ready, Send(i)).value;
    OnlyFirst(sent.sig, i);
    HandlerRuns(sent, i);
  }

  /** A blocked signal waits, whatever its action; unblocked, it is acted on. */
  lemma BlockedThenRuns(m: Machine, i: nat)
    requires Shape(m) && m.sig.pending == {} && 0 < i < NSIG && i != KILL && i != STOP && Acts(m.sig, i)
    ensures var held := Step(Step(m, Procmask(Block, {i})).value, Send(i)).value;
            var free := Step(held, Procmask(Unblock, {i})).value;
            && Signals.Deliver(held) == Quiet(held) && i in held.sig.pending
            && !Signals.Deliver(free).Quiet? && i !in Signals.Deliver(free).next.sig.pending
  {
    var held := Step(Step(m, Procmask(Block, {i})).value, Send(i)).value;
    var free := Step(held, Procmask(Unblock, {i})).value;
    assert Deliverable(held.sig) == {};
    DeliverQuiet(held);
    assert held.sig.pending - {} == held.sig.pending;
    OnlyFirst(free.sig, i);
    HandlerRuns(free, i);
    assert i in UpTo(free.sig, i);
  }

  /** Signal `i` would be looked at by the next delivery. */
  predicate IsReady(m: Machine, i: nat) { i in Deliverable(m.sig) }

  /**
   What a change of the mask makes ready, signal by signal. Blocking takes the named signals away, unblocking
   gives the named ones that are pending, setting the mask decides for all; SIGKILL and SIGSTOP cannot be
   held back, and sigsuspend sets the mask in the same way.
   */
  lemma MaskDecides(m: Machine, v: set<nat>, i: nat)
    requires Shape(m) && 0 < i < NSIG
    ensures var pending := i in m.sig.pending;
            var fixed := i == KILL || i == STOP;
            && (IsReady(Step(m, Procmask(Block, v)).value, i) <==> IsReady(m, i) && (i !in v || fixed))
            && (IsReady(Step(m, Procmask(Unblock, v)).value, i) <==> IsReady(m, i) || (pending && i in v && !fixed))
            && (IsReady(Step(m, Procmask(SetMask, v)).value, i) <==> pending && (i !in v || fixed))
            && (IsReady(Step(m, Suspend(v)).value, i) <==> pending && (i !in v || fixed))
            && (IsReady(Step(m, Procmask(Unknown, v)).value, i) <==> IsReady(m, i))
  {
  }

  /** Setting a signal to be ignored or to its default drops it if it is pending, and no other one; a handler drops none. */
  lemma ActionPending(m: Machine, i: nat, handler: Word, use: bool, restorer: Word, j: nat)
    requires Shape(m) && 0 < i < NSIG && i != KILL && i != STOP
    ensures var n := Step(m, Action(i, handler, use, restorer)).value;
            && (j in n.sig.pending <==> j in m.sig.pending && !(j == i && (handler == DFL || handler == IGN)))
            && n.sig.handler[i] == handler && (j < NSIG && j != i ==> n.sig.handler[j] == m.sig.handler[j])
            && n.sig.blocked == m.sig.blocked && n.regs == m.regs && n.mem == m.mem
  {
  }

  /** A child inherits handlers and mask, but neither pending signals nor frames: what its parent catches, it catches. */
  lemma ChildCatches(m: Machine, i: nat)
    requires Shape(m) && 0 < i < NSIG && i !in m.sig.blocked && m.sig.handler[i] != DFL && m.sig.handler[i] != IGN
    requires USER_BASE + FRAME <= m.regs.esp < SIGTRAMP + FRAME
    ensures var child := m.(sig := Inherit(m.sig));
            && Signals.Deliver(child).Quiet? && (forall j :: j in child.sig.blocked <==> j in m.sig.blocked)
            && var d := Signals.Deliver(Step(child, Send(i)).value);
               d.Entered? && d.next.regs.eip == m.sig.handler[i] && d.next.sig.frames == [m.regs.esp - FRAME]
  {
    var child := m.(sig := Inherit(m.sig));
    DeliverQuiet(child);
    var sent := Step(child, Send(i)).value;
    OnlyFirst(sent.sig, i);
    HandlerRuns(sent, i);
  }

  // ---------------------------------------------------------------- where a frame may lie

  /** Entering the handler of `sig` changes nothing outside the window below the trampoline page. */
  ghost predicate StaysInside(m: Machine, sig: nat)
    requires Shape(m) && sig < NSIG && m.regs.esp >= FRAME && GoodBase(m.regs.esp - FRAME)
  {
    forall x | 0 <= x < |m.mem| && !(USER_BASE <= x < SIGTRAMP) :: Pushed(m, sig)[x] == m.mem[x]
  }

  /** A memory that differs from what is about to be pushed, at one byte. */
  lemma PushChanges(m: Machine, sig: nat, x: nat) returns (mem: seq<Byte>)
    requires Shape(m) && sig < NSIG && m.regs.esp >= FRAME && GoodBase(m.regs.esp - FRAME)
    requires m.regs.esp - FRAME - 8 <= x < m.regs.esp
    ensures |mem| == |m.mem| && Pushed(m.(mem := mem), sig)[x] != mem[x]
  {
    var v := Pushed(m, sig)[x];
    mem := m.mem[x := if v == 0 then 1 else 0];
    SamePush(m, mem, sig, x);
  }

  /** What is pushed does not depend on what was there. */
  lemma SamePush(m: Machine, mem: seq<Byte>, sig: nat, x: nat)
    requires Shape(m) && |mem| == |m.mem| && sig < NSIG && m.regs.esp >= FRAME && GoodBase(m.regs.esp - FRAME)
    requires m.regs.esp - FRAME - 8 <= x < m.regs.esp
    ensures Pushed(m.(mem := mem), sig)[x] == Pushed(m, sig)[x]
  {
    assert StackWords(m.(mem := mem), sig) == StackWords(m, sig);
  }

  /**
   Only the frame itself is checked, but the return address and the argument go below it: the stack
   stays inside the window, whatever it held, if and only if esp leaves room for all of it.
   */
  lemma FrameInsideIff(m: Machine, sig: nat)
    requires Shape(m) && sig < NSIG && m.regs.esp >= FRAME && GoodBase(m.regs.esp - FRAME)
    ensures (forall mem: seq<Byte> | |mem| == |m.mem| :: StaysInside(m.(mem := mem), sig)) <==> USER_BASE + FRAME + 8 <= m.regs.esp <= SIGTRAMP
  {
    if m.regs.esp < USER_BASE + FRAME + 8 {
      var mem := PushChanges(m, sig, m.regs.esp - FRAME - 8);
      assert !StaysInside(m.(mem := mem), sig);
    } else if m.regs.esp > SIGTRAMP {
      var mem := PushChanges(m, sig, m.regs.esp - 1);
      assert !StaysInside(m.(mem := mem), sig);
    }
  }

  /** A process at `esp` with signal 10 pending and a handler for it. */
  function Poised(esp: Word, mem: seq<Byte>): (m: Machine)
    requires |mem| == Processes.WORD
    ensures Shape(m)
  {
    Machine(Regs(0, esp, 0, 0, 0, 0, 0, 0, 0, 0, 0, 0, 0, 0, 0, 0), mem,
            Sig({10}, {}, seq(NSIG, i => if i == 10 then USER_BASE else DFL), seq(NSIG, _ => 0), []))
  }

  lemma PoisedEnters(esp: Word, mem: seq<Byte>)
    requires |mem| == Processes.WORD && esp >= FRAME && GoodBase(esp - FRAME)
    ensures Signals.Deliver(Poised(esp, mem)).Entered?
    ensures Signals.Deliver(Poised(esp, mem)).next.mem == Pushed(Poised(esp, mem), 10)
  {
    var m := Poised(esp, mem);
    assert Deliverable(m.sig) == {10};
    DeliverTakes(m, 10);
  }

  /**
   For every stack pointer that delivery accepts outside that range, such as USER_BASE + 48, there is a
   process whose delivery enters the handler and writes outside the window.
   */
  lemma FrameEscapes(esp: Word) returns (m: Machine, x: nat)
    requires esp >= FRAME && GoodBase(esp - FRAME) && !(USER_BASE + FRAME + 8 <= esp <= SIGTRAMP)
    ensures Shape(m) && m.regs.esp == esp && m.sig.frames == [] && Signals.Deliver(m).Entered?
    ensures x < |m.mem| && !(USER_BASE <= x < SIGTRAMP) && Signals.Deliver(m).next.mem[x] != m.mem[x]
  {
    x := if esp > SIGTRAMP then esp - 1 else esp - FRAME - 8;
    var mem := PushChanges(Poised(esp, seq(Processes.WORD, _ => 0)), 10, x);
    m := Poised(esp, mem);
    PoisedEnters(esp, mem);
    assert m == Poised(esp, seq(Processes.WORD, _ => 0)).(mem := mem);
  }

  // ---------------------------------------------------------------- nesting

  /** The frame at `base` lies in memory and holds these words. */
  predicate Holds(mem: seq<Byte>, base: nat, ws: seq<Word>) { base + FRAME <= |mem| && FrameAt(mem, base) == ws }

  /** Frame by frame, the saved words. */
  predicate Held(mem: seq<Byte>, f: seq<Word>, ws: seq<seq<Word>>) {
    |ws| == |f| && forall k | 0 <= k < |f| :: Holds(mem, f[k], ws[k])
  }

  /** The frames lie one below the other, each holding its own stack pointer, above the running code. */
  predicate Nest(f: seq<Word>, esp: Word, ws: seq<seq<Word>>) {
    && |ws| == |f| && (forall k | 0 <= k < |f| :: GoodBase(f[k]) && |ws[k]| == 12 && ws[k][7] == f[k] + FRAME)
    && (forall j, k | 0 <= j < k < |f| :: f[k] + FRAME <= f[j])
    && (|f| > 0 ==> esp <= f[|f| - 1])
  }

  predicate Stacked(m: Machine, ws: seq<seq<Word>>) {
    Shape(m) && Held(m.mem, m.sig.frames, ws) && Nest(m.sig.frames, m.regs.esp, ws)
  }

  /** User code leaves the saved frames intact and keeps its stack below the innermost one. */
  predicate Polite(m: Machine, e: Event) {
    e.User? ==>
      && |e.mem| == |m.mem| && (|m.sig.frames| > 0 ==> e.regs.esp <= m.sig.frames[|m.sig.frames| - 1])
      && forall k | 0 <= k < |m.sig.frames| :: SameBytes(m.mem, e.mem, m.sig.frames[k])
  }

  predicate SameBytes(mem: seq<Byte>, next: seq<Byte>, base: nat) {
    |next| == |mem| && forall x | base <= x < base + FRAME && x < |mem| :: next[x] == mem[x]
  }

  /** Equal bytes give equal frames. */
  lemma SameFrame(mem: seq<Byte>, next: seq<Byte>, base: nat)
    requires base + FRAME <= |mem| && SameBytes(mem, next, base)
    ensures FrameAt(next, base) == FrameAt(mem, base)
  {
    forall k | 0 <= k < 12 ensures ReadWord(next, base + 4 * k) == ReadWord(mem, base + 4 * k) {
      ReadOther(mem, next, base + 4 * k);
    }
  }

  lemma HeldSame(mem: seq<Byte>, next: seq<Byte>, f: seq<Word>, ws: seq<seq<Word>>)
    requires Held(mem, f, ws) && forall k | 0 <= k < |f| :: SameBytes(mem, next, f[k])
    ensures Held(next, f, ws)
  {
    forall k | 0 <= k < |f| ensures Holds(next, f[k], ws[k]) {
      assert Holds(mem, f[k], ws[k]) && SameBytes(mem, next, f[k]);
      SameFrame(mem, next, f[k]);
    }
  }

  lemma NestMore(f: seq<Word>, esp: Word, ws: seq<seq<Word>>, w: seq<Word>)
    requires Nest(f, esp, ws) && esp >= FRAME && GoodBase(esp - FRAME) && |w| == 12 && w[7] == esp
    ensures Nest(f + [esp - FRAME], esp - FRAME - 8, ws + [w])
    ensures forall k | 0 <= k < |f| :: f[k] >= esp
  {
    forall k | 0 <= k < |f| ensures f[k] >= esp {
      if k < |f| - 1 {
        assert f[|f| - 1] + FRAME <= f[k];
      }
    }
  }

  lemma NestLess(f: seq<Word>, esp: Word, ws: seq<seq<Word>>)
    requires Nest(f, esp, ws) && |f| > 0
    ensures Nest(f[..|f| - 1], ws[|f| - 1][7], ws[..|f| - 1])
  {
  }

  lemma HeldMore(mem: seq<Byte>, next: seq<Byte>, f: seq<Word>, ws: seq<seq<Word>>, base: Word, w: seq<Word>)
    requires Held(mem, f, ws) && Holds(next, base, w) && forall k | 0 <= k < |f| :: SameBytes(mem, next, f[k])
    ensures Held(next, f + [base], ws + [w])
  {
    HeldSame(mem, next, f, ws);
    forall k | 0 <= k < |f| + 1 ensures Holds(next, (f + [base])[k], (ws + [w])[k]) {
      if k < |f| {
        assert Holds(next, f[k], ws[k]);
      }
    }
  }

  lemma HeldLess(mem: seq<Byte>, f: seq<Word>, ws: seq<seq<Word>>)
    requires Held(mem, f, ws) && |f| > 0
    ensures Held(mem, f[..|f| - 1], ws[..|f| - 1]) && Holds(mem, f[|f| - 1], ws[|f| - 1])
  {
    var g, v := f[..|f| - 1], ws[..|f| - 1];
    forall k | 0 <= k < |g| ensures Holds(mem, g[k], v[k]) {
      assert Holds(mem, f[k], ws[k]);
    }
  }

  lemma MoreStacked(m: Machine, n: Machine, ws: seq<seq<Word>>)
    requires Stacked(m, ws) && OneMore(m, n)
    ensures Stacked(n, ws + [FrameWords(m.regs)])
  {
    var base := m.regs.esp - FRAME;
    NestMore(m.sig.frames, m.regs.esp, ws, FrameWords(m.regs));
    forall k | 0 <= k < |m.sig.frames| ensures SameBytes(m.mem, n.mem, m.sig.frames[k]) {
    }
    HeldMore(m.mem, n.mem, m.sig.frames, ws, base, FrameWords(m.regs));
  }

  lemma LessStacked(m: Machine, n: Machine, ws: seq<seq<Word>>)
    requires Stacked(m, ws) && |ws| > 0 && n == Signals.Return(m).1
    ensures Stacked(n, ws[..|ws| - 1]) && n.regs == FromWords(ws[|ws| - 1])
    ensures n.sig.frames == m.sig.frames[..|ws| - 1]
  {
    HeldLess(m.mem, m.sig.frames, ws);
    NestLess(m.sig.frames, m.regs.esp, ws);
    assert GoodBase(m.sig.frames[|ws| - 1]);
  }

  /** The saved words after an event, given those before. */
  function NextWords(m: Machine, n: Machine, e: Event, ws: seq<seq<Word>>): (r: seq<seq<Word>>) {
    if e.Return? && |ws| > 0 then ws[..|ws| - 1]
    else if |n.sig.frames| > |m.sig.frames| then ws + [FrameWords(m.regs)]
    else ws
  }

  /** Every event keeps the frames stacked; only a delivery adds one and only a return drops one. */
  lemma StepStacked(m: Machine, n: Machine, e: Event, ws: seq<seq<Word>>)
    requires Stacked(m, ws) && Polite(m, e) && Step(m, e) == Some(n)
    ensures Stacked(n, NextWords(m, n, e, ws))
    ensures !e.Return? ==> |n.sig.frames| >= |ws| && n.sig.frames[..|ws|] == m.sig.frames
    ensures e.Return? && |ws| > 0 ==> n.sig.frames == m.sig.frames[..|ws| - 1] && n.regs == FromWords(ws[|ws| - 1])
  {
    match e {
      case Deliver =>
        DeliverFrame(m);
        if Signals.Deliver(m).Entered? {
          MoreStacked(m, n, ws);
        }
      case Return =>
        if |ws| > 0 {
          LessStacked(m, n, ws);
        }
      case User(_, _) => HeldSame(m.mem, n.mem, m.sig.frames, ws);
      case _ => QuietStep(m, n, e);
    }
  }

  /** Sending, setting an action and changing the mask leave registers, memory and frames. */
  lemma QuietStep(m: Machine, n: Machine, e: Event)
    requires Shape(m) && Step(m, e) == Some(n) && (e.Send? || e.Action? || e.Procmask? || e.Suspend?)
    ensures Shape(n) && n.regs == m.regs && n.mem == m.mem && n.sig.frames == m.sig.frames
  {
  }

  ghost predicate AllPolite(ms: seq<Machine>, es: seq<Event>)
    requires |ms| == |es| + 1
  {
    forall k | 0 <= k < |es| :: Polite(ms[k], es[k])
  }

  /** From a process without frames, the frames stay stacked along every run. */
  lemma {:induction false} RunStacked(ms: seq<Machine>, es: seq<Event>, k: nat) returns (ws: seq<seq<Word>>)
    requires Trace(ms, es) && AllPolite(ms, es) && ms[0].sig.frames == [] && k < |ms|
    ensures Stacked(ms[k], ws)
  {
    if k == 0 {
      ws := [];
    } else {
      ws := RunStacked(ms, es, k - 1);
      StepStacked(ms[k - 1], ms[k], es[k - 1], ws);
      ws := NextWords(ms[k - 1], ms[k], es[k - 1], ws);
    }
  }

  /** While the depth stays above `d`, the frames up to `d` keep their places and their words. */
  lemma {:induction false} FrameLasts(ms: seq<Machine>, es: seq<Event>, a: nat, b: nat, d: nat, ws: seq<seq<Word>>)
    returns (r: seq<seq<Word>>)
    requires Trace(ms, es) && AllPolite(ms, es) && a <= b < |ms| && Stacked(ms[a], ws)
    requires forall k | a <= k <= b :: |ms[k].sig.frames| > d
    ensures Stacked(ms[b], r) && r[..d + 1] == ws[..d + 1] && ms[b].sig.frames[..d + 1] == ms[a].sig.frames[..d + 1]
    decreases b - a
  {
    if a == b {
      r := ws;
    } else {
      var q := FrameLasts(ms, es, a, b - 1, d, ws);
      StepStacked(ms[b - 1], ms[b], es[b - 1], q);
      r := NextWords(ms[b - 1], ms[b], es[b - 1], q);
      StepPrefix(ms[b - 1], ms[b], es[b - 1], q, d);
    }
  }

  lemma StepPrefix(m: Machine, n: Machine, e: Event, ws: seq<seq<Word>>, d: nat)
    requires |ws| == |m.sig.frames| > d && |n.sig.frames| > d
    requires !e.Return? ==> |n.sig.frames| >= |ws| && n.sig.frames[..|ws|] == m.sig.frames
    requires e.Return? ==> n.sig.frames == m.sig.frames[..|ws| - 1]
    ensures |NextWords(m, n, e, ws)| > d && NextWords(m, n, e, ws)[..d + 1] == ws[..d + 1]
    ensures n.sig.frames[..d + 1] == m.sig.frames[..d + 1]
  {
    if !e.Return? {
      assert n.sig.frames[..|ws|][..d + 1] == n.sig.frames[..d + 1];
    } else {
      assert m.sig.frames[..|ws| - 1][..d + 1] == m.sig.frames[..d + 1];
    }
  }

  /** The registers a handler's return leaves: the interrupted ones, with flags and selectors made safe. */
  function Normal(r: Regs): (n: Regs) { FromWords(FrameWords(r)) }

  /** The last of `d + 1` equal entries. */
  lemma PrefixLast<T>(x: seq<T>, y: seq<T>, d: nat)
    requires |x| > d && |y| > d && x[..d + 1] == y[..d + 1]
    ensures x[d] == y[d] && x[..d] == y[..d]
  {
    assert x[d] == x[..d + 1][d];
    assert x[..d] == x[..d + 1][..d] && y[..d] == y[..d + 1][..d];
  }

  /** Every return undoes the delivery it matches, whatever was nested in between. */
  lemma ReturnRestores(ms: seq<Machine>, es: seq<Event>, a: nat, b: nat)
    requires Trace(ms, es) && AllPolite(ms, es) && ms[0].sig.frames == [] && a < b < |es|
    requires es[a].Deliver? && |ms[a + 1].sig.frames| == |ms[a].sig.frames| + 1
    requires es[b].Return? && |ms[b].sig.frames| == |ms[a].sig.frames| + 1
    requires forall k | a < k <= b :: |ms[k].sig.frames| > |ms[a].sig.frames|
    ensures ms[b + 1].regs == Normal(ms[a].regs) && ms[b + 1].sig.frames == ms[a].sig.frames
  {
    var m := ms[a];
    var d := |m.sig.frames|;
    var ws := RunStacked(ms, es, a);
    StepStacked(m, ms[a + 1], es[a], ws);
    var w := FrameWords(m.regs);
    assert Stacked(ms[a + 1], ws + [w]);
    var r := FrameLasts(ms, es, a + 1, b, d, ws + [w]);
    StepStacked(ms[b], ms[b + 1], es[b], r);
    PrefixLast(r, ws + [w], d);
    PrefixLast(ms[b].sig.frames, ms[a + 1].sig.frames, d);
  }

  /** A user-mode frame comes back exactly. */
  lemma NormalExactly(r: Regs)
    ensures Normal(r) == r <==> Flags(r.eflags) == r.eflags && 0 < r.fs < 0x1_0000 && 0 < r.gs < 0x1_0000
                                && r.cs == FLAT_CODE && r.ss == FLAT_DATA && r.ds == FLAT_DATA && r.es == FLAT_DATA
  {
  }

  // ---------------------------------------------------------------- blocked signals

  /** A blocked pending signal stays pending until it is unblocked or its action is reset. */
  lemma {:induction false} BlockedWaits(ms: seq<Machine>, es: seq<Event>, i: nat, k: nat)
    requires Trace(ms, es) && k < |ms| && i in ms[0].sig.pending
    requires forall j | 0 <= j < k :: i in ms[j].sig.blocked
    requires forall j | 0 <= j < k && es[j].Action? && es[j].sig == i :: es[j].handler != DFL && es[j].handler != IGN
    ensures i in ms[k].sig.pending
  {
    if k > 0 {
      BlockedWaits(ms, es, i, k - 1);
      var m := ms[k - 1];
      if es[k - 1].Deliver? {
        DeliverPending(m);
      }
    }
  }

  // ---------------------------------------------------------------- SIGKILL and SIGSTOP

  predicate OutOfReach(s: Sig) {
    |s.handler| == NSIG && KILL !in s.blocked && STOP !in s.blocked && s.handler[KILL] == DFL && s.handler[STOP] == DFL
  }

  lemma StepOutOfReach(m: Machine, n: Machine, e: Event)
    requires Shape(m) && OutOfReach(m.sig) && Step(m, e) == Some(n)
    ensures OutOfReach(n.sig)
  {
    if e.Deliver? {
      DeliverPending(m);
    }
  }

  lemma {:induction false} RunOutOfReach(ms: seq<Machine>, es: seq<Event>, k: nat)
    requires Trace(ms, es) && OutOfReach(ms[0].sig) && k < |ms|
    ensures OutOfReach(ms[k].sig)
  {
    if k > 0 {
      RunOutOfReach(ms, es, k - 1);
      StepOutOfReach(ms[k - 1], ms[k], es[k - 1]);
    }
  }

  /** The life of one process. */
  datatype Life = Life(ms: seq<Machine>, es: seq<Event>)

  /** A launched process, its child, its grandchild and so on, each forked at some moment of the one before. */
  ghost predicate Lineage(ls: seq<Life>) {
    && (forall g | 0 <= g < |ls| :: Trace(ls[g].ms, ls[g].es)) && (|ls| > 0 ==> ls[0].ms[0].sig == Reset())
    && forall g | 0 < g < |ls| :: BornOf(ls[g - 1], ls[g])
  }

  ghost predicate BornOf(parent: Life, child: Life) {
    |child.ms| > 0 && exists k | 0 <= k < |parent.ms| :: child.ms[0].sig == Inherit(parent.ms[k].sig)
  }

  /** In every state of every process SIGKILL and SIGSTOP are neither blocked nor caught. */
  lemma {:induction false} NeverCaught(ls: seq<Life>, g: nat, k: nat)
    requires Lineage(ls) && g < |ls| && k < |ls[g].ms|
    ensures OutOfReach(ls[g].ms[k].sig)
    decreases g
  {
    if g > 0 {
      assert BornOf(ls[g - 1], ls[g]);
      var j :| 0 <= j < |ls[g - 1].ms| && ls[g].ms[0].sig == Inherit(ls[g - 1].ms[j].sig);
      NeverCaught(ls, g - 1, j);
    }
    RunOutOfReach(ls[g].ms, ls[g].es, k);
  }

  /** A pending SIGKILL ends the process unless a lower signal's handler runs first; it is never lost. */
  lemma KillTakes(m: Machine)
    requires Shape(m) && OutOfReach(m.sig) && KILL in m.sig.pending
    ensures var d := Signals.Deliver(m);
            d.Dead? || (d.Entered? && KILL in d.next.sig.pending && exists i :: 0 < i < KILL && i in Deliverable(m.sig) && m.sig.handler[i] > IGN)
    ensures (forall i | i in Deliverable(m.sig) && i < KILL :: !Acts(m.sig, i)) ==> Signals.Deliver(m) == Dead(Without(m, UpTo(m.sig, KILL)), 137, false)
  {
    assert KILL in Deliverable(m.sig) && Acts(m.sig, KILL);
    var e := FirstExists(m.sig, KILL);
    DeliverTakes(m, e);
  }
}
