/**
 Signal delivery and return (`src/proc.c`, `src/syscall.c`): handler frames on the user stack.
 */
module Signals {
  import opened Options
  import opened Processes
  import opened Sectors
  import Records

  const NSIG: nat := 32
  const DFL: Word := 0
  const IGN: Word := 1
  const DEPTH: nat := 4
  const FRAME: nat := 48
  const SIGTRAMP: nat := USER_END - PAGE
  const KILL: nat := 9
  const STOP: nat := 19

  /**
   Masks are sets of signal numbers, `restorer` is zero without SA_RESTORER, and `frames` are the
   saved frame addresses, innermost last.
   */
  datatype Sig = Sig(pending: set<nat>, blocked: set<nat>, handler: seq<Word>, restorer: seq<Word>, frames: seq<Word>)

  /** The registers at the interrupt, the 4 GB the process addresses, and its signal state. */
  datatype Machine = Machine(regs: Regs, mem: seq<Byte>, sig: Sig)

  predicate Shape(m: Machine) { |m.mem| == Processes.WORD && |m.sig.handler| == NSIG && |m.sig.restorer| == NSIG }

  // ---------------------------------------------------------------- words in memory

  function Words(ws: seq<Word>): (b: seq<Byte>)
    ensures |b| == 4 * |ws|
  {
    seq(4 * |ws|, j requires 0 <= j < 4 * |ws| => Records.Put32(ws[j / 4])[j % 4])
  }

  function ReadWord(mem: seq<Byte>, a: nat): (w: Word)
    requires a + 4 <= |mem|
  {
    Records.Get32(mem[a..a + 4])
  }

  /** A word written among others is read back. */
  lemma ReadBack(mem: seq<Byte>, at: nat, ws: seq<Word>, k: nat, a: nat)
    requires at + 4 * |ws| <= |mem| && k < |ws| && a == at + 4 * k
    ensures ReadWord(Splice(mem, at, Words(ws)), a) == ws[k]
  {
    var n := Splice(mem, at, Words(ws));
    var x, y := n[a..a + 4], Records.Put32(ws[k]);
    forall q | 0 <= q < 4 ensures x[q] == y[q] {
      assert (4 * k + q) / 4 == k && (4 * k + q) % 4 == q;
    }
    assert x == y;
    Records.Word32(ws[k]);
  }

  /** Words outside the written bytes are as they were. */
  lemma ReadOther(mem: seq<Byte>, next: seq<Byte>, a: nat)
    requires |next| == |mem| && a + 4 <= |mem| && forall x | a <= x < a + 4 :: next[x] == mem[x]
    ensures ReadWord(next, a) == ReadWord(mem, a)
  {
    assert next[a..a + 4] == mem[a..a + 4];
  }

  // ---------------------------------------------------------------- the frame

  /** The twelve saved words. */
  function FrameWords(r: Regs): (ws: seq<Word>)
    ensures |ws| == 12
  {
    [r.eax, r.ebx, r.ecx, r.edx, r.esi, r.edi, r.ebp, r.esp, r.eflags, r.fs, r.gs, r.eip]
  }

  function LowSelector(x: Word): (r: Word) { if x == 0 then FLAT_DATA else x % 0x1_0000 }

  /** The registers proc_sigreturn makes of twelve saved words. */
  function FromWords(ws: seq<Word>): (r: Regs)
    requires |ws| == 12
  {
    Regs(ws[11], ws[7], Flags(ws[8]), ws[0], ws[1], ws[2], ws[3], ws[4], ws[5], ws[6], LowSelector(ws[9]), LowSelector(ws[10]),
         FLAT_CODE, FLAT_DATA, FLAT_DATA, FLAT_DATA)
  }

  function FrameAt(mem: seq<Byte>, base: nat): (ws: seq<Word>)
    requires base + FRAME <= |mem|
    ensures |ws| == 12
  {
    seq(12, k requires 0 <= k < 12 => ReadWord(mem, base + 4 * k))
  }

  predicate GoodBase(base: nat) { USER_BASE <= base < SIGTRAMP }

  /** What goes on the stack: the return address, the handler's argument, the frame. */
  function StackWords(m: Machine, sig: nat): (ws: seq<Word>)
    requires Shape(m) && sig < NSIG
    ensures |ws| == 14 && ws[2..] == FrameWords(m.regs)
  {
    [if m.sig.restorer[sig] != 0 then m.sig.restorer[sig] else SIGTRAMP, sig] + FrameWords(m.regs)
  }

  function Pushed(m: Machine, sig: nat): (mem: seq<Byte>)
    requires Shape(m) && sig < NSIG && m.regs.esp >= FRAME && GoodBase(m.regs.esp - FRAME)
    ensures |mem| == |m.mem|
  {
    Splice(m.mem, m.regs.esp - FRAME - 8, Words(StackWords(m, sig)))
  }

  // ---------------------------------------------------------------- delivery

  /** proc_sig_default_terminates. */
  predicate Terminates(sig: nat) { 1 <= sig <= 16 || 24 <= sig <= 27 || 29 <= sig <= 31 }

  /** The result of delivery: nothing to do, a handler entered, or the process killed. */
  datatype Delivery = Quiet(next: Machine) | Entered(next: Machine) | Dead(next: Machine, code: nat, faulted: bool)

  /** The handler of `sig` is entered, unless the nesting or the stack forbids it. */
  function Enter(m: Machine, sig: nat): (d: Delivery)
    requires Shape(m) && 0 < sig < NSIG
    ensures Shape(d.next)
  {
    if |m.sig.frames| >= DEPTH then Dead(m, 128 + sig, true)
    else if m.regs.esp < FRAME || !GoodBase(m.regs.esp - FRAME) then Dead(m, 139, true)
    else
      var base := m.regs.esp - FRAME;
      Entered(Machine(m.regs.(eip := m.sig.handler[sig], esp := base - 8, eax := sig), Pushed(m, sig),
                      m.sig.(frames := m.sig.frames + [base])))
  }

  function Deliverable(s: Sig): (r: set<nat>) { set i | i in s.pending && i !in s.blocked && 0 < i < NSIG }

  /** Signal `i` does something: it has a handler, or its default terminates. */
  predicate Acts(s: Sig, i: nat)
    requires |s.handler| == NSIG && i < NSIG
  {
    s.handler[i] != IGN && (s.handler[i] == DFL ==> Terminates(i))
  }

  /** What happens when signal `i` is taken. */
  function Take(m: Machine, i: nat): (d: Delivery)
    requires Shape(m) && 0 < i < NSIG && Acts(m.sig, i)
    ensures Shape(d.next)
  {
    if m.sig.handler[i] == DFL then Dead(m, 128 + i, false) else Enter(m, i)
  }

  /** The lowest ready signal from `i` on. */
  function Lowest(s: Sig, i: nat): (r: Option<nat>)
    requires 0 < i <= NSIG
    ensures r.Some? ==> i <= r.value < NSIG && r.value in Deliverable(s) && forall j | j in Deliverable(s) && i <= j :: r.value <= j
    ensures r.None? ==> forall j | j in Deliverable(s) :: j < i
    decreases NSIG - i, s
  {
    if i == NSIG then None else if i in s.pending && i !in s.blocked then Some(i) else Lowest(s, i + 1)
  }

  function Without(m: Machine, gone: set<nat>): (n: Machine)
    ensures Shape(m) ==> Shape(n)
  {
    m.(sig := m.sig.(pending := m.sig.pending - gone))
  }

  /** proc_signal_deliver for a user-mode frame of a user process. */
  function Deliver(m: Machine): (d: Delivery)
    requires Shape(m)
    ensures Shape(d.next)
    decreases |m.sig.pending|
  {
    var i := Lowest(m.sig, 1);
    if i.None? then Quiet(m)
    else
      var n := Without(m, {i.value});
      if Acts(n.sig, i.value) then Take(n, i.value) else Deliver(n)
  }

  /** The ready signals up to `e`. */
  function UpTo(s: Sig, e: nat): (r: set<nat>) { set i | i in Deliverable(s) && i <= e }

  /** `e` is the lowest ready signal that does something. */
  predicate First(s: Sig, e: nat)
    requires |s.handler| == NSIG
  {
    e in Deliverable(s) && Acts(s, e) && forall i | i in Deliverable(s) && i < e :: !Acts(s, i)
  }

  lemma FirstWithout(m: Machine, i: nat, e: nat)
    requires Shape(m) && Lowest(m.sig, 1) == Some(i) && !Acts(m.sig, i) && First(m.sig, e)
    ensures First(Without(m, {i}).sig, e)
    ensures Without(Without(m, {i}), UpTo(Without(m, {i}).sig, e)) == Without(m, UpTo(m.sig, e))
  {
    var n := Without(m, {i});
    assert Deliverable(n.sig) == Deliverable(m.sig) - {i};
    assert n.sig.pending - UpTo(n.sig, e) == m.sig.pending - UpTo(m.sig, e);
  }

  /** The loop takes the lowest ready signal that does something and drops the ready ones below it. */
  lemma {:induction false} DeliverTakes(m: Machine, e: nat)
    requires Shape(m) && First(m.sig, e)
    ensures Deliver(m) == Take(Without(m, UpTo(m.sig, e)), e)
    decreases |m.sig.pending|
  {
    var i := Lowest(m.sig, 1).value;
    if i == e {
      assert UpTo(m.sig, e) == {i};
    } else {
      FirstWithout(m, i, e);
      DeliverTakes(Without(m, {i}), e);
    }
  }

  /** With nothing to act on, every ready signal is dropped and nothing else happens. */
  lemma {:induction false} DeliverQuiet(m: Machine)
    requires Shape(m) && forall i | i in Deliverable(m.sig) :: !Acts(m.sig, i)
    ensures Deliver(m) == Quiet(Without(m, Deliverable(m.sig)))
    decreases |m.sig.pending|
  {
    var i := Lowest(m.sig, 1);
    if i.None? {
      assert Deliverable(m.sig) == {};
      assert m.sig.pending - {} == m.sig.pending;
    } else {
      var n := Without(m, {i.value});
      assert Deliverable(n.sig) == Deliverable(m.sig) - {i.value};
      DeliverQuiet(n);
      assert n.sig.pending - Deliverable(n.sig) == m.sig.pending - Deliverable(m.sig);
    }
  }

  lemma {:induction false} FirstExists(s: Sig, i: nat) returns (e: nat)
    requires |s.handler| == NSIG && i in Deliverable(s) && Acts(s, i)
    ensures First(s, e)
    decreases i
  {
    if j :| j in Deliverable(s) && j < i && Acts(s, j) {
      e := FirstExists(s, j);
    } else {
      e := i;
    }
  }

  /** Delivery leaves blocked signals pending and adds none. */
  lemma DeliverPending(m: Machine)
    requires Shape(m)
    ensures var n := Deliver(m).next;
            && n.sig.pending <= m.sig.pending && (forall i | i in m.sig.pending && i in m.sig.blocked :: i in n.sig.pending)
            && n.sig.blocked == m.sig.blocked && n.sig.handler == m.sig.handler && n.sig.restorer == m.sig.restorer
  {
    if i :| i in Deliverable(m.sig) && Acts(m.sig, i) {
      var e := FirstExists(m.sig, i);
      DeliverTakes(m, e);
    } else {
      DeliverQuiet(m);
    }
  }

  // ---------------------------------------------------------------- return and masks

  /** proc_sigreturn; the frame is popped even when its address is refused. */
  function Return(m: Machine): (r: (bool, Machine))
    requires Shape(m)
    ensures Shape(r.1)
  {
    var depth := |m.sig.frames|;
    if depth == 0 then (false, m)
    else
      var base := m.sig.frames[depth - 1];
      var n := m.(sig := m.sig.(frames := m.sig.frames[..depth - 1]));
      if !GoodBase(base) then (false, n) else (true, n.(regs := FromWords(FrameAt(m.mem, base))))
  }

  /** proc_signal_set_action; `use` is the SA_RESTORER flag. */
  function SetAction(s: Sig, sig: int, handler: Word, use: bool, restorer: Word): (r: Sig)
    requires |s.handler| == NSIG && |s.restorer| == NSIG
    ensures |r.handler| == NSIG && |r.restorer| == NSIG
  {
    if sig <= 0 || sig >= NSIG || sig == KILL || sig == STOP then s
    else
      s.(handler := s.handler[sig := handler], restorer := s.restorer[sig := if use then restorer else 0],
         pending := if handler == DFL || handler == IGN then s.pending - {sig} else s.pending)
  }

  datatype How = Block | Unblock | SetMask | Unknown

  /** do_sigprocmask. */
  function Mask(s: Sig, how: How, v: set<nat>): (r: Sig) {
    var w := v - {KILL, STOP};
    match how
    case Block => s.(blocked := s.blocked + w)
    case Unblock => s.(blocked := s.blocked - w)
    case SetMask => s.(blocked := w)
    case Unknown => s
  }

  /** proc_signal_reset. */
  function Reset(): (s: Sig) { Sig({}, {}, seq(NSIG, _ => DFL), seq(NSIG, _ => 0), []) }

  /** proc_signal_inherit. */
  function Inherit(parent: Sig): (s: Sig) {
    Reset().(handler := parent.handler, restorer := parent.restorer, blocked := parent.blocked)
  }
}
