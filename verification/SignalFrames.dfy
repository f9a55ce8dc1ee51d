/**
 Signal delivery and return in the form of `src/proc.c`: masks, handler tables and the user stack
 changed in place.
 */
module SignalFrames {
  import opened Options
  import opened Processes
  import opened Sectors
  import opened Signals
  import Records

  /** Writing the frame, then the argument below it, then the return address below that. */
  lemma ThreeWrites(mem: seq<Byte>, base: nat, ret: Word, sig: Word, f: seq<Word>)
    requires base >= 8 && |f| == 12 && base + FRAME <= |mem|
    ensures Splice(Splice(Splice(mem, base, Words(f)), base - 4, Words([sig])), base - 8, Words([ret]))
            == Splice(mem, base - 8, Words([ret, sig] + f))
  {
    var all := [ret, sig] + f;
    var x, y := Splice(Splice(Splice(mem, base, Words(f)), base - 4, Words([sig])), base - 8, Words([ret])), Splice(mem, base - 8, Words(all));
    forall p | 0 <= p < |mem| ensures x[p] == y[p] {
      if base - 8 <= p < base + FRAME {
        WordsByte(all, p - base + 8);
        if p >= base {
          WordsByte(f, p - base);
          assert (p - base + 8) / 4 == (p - base) / 4 + 2 && (p - base + 8) % 4 == (p - base) % 4;
        }
      }
    }
  }

  lemma WordsByte(ws: seq<Word>, j: nat)
    requires j < 4 * |ws|
    ensures Words(ws)[j] == Records.Put32(ws[j / 4])[j % 4]
  {
  }

  /** One more word in place. */
  lemma OneWord(mem: seq<Byte>, at: nat, ws: seq<Word>, k: nat, a: nat)
    requires k < |ws| && at + 4 * |ws| <= |mem| && a == at + 4 * k
    ensures Splice(Splice(mem, at, Words(ws[..k])), a, Records.Put32(ws[k])) == Splice(mem, at, Words(ws[..k + 1]))
  {
    var x, y := Splice(Splice(mem, at, Words(ws[..k])), a, Records.Put32(ws[k])), Splice(mem, at, Words(ws[..k + 1]));
    forall p | 0 <= p < |mem| ensures x[p] == y[p] {
      if at <= p < a + 4 {
        WordsByte(ws[..k + 1], p - at);
        if p < a {
          WordsByte(ws[..k], p - at);
        } else {
          assert (p - at) / 4 == k && (p - at) % 4 == p - a;
        }
      }
    }
  }

  lemma PushedIs(m: Machine, sig: nat, ret: Word, base: nat, f: seq<Word>)
    requires Shape(m) && 0 < sig < NSIG && m.regs.esp >= FRAME && base == m.regs.esp - FRAME && GoodBase(base)
    requires ret == (if m.sig.restorer[sig] != 0 then m.sig.restorer[sig] else SIGTRAMP) && f == FrameWords(m.regs)
    ensures Pushed(m, sig) == Splice(m.mem, base - 8, Words([ret, sig] + f))
  {
  }

  class Task {
    var regs: Regs
    const mem: array<Byte>
    var pending: set<nat>
    var blocked: set<nat>
    const handler: array<Word>
    const restorer: array<Word>
    const frameSp: array<Word>
    var depth: nat

    ghost predicate Valid()
      reads this
    {
      && mem.Length == Processes.WORD && handler.Length == NSIG && restorer.Length == NSIG && frameSp.Length == DEPTH
      && depth <= DEPTH && handler != restorer && handler != frameSp && restorer != frameSp
    }

    ghost function State(): (m: Machine)
      requires Valid()
      reads this, mem, handler, restorer, frameSp
      ensures Shape(m)
    {
      Machine(regs, mem[..], Sig(pending, blocked, handler[..], restorer[..], frameSp[..depth]))
    }

    method StoreWord(a: nat, w: Word)
      requires Valid() && a + 4 <= mem.Length
      modifies mem
      ensures mem[..] == Splice(old(mem[..]), a, Records.Put32(w))
    {
      var b := Records.Put32(w);
      mem[a], mem[a + 1], mem[a + 2], mem[a + 3] := b[0], b[1], b[2], b[3];
    }

    method StoreWords(at: nat, ws: seq<Word>)
      requires Valid() && at + 4 * |ws| <= mem.Length
      modifies mem
      ensures mem[..] == Splice(old(mem[..]), at, Words(ws))
    {
      ghost var was := mem[..];
      for k := 0 to |ws|
        invariant mem[..] == Splice(was, at, Words(ws[..k]))
      {
        StoreWord(at + 4 * k, ws[k]);
        OneWord(was, at, ws, k, at + 4 * k);
      }
      assert ws[..|ws|] == ws;
    }

    /** The lowest pending signal that is not blocked. */
    method LowestReady() returns (r: Option<nat>)
      requires Valid()
      ensures r == Lowest(State().sig, 1)
    {
      for i := 1 to NSIG
        invariant Lowest(State().sig, 1) == Lowest(State().sig, i)
      {
        if i in pending && i !in blocked {
          return Some(i);
        }
      }
      return None;
    }

    /** The frame, the handler's argument and the return address. */
    method PushFrame(sig: nat, base: nat)
      requires Valid() && 0 < sig < NSIG && regs.esp >= FRAME && base == regs.esp - FRAME && GoodBase(base)
      modifies mem
      ensures mem[..] == Pushed(old(State()), sig)
    {
      var ret := if restorer[sig] != 0 then restorer[sig] else SIGTRAMP;
      var f := FrameWords(regs);
      PushedIs(State(), sig, ret, base, f);
      StoreStack(base, ret, sig, f);
    }

    method StoreStack(base: nat, ret: Word, sig: Word, f: seq<Word>)
      requires Valid() && base >= 8 && |f| == 12 && base + FRAME <= mem.Length
      modifies mem
      ensures mem[..] == Splice(old(mem[..]), base - 8, Words([ret, sig] + f))
    {
      ThreeWrites(mem[..], base, ret, sig, f);
      StoreWords(base, f);
      StoreWords(base - 4, [sig]);
      StoreWords(base - 8, [ret]);
    }

    /** Enter the handler of `sig`, or report why the process dies. */
    method EnterHandler(sig: nat) returns (dead: Option<(nat, bool)>)
      requires Valid() && 0 < sig < NSIG
      modifies this, mem, frameSp
      ensures Valid() && State() == Enter(old(State()), sig).next
      ensures handler[..] == old(handler[..]) && restorer[..] == old(restorer[..])
      ensures match Enter(old(State()), sig) case Dead(_, code, faulted) => dead == Some((code, faulted)) case _ => dead.None?
    {
      if depth >= DEPTH {
        return Some((128 + sig, true));
      }
      if regs.esp < FRAME || !GoodBase(regs.esp - FRAME) {
        return Some((139, true));
      }
      var base := regs.esp - FRAME;
      PushFrame(sig, base);
      frameSp[depth] := base;
      depth := depth + 1;
      regs := regs.(eip := handler[sig], esp := base - 8, eax := sig);
      assert frameSp[..depth] == old(frameSp[..depth]) + [base];
      return None;
    }

    /** proc_signal_deliver: the exit code when the process dies, else whether a handler was entered. */
    method DeliverSignals() returns (dead: Option<(nat, bool)>, entered: bool)
      requires Valid()
      modifies this, mem, frameSp
      ensures Valid() && State() == Deliver(old(State())).next
      ensures match Deliver(old(State()))
              case Quiet(_) => dead.None? && !entered
              case Entered(_) => dead.None? && entered
              case Dead(_, code, faulted) => dead == Some((code, faulted)) && !entered
    {
      ghost var goal := Deliver(State());
      while true
        invariant Valid() && Deliver(State()) == goal
        decreases |pending|
      {
        var i := LowestReady();
        if i.None? {
          return None, false;
        }
        pending := pending - {i.value};
        var h := handler[i.value];
        if h == IGN {
          continue;
        }
        if h == DFL {
          if Terminates(i.value) {
            return Some((128 + i.value, false)), false;
          }
          continue;
        }
        dead := EnterHandler(i.value);
        return dead, dead.None?;
      }
    }

    method LoadWord(a: nat) returns (w: Word)
      requires Valid() && a + 4 <= mem.Length
      ensures w == ReadWord(mem[..], a)
    {
      assert mem[..][a..a + 4] == [mem[a], mem[a + 1], mem[a + 2], mem[a + 3]];
      return Records.Get32([mem[a], mem[a + 1], mem[a + 2], mem[a + 3]]);
    }

    method LoadFrame(base: nat) returns (ws: seq<Word>)
      requires Valid() && base + FRAME <= mem.Length
      ensures ws == FrameAt(mem[..], base)
    {
      ws := [];
      for k := 0 to 12
        invariant |ws| == k && forall j | 0 <= j < k :: ws[j] == ReadWord(mem[..], base + 4 * j)
      {
        var w := LoadWord(base + 4 * k);
        ws := ws + [w];
      }
    }

    /** proc_sigreturn. */
    method SigReturn() returns (ok: bool)
      requires Valid()
      modifies this`regs, this`depth
      ensures Valid() && (ok, State()) == Return(old(State()))
    {
      if depth == 0 {
        return false;
      }
      depth := depth - 1;
      assert frameSp[..depth] == old(frameSp[..depth])[..depth];
      var base := frameSp[depth];
      if !GoodBase(base) {
        return false;
      }
      RestoreRegs(base);
      return true;
    }

    method RestoreRegs(base: nat)
      requires Valid() && base + FRAME <= mem.Length
      modifies this`regs
      ensures regs == FromWords(FrameAt(mem[..], base))
    {
      var f := LoadFrame(base);
      regs := FromWords(f);
    }

    /** proc_signal_set_action: the old handler, or 22 when the signal cannot be caught. */
    method SetSigAction(sig: int, h: Word, use: bool, r: Word) returns (old_: Word)
      requires Valid()
      modifies this`pending, handler, restorer
      ensures Valid() && State().sig == SetAction(old(State()).sig, sig, h, use, r)
      ensures State().regs == old(State()).regs && State().mem == old(State()).mem
      ensures old_ == if sig <= 0 || sig >= NSIG || sig == KILL || sig == STOP then 22 else old(State()).sig.handler[sig]
    {
      if sig <= 0 || sig >= NSIG || sig == KILL || sig == STOP {
        return 22;
      }
      old_ := handler[sig];
      handler[sig] := h;
      restorer[sig] := if use then r else 0;
      if h == DFL || h == IGN {
        pending := pending - {sig};
      }
    }

    /** do_sigprocmask with a new mask to apply. */
    method SigProcMask(how: nat, v: set<nat>) returns (ok: bool)
      requires Valid()
      modifies this`blocked
      ensures Valid() && ok == (how < 3)
      ensures State().sig == Mask(old(State()).sig, if how == 0 then Block else if how == 1 then Unblock else if how == 2 then SetMask else Unknown, v)
    {
      var mask := blocked;
      var w := v - {KILL, STOP};
      if how == 0 {
        mask := mask + w;
      } else if how == 1 {
        mask := mask - w;
      } else if how == 2 {
        mask := w;
      } else {
        return false;
      }
      blocked := mask;
      return true;
    }
  }
}
