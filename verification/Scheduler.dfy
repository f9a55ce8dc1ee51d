/**
 The scheduler in the form of `src/proc.c`: one table of process records, rewritten in place.
 */
module Scheduler {
  import opened Options
  import opened Processes

  class Cpu {
    const procs: array<Proc>
    var tables: map<nat, Fds>
    var current: nat
    var nextPid: nat
    var live: Live
    var active: bool
    var switched: bool

    ghost predicate Valid()
      reads this
    {
      procs.Length == PROC_MAX && current < PROC_MAX
    }

    ghost function State(): (s: Sys)
      requires Valid()
      reads this, procs
      ensures Shaped(s)
    {
      Sys(procs[..], tables, current, nextPid, live, active, switched)
    }

    /** proc_init. */
    constructor (live: Live)
      ensures Valid() && fresh(procs)
      ensures State().procs == [NO_PROC.(used := true, pid := 1, state := Running)] + seq(PROC_MAX - 1, _ => NO_PROC)
      ensures tables == map[] && current == 0 && nextPid == 2 && this.live == live && !active && !switched
    {
      procs := new Proc[PROC_MAX](_ => NO_PROC);
      tables, current, nextPid, this.live, active, switched := map[], 0, 2, live, false, false;
      new;
      procs[0] := NO_PROC.(used := true, pid := 1, state := Running);
    }

    /** sched_pick_next: from just after `cur`, or from slot 0. */
    method PickNext(cur: Option<nat>) returns (r: Option<nat>)
      requires Valid() && (cur.Some? ==> cur.value < PROC_MAX)
      ensures r == Pick(procs[..], if cur.Some? then cur.value + 1 else 0)
    {
      var start := 0;
      if cur.Some? {
        for i := 0 to PROC_MAX
          invariant start == 0 && i <= cur.value
        {
          if i == cur.value {
            start := i + 1;
            break;
          }
        }
      }
      r := Scan(start);
    }

    method Scan(start: nat) returns (r: Option<nat>)
      requires Valid() && start <= PROC_MAX
      ensures r == PickFrom(procs[..], start, 0)
    {
      ghost var ps := procs[..];
      for n := 0 to PROC_MAX
        invariant PickFrom(ps, start, 0) == PickFrom(ps, start, n)
      {
        var p := procs[(start + n) % PROC_MAX];
        assert p == ps[(start + n) % PROC_MAX];
        if p.used && p.pid != 1 && p.state == Ready && p.hasCtx {
          return Some((start + n) % PROC_MAX);
        }
      }
      return None;
    }

    /** proc_find. */
    method FindPid(pid: nat) returns (r: Option<nat>)
      requires Valid()
      ensures r == Find(procs[..], pid, 0)
    {
      for i := 0 to PROC_MAX
        invariant Find(procs[..], pid, 0) == Find(procs[..], pid, i)
      {
        if procs[i].used && procs[i].pid == pid {
          return Some(i);
        }
      }
      return None;
    }

    /** The search of proc_alloc. */
    method FindFree() returns (r: Option<nat>)
      requires Valid()
      ensures r == FreeSlot(procs[..], 0)
    {
      for i := 0 to PROC_MAX
        invariant FreeSlot(procs[..], 0) == FreeSlot(procs[..], i)
      {
        if !procs[i].used {
          return Some(i);
        }
      }
      return None;
    }

    /** proc_fdstate_alloc for the current process. */
    method FdStateAlloc(block: Option<nat>) returns (ok: bool)
      requires Valid()
      modifies this`tables, procs
      ensures Valid() && State() == GiveTable(old(State()), block) && ok == procs[current].fdState.Some?
    {
      if procs[current].fdState.Some? {
        return true;
      }
      if block.None? {
        return false;
      }
      procs[current] := procs[current].(fdState := block);
      tables := tables[block.value := []];
      return true;
    }

    /** proc_save_ctx and proc_save_state, then the new run state. */
    method SaveCurrent(state: RunState)
      requires Valid()
      modifies this`tables, procs
      ensures Valid() && State() == Save(old(State()), state)
    {
      var r, p := live.regs, procs[current];
      p := p.(ctx := Ctx(r.eip, r.esp, r.eflags, r.eax, r.ebx, r.ecx, r.edx, r.esi, r.edi, r.ebp,
                         r.fs % 0x1_0000, r.gs % 0x1_0000), hasCtx := true);
      if p.fdState.Some? {
        tables := tables[p.fdState.value := live.fds];
      }
      p := p.(cwd := live.cwd);
      if !p.isThread {
        p := p.(brk := live.brk);
      }
      procs[current] := p.(tls := live.tls, state := state);
    }

    /** sched_load. */
    method LoadProc(i: nat)
      requires Valid() && i < PROC_MAX
      modifies this`live, this`current, this`active, this`switched, procs
      ensures Valid() && State() == Load(old(State()), i)
    {
      var p := procs[i];
      if p.fdState.Some? && p.fdState.value in tables {
        live := live.(fds := tables[p.fdState.value]);
      }
      live := live.(cwd := SetCwd(live.cwd, p.cwd));
      if !p.isThread {
        live := live.(brk := RestoreBrk(live.brk, p.brk));
      }
      live := live.(tls := SetTls(p.tls));
      current := i;
      procs[i] := p.(state := Running);
      active := true;
      live := live.(regs := LoadRegs(p.ctx));
      switched := true;
    }

    /** proc_sched_tick, once the signal code has run. */
    method SchedTick(sig: Outcome, block: Option<nat>)
      requires Valid()
      modifies this, procs
      ensures Valid() && State() == Tick(old(State()), sig, block)
    {
      if procs[current].pid == 1 || live.regs.cs % 4 != 3 || procs[current].state != Running {
        return;
      }
      var ok := FdStateAlloc(block);
      if !ok {
        return;
      }
      if sig.Killed? {
        ExitCurrent();
        return;
      }
      if sig.Handler? {
        live := live.(regs := sig.regs);
        if switched {
          return;
        }
      }
      PreemptCurrent();
    }

    method PreemptCurrent()
      requires Valid()
      modifies this, procs
      ensures Valid() && State() == Preempt(old(State()))
    {
      SaveCurrent(Ready);
      var next := PickNext(Some(current));
      if next.None? || next.value == current {
        procs[current] := procs[current].(state := Running);
        return;
      }
      LoadProc(next.value);
    }

    /** proc_block_current_ext. */
    method BlockCurrent(kind: Wait, len: int, block: Option<nat>) returns (ok: bool)
      requires Valid()
      modifies this, procs
      ensures Valid() && State() == Block(old(State()), kind, len, block)
    {
      if procs[current].pid == 1 {
        return false;
      }
      var given := FdStateAlloc(block);
      if !given {
        return false;
      }
      ok := SleepCurrent(kind, len);
    }

    method SleepCurrent(kind: Wait, len: int) returns (ok: bool)
      requires Valid()
      modifies this, procs
      ensures var a := Asleep(old(State()), kind, len);
              && Valid()
              && State() == Dispatch(a, Put(a, a.current, a.procs[a.current].(state := Running, wait := NotWaiting)).(active := true))
    {
      SaveCurrent(Blocked);
      procs[current] := procs[current].(wait := kind, waitPid := if kind == Wait4 || kind == WaitId then len else 0);
      active := false;
      assert State() == Asleep(old(State()), kind, len);
      ok := LeaveBlocked();
    }

    /** Hand the processor on, or stay if nobody else can run. */
    method LeaveBlocked() returns (ok: bool)
      requires Valid() && procs[current].state == Blocked
      modifies this, procs
      ensures var a := old(State());
              && Valid()
              && State() == Dispatch(a, Put(a, a.current, a.procs[a.current].(state := Running, wait := NotWaiting)).(active := true))
    {
      var next := PickNext(Some(current));
      if next.None? {
        procs[current] := procs[current].(state := Running, wait := NotWaiting);
        active := true;
        return false;
      }
      LoadProc(next.value);
      return true;
    }

    /** proc_wake_parent. */
    method WakeParentOf(i: nat)
      requires Valid() && i < PROC_MAX
      modifies procs
      ensures Valid() && State() == WakeParent(old(State()), i)
    {
      var child := procs[i];
      var f := FindPid(child.ppid);
      if f.None? || procs[f.value].state != Blocked {
        return;
      }
      var p := procs[f.value];
      if p.waitPid > 0 && p.waitPid != child.pid {
        return;
      }
      if p.wait == Wait4 {
        procs[f.value] := Woken(p, Some(child.pid % WORD));
      } else if p.wait == WaitId {
        procs[f.value] := Woken(p, Some(0));
      } else {
        procs[f.value] := Woken(p, None);
      }
    }

    /** proc_exit_current. */
    method ExitCurrent()
      requires Valid()
      modifies this, procs
      ensures Valid() && State() == Exit(old(State()))
    {
      if procs[current].pid == 1 {
        active := false;
        return;
      }
      if procs[current].fdState.Some? {
        tables := tables[procs[current].fdState.value := live.fds];
      }
      procs[current] := procs[current].(state := Zombie, hasCtx := false, wait := NotWaiting);
      active := false;
      WakeParentOf(current);
      NextOrKernel();
    }

    /** The end of proc_exit_current: another process, or the kernel's own task. */
    method NextOrKernel()
      requires Valid()
      modifies this, procs
      ensures var s := old(State());
              var next := Pick(s.procs, 0);
              Valid() && State() == if next.Some? then Load(s, next.value) else s.(current := Kernel(s))
    {
      var next := PickNext(None);
      if next.Some? {
        LoadProc(next.value);
        return;
      }
      var k := FindPid(1);
      if k.Some? {
        current := k.value;
      }
    }

    /** do_fork. */
    method ForkCurrent(block: Option<nat>) returns (pid: Option<nat>)
      requires Valid()
      modifies this, procs
      ensures Valid() && State() == Fork(old(State()), block)
      ensures pid.Some? ==> pid.value == old(nextPid)
    {
      if procs[current].pid == 1 {
        return None;
      }
      var slot := FindFree();
      if slot.None? {
        return None;
      }
      pid := Some(nextPid);
      nextPid := nextPid + 1;
      if block.None? {
        procs[slot.value] := NO_PROC;
        return None;
      }
      tables := tables[block.value := live.fds];
      procs[slot.value] := Proc(true, nextPid - 1, procs[current].pid, Ready, false, true, ForkCtx(live.regs), block,
                                live.cwd, live.brk, live.tls, NotWaiting, 0);
    }

    /** proc_reap. */
    method ReapProc(i: nat)
      requires Valid() && i < PROC_MAX
      modifies this`current, procs
      ensures Valid() && State() == Reap(old(State()), i)
    {
      if !procs[i].used {
        return;
      }
      if current == i {
        var k := FindPid(1);
        if k.Some? {
          current := k.value;
        }
      }
      procs[i] := NO_PROC;
    }
  }
}
