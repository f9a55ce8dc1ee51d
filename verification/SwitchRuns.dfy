/**
 A process cannot observe being switched out: whatever the others do meanwhile, it resumes with the
 registers, descriptors, directory, break and TLS it had.
 */
module SwitchRuns {
  import opened Options
  import opened Processes
  import opened SchedRuns

  /** The state a process finds again: its own, with flags and selectors made safe. */
  function Restored(l: Live): (r: Live) { l.(regs := LoadRegs(SaveRegs(l.regs))) }

  /** Being switched out again changes nothing more. */
  lemma RestoredOnce(l: Live)
    ensures Restored(Restored(l)) == Restored(l)
  {
    FlagsOnce(l.regs.eflags);
  }

  /** A user-mode frame with interrupts on and its own selectors comes back exactly. */
  predicate UserFrame(r: Regs) {
    && Flags(r.eflags) == r.eflags && 0 < r.fs < 0x1_0000 && 0 < r.gs < 0x1_0000
    && r.cs == FLAT_CODE && r.ss == FLAT_DATA && r.ds == FLAT_DATA && r.es == FLAT_DATA
  }

  lemma SelectorExact(x: Word)
    ensures Selector(x % 0x1_0000) == x <==> 0 < x < 0x1_0000
  {
  }

  lemma RestoredExactly(l: Live)
    ensures Restored(l) == l <==> UserFrame(l.regs)
  {
    SelectorExact(l.regs.fs);
    SelectorExact(l.regs.gs);
  }

  /** The saved registers are those of `r`; a sleeper's eax may have received a result. */
  predicate Like(c: Ctx, r: Regs, exact: bool) {
    c == SaveRegs(r).(eax := c.eax) && (exact ==> c.eax == r.eax)
  }

  /** No other process uses the block of process `i`'s descriptor table. */
  predicate PrivateTable(ps: seq<Proc>, i: nat)
    requires i < |ps|
  {
    ps[i].fdState.Some? && forall j | 0 <= j < |ps| && j != i && ps[j].used :: ps[j].fdState != ps[i].fdState
  }

  /** The record of process `i` holds the state `l`. */
  predicate Record(p: Proc, l: Live, exact: bool) {
    && p.used && p.pid > 1 && !p.isThread && p.hasCtx && (p.state == Ready || (!exact && p.state == Blocked))
    && Like(p.ctx, l.regs, exact) && p.cwd == l.cwd && p.brk == l.brk && p.tls == l.tls
  }

  /** The saved state of process `i` is `l`. */
  predicate Kept(s: Sys, i: nat, l: Live, exact: bool) {
    && Shaped(s) && 0 < i < PROC_MAX && Record(s.procs[i], l, exact)
    && PrivateTable(s.procs, i) && s.procs[i].fdState.value in s.tables && s.tables[s.procs[i].fdState.value] == l.fds
  }

  predicate Parked(s: Sys, i: nat, l: Live, exact: bool) { Kept(s, i, l, exact) && s.current != i }

  predicate Resumed(s: Sys, i: nat, l: Live, exact: bool) {
    && s.current == i && s.live == Restored(l).(regs := Restored(l).regs.(eax := s.live.regs.eax))
    && (exact ==> s.live == Restored(l))
  }

  // ---------------------------------------------------------------- one step

  /** Loading the parked process restores it; loading another leaves it parked. */
  lemma LoadParked(s: Sys, j: nat, i: nat, l: Live, exact: bool)
    requires Kept(s, i, l, exact) && LiveOk(l) && j < PROC_MAX
    ensures if j == i then Resumed(Load(s, j), i, l, exact) else Parked(Load(s, j), i, l, exact)
  {
  }

  /** Records of other processes and the table blocks they own may change. */
  lemma OthersParked(s: Sys, r: Sys, i: nat, l: Live, exact: bool)
    requires Parked(s, i, l, exact) && Shaped(r) && r.current != i && r.procs[i] == s.procs[i]
    requires forall j | 0 <= j < PROC_MAX && j != i && r.procs[j].used :: r.procs[j].fdState != s.procs[i].fdState
    requires s.procs[i].fdState.value in r.tables && r.tables[s.procs[i].fdState.value] == l.fds
    ensures Parked(r, i, l, exact)
  {
  }

  lemma GiveParked(s: Sys, block: Option<nat>, i: nat, l: Live, exact: bool)
    requires Parked(s, i, l, exact) && NewBlock(s, block)
    ensures Parked(GiveTable(s, block), i, l, exact)
  {
    OthersParked(s, GiveTable(s, block), i, l, exact);
  }

  lemma SaveParked(s: Sys, state: RunState, i: nat, l: Live, exact: bool)
    requires Parked(s, i, l, exact) && s.procs[s.current].used
    ensures Parked(Save(s, state), i, l, exact)
  {
    OthersParked(s, Save(s, state), i, l, exact);
  }

  lemma PutParked(s: Sys, j: nat, p: Proc, i: nat, l: Live, exact: bool)
    requires Parked(s, i, l, exact) && j < PROC_MAX && j != i && (p.used ==> s.procs[j].used && p.fdState == s.procs[j].fdState)
    ensures Parked(Put(s, j, p), i, l, exact)
  {
    OthersParked(s, Put(s, j, p), i, l, exact);
  }

  lemma DispatchParked(s: Sys, back: Sys, i: nat, l: Live, exact: bool)
    requires Parked(s, i, l, exact) && Parked(back, i, l, exact) && LiveOk(l)
    ensures Parked(Dispatch(s, back), i, l, exact) || Resumed(Dispatch(s, back), i, l, exact)
  {
    var next := Pick(s.procs, s.current + 1);
    if next.Some? && next.value != s.current {
      LoadParked(s, next.value, i, l, exact);
    }
  }

  lemma PreemptParked(s: Sys, i: nat, l: Live, exact: bool)
    requires Parked(s, i, l, exact) && s.procs[s.current].used && LiveOk(l)
    ensures Parked(Preempt(s), i, l, exact) || Resumed(Preempt(s), i, l, exact)
  {
    var saved := Save(s, Ready);
    SaveParked(s, Ready, i, l, exact);
    var p := saved.procs[s.current].(state := Running);
    PutParked(saved, s.current, p, i, l, exact);
    DispatchParked(saved, Put(saved, s.current, p), i, l, exact);
  }

  lemma AsleepParked(s: Sys, kind: Wait, len: int, i: nat, l: Live, exact: bool)
    requires Parked(s, i, l, exact) && s.procs[s.current].used
    ensures Parked(Asleep(s, kind, len), i, l, exact)
  {
    SaveParked(s, Blocked, i, l, exact);
    var saved := Save(s, Blocked);
    var p := saved.procs[s.current].(wait := kind, waitPid := if kind == Wait4 || kind == WaitId then len else 0);
    PutParked(saved, s.current, p, i, l, exact);
    OthersParked(Put(saved, s.current, p), Asleep(s, kind, len), i, l, exact);
  }

  lemma SleepParked(s: Sys, kind: Wait, len: int, i: nat, l: Live, exact: bool)
    requires Parked(s, i, l, exact) && s.procs[s.current].used && LiveOk(l)
    ensures var a := Asleep(s, kind, len);
            var r := Dispatch(a, Put(a, s.current, a.procs[s.current].(state := Running, wait := NotWaiting)).(active := true));
            Parked(r, i, l, exact) || Resumed(r, i, l, exact)
  {
    AsleepParked(s, kind, len, i, l, exact);
    var a := Asleep(s, kind, len);
    var p := a.procs[s.current].(state := Running, wait := NotWaiting);
    PutParked(a, s.current, p, i, l, exact);
    OthersParked(Put(a, s.current, p), Put(a, s.current, p).(active := true), i, l, exact);
    DispatchParked(a, Put(a, s.current, p).(active := true), i, l, exact);
  }

  lemma BlockParked(s: Sys, kind: Wait, len: int, block: Option<nat>, i: nat, l: Live, exact: bool)
    requires Parked(s, i, l, exact) && s.procs[s.current].used && NewBlock(s, block) && LiveOk(l)
    ensures Parked(Block(s, kind, len, block), i, l, exact) || Resumed(Block(s, kind, len, block), i, l, exact)
  {
    GiveParked(s, block, i, l, exact);
    SleepParked(GiveTable(s, block), kind, len, i, l, exact);
  }

  /** A waker may give a sleeper its result; a READY process is left alone. */
  lemma WokenParked(s: Sys, j: nat, eax: Option<Word>, i: nat, l: Live, exact: bool)
    requires Parked(s, i, l, exact) && j < PROC_MAX && s.procs[j].used && s.procs[j].state == Blocked
    ensures Parked(Put(s, j, Woken(s.procs[j], eax)), i, l, exact)
  {
  }

  lemma WakeParentParked(s: Sys, j: nat, i: nat, l: Live, exact: bool)
    requires Parked(s, i, l, exact) && j < PROC_MAX
    ensures Parked(WakeParent(s, j), i, l, exact)
  {
    var child := s.procs[j];
    var f := Find(s.procs, child.ppid, 0);
    if f.Some? {
      var p := s.procs[f.value];
      if p.state == Blocked && !(p.waitPid > 0 && p.waitPid != child.pid) {
        WokenParked(s, f.value, if p.wait == Wait4 then Some(child.pid % WORD) else if p.wait == WaitId then Some(0) else None, i, l, exact);
      }
    }
  }

  lemma ExitParked(s: Sys, i: nat, l: Live, exact: bool)
    requires Inv(s) && Parked(s, i, l, exact) && LiveOk(l)
    ensures Parked(Exit(s), i, l, exact) || Resumed(Exit(s), i, l, exact)
  {
    var p := s.procs[s.current];
    if p.pid != 1 {
      var dead := Put(s, s.current, p.(state := Zombie, hasCtx := false, wait := NotWaiting))
                  .(tables := Store(s.tables, p.fdState, s.live.fds), active := false);
      OthersParked(s, dead, i, l, exact);
      WakeParentParked(dead, s.current, i, l, exact);
      var woken := WakeParent(dead, s.current);
      var next := Pick(woken.procs, 0);
      if next.Some? {
        LoadParked(woken, next.value, i, l, exact);
      } else {
        KernelParked(woken, i, l, exact);
      }
    }
  }

  /** The kernel's task is not the parked process. */
  lemma KernelParked(s: Sys, i: nat, l: Live, exact: bool)
    requires Parked(s, i, l, exact)
    ensures Kernel(s) != i && Parked(s.(current := Kernel(s)), i, l, exact)
  {
    OthersParked(s, s.(current := Kernel(s)), i, l, exact);
  }

  lemma TickParked(s: Sys, sig: Outcome, block: Option<nat>, i: nat, l: Live, exact: bool)
    requires Inv(s) && Parked(s, i, l, exact) && NewBlock(s, block) && LiveOk(l)
    ensures Parked(Tick(s, sig, block), i, l, exact) || Resumed(Tick(s, sig, block), i, l, exact)
  {
    if CanTick(s) {
      GiveKeeps(s, block);
      GiveParked(s, block, i, l, exact);
      var t := GiveTable(s, block);
      match sig {
        case Nothing => PreemptParked(t, i, l, exact);
        case Killed => ExitParked(t, i, l, exact);
        case Handler(regs) =>
          var h := t.(live := t.live.(regs := regs));
          OthersParked(t, h, i, l, exact);
          PreemptParked(h, i, l, exact);
      }
    }
  }

  /** A new process gets its own block, or shares the one of the current process. */
  lemma AddParked(s: Sys, r: Sys, j: nat, i: nat, l: Live, exact: bool)
    requires Parked(s, i, l, exact) && Shaped(r) && j < PROC_MAX && !s.procs[j].used && r.current != i
    requires r.procs == s.procs[j := r.procs[j]] && (r.procs[j].used ==> r.procs[j].fdState != s.procs[i].fdState)
    requires forall k | k in s.tables :: k in r.tables && r.tables[k] == s.tables[k]
    ensures Parked(r, i, l, exact)
  {
    OthersParked(s, r, i, l, exact);
  }

  lemma SpawnParked(s: Sys, e: Event, i: nat, l: Live, exact: bool)
    requires Inv(s) && Parked(s, i, l, exact) && Proper(s, e) && (e.Spawn? || e.SpawnThread?)
    ensures Parked(Apply(s, e), i, l, exact)
  {
    var slot := FreeSlot(s.procs, 0);
    if s.procs[s.current].pid != 1 && slot.Some? {
      AddParked(s, Apply(s, e), slot.value, i, l, exact);
    }
  }

  lemma StartParked(s: Sys, e: Event, i: nat, l: Live, exact: bool)
    requires Inv(s) && Parked(s, i, l, exact) && Proper(s, e) && e.Start?
    ensures Parked(Apply(s, e), i, l, exact)
  {
    var slot := FreeSlot(s.procs, 0);
    if !s.active && slot.Some? {
      AddParked(s, Apply(s, e), slot.value, i, l, exact);
    }
  }

  lemma ReapParked(s: Sys, j: nat, i: nat, l: Live, exact: bool)
    requires Parked(s, i, l, exact) && j < PROC_MAX && j != i
    ensures Parked(Reap(s, j), i, l, exact)
  {
    KernelParked(s, i, l, exact);
    OthersParked(s, Reap(s, j), i, l, exact);
  }

  /** No event but its own reaping disturbs a parked process; being picked restores it. */
  lemma StepParked(s: Sys, e: Event, i: nat, l: Live, exact: bool)
    requires Inv(s) && Parked(s, i, l, exact) && LiveOk(l) && Proper(s, e) && e != Collect(i)
    ensures Parked(Apply(s, e), i, l, exact) || Resumed(Apply(s, e), i, l, exact)
  {
    match e {
      case User(act) => OthersParked(s, Apply(s, e), i, l, exact);
      case Syscall => OthersParked(s, Apply(s, e), i, l, exact);
      case Timer(sig, block) => TickParked(s, sig, block, i, l, exact);
      case Sleep(kind, len, block) => BlockParked(s, kind, len, block, i, l, exact);
      case Quit => ExitParked(s, i, l, exact);
      case Spawn(_) => SpawnParked(s, e, i, l, exact);
      case SpawnThread(_, _) => SpawnParked(s, e, i, l, exact);
      case Start(_, _, _, _) => StartParked(s, e, i, l, exact);
      case Collect(j) =>
        if j < PROC_MAX {
          ReapParked(s, j, i, l, exact);
        }
      case Rouse(j, eax) =>
        if j < PROC_MAX && s.procs[j].used && s.procs[j].pid != 1 && s.procs[j].state == Blocked {
          WokenParked(s, j, eax, i, l, exact);
        }
    }
  }

  // ---------------------------------------------------------------- whole runs

  /** Process `i` is not the current one in any state of the run but the last, and is not reaped. */
  ghost predicate Away(s: Sys, es: seq<Event>, i: nat)
    requires Shaped(s)
    decreases |es|
  {
    es != [] ==> s.current != i && es[0] != Collect(i) && Away(Apply(s, es[0]), es[1..], i)
  }

  lemma {:induction false} ParkedRun(s: Sys, es: seq<Event>, i: nat, l: Live, exact: bool)
    requires Inv(s) && Parked(s, i, l, exact) && LiveOk(l) && Possible(s, es) && Away(s, es, i)
    ensures if After(s, es).current == i then Resumed(After(s, es), i, l, exact) else Parked(After(s, es), i, l, exact)
    decreases |es|
  {
    if es != [] {
      var r := Apply(s, es[0]);
      StepKeeps(s, es[0]);
      StepParked(s, es[0], i, l, exact);
      if Parked(r, i, l, exact) {
        ParkedRun(r, es[1..], i, l, exact);
      } else {
        assert es[1..] == [];
      }
    }
  }

  /** A timer tick that switches away parks the process with all it had. */
  lemma TickParks(s: Sys, block: Option<nat>)
    requires Inv(s) && CanTick(s) && NewBlock(s, block) && !s.procs[s.current].isThread && PrivateTable(s.procs, s.current)
    requires Tick(s, Nothing, block).current != s.current
    ensures Parked(Tick(s, Nothing, block), s.current, s.live, true)
  {
    var saved := Save(s, Ready);
    SaveKeeps(s, Ready);
    assert Kept(saved, s.current, s.live, true);
    LoadParked(saved, Pick(saved.procs, s.current + 1).value, s.current, s.live, true);
  }

  lemma SleepParks(s: Sys, kind: Wait, len: int, block: Option<nat>)
    requires Inv(s) && s.current != 0 && NewBlock(s, block) && !s.procs[s.current].isThread && PrivateTable(s.procs, s.current)
    requires Block(s, kind, len, block).current != s.current
    ensures Parked(Block(s, kind, len, block), s.current, s.live, false)
  {
    var a := Asleep(s, kind, len);
    AsleepKeeps(s, kind, len);
    assert Kept(a, s.current, s.live, false);
    LoadParked(a, Pick(a.procs, s.current + 1).value, s.current, s.live, false);
  }

  /** Preemption, any interleaving of other processes, then resumption is invisible. */
  lemma Preempted(s: Sys, block: Option<nat>, es: seq<Event>)
    requires Inv(s) && CanTick(s) && NewBlock(s, block) && !s.procs[s.current].isThread && PrivateTable(s.procs, s.current)
    requires Tick(s, Nothing, block).current != s.current
    requires var t := Tick(s, Nothing, block); Possible(t, es) && Away(t, es, s.current) && After(t, es).current == s.current
    ensures After(Tick(s, Nothing, block), es).live == Restored(s.live)
  {
    TickParks(s, block);
    TickKeeps(s, Nothing, block);
    ParkedRun(Tick(s, Nothing, block), es, s.current, s.live, true);
  }

  /** A blocking call gives back everything but the result it left in eax. */
  lemma Slept(s: Sys, kind: Wait, len: int, block: Option<nat>, es: seq<Event>)
    requires Inv(s) && s.current != 0 && NewBlock(s, block) && !s.procs[s.current].isThread && PrivateTable(s.procs, s.current)
    requires Block(s, kind, len, block).current != s.current
    requires var t := Block(s, kind, len, block); Possible(t, es) && Away(t, es, s.current) && After(t, es).current == s.current
    ensures var r := After(Block(s, kind, len, block), es).live;
            r == Restored(s.live).(regs := Restored(s.live).regs.(eax := r.regs.eax))
  {
    SleepParks(s, kind, len, block);
    BlockKeeps(s, kind, len, block);
    ParkedRun(Block(s, kind, len, block), es, s.current, s.live, false);
  }
}
