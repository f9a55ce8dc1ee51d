/**
 The life of a process over runs of the scheduler (`src/proc.c`): a sleeper sleeps until it is woken, a dead
 process never runs again, its slot is free once it is reaped, and pids are never shared.
 */
module ProcessLife {
  import opened Options
  import opened Processes
  import opened SchedRuns

  // ---------------------------------------------------------------- who is left alone

  /** The record of process `i` is as it was, and another process is current. */
  predicate Still(s: Sys, r: Sys, i: nat) {
    Shaped(s) && Shaped(r) && i < PROC_MAX && r.procs[i] == s.procs[i] && r.current != i
  }

  /** A process that cannot be picked is left alone by every switch. */
  lemma DispatchStill(s: Sys, back: Sys, i: nat)
    requires Shaped(s) && Shaped(back) && i < PROC_MAX && !Eligible(s.procs[i])
    requires back.procs[i] == s.procs[i] && back.current != i
    ensures Still(s, Dispatch(s, back), i)
  {
  }

  lemma PreemptStill(s: Sys, i: nat)
    requires Shaped(s) && i < PROC_MAX && i != s.current && !Eligible(s.procs[i])
    ensures Still(s, Preempt(s), i)
  {
    var saved := Save(s, Ready);
    DispatchStill(saved, Put(saved, s.current, saved.procs[s.current].(state := Running)), i);
  }

  lemma BlockStill(s: Sys, kind: Wait, len: int, block: Option<nat>, i: nat)
    requires Shaped(s) && i < PROC_MAX && i != s.current && !Eligible(s.procs[i])
    ensures Still(s, Block(s, kind, len, block), i)
  {
    var asleep := Asleep(GiveTable(s, block), kind, len);
    DispatchStill(asleep, Put(asleep, s.current, asleep.procs[s.current].(state := Running, wait := NotWaiting)).(active := true), i);
  }

  /** The exit of the current process is what process `i` waits for. */
  predicate Told(s: Sys, i: nat)
    requires Shaped(s) && i < PROC_MAX
  {
    var (p, child) := (s.procs[i], s.procs[s.current]);
    p.state == Blocked && Find(s.procs, child.ppid, 0) == Some(i) && (p.waitPid <= 0 || p.waitPid == child.pid)
  }

  /** The exiting process before its parent is told. */
  function Gone(s: Sys): (r: Sys)
    requires Shaped(s)
    ensures Shaped(r) && r.current == s.current
  {
    var p := s.procs[s.current];
    Put(s, s.current, p.(state := Zombie, hasCtx := false, wait := NotWaiting))
    .(tables := Store(s.tables, p.fdState, s.live.fds), active := false)
  }

  lemma {:induction false} FindSame(ps: seq<Proc>, qs: seq<Proc>, pid: nat, i: nat)
    requires i <= |ps| == |qs| && forall j | 0 <= j < |ps| :: qs[j].used == ps[j].used && qs[j].pid == ps[j].pid
    ensures Find(qs, pid, i) == Find(ps, pid, i)
    decreases |ps| - i
  {
    if i < |ps| {
      FindSame(ps, qs, pid, i + 1);
    }
  }

  /** An exit wakes the parent that waits for it, and leaves every other process alone. */
  lemma WakeParentStill(s: Sys, i: nat)
    requires Shaped(s) && i < PROC_MAX && i != s.current
    ensures var r := WakeParent(Gone(s), s.current);
            if Told(s, i) then r.procs[i].state == Ready && r.procs[i].wait == NotWaiting else r.procs[i] == s.procs[i]
  {
    FindSame(s.procs, Gone(s).procs, s.procs[s.current].ppid, 0);
  }

  lemma ExitStill(s: Sys, i: nat)
    requires Inv(s) && s.current != 0 && 0 < i < PROC_MAX && i != s.current && !Eligible(s.procs[i]) && !Told(s, i)
    ensures Still(s, Exit(s), i)
  {
    WakeParentStill(s, i);
    KernelIsZero(WakeParent(Gone(s), s.current));
  }

  lemma KernelIsZero(s: Sys)
    requires Shaped(s) && s.procs[0].used && s.procs[0].pid == 1
    ensures Kernel(s) == 0
  {
  }

  // ---------------------------------------------------------------- sleeping

  /** The event ends the current process. */
  predicate Ends(s: Sys, e: Event)
    requires Shaped(s)
  {
    || (e.Quit? && s.procs[s.current].pid != 1)
    || (e.Timer? && e.sig.Killed? && CanTick(s) && (s.procs[s.current].fdState.Some? || e.block.Some?))
  }

  /** The event wakes or reaps process `i`. */
  predicate Disturbs(s: Sys, e: Event, i: nat)
    requires Shaped(s) && i < PROC_MAX
  {
    e == Collect(i) || (e.Rouse? && e.i == i) || (Ends(s, e) && Told(s, i))
  }

  /** Process `i` is blocked, and another one is current. */
  predicate Sleeps(s: Sys, i: nat) { Shaped(s) && 0 < i < PROC_MAX && s.procs[i].used && s.procs[i].state == Blocked && s.current != i }

  /** Process `i` has ended and not been reaped. */
  predicate Dead(s: Sys, i: nat) {
    Shaped(s) && 0 < i < PROC_MAX && s.procs[i].used && s.procs[i].state == Zombie && !s.procs[i].hasCtx && s.current != i
  }

  lemma GiveStill(s: Sys, block: Option<nat>, i: nat)
    requires Shaped(s) && i < PROC_MAX && i != s.current
    ensures Still(s, GiveTable(s, block), i) && (Told(GiveTable(s, block), i) <==> Told(s, i))
    ensures GiveTable(s, block).procs[s.current] == s.procs[s.current].(fdState := GiveTable(s, block).procs[s.current].fdState)
  {
    FindSame(s.procs, GiveTable(s, block).procs, s.procs[s.current].ppid, 0);
  }

  lemma TickStill(s: Sys, sig: Outcome, block: Option<nat>, i: nat)
    requires Inv(s) && NewBlock(s, block) && 0 < i < PROC_MAX && i != s.current && !Eligible(s.procs[i])
    requires !(Ends(s, Timer(sig, block)) && Told(s, i))
    ensures Still(s, Tick(s, sig, block), i)
  {
    if CanTick(s) {
      GiveStill(s, block, i);
      GiveKeeps(s, block);
      var t := GiveTable(s, block);
      if t.procs[t.current].fdState.Some? {
        match sig
        case Nothing => PreemptStill(t, i);
        case Killed => ExitStill(t, i);
        case Handler(regs) => PreemptStill(t.(live := t.live.(regs := regs)), i);
      }
    }
  }

  lemma SpawnStill(s: Sys, e: Event, i: nat)
    requires Shaped(s) && i < PROC_MAX && i != s.current && s.procs[i].used && (e.Spawn? || e.SpawnThread? || e.Start?)
    ensures Still(s, Apply(s, e), i)
  {
  }

  /** Every event that does not wake or reap it leaves a sleeper or a dead process as it is. */
  lemma StepStill(s: Sys, e: Event, i: nat)
    requires Inv(s) && Proper(s, e) && (Sleeps(s, i) || Dead(s, i)) && !Disturbs(s, e, i)
    ensures Still(s, Apply(s, e), i)
  {
    match e {
      case User(_) =>
      case Syscall =>
      case Timer(sig, block) => TickStill(s, sig, block, i);
      case Sleep(kind, len, block) => BlockStill(s, kind, len, block, i);
      case Quit => if s.current != 0 { ExitStill(s, i); }
      case Spawn(_) => SpawnStill(s, e, i);
      case SpawnThread(_, _) => SpawnStill(s, e, i);
      case Start(_, _, _, _) => SpawnStill(s, e, i);
      case Collect(j) => if j < PROC_MAX { ReapStill(s, j, i); }
      case Rouse(_, _) =>
    }
  }

  lemma ReapStill(s: Sys, j: nat, i: nat)
    requires Inv(s) && 0 < j < PROC_MAX && 0 < i < PROC_MAX && i != j && i != s.current
    ensures Still(s, Reap(s, j), i)
  {
    KernelIsZero(s);
  }

  lemma ExitWakes(s: Sys, i: nat)
    requires Inv(s) && s.current != 0 && Sleeps(s, i) && Told(s, i)
    ensures Exit(s).procs[i].state != Blocked
  {
    WakeParentStill(s, i);
  }

  /** A sleeper goes on sleeping, its record unchanged, if and only if the event does not wake or reap it. */
  lemma SleepStepIff(s: Sys, e: Event, i: nat)
    requires Inv(s) && Proper(s, e) && Sleeps(s, i)
    ensures Sleeps(Apply(s, e), i) <==> !Disturbs(s, e, i)
    ensures !Disturbs(s, e, i) ==> Apply(s, e).procs[i] == s.procs[i]
  {
    if !Disturbs(s, e, i) {
      StepStill(s, e, i);
    } else if e.Quit? {
      ExitWakes(s, i);
    } else if e.Timer? {
      KillWakes(s, e.block, i);
    } else {
      DirectlyWakes(s, e, i);
    }
  }

  lemma KilledIs(s: Sys, block: Option<nat>)
    requires Shaped(s) && Ends(s, Timer(Killed, block))
    ensures Tick(s, Killed, block) == Exit(GiveTable(s, block))
  {
  }

  lemma KillWakes(s: Sys, block: Option<nat>, i: nat)
    requires Inv(s) && NewBlock(s, block) && Sleeps(s, i) && Ends(s, Timer(Killed, block)) && Told(s, i)
    ensures Tick(s, Killed, block).procs[i].state != Blocked
  {
    GiveStill(s, block, i);
    GiveKeeps(s, block);
    KilledIs(s, block);
    ExitWakes(GiveTable(s, block), i);
  }

  lemma DirectlyWakes(s: Sys, e: Event, i: nat)
    requires Inv(s) && Sleeps(s, i) && (e == Collect(i) || (e.Rouse? && e.i == i))
    ensures !Sleeps(Apply(s, e), i)
  {
  }

  /** No event of the run disturbs process `i`. */
  ghost predicate Undisturbed(s: Sys, es: seq<Event>, i: nat)
    requires Shaped(s) && i < PROC_MAX
    decreases |es|
  {
    es != [] ==> !Disturbs(s, es[0], i) && Undisturbed(Apply(s, es[0]), es[1..], i)
  }

  /** So over every run a sleeper never runs before it is woken. */
  lemma {:induction false} SleepLasts(s: Sys, es: seq<Event>, i: nat)
    requires Inv(s) && Possible(s, es) && Sleeps(s, i) && Undisturbed(s, es, i)
    ensures Sleeps(After(s, es), i) && After(s, es).procs[i] == s.procs[i]
    decreases |es|
  {
    if es != [] {
      StepKeeps(s, es[0]);
      SleepStepIff(s, es[0], i);
      SleepLasts(Apply(s, es[0]), es[1..], i);
    }
  }

  /** A blocking call that gives up the processor leaves the caller asleep in the way it asked for. */
  lemma BlockSleeps(s: Sys, kind: Wait, len: int, block: Option<nat>)
    requires Inv(s) && s.current != 0 && NewBlock(s, block) && Block(s, kind, len, block).current != s.current
    ensures var r := Block(s, kind, len, block);
            Sleeps(r, s.current) && r.procs[s.current].wait == kind
            && (kind == Wait4 || kind == WaitId ==> r.procs[s.current].waitPid == len)
  {
    var asleep := Asleep(GiveTable(s, block), kind, len);
    DispatchLoads(asleep, Put(asleep, s.current, asleep.procs[s.current].(state := Running, wait := NotWaiting)).(active := true));
  }

  lemma DispatchLoads(s: Sys, back: Sys)
    requires Shaped(s) && Shaped(back) && back.current == s.current
    ensures Dispatch(s, back).current != s.current ==> Dispatch(s, back).procs[s.current] == s.procs[s.current]
  {
  }

  // ---------------------------------------------------------------- ending

  /** A process that exits is dead, whoever runs next, and its descriptors are kept for whoever reaps it. */
  lemma ExitDies(s: Sys)
    requires Inv(s) && s.current != 0
    ensures Dead(Exit(s), s.current)
    ensures var id := s.procs[s.current].fdState; id.Some? ==> id.value in Exit(s).tables && Exit(s).tables[id.value] == s.live.fds
  {
    var woken := WakeParent(Gone(s), s.current);
    assert woken.procs[s.current].state != Ready;
    KernelIsZero(woken);
  }

  /** Over every run a dead process stays dead and never runs again, until it is reaped. */
  lemma {:induction false} DeadStays(s: Sys, es: seq<Event>, i: nat)
    requires Inv(s) && Possible(s, es) && Dead(s, i) && Collect(i) !in es
    ensures Dead(After(s, es), i) && After(s, es).procs[i].pid == s.procs[i].pid
    decreases |es|
  {
    if es != [] {
      StepKeeps(s, es[0]);
      DeadStep(s, es[0], i);
      DeadStays(Apply(s, es[0]), es[1..], i);
    }
  }

  lemma DeadStep(s: Sys, e: Event, i: nat)
    requires Inv(s) && Proper(s, e) && Dead(s, i) && e != Collect(i)
    ensures Dead(Apply(s, e), i) && Apply(s, e).procs[i] == s.procs[i]
  {
    if e.Rouse? && e.i == i {
    } else {
      StepStill(s, e, i);
    }
  }

  /** Reaping frees the slot and nothing else. */
  lemma ReapFrees(s: Sys, i: nat)
    requires Inv(s) && 0 < i < PROC_MAX
    ensures !Reap(s, i).procs[i].used && (forall j | 0 <= j < PROC_MAX && j != i :: Reap(s, i).procs[j] == s.procs[j])
    ensures FreeSlot(Reap(s, i).procs, 0).Some? && Reap(s, i).current != i
  {
    KernelIsZero(s);
  }

  // ---------------------------------------------------------------- memory

  lemma PageUpIs(v: Word, n: nat)
    requires v <= WORD - PAGE && n == PageUp(v)
    ensures n % PAGE == 0 && v <= n < v + PAGE
  {
  }

  /**
   user_mmap_anon: either nothing happens, or the break moves past a page-aligned stretch of at least the
   length asked for, above everything handed out before and below the stack. It is refused exactly when the length
   is zero or there is no such room.
   */
  lemma AnonFresh(b: Brk, len: Word) returns (start: nat)
    requires BrkOk(b) && len <= WORD - PAGE
    ensures start % PAGE == 0 && b.cur <= start < b.cur + PAGE
    ensures if len == 0 || start + PageUp(len) > USER_END - STACK_RESERVE then Anon(b, len) == b
            else Anon(b, len).base == b.base && start + len <= Anon(b, len).cur <= USER_END - STACK_RESERVE && Anon(b, len).cur < start + len + PAGE
  {
    start := PageUp(b.cur);
    PageUpIs(b.cur, start);
    PageUpIs(len, PageUp(len));
  }

  /** user_set_brk: the break goes where it is told between its base and the stack, and nowhere else. */
  lemma BreakMoves(b: Brk, addr: Word)
    ensures MoveBrk(b, addr).base == b.base
    ensures MoveBrk(b, addr).cur == addr <==> addr == b.cur || b.base <= addr <= USER_END - STACK_RESERVE
    ensures MoveBrk(b, addr).cur == addr || MoveBrk(b, addr) == b
  {
  }

  // ---------------------------------------------------------------- pids

  /** No two processes have the same pid, and the next one is larger than all. */
  predicate Pids(s: Sys) {
    && (forall i | 0 <= i < |s.procs| && s.procs[i].used :: s.procs[i].pid < s.nextPid)
    && (forall i, j | 0 <= i < j < |s.procs| && s.procs[i].used && s.procs[j].used :: s.procs[i].pid != s.procs[j].pid)
  }

  /** The same processes under the same pids. */
  predicate SamePids(s: Sys, r: Sys) {
    && |r.procs| == |s.procs| && r.nextPid == s.nextPid
    && forall i | 0 <= i < |s.procs| :: r.procs[i].used == s.procs[i].used && r.procs[i].pid == s.procs[i].pid
  }

  lemma PidsSame(s: Sys, r: Sys)
    requires Pids(s) && SamePids(s, r)
    ensures Pids(r)
  {
  }

  lemma DispatchPids(s: Sys, back: Sys)
    requires Shaped(s) && Shaped(back) && SamePids(s, back)
    ensures SamePids(s, Dispatch(s, back))
  {
  }

  lemma PreemptPids(s: Sys)
    requires Shaped(s)
    ensures SamePids(s, Preempt(s))
  {
    var saved := Save(s, Ready);
    DispatchPids(saved, Put(saved, s.current, saved.procs[s.current].(state := Running)));
  }

  lemma AsleepPids(s: Sys, kind: Wait, len: int, block: Option<nat>)
    requires Shaped(s)
    ensures SamePids(s, GiveTable(s, block)) && SamePids(s, Asleep(GiveTable(s, block), kind, len))
  {
  }

  lemma BlockPids(s: Sys, kind: Wait, len: int, block: Option<nat>)
    requires Shaped(s)
    ensures SamePids(s, Block(s, kind, len, block))
  {
    var asleep := Asleep(GiveTable(s, block), kind, len);
    AsleepPids(s, kind, len, block);
    DispatchPids(asleep, Put(asleep, s.current, asleep.procs[s.current].(state := Running, wait := NotWaiting)).(active := true));
  }

  lemma ExitPids(s: Sys)
    requires Shaped(s)
    ensures SamePids(s, Exit(s))
  {
    WokenPids(s);
    var woken := WakeParent(Gone(s), s.current);
    var next := Pick(woken.procs, 0);
    if next.Some? {
      LoadPids(woken, next.value);
    }
  }

  lemma LoadPids(s: Sys, i: nat)
    requires Shaped(s) && i < PROC_MAX
    ensures SamePids(s, Load(s, i))
  {
  }

  lemma WokenPids(s: Sys)
    requires Shaped(s)
    ensures SamePids(s, WakeParent(Gone(s), s.current))
  {
  }

  lemma TickPids(s: Sys, sig: Outcome, block: Option<nat>)
    requires Shaped(s)
    ensures SamePids(s, Tick(s, sig, block))
  {
    if CanTick(s) {
      var t := GiveTable(s, block);
      AsleepPids(s, NotWaiting, 0, block);
      TickedPids(t, sig);
    }
  }

  lemma TickedPids(t: Sys, sig: Outcome)
    requires Shaped(t)
    ensures match sig
            case Nothing => SamePids(t, Preempt(t))
            case Killed => SamePids(t, Exit(t))
            case Handler(regs) => SamePids(t, Preempt(t.(live := t.live.(regs := regs))))
  {
    match sig
    case Nothing => PreemptPids(t);
    case Killed => ExitPids(t);
    case Handler(regs) => PreemptPids(t.(live := t.live.(regs := regs)));
  }

  /** A new process gets a pid nobody has. */
  lemma SpawnPids(s: Sys, e: Event)
    requires Inv(s) && Pids(s) && (e.Spawn? || e.SpawnThread? || e.Start?)
    ensures Pids(Apply(s, e))
  {
    var slot := FreeSlot(s.procs, 0);
    if slot.Some? && Apply(s, e).nextPid != s.nextPid {
      AddPids(s, Apply(s, e), slot.value);
    } else {
      assert Apply(s, e) == s;
    }
  }

  lemma AddPids(s: Sys, r: Sys, c: nat)
    requires Pids(s) && c < |s.procs| == |r.procs| && r.procs == s.procs[c := r.procs[c]] && r.nextPid == s.nextPid + 1
    requires r.procs[c].used ==> r.procs[c].pid == s.nextPid
    ensures Pids(r)
  {
  }

  lemma StepPids(s: Sys, e: Event)
    requires Inv(s) && Proper(s, e) && Pids(s)
    ensures Pids(Apply(s, e))
  {
    match e {
      case Timer(sig, block) => TickPids(s, sig, block);
      case Sleep(kind, len, block) => BlockPids(s, kind, len, block);
      case Quit => ExitPids(s);
      case Spawn(_) => SpawnPids(s, e);
      case SpawnThread(_, _) => SpawnPids(s, e);
      case Start(_, _, _, _) => SpawnPids(s, e);
      case _ =>
    }
    if !e.Spawn? && !e.SpawnThread? && !e.Start? && !e.Collect? {
      PidsSame(s, Apply(s, e));
    }
  }

  /** In every state of every run from boot pids are unique. */
  lemma {:induction false} PidsLast(s: Sys, es: seq<Event>)
    requires Inv(s) && Possible(s, es) && Pids(s)
    ensures Pids(After(s, es))
    decreases |es|
  {
    if es != [] {
      StepKeeps(s, es[0]);
      StepPids(s, es[0]);
      PidsLast(Apply(s, es[0]), es[1..]);
    }
  }

  lemma PidsUnique(live: Live, es: seq<Event>)
    requires Possible(Boot(live), es)
    ensures Pids(After(Boot(live), es))
  {
    PidsLast(Boot(live), es);
  }
}
