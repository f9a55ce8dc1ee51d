/**
 Runs of the scheduler: one running process, round-robin fairness, and switches that a process
 cannot observe.
 */
module SchedRuns {
  import opened Options
  import opened Processes

  // ---------------------------------------------------------------- the invariant

  predicate Rooted(c: string) { |c| > 0 && c[0] == '/' }

  predicate LiveOk(l: Live) { BrkOk(l.brk) && Rooted(l.cwd) && l.tls.limit < 0x10_0000 }

  /** Slot 0 is the kernel's own task and the only one with pid 1. */
  predicate KernelSlot(ps: seq<Proc>) {
    && |ps| == PROC_MAX && ps[0].used && ps[0].pid == 1 && ps[0].state == Running
    && forall i | 0 < i < PROC_MAX && ps[i].used :: ps[i].pid > 1
  }

  /** Only the current user process is RUNNING, and it is. */
  predicate OneRuns(s: Sys)
    requires Shaped(s)
  {
    && (forall i | 0 < i < PROC_MAX && s.procs[i].used && s.procs[i].state == Running :: s.current == i)
    && (s.current != 0 ==> s.procs[s.current].used && s.procs[s.current].state == Running && s.active)
  }

  predicate TablesKept(s: Sys) {
    forall i | 0 <= i < |s.procs| && s.procs[i].used && s.procs[i].fdState.Some? :: s.procs[i].fdState.value in s.tables
  }

  predicate Inv(s: Sys) {
    && Shaped(s) && KernelSlot(s.procs) && s.nextPid > 1 && OneRuns(s) && TablesKept(s)
    && (s.current != 0 ==> LiveOk(s.live))
  }

  predicate NewBlock(s: Sys, b: Option<nat>) { b.Some? ==> b.value !in s.tables }

  /** The heap hands out blocks not in use, the loader keeps images below the stack, pid 1 is never reaped. */
  predicate Proper(s: Sys, e: Event) {
    match e
    case User(act) => act.Exec? ==> act.end <= USER_END - STACK_RESERVE
    case Syscall => true
    case Timer(_, block) => NewBlock(s, block)
    case Sleep(_, _, block) => NewBlock(s, block)
    case Quit => true
    case Spawn(block) => NewBlock(s, block)
    case SpawnThread(_, block) => NewBlock(s, block)
    case Start(_, end, _, block) => NewBlock(s, block) && end <= USER_END - STACK_RESERVE
    case Collect(i) => i != 0
    case Rouse(_, _) => true
  }

  /** Replacing one used record by another that is not RUNNING unless it is current. */
  lemma PutKeeps(s: Sys, i: nat, p: Proc)
    requires Shaped(s) && KernelSlot(s.procs) && TablesKept(s) && 0 < i < PROC_MAX
    requires p.used ==> p.pid > 1
    requires p.used && p.fdState.Some? ==> p.fdState.value in s.tables
    ensures KernelSlot(Put(s, i, p).procs) && TablesKept(Put(s, i, p))
  {
  }

  /** No user process is RUNNING: the state in which another one may be loaded. */
  predicate Idle(s: Sys)
    requires Shaped(s)
  {
    forall i | 0 < i < PROC_MAX && s.procs[i].used :: s.procs[i].state != Running
  }

  lemma LoadKeeps(s: Sys, i: nat)
    requires Shaped(s) && KernelSlot(s.procs) && s.nextPid > 1 && TablesKept(s) && Idle(s) && LiveOk(s.live)
    requires 0 < i < PROC_MAX && Eligible(s.procs[i])
    ensures Inv(Load(s, i)) && Load(s, i).current == i
  {
  }

  lemma PickUser(ps: seq<Proc>, start: nat)
    requires KernelSlot(ps) && start <= PROC_MAX && Pick(ps, start).Some?
    ensures 0 < Pick(ps, start).value < PROC_MAX && Eligible(ps[Pick(ps, start).value])
  {
  }

  lemma GiveKeeps(s: Sys, block: Option<nat>)
    requires Inv(s) && s.current != 0 && NewBlock(s, block)
    ensures Inv(GiveTable(s, block)) && GiveTable(s, block).current == s.current
  {
  }

  lemma SaveKeeps(s: Sys, state: RunState)
    requires Inv(s) && s.current != 0 && state != Running
    ensures var r := Save(s, state);
            KernelSlot(r.procs) && TablesKept(r) && Idle(r) && LiveOk(r.live) && r.current == s.current && r.nextPid == s.nextPid
    ensures Save(s, state).procs[s.current] == Saved(s).(state := state)
  {
  }

  /** Giving the processor back to the process that was just saved. */
  lemma ResumeKeeps(s: Sys, p: Proc)
    requires Shaped(s) && KernelSlot(s.procs) && s.nextPid > 1 && TablesKept(s) && Idle(s) && LiveOk(s.live)
    requires s.current != 0 && p.used && p.pid > 1 && p.state == Running && p.fdState == s.procs[s.current].fdState
    requires s.procs[s.current].used
    ensures Inv(Put(s, s.current, p).(active := true))
  {
  }

  /** Everything is in place for another process to be loaded. */
  predicate Between(s: Sys) {
    && Shaped(s) && KernelSlot(s.procs) && s.nextPid > 1 && TablesKept(s) && Idle(s) && LiveOk(s.live)
    && s.current != 0 && s.procs[s.current].used
  }

  lemma DispatchKeeps(s: Sys, back: Sys)
    requires Between(s) && Inv(back)
    ensures Inv(Dispatch(s, back))
  {
    var next := Pick(s.procs, s.current + 1);
    if next.Some? {
      PickUser(s.procs, s.current + 1);
      LoadKeeps(s, next.value);
    }
  }

  lemma PreemptKeeps(s: Sys)
    requires Inv(s) && s.current != 0
    ensures Inv(Preempt(s)) && Between(Save(s, Ready))
  {
    SaveKeeps(s, Ready);
    var saved := Save(s, Ready);
    ResumeKeeps(saved, saved.procs[s.current].(state := Running));
    DispatchKeeps(saved, Put(saved, s.current, saved.procs[s.current].(state := Running)));
  }

  lemma AsleepKeeps(s: Sys, kind: Wait, len: int)
    requires Inv(s) && s.current != 0
    ensures Between(Asleep(s, kind, len)) && Asleep(s, kind, len).procs[s.current].state == Blocked
    ensures forall t | 0 <= t < PROC_MAX && t != s.current :: Asleep(s, kind, len).procs[t] == s.procs[t]
    ensures Asleep(s, kind, len).procs[s.current].pid == s.procs[s.current].pid
    ensures Asleep(s, kind, len).procs[s.current].fdState == s.procs[s.current].fdState
  {
    SaveKeeps(s, Blocked);
    var saved := Save(s, Blocked);
    PutKeeps(saved, s.current, saved.procs[s.current].(wait := kind, waitPid := if kind == Wait4 || kind == WaitId then len else 0));
  }

  lemma SleepKeeps(s: Sys, kind: Wait, len: int)
    requires Inv(s) && s.current != 0
    ensures var a := Asleep(s, kind, len);
            Inv(Dispatch(a, Put(a, s.current, a.procs[s.current].(state := Running, wait := NotWaiting)).(active := true)))
  {
    AsleepKeeps(s, kind, len);
    var a := Asleep(s, kind, len);
    var p := a.procs[s.current].(state := Running, wait := NotWaiting);
    ResumeKeeps(a, p);
    DispatchKeeps(a, Put(a, s.current, p).(active := true));
  }

  lemma BlockKeeps(s: Sys, kind: Wait, len: int, block: Option<nat>)
    requires Inv(s) && s.current != 0 && NewBlock(s, block)
    ensures Inv(Block(s, kind, len, block))
  {
    GiveKeeps(s, block);
    SleepKeeps(GiveTable(s, block), kind, len);
  }

  lemma WakeParentKeeps(s: Sys, i: nat)
    requires Shaped(s) && KernelSlot(s.procs) && TablesKept(s) && Idle(s) && i < PROC_MAX
    ensures var r := WakeParent(s, i); KernelSlot(r.procs) && TablesKept(r) && Idle(r) && r.nextPid == s.nextPid && r.active == s.active
  {
  }

  lemma KernelFound(s: Sys)
    requires Shaped(s) && KernelSlot(s.procs)
    ensures Kernel(s) == 0
  {
  }

  lemma ExitKeeps(s: Sys)
    requires Inv(s)
    ensures Inv(Exit(s))
  {
    var p := s.procs[s.current];
    if p.pid != 1 {
      var dead := Put(s, s.current, p.(state := Zombie, hasCtx := false, wait := NotWaiting))
                  .(tables := Store(s.tables, p.fdState, s.live.fds), active := false);
      assert KernelSlot(dead.procs) && TablesKept(dead) && Idle(dead);
      WakeParentKeeps(dead, s.current);
      var woken := WakeParent(dead, s.current);
      var next := Pick(woken.procs, 0);
      if next.Some? {
        PickUser(woken.procs, 0);
        LoadKeeps(woken, next.value);
      } else {
        KernelFound(woken);
      }
    }
  }

  lemma TickKeeps(s: Sys, sig: Outcome, block: Option<nat>)
    requires Inv(s) && NewBlock(s, block)
    ensures Inv(Tick(s, sig, block))
  {
    if CanTick(s) {
      GiveKeeps(s, block);
      var t := GiveTable(s, block);
      if t.procs[t.current].fdState.Some? {
        match sig {
          case Nothing => PreemptKeeps(t);
          case Killed => ExitKeeps(t);
          case Handler(regs) => PreemptKeeps(t.(live := t.live.(regs := regs)));
        }
      }
    }
  }

  /** A new record in a slot that was unused, with its table. */
  lemma AddKeeps(s: Sys, i: nat, p: Proc, tables: map<nat, Fds>)
    requires Inv(s) && 0 < i < PROC_MAX && !s.procs[i].used && (p.used ==> p.pid > 1 && p.state == Ready)
    requires s.tables.Keys <= tables.Keys && (p.used && p.fdState.Some? ==> p.fdState.value in tables)
    ensures Inv(Put(s, i, p).(tables := tables, nextPid := s.nextPid + 1))
  {
  }

  lemma SpawnKeeps(s: Sys, block: Option<nat>)
    requires Inv(s) && NewBlock(s, block)
    ensures Inv(Fork(s, block))
  {
    var slot := FreeSlot(s.procs, 0);
    if s.procs[s.current].pid != 1 && slot.Some? {
      if block.None? {
        AddKeeps(s, slot.value, NO_PROC, s.tables);
      } else {
        AddKeeps(s, slot.value, Child(s, ForkCtx(s.live.regs), false, block, s.live.tls), s.tables[block.value := s.live.fds]);
      }
    }
  }

  lemma ThreadKeeps(s: Sys, how: Share, block: Option<nat>)
    requires Inv(s) && NewBlock(s, block)
    ensures Inv(Clone(s, how, block))
  {
    var slot := FreeSlot(s.procs, 0);
    var id := if how.files then s.procs[s.current].fdState else block;
    var tls := if how.tls.Some? then Tls(how.tls.value, 0xF_FFFF, 0x51) else s.live.tls;
    if s.procs[s.current].pid != 1 && slot.Some? {
      if block.None? || id.None? {
        AddKeeps(s, slot.value, NO_PROC, s.tables);
      } else {
        AddKeeps(s, slot.value, Child(s, CloneCtx(s.live.regs, how), how.vm, id, tls),
                 if how.files then s.tables else s.tables[block.value := s.live.fds]);
      }
    }
  }

  lemma LaunchKeeps(s: Sys, regs: Regs, end: Word, fds: Fds, block: Option<nat>)
    requires Inv(s) && NewBlock(s, block) && end <= USER_END - STACK_RESERVE
    ensures Inv(Launch(s, regs, end, fds, block))
  {
    var slot := FreeSlot(s.procs, 0);
    if !s.active && slot.Some? {
      if block.None? {
        AddKeeps(s, slot.value, NO_PROC, s.tables);
      }
    }
  }

  lemma ReapKeeps(s: Sys, i: nat)
    requires Inv(s) && 0 < i < PROC_MAX
    ensures Inv(Reap(s, i))
  {
    KernelFound(s);
  }

  lemma ActKeeps(l: Live, a: Act)
    requires LiveOk(l) && (a.Exec? ==> a.end <= USER_END - STACK_RESERVE)
    ensures LiveOk(Acted(l, a))
  {
  }

  /** Every event keeps the invariant: at most one user process is RUNNING, and it is the current one. */
  lemma StepKeeps(s: Sys, e: Event)
    requires Inv(s) && Proper(s, e)
    ensures Inv(Apply(s, e))
  {
    match e {
      case User(act) =>
        if s.current != 0 {
          ActKeeps(s.live, act);
        }
      case Syscall =>
      case Timer(sig, block) => TickKeeps(s, sig, block);
      case Sleep(kind, len, block) =>
        if s.current != 0 {
          BlockKeeps(s, kind, len, block);
        }
      case Quit => ExitKeeps(s);
      case Spawn(block) => SpawnKeeps(s, block);
      case SpawnThread(how, block) => ThreadKeeps(s, how, block);
      case Start(regs, end, fds, block) => LaunchKeeps(s, regs, end, fds, block);
      case Collect(i) =>
        if i < PROC_MAX {
          ReapKeeps(s, i);
        }
      case Rouse(i, eax) =>
    }
  }

  // ---------------------------------------------------------------- runs

  ghost function After(s: Sys, es: seq<Event>): (r: Sys)
    requires Shaped(s)
    ensures Shaped(r)
    decreases |es|
  {
    if es == [] then s else After(Apply(s, es[0]), es[1..])
  }

  ghost predicate Possible(s: Sys, es: seq<Event>)
    requires Shaped(s)
    decreases |es|
  {
    es != [] ==> Proper(s, es[0]) && Possible(Apply(s, es[0]), es[1..])
  }

  lemma {:induction false} RunKeeps(s: Sys, es: seq<Event>)
    requires Inv(s) && Possible(s, es)
    ensures Inv(After(s, es))
    decreases |es|
  {
    if es != [] {
      StepKeeps(s, es[0]);
      RunKeeps(Apply(s, es[0]), es[1..]);
    }
  }

  /** proc_init. */
  function Boot(live: Live): (s: Sys) {
    Sys([NO_PROC.(used := true, pid := 1, state := Running)] + seq(PROC_MAX - 1, _ => NO_PROC), map[], 0, 2, live, false, false)
  }

  lemma ReachableKeeps(live: Live, es: seq<Event>)
    requires Possible(Boot(live), es)
    ensures Inv(After(Boot(live), es))
  {
    RunKeeps(Boot(live), es);
  }

  // ---------------------------------------------------------------- round robin

  /** Moving on to a slot that comes before `t` brings `t` closer. */
  lemma Closer(start: nat, i: nat, t: nat)
    requires start <= PROC_MAX && i < PROC_MAX && t < PROC_MAX && Distance(start, i) < Distance(start, t)
    ensures Distance(i + 1, t) < Distance(start, t)
  {
  }

  /** The events by which the timer or a blocking call passes the processor on. */
  predicate PassesOn(e: Event) { (e.Timer? && !e.sig.Killed?) || e.Sleep? }

  /** In every state of the run process `t` is READY with a context. */
  ghost predicate Waits(s: Sys, es: seq<Event>, t: nat)
    requires Shaped(s) && t < PROC_MAX
    decreases |es|
  {
    Eligible(s.procs[t]) && (es != [] ==> Waits(Apply(s, es[0]), es[1..], t))
  }

  /** How often the processor changed hands. */
  ghost function Turns(s: Sys, es: seq<Event>): (n: nat)
    requires Shaped(s)
    decreases |es|
  {
    if es == [] then 0
    else (if Apply(s, es[0]).current != s.current then 1 else 0) + Turns(Apply(s, es[0]), es[1..])
  }

  /** How often it did so in another way than by preemption or blocking: an exit, a reap, a launch. */
  ghost function Restarts(s: Sys, es: seq<Event>): (n: nat)
    requires Shaped(s)
    decreases |es|
  {
    if es == [] then 0
    else (if Apply(s, es[0]).current != s.current && !PassesOn(es[0]) then 1 else 0) + Restarts(Apply(s, es[0]), es[1..])
  }

  lemma DispatchCloser(s: Sys, back: Sys, t: nat)
    requires Between(s) && Shaped(back) && 0 < t < PROC_MAX && Eligible(s.procs[t]) && t != s.current
    ensures var r := Dispatch(s, back);
            r.current != s.current && (r.current != t ==> Distance(r.current + 1, t) < Distance(s.current + 1, t))
  {
    var next := Pick(s.procs, s.current + 1);
    if next.value != t {
      Closer(s.current + 1, next.value, t);
    }
  }

  lemma PreemptCloser(s: Sys, t: nat)
    requires Inv(s) && s.current != 0 && 0 < t < PROC_MAX && Eligible(s.procs[t])
    ensures var r := Preempt(s);
            r.current != s.current && (r.current != t ==> Distance(r.current + 1, t) < Distance(s.current + 1, t))
  {
    var saved := Save(s, Ready);
    PreemptKeeps(s);
    assert saved.procs[t] == s.procs[t];
    DispatchCloser(saved, Put(saved, s.current, saved.procs[s.current].(state := Running)), t);
  }

  lemma BlockCloser(s: Sys, kind: Wait, len: int, block: Option<nat>, t: nat)
    requires Inv(s) && s.current != 0 && NewBlock(s, block) && 0 < t < PROC_MAX && Eligible(s.procs[t])
    ensures var r := Block(s, kind, len, block);
            r.current != s.current && r.current != t ==> Distance(r.current + 1, t) < Distance(s.current + 1, t)
  {
    GiveKeeps(s, block);
    var g := GiveTable(s, block);
    if g.procs[g.current].fdState.Some? {
      AsleepKeeps(g, kind, len);
      var asleep := Asleep(g, kind, len);
      DispatchCloser(asleep, Put(asleep, s.current, asleep.procs[s.current].(state := Running, wait := NotWaiting)).(active := true), t);
    }
  }

  /** A loaded process is RUNNING. */
  lemma CurrentRuns(s: Sys, t: nat)
    requires Inv(s) && 0 < t < PROC_MAX && Eligible(s.procs[t])
    ensures s.current != t
  {
  }

  lemma TickCloser(s: Sys, sig: Outcome, block: Option<nat>, t: nat)
    requires Inv(s) && NewBlock(s, block) && !sig.Killed? && 0 < t < PROC_MAX && Eligible(s.procs[t])
    ensures var r := Tick(s, sig, block);
            r.current != s.current && r.current != t ==> Distance(r.current + 1, t) < Distance(s.current + 1, t)
  {
    if CanTick(s) {
      GiveKeeps(s, block);
      var g := GiveTable(s, block);
      PreemptCloser(if sig.Nothing? then g else g.(live := g.live.(regs := sig.regs)), t);
    }
  }

  lemma PassCloser(s: Sys, e: Event, t: nat)
    requires Inv(s) && Proper(s, e) && PassesOn(e) && 0 < t < PROC_MAX && Eligible(s.procs[t]) && Eligible(Apply(s, e).procs[t])
    requires Apply(s, e).current != s.current
    ensures Distance(Apply(s, e).current + 1, t) < Distance(s.current + 1, t)
  {
    StepKeeps(s, e);
    CurrentRuns(Apply(s, e), t);
    if e.Timer? {
      TickCloser(s, e.sig, e.block, t);
    } else {
      BlockCloser(s, e.kind, e.len, e.block, t);
    }
  }

  /**
   Round robin: while a process stays READY with a context, the processor changes hands at most as
   often as there are slots between, and eight times more for every exit, reap or launch.
   */
  lemma {:induction false} FairRun(s: Sys, es: seq<Event>, t: nat)
    requires Inv(s) && Possible(s, es) && 0 < t < PROC_MAX && Waits(s, es, t)
    ensures Turns(s, es) <= Distance(s.current + 1, t) + PROC_MAX * Restarts(s, es)
    decreases |es|
  {
    if es != [] {
      StepKeeps(s, es[0]);
      var r := Apply(s, es[0]);
      FairRun(r, es[1..], t);
      if r.current != s.current && PassesOn(es[0]) {
        PassCloser(s, es[0], t);
      }
    }
  }

  /** Process `t` is the current one in some state of the run. */
  ghost predicate Runs(s: Sys, es: seq<Event>, t: nat)
    requires Shaped(s)
    decreases |es|
  {
    s.current == t || (es != [] && Runs(Apply(s, es[0]), es[1..], t))
  }

  /** Nobody reaps slot `t`. */
  predicate Spared(es: seq<Event>, t: nat) { forall k | 0 <= k < |es| :: es[k] != Collect(t) }

  /** A state in which record `t` is as in `s`, or `t` was just loaded. */
  predicate KeepsOrLoads(s: Sys, r: Sys, t: nat)
    requires t < |s.procs|
  {
    t < |r.procs| && (r.current == t || r.procs[t] == s.procs[t])
  }

  lemma ExitSpares(s: Sys, t: nat)
    requires Inv(s) && s.current != 0 && 0 < t < PROC_MAX && Eligible(s.procs[t])
    ensures KeepsOrLoads(s, Exit(s), t)
  {
    CurrentRuns(s, t);
  }

  lemma TickSpares(s: Sys, sig: Outcome, block: Option<nat>, t: nat)
    requires Inv(s) && 0 < t < PROC_MAX && Eligible(s.procs[t]) && NewBlock(s, block)
    ensures KeepsOrLoads(s, Tick(s, sig, block), t)
  {
    if CanTick(s) {
      CurrentRuns(s, t);
      GiveKeeps(s, block);
      var g := GiveTable(s, block);
      match sig {
        case Nothing => PreemptSpares(g, t);
        case Killed => ExitSpares(g, t);
        case Handler(regs) => PreemptSpares(g.(live := g.live.(regs := regs)), t);
      }
    }
  }

  lemma DispatchSpares(s: Sys, back: Sys, t: nat)
    requires Shaped(s) && Shaped(back) && t < PROC_MAX && back.procs[t] == s.procs[t]
    ensures KeepsOrLoads(s, Dispatch(s, back), t)
  {
  }

  lemma PreemptSpares(s: Sys, t: nat)
    requires Shaped(s) && t < PROC_MAX && t != s.current
    ensures KeepsOrLoads(s, Preempt(s), t)
  {
    var saved := Save(s, Ready);
    DispatchSpares(saved, Put(saved, s.current, saved.procs[s.current].(state := Running)), t);
  }

  lemma BlockSpares(s: Sys, kind: Wait, len: int, block: Option<nat>, t: nat)
    requires Shaped(s) && t < PROC_MAX && t != s.current
    ensures KeepsOrLoads(s, Block(s, kind, len, block), t)
  {
    var g := GiveTable(s, block);
    var asleep := Asleep(g, kind, len);
    DispatchSpares(asleep, Put(asleep, s.current, asleep.procs[s.current].(state := Running, wait := NotWaiting)).(active := true), t);
  }

  /** New processes go to unused slots. */
  lemma SpawnSpares(s: Sys, e: Event, t: nat)
    requires Shaped(s) && t < PROC_MAX && s.procs[t].used && (e.Spawn? || e.SpawnThread? || e.Start?)
    ensures KeepsOrLoads(s, Apply(s, e), t)
  {
  }

  lemma StepSpares(s: Sys, e: Event, t: nat)
    requires Inv(s) && Proper(s, e) && 0 < t < PROC_MAX && Eligible(s.procs[t]) && e != Collect(t)
    ensures KeepsOrLoads(s, Apply(s, e), t)
  {
    CurrentRuns(s, t);
    match e {
      case User(_) =>
      case Syscall =>
      case Timer(sig, block) => TickSpares(s, sig, block, t);
      case Sleep(kind, len, block) => BlockSpares(s, kind, len, block, t);
      case Quit => if s.current != 0 { ExitSpares(s, t); }
      case Spawn(_) => SpawnSpares(s, e, t);
      case SpawnThread(_, _) => SpawnSpares(s, e, t);
      case Start(_, _, _, _) => SpawnSpares(s, e, t);
      case Collect(_) =>
      case Rouse(_, _) =>
    }
  }

  /** A READY process that is never loaded and never reaped stays READY. */
  lemma {:induction false} WaitsOrRuns(s: Sys, es: seq<Event>, t: nat)
    requires Inv(s) && Possible(s, es) && 0 < t < PROC_MAX && Eligible(s.procs[t]) && Spared(es, t)
    ensures Runs(s, es, t) || Waits(s, es, t)
    decreases |es|
  {
    if es != [] {
      StepKeeps(s, es[0]);
      StepSpares(s, es[0], t);
      var r := Apply(s, es[0]);
      if r.current != t {
        WaitsOrRuns(r, es[1..], t);
      }
    }
  }

  /**
   A READY process that is not reaped runs: once the processor has changed hands more often than there
   are slots before it, and eight times more for every exit, reap or launch, it has been the current one.
   */
  lemma RunsSoon(s: Sys, es: seq<Event>, t: nat)
    requires Inv(s) && Possible(s, es) && 0 < t < PROC_MAX && Eligible(s.procs[t]) && Spared(es, t)
    requires Turns(s, es) > Distance(s.current + 1, t) + PROC_MAX * Restarts(s, es)
    ensures Runs(s, es, t)
  {
    WaitsOrRuns(s, es, t);
    if Waits(s, es, t) {
      FairRun(s, es, t);
    }
  }

  /** A timer tick in user mode always passes the processor on when another process is READY. */
  lemma TickSwitches(s: Sys, block: Option<nat>, t: nat)
    requires Inv(s) && NewBlock(s, block) && CanTick(s) && 0 < t < PROC_MAX && Eligible(s.procs[t])
    requires s.procs[s.current].fdState.Some? || block.Some?
    ensures Tick(s, Nothing, block).current != s.current
  {
    GiveKeeps(s, block);
    PreemptCloser(GiveTable(s, block), t);
  }
}
