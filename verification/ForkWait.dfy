/**
 What fork and wait4 return (`src/syscall.c`, `src/proc.c`): the child resumes where its parent called,
 with zero in eax, and a parent that waits resumes with the pid of the child that ended.
 */
module ForkWait {
  import opened Options
  import opened Processes
  import opened SchedRuns
  import opened SwitchRuns
  import opened ProcessLife

  function WithEax(l: Live, eax: Word): (r: Live) { l.(regs := l.regs.(eax := eax)) }

  // ---------------------------------------------------------------- fork

  /** What the child has when it is made: all its parent has, its selectors made safe, and zero in eax. */
  function Copied(l: Live): (r: Live) {
    l.(regs := l.regs.(eax := 0, fs := Selector(l.regs.fs), gs := Selector(l.regs.gs)))
  }

  /** Selectors have sixteen bits. */
  predicate Selectors(r: Regs) { r.fs < 0x1_0000 && r.gs < 0x1_0000 }

  lemma CopiedRestored(l: Live)
    requires Selectors(l.regs)
    ensures Restored(Copied(l)) == WithEax(Restored(l), 0) && SaveRegs(Copied(l).regs) == ForkCtx(l.regs)
  {
  }

  /** The new process is parked with the copied state, under a pid of its own. */
  lemma ForkParks(s: Sys, block: Option<nat>, c: nat)
    requires Inv(s) && s.current != 0 && block.Some? && NewBlock(s, block) && FreeSlot(s.procs, 0) == Some(c) && Selectors(s.live.regs)
    ensures Parked(Fork(s, block), c, Copied(s.live), true)
    ensures Fork(s, block).procs[c].pid == s.nextPid && Fork(s, block).procs[c].ppid == s.procs[s.current].pid
    ensures Fork(s, block).live == s.live && Fork(s, block).current == s.current
    ensures forall j | 0 <= j < PROC_MAX && j != c :: Fork(s, block).procs[j] == s.procs[j]
  {
    var t := Fork(s, block);
    CopiedRestored(s.live);
    assert t.procs[c] == Child(s, ForkCtx(s.live.regs), false, block, s.live.tls);
    forall j | 0 <= j < PROC_MAX && j != c && t.procs[j].used ensures t.procs[j].fdState != block {
      assert t.procs[j] == s.procs[j];
    }
  }

  /** After any interleaving the child of a fork starts with its parent's state and eax zero. */
  lemma ChildReturnsZero(s: Sys, block: Option<nat>, c: nat, es: seq<Event>)
    requires Inv(s) && s.current != 0 && block.Some? && NewBlock(s, block) && FreeSlot(s.procs, 0) == Some(c) && Selectors(s.live.regs)
    requires var t := Fork(s, block); Possible(t, es) && Away(t, es, c) && After(t, es).current == c
    ensures After(Fork(s, block), es).live == WithEax(Restored(s.live), 0)
  {
    ForkParks(s, block, c);
    CopiedRestored(s.live);
    StepKeeps(s, Spawn(block));
    ParkedRun(Fork(s, block), es, c, Copied(s.live), true);
  }

  /** A thread starts on the stack and with the TLS it was given, eax zero, and its creator's other registers. */
  lemma ThreadStarts(s: Sys, how: Share, block: Option<nat>, c: nat)
    requires Inv(s) && s.current != 0 && block.Some? && FreeSlot(s.procs, 0) == Some(c)
    requires how.files ==> s.procs[s.current].fdState.Some?
    ensures var t := Clone(s, how, block);
            var (r, was) := (Load(t, c).live.regs, s.live.regs);
            && Eligible(t.procs[c]) && t.procs[c].pid == s.nextPid && t.procs[c].isThread == how.vm
            && r.eip == was.eip && r.esp == (if how.stack == 0 then was.esp else how.stack) && r.eax == 0
            && r.ebx == was.ebx && r.ecx == was.ecx && r.edx == was.edx && r.esi == was.esi && r.edi == was.edi && r.ebp == was.ebp
            && (how.tls.Some? ==> Load(t, c).live.tls == Tls(how.tls.value, 0xF_FFFF, 0x51) && r.gs == 0x33)
            && (how.files ==> t.procs[c].fdState == s.procs[s.current].fdState)
  {
  }

  /** A program that is launched runs at once, in a free slot, from the root directory and with a break of its own. */
  lemma LaunchRuns(s: Sys, regs: Regs, end: Word, fds: Fds, block: Option<nat>, c: nat)
    requires Inv(s) && !s.active && block.Some? && NewBlock(s, block) && FreeSlot(s.procs, 0) == Some(c) && end <= USER_END - STACK_RESERVE
    ensures var r := Launch(s, regs, end, fds, block);
            && Inv(r) && r.current == c && r.live.regs == regs && r.live.fds == fds && r.live.cwd == "/" && r.active
            && r.live.brk.cur == r.live.brk.base >= end && r.procs[c].pid == s.nextPid && r.procs[c].ppid == 1
            && forall j | 0 <= j < PROC_MAX && j != c :: r.procs[j] == s.procs[j]
  {
    StepKeeps(s, Start(regs, end, fds, block));
  }

  // ---------------------------------------------------------------- wait4

  /** Process `i` waits for the current process, or for any child. */
  predicate Waits(s: Sys, i: nat)
    requires Shaped(s) && i < PROC_MAX
  {
    var (p, child) := (s.procs[i], s.procs[s.current]);
    && p.state == Blocked && p.wait == Wait4 && (p.waitPid <= 0 || p.waitPid == child.pid)
    && Find(s.procs, child.ppid, 0) == Some(i)
  }

  lemma GoneKept(s: Sys, i: nat, l: Live)
    requires Inv(s) && s.current != 0 && Parked(s, i, l, false) && Waits(s, i)
    ensures Kept(Gone(s), i, l, false) && Gone(s).procs[i] == s.procs[i]
    ensures Find(Gone(s).procs, s.procs[s.current].ppid, 0) == Some(i)
  {
    FindSame(s.procs, Gone(s).procs, s.procs[s.current].ppid, 0);
  }

  /** The parent is READY with the pid in its saved eax. */
  lemma ParentTold(s: Sys, i: nat, l: Live)
    requires Inv(s) && s.current != 0 && Parked(s, i, l, false) && Waits(s, i)
    ensures Kept(WakeParent(Gone(s), s.current), i, WithEax(l, s.procs[s.current].pid % Processes.WORD), true)
  {
    GoneKept(s, i, l);
  }

  lemma ExitTells(s: Sys, i: nat, l: Live)
    requires Inv(s) && s.current != 0 && Parked(s, i, l, false) && Waits(s, i) && LiveOk(l)
    ensures var m := WithEax(l, s.procs[s.current].pid % Processes.WORD);
            if Exit(s).current == i then Resumed(Exit(s), i, m, true) else Parked(Exit(s), i, m, true)
  {
    ParentTold(s, i, l);
    var woken := WakeParent(Gone(s), s.current);
    var m := WithEax(l, s.procs[s.current].pid % Processes.WORD);
    assert Eligible(woken.procs[i]);
    LoadParked(woken, Pick(woken.procs, 0).value, i, m, true);
  }

  /** A parent blocked in wait4 resumes, whatever runs before it, with the pid of the child that exits and all else it had. */
  lemma WaitReturnsPid(s: Sys, i: nat, l: Live, es: seq<Event>)
    requires Inv(s) && s.current != 0 && Parked(s, i, l, false) && Waits(s, i) && LiveOk(l)
    requires Possible(Exit(s), es) && Away(Exit(s), es, i) && After(Exit(s), es).current == i
    ensures After(Exit(s), es).live == WithEax(Restored(l), s.procs[s.current].pid % Processes.WORD)
  {
    var m := WithEax(l, s.procs[s.current].pid % Processes.WORD);
    ExitTells(s, i, l);
    if Exit(s).current != i {
      StepKeeps(s, Quit);
      ParkedRun(Exit(s), es, i, m, true);
    }
  }

  // ---------------------------------------------------------------- other wake-ups

  lemma RouseTells(s: Sys, i: nat, l: Live, eax: Word)
    requires Parked(s, i, l, false) && s.procs[i].state == Blocked
    ensures Parked(Wake(s, i, Some(eax)), i, WithEax(l, eax), true)
  {
  }

  /** A sleeper woken with a result, by whatever it slept on, resumes with that result and all else it had. */
  lemma RouseReturns(s: Sys, i: nat, l: Live, eax: Word, es: seq<Event>)
    requires Inv(s) && Parked(s, i, l, false) && s.procs[i].state == Blocked && LiveOk(l)
    requires var r := Wake(s, i, Some(eax)); Possible(r, es) && Away(r, es, i) && After(r, es).current == i
    ensures After(Wake(s, i, Some(eax)), es).live == WithEax(Restored(l), eax)
  {
    RouseTells(s, i, l, eax);
    StepKeeps(s, Rouse(i, Some(eax)));
    ParkedRun(Wake(s, i, Some(eax)), es, i, WithEax(l, eax), true);
  }
}
