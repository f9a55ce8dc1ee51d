/**
 The process table and the scheduler's steps (`src/proc.c`, with the break, cwd and TLS state of
 `src/user.c` and `src/gdt.c` that a switch saves and restores).
 */
module Processes {
  import opened Options

  const PROC_MAX: nat := 8
  const WORD: nat := 0x1_0000_0000
  const PAGE: nat := 4096
  const USER_BASE: nat := 0x0804_8000
  const USER_END: nat := 0x0884_8000
  const STACK_RESERVE: nat := 0x1_0000
  const PATH_MAX: nat := 64
  const FLAT_DATA: Word := 0x23
  const FLAT_CODE: Word := 0x1B

  type Word = w: nat | w < WORD

  /** A NUL-terminated text kept in a 64-byte buffer. */
  type Path = p: string | |p| < PATH_MAX

  /** The contents of a descriptor table; a switch copies it as a whole. */
  type Fds = seq<int>

  datatype RunState = Running | Ready | Blocked | Zombie
  datatype Wait = NotWaiting | Wait4 | WaitId | Poll | SigSuspend | Read

  /** The registers of the interrupt frame. */
  datatype Regs = Regs(eip: Word, esp: Word, eflags: Word, eax: Word, ebx: Word, ecx: Word, edx: Word,
                       esi: Word, edi: Word, ebp: Word, fs: Word, gs: Word, cs: Word, ss: Word, ds: Word, es: Word)

  /** The registers a process record keeps. */
  datatype Ctx = Ctx(eip: Word, esp: Word, eflags: Word, eax: Word, ebx: Word, ecx: Word, edx: Word,
                     esi: Word, edi: Word, ebp: Word, fs: Word, gs: Word)

  datatype Tls = Tls(base: Word, limit: Word, flags: Word)
  datatype Brk = Brk(base: Word, cur: Word)

  datatype Proc = Proc(used: bool, pid: nat, ppid: nat, state: RunState, isThread: bool, hasCtx: bool, ctx: Ctx,
                       fdState: Option<nat>, cwd: Path, brk: Brk, tls: Tls, wait: Wait, waitPid: int)

  /** What the running process sees. */
  datatype Live = Live(regs: Regs, fds: Fds, cwd: Path, brk: Brk, tls: Tls)

  /** `tables` holds the saved descriptor tables by the block they live in. */
  datatype Sys = Sys(procs: seq<Proc>, tables: map<nat, Fds>, current: nat, nextPid: nat,
                     live: Live, active: bool, switched: bool)

  const ZERO_CTX: Ctx := Ctx(0, 0, 0, 0, 0, 0, 0, 0, 0, 0, 0, 0)
  const NO_TLS: Tls := Tls(0, 0, 0)
  const NO_PROC: Proc := Proc(false, 0, 0, Zombie, false, false, ZERO_CTX, None, "", Brk(0, 0), NO_TLS, NotWaiting, 0)

  // ---------------------------------------------------------------- picking the next process

  predicate Eligible(p: Proc) { p.used && p.pid != 1 && p.state == Ready && p.hasCtx }

  /** How many slots after `start` the slot `i` comes, cyclically. */
  function Distance(start: nat, i: nat): (d: nat)
    requires start <= PROC_MAX && i < PROC_MAX
    ensures d < PROC_MAX && (start + d) % PROC_MAX == i
  {
    if i >= start then i - start else i + PROC_MAX - start
  }

  /** sched_pick_next from slot `start` on: the eligible slot that comes first in cyclic order. */
  function PickFrom(ps: seq<Proc>, start: nat, n: nat): (r: Option<nat>)
    requires |ps| == PROC_MAX && start <= PROC_MAX && n <= PROC_MAX
    ensures r.Some? ==> r.value < PROC_MAX && Eligible(ps[r.value]) && n <= Distance(start, r.value)
    ensures r.Some? ==> forall j | 0 <= j < PROC_MAX && Eligible(ps[j]) && n <= Distance(start, j) ::
                          Distance(start, r.value) <= Distance(start, j)
    ensures r.None? ==> forall j | 0 <= j < PROC_MAX && Eligible(ps[j]) :: Distance(start, j) < n
    decreases PROC_MAX - n, start
  {
    if n == PROC_MAX then None
    else
      var i := (start + n) % PROC_MAX;
      if Eligible(ps[i]) then Some(i) else PickFrom(ps, start, n + 1)
  }

  function Pick(ps: seq<Proc>, start: nat): (r: Option<nat>)
    requires |ps| == PROC_MAX && start <= PROC_MAX
    ensures r.None? <==> forall j | 0 <= j < PROC_MAX :: !Eligible(ps[j])
    ensures r.Some? ==> r.value < PROC_MAX && Eligible(ps[r.value])
    ensures r.Some? ==> forall j | 0 <= j < PROC_MAX && Eligible(ps[j]) :: Distance(start, r.value) <= Distance(start, j)
  {
    PickFrom(ps, start, 0)
  }

  // ---------------------------------------------------------------- registers

  /** A flags word from its fields: bits 14 and up, bits 12-13, bits 10-11, bit 9, bits 0-8. */
  function Fields(high: nat, level: nat, mid: nat, enable: nat, low: nat): (w: nat)
    requires level < 4 && mid < 4 && enable < 2 && low < 512
    ensures w % 512 == low && w / 512 == 32 * high + 8 * level + 2 * mid + enable
  {
    512 * (32 * high + 8 * level + 2 * mid + enable) + low
  }

  lemma Quotient(v: nat, d: nat, q: nat, r: nat)
    requires d == 2 || d == 4 || d == 32
    requires v == d * q + r && r < d
    ensures v / d == q && v % d == r
  {
  }

  /** The fields of a word made of fields. */
  lemma FieldsOf(high: nat, level: nat, mid: nat, enable: nat, low: nat)
    requires level < 4 && mid < 4 && enable < 2 && low < 512
    ensures var w := Fields(high, level, mid, enable, low);
            w / 512 / 32 == high && w / 512 / 2 % 4 == mid && w / 512 % 2 == enable && w % 512 == low
  {
    var v := 32 * high + 8 * level + 2 * mid + enable;
    Quotient(v, 32, high, 8 * level + 2 * mid + enable);
    Quotient(v, 2, 16 * high + 4 * level + mid, enable);
    Quotient(v / 2, 4, 4 * high + level, mid);
  }

  /** `(x | 0x200) & ~0x3000`: interrupts on, privilege level zero, every other bit as it was. */
  function Flags(x: Word): (r: Word)
    ensures r == Fields(x / 512 / 32, 0, x / 512 / 2 % 4, 1, x % 512)
  {
    var v := x / 512;
    assert v / 32 * 32 + 7 <= v / 32 * 32 + 31 < 0x80_0000;
    512 * (32 * (v / 32) + 2 * (v / 2 % 4) + 1) + x % 512
  }

  lemma FlagsOnce(x: Word)
    ensures Flags(Flags(x)) == Flags(x)
  {
    FieldsOf(x / 512 / 32, 0, x / 512 / 2 % 4, 1, x % 512);
  }

  function Selector(x: Word): (r: Word) { if x == 0 then FLAT_DATA else x }

  function SaveRegs(r: Regs): (c: Ctx) {
    Ctx(r.eip, r.esp, r.eflags, r.eax, r.ebx, r.ecx, r.edx, r.esi, r.edi, r.ebp, r.fs % 0x1_0000, r.gs % 0x1_0000)
  }

  function LoadRegs(c: Ctx): (r: Regs) {
    Regs(c.eip, c.esp, Flags(c.eflags), c.eax, c.ebx, c.ecx, c.edx, c.esi, c.edi, c.ebp, Selector(c.fs), Selector(c.gs),
         FLAT_CODE, FLAT_DATA, FLAT_DATA, FLAT_DATA)
  }

  // ---------------------------------------------------------------- break, cwd, TLS

  predicate BrkOk(b: Brk) { USER_BASE <= b.base <= b.cur <= USER_END }

  /** user_restore_brk_state. */
  function RestoreBrk(b: Brk, to: Brk): (r: Brk)
    ensures BrkOk(b) ==> BrkOk(r)
    ensures BrkOk(to) ==> r == to
  {
    if to.base < USER_BASE || to.cur < to.base || to.cur > USER_END then b else to
  }

  /** user_set_brk. */
  function MoveBrk(b: Brk, addr: Word): (r: Brk)
    ensures BrkOk(b) ==> BrkOk(r)
  {
    if addr < b.base || addr > USER_END - STACK_RESERVE then b else b.(cur := addr)
  }

  function PageUp(v: Word): (r: Word)
    ensures v <= WORD - PAGE ==> v <= r < v + PAGE
  {
    (v + PAGE - 1) % WORD / PAGE * PAGE
  }

  /** user_mmap_anon. */
  function Anon(b: Brk, len: Word): (r: Brk)
    ensures BrkOk(b) ==> BrkOk(r)
  {
    var rounded := PageUp(len);
    var start := PageUp(b.cur);
    if len == 0 || rounded < len || start >= USER_END - STACK_RESERVE || rounded > USER_END - STACK_RESERVE - start then b
    else b.(cur := start + rounded)
  }

  /** The break of a freshly loaded image. */
  function ImageBrk(end: Word): (r: Brk)
    ensures end <= USER_END - STACK_RESERVE ==> BrkOk(r)
  {
    var base := if PageUp(end) < USER_BASE + PAGE then USER_BASE + PAGE else PageUp(end);
    Brk(base, base)
  }

  /** user_cwd_set. */
  function SetCwd(cwd: Path, to: string): (r: Path)
    ensures |cwd| > 0 && cwd[0] == '/' ==> |r| > 0 && r[0] == '/'
    ensures |to| < PATH_MAX && |to| > 0 && to[0] == '/' ==> r == to
  {
    if |to| == 0 || to[0] != '/' || |to| >= PATH_MAX then cwd else to
  }

  /** gdt_set_user_tls: the limit field has twenty bits. */
  function SetTls(t: Tls): (r: Tls)
    ensures r.limit < 0x10_0000 && (t.limit < 0x10_0000 ==> r == t)
  {
    t.(limit := t.limit % 0x10_0000)
  }

  // ---------------------------------------------------------------- saving and loading

  predicate Shaped(s: Sys) { |s.procs| == PROC_MAX && s.current < PROC_MAX }

  function Put(s: Sys, i: nat, p: Proc): (r: Sys)
    requires i < |s.procs|
    ensures |r.procs| == |s.procs|
  {
    s.(procs := s.procs[i := p])
  }

  /** proc_fdstate_alloc: a table if there is one already, else the block the heap gave, empty until saved. */
  function GiveTable(s: Sys, block: Option<nat>): (r: Sys)
    requires Shaped(s)
    ensures Shaped(r)
  {
    var p := s.procs[s.current];
    if p.fdState.Some? || block.None? then s
    else Put(s, s.current, p.(fdState := block)).(tables := s.tables[block.value := []])
  }

  /** proc_save_ctx and proc_save_state for the current process. */
  function Saved(s: Sys): (p: Proc)
    requires Shaped(s)
  {
    var p := s.procs[s.current];
    p.(ctx := SaveRegs(s.live.regs), hasCtx := true, cwd := s.live.cwd,
       brk := if p.isThread then p.brk else s.live.brk, tls := s.live.tls)
  }

  function Store(tables: map<nat, Fds>, id: Option<nat>, fds: Fds): (r: map<nat, Fds>) {
    if id.Some? then tables[id.value := fds] else tables
  }

  function Save(s: Sys, state: RunState): (r: Sys)
    requires Shaped(s)
    ensures Shaped(r)
  {
    Put(s, s.current, Saved(s).(state := state)).(tables := Store(s.tables, s.procs[s.current].fdState, s.live.fds))
  }

  function Fetch(tables: map<nat, Fds>, id: Option<nat>, fds: Fds): (r: Fds) {
    if id.Some? && id.value in tables then tables[id.value] else fds
  }

  /** sched_load. */
  function Load(s: Sys, i: nat): (r: Sys)
    requires Shaped(s) && i < PROC_MAX
    ensures Shaped(r)
  {
    var p := s.procs[i];
    var live := Live(LoadRegs(p.ctx), Fetch(s.tables, p.fdState, s.live.fds), SetCwd(s.live.cwd, p.cwd),
                     if p.isThread then s.live.brk else RestoreBrk(s.live.brk, p.brk), SetTls(p.tls));
    Put(s, i, p.(state := Running)).(live := live, current := i, active := true, switched := true)
  }

  // ---------------------------------------------------------------- scheduler steps

  /** Load the next process after the current one; with no other to run, `back`. */
  function Dispatch(s: Sys, back: Sys): (r: Sys)
    requires Shaped(s) && Shaped(back)
    ensures Shaped(r)
  {
    var next := Pick(s.procs, s.current + 1);
    if next.None? || next.value == s.current then back else Load(s, next.value)
  }

  /** The tail of proc_sched_tick: save, look for another process, switch to it. */
  function Preempt(s: Sys): (r: Sys)
    requires Shaped(s)
    ensures Shaped(r)
  {
    var saved := Save(s, Ready);
    Dispatch(saved, Put(saved, s.current, saved.procs[s.current].(state := Running)))
  }

  /** proc_find. */
  function Find(ps: seq<Proc>, pid: nat, i: nat): (r: Option<nat>)
    requires i <= |ps|
    ensures r.Some? ==> i <= r.value < |ps| && ps[r.value].used && ps[r.value].pid == pid
    ensures r.Some? ==> forall j | i <= j < r.value :: !(ps[j].used && ps[j].pid == pid)
    ensures r.None? ==> forall j | i <= j < |ps| :: !(ps[j].used && ps[j].pid == pid)
    decreases |ps| - i
  {
    if i == |ps| then None else if ps[i].used && ps[i].pid == pid then Some(i) else Find(ps, pid, i + 1)
  }

  /** A blocked process made runnable, with a result in its saved eax. */
  function Woken(p: Proc, eax: Option<Word>): (r: Proc) {
    p.(state := Ready, wait := NotWaiting, ctx := if eax.Some? then p.ctx.(eax := eax.value) else p.ctx)
  }

  /** proc_wake_parent, for the exiting process `i`. */
  function WakeParent(s: Sys, i: nat): (r: Sys)
    requires Shaped(s) && i < PROC_MAX
    ensures Shaped(r) && r.current == s.current && r.tables == s.tables && r.live == s.live
  {
    var child := s.procs[i];
    var f := Find(s.procs, child.ppid, 0);
    if f.None? then s
    else
      var p := s.procs[f.value];
      if p.state != Blocked || (p.waitPid > 0 && p.waitPid != child.pid) then s
      else
        Put(s, f.value, Woken(p, if p.wait == Wait4 then Some(child.pid % WORD) else if p.wait == WaitId then Some(0) else None))
  }

  /** proc_exit_current; with nobody to run the kernel's own task resumes. */
  function Exit(s: Sys): (r: Sys)
    requires Shaped(s)
    ensures Shaped(r)
  {
    var p := s.procs[s.current];
    if p.pid == 1 then s.(active := false)
    else
      var dead := Put(s, s.current, p.(state := Zombie, hasCtx := false, wait := NotWaiting))
                  .(tables := Store(s.tables, p.fdState, s.live.fds), active := false);
      var woken := WakeParent(dead, s.current);
      var next := Pick(woken.procs, 0);
      if next.Some? then Load(woken, next.value) else woken.(current := Kernel(woken))
  }

  function Kernel(s: Sys): (i: nat)
    requires Shaped(s)
    ensures i < PROC_MAX
  {
    var f := Find(s.procs, 1, 0);
    if f.Some? then f.value else s.current
  }

  /** What signal delivery did to the interrupted process. */
  datatype Outcome = Nothing | Handler(regs: Regs) | Killed

  predicate CanTick(s: Sys)
    requires Shaped(s)
  {
    s.procs[s.current].pid != 1 && s.live.regs.cs % 4 == 3 && s.procs[s.current].state == Running
  }

  /** proc_sched_tick. */
  function Tick(s: Sys, sig: Outcome, block: Option<nat>): (r: Sys)
    requires Shaped(s)
    ensures Shaped(r)
  {
    if !CanTick(s) then s
    else
      var t := GiveTable(s, block);
      if t.procs[t.current].fdState.None? then t
      else
        match sig
        case Nothing => Preempt(t)
        case Killed => Exit(t)
        case Handler(regs) =>
          var h := t.(live := t.live.(regs := regs));
          if h.switched then h else Preempt(h)
  }

  /** The current process saved and put to sleep. */
  function Asleep(s: Sys, kind: Wait, len: int): (r: Sys)
    requires Shaped(s)
    ensures Shaped(r) && r.current == s.current
  {
    var saved := Save(s, Blocked);
    var p := saved.procs[s.current].(wait := kind, waitPid := if kind == Wait4 || kind == WaitId then len else 0);
    Put(saved, s.current, p).(active := false)
  }

  /** proc_block_current_ext. */
  function Block(s: Sys, kind: Wait, len: int, block: Option<nat>): (r: Sys)
    requires Shaped(s)
    ensures Shaped(r)
  {
    var t := GiveTable(s, block);
    if s.procs[s.current].pid == 1 then s
    else if t.procs[t.current].fdState.None? then t
    else
      var asleep := Asleep(t, kind, len);
      Dispatch(asleep, Put(asleep, s.current, asleep.procs[s.current].(state := Running, wait := NotWaiting)).(active := true))
  }

  // ---------------------------------------------------------------- making and dropping processes

  /** The first unused slot. */
  function FreeSlot(ps: seq<Proc>, i: nat): (r: Option<nat>)
    requires i <= |ps|
    ensures r.Some? ==> i <= r.value < |ps| && !ps[r.value].used && forall j | i <= j < r.value :: ps[j].used
    ensures r.None? ==> forall j | i <= j < |ps| :: ps[j].used
    decreases |ps| - i
  {
    if i == |ps| then None else if !ps[i].used then Some(i) else FreeSlot(ps, i + 1)
  }

  /** What clone was asked for: an address space to share, a table to share, a stack and a TLS base. */
  datatype Share = Share(vm: bool, files: bool, stack: Word, tls: Option<Word>)

  function ForkCtx(r: Regs): (c: Ctx) {
    Ctx(r.eip, r.esp, r.eflags, 0, r.ebx, r.ecx, r.edx, r.esi, r.edi, r.ebp, Selector(r.fs), Selector(r.gs))
  }

  function CloneCtx(r: Regs, how: Share): (c: Ctx) {
    Ctx(r.eip, if how.stack == 0 then r.esp else how.stack, r.eflags, 0, r.ebx, r.ecx, r.edx, r.esi, r.edi, r.ebp,
        FLAT_DATA, if how.tls.Some? then 0x33 else Selector(r.gs))
  }

  function Child(s: Sys, ctx: Ctx, isThread: bool, fdState: Option<nat>, tls: Tls): (p: Proc)
    requires Shaped(s)
  {
    Proc(true, s.nextPid, s.procs[s.current].pid, Ready, isThread, true, ctx, fdState, s.live.cwd, s.live.brk, tls, NotWaiting, 0)
  }

  /** do_fork; `block` is the memory for the child's table, none when anything ran out. */
  function Fork(s: Sys, block: Option<nat>): (r: Sys)
    requires Shaped(s)
    ensures Shaped(r)
  {
    var slot := FreeSlot(s.procs, 0);
    if s.procs[s.current].pid == 1 || slot.None? then s
    else
      var t := s.(nextPid := s.nextPid + 1);
      if block.None? then Put(t, slot.value, NO_PROC)
      else
        Put(t, slot.value, Child(s, ForkCtx(s.live.regs), false, block, s.live.tls)).(tables := s.tables[block.value := s.live.fds])
  }

  /** do_clone. */
  function Clone(s: Sys, how: Share, block: Option<nat>): (r: Sys)
    requires Shaped(s)
    ensures Shaped(r)
  {
    var slot := FreeSlot(s.procs, 0);
    var parent := s.procs[s.current];
    var id := if how.files then parent.fdState else block;
    var tls := if how.tls.Some? then Tls(how.tls.value, 0xF_FFFF, 0x51) else s.live.tls;
    if parent.pid == 1 || slot.None? then s
    else
      var t := s.(nextPid := s.nextPid + 1);
      if block.None? || id.None? then Put(t, slot.value, NO_PROC)
      else
        Put(t, slot.value, Child(s, CloneCtx(s.live.regs, how), how.vm, id, tls))
        .(tables := if how.files then s.tables else s.tables[block.value := s.live.fds])
  }

  /** user_run_image_argv: only when no user program is active. */
  function Launch(s: Sys, regs: Regs, end: Word, fds: Fds, block: Option<nat>): (r: Sys)
    requires Shaped(s)
    ensures Shaped(r)
  {
    var slot := FreeSlot(s.procs, 0);
    if s.active || slot.None? then s
    else
      var t := s.(nextPid := s.nextPid + 1);
      if block.None? then Put(t, slot.value, NO_PROC)
      else
        var live := Live(regs, fds, "/", ImageBrk(end), NO_TLS);
        var p := Proc(true, s.nextPid, 1, Running, false, false, ZERO_CTX, block, "/", live.brk, NO_TLS, NotWaiting, 0);
        Put(t, slot.value, p).(tables := s.tables[block.value := fds], live := live, current := slot.value, active := true)
  }

  /** proc_reap. */
  function Reap(s: Sys, i: nat): (r: Sys)
    requires Shaped(s) && i < PROC_MAX
    ensures Shaped(r)
  {
    if !s.procs[i].used then s
    else Put(s, i, NO_PROC).(current := if s.current == i then Kernel(s) else s.current)
  }

  /** A waker, a signal or a timer finds process `i` blocked. */
  function Wake(s: Sys, i: nat, eax: Option<Word>): (r: Sys)
    requires Shaped(s) && i < PROC_MAX
    ensures Shaped(r)
  {
    var p := s.procs[i];
    if p.used && p.pid != 1 && p.state == Blocked then Put(s, i, Woken(p, eax)) else s
  }

  // ---------------------------------------------------------------- events

  /** What the current process does to its own live state between two scheduler steps. */
  datatype Act =
    | Run(regs: Regs)
    | Descriptors(fds: Fds)
    | Chdir(path: string)
    | SetBreak(addr: Word)
    | MapAnon(len: Word)
    | Exec(end: Word)
    | SetThreadArea(tls: Tls)

  function Acted(l: Live, a: Act): (r: Live) {
    match a
    case Run(regs) => l.(regs := regs)
    case Descriptors(fds) => l.(fds := fds)
    case Chdir(path) => l.(cwd := SetCwd(l.cwd, path))
    case SetBreak(addr) => l.(brk := MoveBrk(l.brk, addr))
    case MapAnon(len) => l.(brk := Anon(l.brk, len))
    case Exec(end) => l.(brk := ImageBrk(end))
    case SetThreadArea(tls) => l.(tls := SetTls(tls))
  }

  datatype Event =
    | User(act: Act)
    | Syscall
    | Timer(sig: Outcome, block: Option<nat>)
    | Sleep(kind: Wait, len: int, block: Option<nat>)
    | Quit
    | Spawn(block: Option<nat>)
    | SpawnThread(how: Share, block: Option<nat>)
    | Start(regs: Regs, end: Word, fds: Fds, block: Option<nat>)
    | Collect(i: nat)
    | Rouse(i: nat, eax: Option<Word>)

  function Apply(s: Sys, e: Event): (r: Sys)
    requires Shaped(s)
    ensures Shaped(r)
  {
    match e
    case User(act) => s.(live := Acted(s.live, act))
    case Syscall => s.(switched := false)
    case Timer(sig, block) => Tick(s, sig, block)
    case Sleep(kind, len, block) => Block(s, kind, len, block)
    case Quit => Exit(s)
    case Spawn(block) => Fork(s, block)
    case SpawnThread(how, block) => Clone(s, how, block)
    case Start(regs, end, fds, block) => Launch(s, regs, end, fds, block)
    case Collect(i) => if i < PROC_MAX then Reap(s, i) else s
    case Rouse(i, eax) => if i < PROC_MAX then Wake(s, i, eax) else s
  }
}
