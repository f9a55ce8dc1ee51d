/**
 The failures of the address-space code, each in a state the kernel reaches from boot in a step or two.
 */
module CowWitness {
  import opened Options
  import opened Frames
  import opened Paging
  import opened CowOps
  import opened Cow
  import opened CowWrite
  import opened CowSpaces
  import opened CowReap
  import opened CowLaunch
  import opened CowRuns
  import opened CowConserve
  import opened CowReach

  /** A machine in which frame 0 is taken and `n` others are free. */
  function Machine(n: nat): (p: Pool)
    ensures |p.used| == |p.refs| == n + 1 && p.used[0] && forall f | 0 < f <= n :: !p.used[f]
  {
    Pool(seq(n + 1, f => f == 0), seq(n + 1, f => if f == 0 then 1 else 0), n)
  }

  function Blank(n: nat): (p: Phys)
    ensures |p| == n + 1
  {
    seq(n + 1, _ => Data(ZeroPage()))
  }

  function NoKernel(): (k: seq<Pde>)
    ensures |k| == 1024
  {
    seq(1024, _ => Pde(false, false, 0))
  }

  lemma {:induction false} CountTail(used: seq<bool>)
    requires |used| > 0 && used[0] && forall f | 0 < f < |used| :: !used[f]
    ensures CountFree(used) == |used| - 1
    decreases |used|
  {
    if |used| == 1 {
      assert CountFree(used[..0]) == 0;
    } else {
      CountTail(used[..|used| - 1]);
    }
  }

  lemma MachineBoots(n: nat)
    requires n > 0
    ensures Valid(Machine(n)) && Inv(Booted(Machine(n), Blank(n)), {0})
  {
    CountTail(Machine(n).used);
    BootInv(Machine(n), Blank(n));
    assert (set f: nat | f < |Machine(n).used| && Machine(n).used[f]) == {0};
  }

  // ---------------------------------------------------------------- runs of one and two steps

  ghost predicate Works(m: Mem, kernel: seq<Pde>, op: Op, n: Mem) {
    && |kernel| == 1024 && Good(m) && Applies(m, op) && Roomy(m, op) && Succeeds(m, op)
    && n == Step(m, kernel, op)
  }

  lemma OneRun(m: Mem, kernel: seq<Pde>, x: Op, n: Mem)
    requires Works(m, kernel, x, n)
    ensures RunOf([m, n], kernel, [x], [true])
  {
    WorksGoes(m, kernel, x, n);
  }

  lemma WorksGoes(m: Mem, kernel: seq<Pde>, x: Op, n: Mem)
    requires Works(m, kernel, x, n)
    ensures Goes(m, kernel, x, true, n)
  {
  }

  lemma TwoRun(m: Mem, kernel: seq<Pde>, x: Op, a: Mem, y: Op, n: Mem)
    requires Works(m, kernel, x, a) && Works(a, kernel, y, n)
    ensures RunOf([m, a, n], kernel, [x, y], [true, true])
  {
    WorksGoes(m, kernel, x, a);
    WorksGoes(a, kernel, y, n);
    TwoGoes([m, a, n], kernel, [x, y], [true, true]);
  }

  lemma TwoGoes(ms: seq<Mem>, kernel: seq<Pde>, ops: seq<Op>, oks: seq<bool>)
    requires |kernel| == 1024 && |ms| == 3 && |ops| == |oks| == 2
    requires Goes(ms[0], kernel, ops[0], oks[0], ms[1]) && Goes(ms[1], kernel, ops[1], oks[1], ms[2])
    ensures RunOf(ms, kernel, ops, oks)
  {
  }

  lemma StartGoes(m: Mem, base: set<nat>, kernel: seq<Pde>, p: nat)
    requires Inv(m, base) && |kernel| == 1024 && FreshSlot(m, p) && RoomToLaunch(m.pool)
    ensures Works(m, kernel, Start(p), Launch(m, kernel, p).0)
  {
  }

  lemma ForkGoes(m: Mem, base: set<nat>, kernel: seq<Pde>, p: nat, c: nat)
    requires Inv(m, base) && |kernel| == 1024 && p in m.procs && FreshSlot(m, c) && m.pool.free >= 5
    ensures Works(m, kernel, ForkInto(p, c), Fork(m, p, c).0)
  {
  }

  lemma ExitGoes(m: Mem, base: set<nat>, kernel: seq<Pde>, p: nat)
    requires Inv(m, base) && |kernel| == 1024 && p in m.procs
    ensures m.procs[p] in m.spaces && Works(m, kernel, Exit(p), Reap(m, p))
  {
    SpaceOf(m, p);
    ExitApplies(m, Exit(p));
    ExitStep(m, kernel, p);
  }

  lemma ExitApplies(m: Mem, op: Op)
    requires Good(m) && op.Exit? && op.slot in m.procs
    ensures Applies(m, op) && Roomy(m, op) && Succeeds(m, op)
  {
  }

  lemma ExitStep(m: Mem, kernel: seq<Pde>, p: nat)
    requires Good(m) && |kernel| == 1024 && p in m.procs && m.procs[p] in m.spaces
    ensures Applies(m, Exit(p)) && Step(m, kernel, Exit(p)) == Reap(m, p)
  {
  }

  // ---------------------------------------------------------------- one process

  /** The booted machine with room for one process and `k` frames to spare. */
  ghost function Fresh(k: nat): (b: Mem) { Booted(Machine(BLOCK_PAGES + 5 + k), Blank(BLOCK_PAGES + 5 + k)) }

  lemma StartReady(k: nat)
    ensures Inv(Fresh(k), {0}) && Fresh(k).procs == map[] && Fresh(k).spaces == map[]
    ensures Fresh(k).pool.free == BLOCK_PAGES + 5 + k && RoomToLaunch(Fresh(k).pool)
  {
    MachineBoots(BLOCK_PAGES + 5 + k);
    assert AllFree(Fresh(k).pool.used, 1, BLOCK_PAGES);
  }

  /** A launch takes a block and five frames. */
  lemma LaunchFree(m: Mem, kernel: seq<Pde>, p: nat)
    requires Tables(m) && |kernel| == 1024 && Launch(m, kernel, p).1
    ensures Launch(m, kernel, p).0.pool.free == m.pool.free - BLOCK_PAGES - 5
  {
    var pd, t, a, b, c, blk := LaunchSucceeds(m, kernel, p);
    LaunchedSize(m, kernel, p, Launch(m, kernel, p).0, pd, t, a, b, c, blk);
  }

  lemma LaunchedSize(m: Mem, kernel: seq<Pde>, p: nat, n: Mem, pd: nat, t: nat, a: nat, b: nat, c: nat, blk: nat)
    requires Launched(m, kernel, p, n, pd, t, a, b, c, blk)
    ensures n.pool.free == m.pool.free - BLOCK_PAGES - 5
  {
    UnionSize(Run(blk, BLOCK_PAGES), {pd, t, a, b, c});
    FiveSize(pd, t, a, b, c);
  }

  lemma UnionSize(x: set<nat>, y: set<nat>)
    requires x !! y
    ensures |x + y| == |x| + |y|
  {
  }

  lemma FiveSize(pd: nat, t: nat, a: nat, b: nat, c: nat)
    requires Distinct5(a, b, c, pd, t)
    ensures |{pd, t, a, b, c}| == 5
  {
  }

  lemma FirstPage(b: Mem, m: Mem, id: nat)
    requires Added(b, m, id, seq(USER_PAGES, _ => Some(ZeroPage())))
    ensures id in m.spaces && Entry(m.phys, id, 0).present
  {
    assert View(m, id)[0] == Some(ZeroPage());
  }

  lemma FirstStart(b: Mem, base: set<nat>, kernel: seq<Pde>) returns (m: Mem, more: set<nat>)
    requires Inv(b, base) && |kernel| == 1024 && b.procs == map[] && FreshSlot(b, 1) && RoomToLaunch(b.pool)
    ensures Works(b, kernel, Start(1), m) && Inv(m, more) && 1 in m.procs && FreshSlot(m, 2) && m.procs[1] in m.spaces
    ensures m.pool.free == b.pool.free - BLOCK_PAGES - 5 && Entry(m.phys, m.procs[1], 0).present
  {
    LaunchWorksIff(b, kernel, 1);
    LaunchFree(b, kernel, 1);
    StartGoes(b, base, kernel, 1);
    var id;
    m, id, more := StartWorks(b, base, kernel, 1);
    FirstPage(b, m, id);
  }

  // ---------------------------------------------------------------- the failures

  /** With three frames free, a fork fails and its clean-up frees the page tables of the parent. */
  lemma ForkBreaksReachably() returns (m: Mem, more: set<nat>)
    ensures Good(Fresh(3)) && RunOf([Fresh(3), m], NoKernel(), [Start(1)], [true])
    ensures Inv(m, more) && 1 in m.procs && FreshSlot(m, 2) && m.pool.free == 3
    ensures !Fork(m, 1, 2).1 && !Good(Fork(m, 1, 2).0)
  {
    StartReady(3);
    m, more := ForkWithThreeLeft(Fresh(3), {0}, NoKernel());
    OneRun(Fresh(3), NoKernel(), Start(1), m);
  }

  lemma ForkWithThreeLeft(a: Mem, base: set<nat>, kernel: seq<Pde>) returns (m: Mem, more: set<nat>)
    requires Inv(a, base) && |kernel| == 1024 && a.procs == map[] && FreshSlot(a, 1) && RoomToLaunch(a.pool)
    requires a.pool.free == BLOCK_PAGES + 8
    ensures Works(a, kernel, Start(1), m)
    ensures Inv(m, more) && 1 in m.procs && FreshSlot(m, 2) && m.pool.free == 3
    ensures !Fork(m, 1, 2).1 && !Good(Fork(m, 1, 2).0)
  {
    m, more := FirstStart(a, base, kernel);
    ForkKeepsIff(m, more, 1, 2);
  }

  /** A forked page is shared and protected in the parent. */
  lemma ForkedShared(m: Mem, base: set<nat>, n: Mem, s: nat, pd: nat, t: nat, taken: set<nat>)
    requires Inv(m, base) && Forked(m, s, 2, n, pd, t, taken) && Entry(m.phys, s, 0).present
    ensures s in n.spaces && Tables(n) && Entry(n.phys, s, 0).present && !Entry(n.phys, s, 0).writable
    ensures Entry(n.phys, s, 0).frame < |n.phys| && n.pool.refs[Entry(n.phys, s, 0).frame] > 1
  {
    ForkedReady(m, s, 2, n, pd, t, taken);
    var e := Entry(m.phys, s, 0);
    assert PageOk(m, e);
    assert MapsBelow(m.phys, s, USER_PAGES, e.frame);
    assert s in Mappers(m, e.frame);
  }

  /** With no frame left after a fork, the kernel's store for the parent shows in the child. */
  lemma StoreAfterFork(m: Mem, base: set<nat>, kernel: seq<Pde>) returns (n: Mem, b: Byte, p: nat)
    requires Inv(m, base) && |kernel| == 1024 && 1 in m.procs && FreshSlot(m, 2) && m.pool.free == 5
    requires m.procs[1] in m.spaces && Entry(m.phys, m.procs[1], 0).present
    ensures Works(m, kernel, ForkInto(1, 2), n) && Inv(n, base) && 1 in n.procs && n.procs[1] in n.spaces && n.pool.free == 0
    ensures p in n.spaces && p != n.procs[1] && !KernelStorePrivate(n, n.procs[1], 0, 0, b, p)
  {
    ForkGoes(m, base, kernel, 1, 2);
    var pd, t, taken := ForkSucceeds(m, base, 1, 2);
    n := Fork(m, 1, 2).0;
    ForkedKeeps(m, base, m.procs[1], 2, n, pd, t, taken);
    ForkedShared(m, base, n, m.procs[1], pd, t, taken);
    b, p := KernelStoreLeaks(n, n.procs[1], 0, 0);
  }

  lemma KernelStoreLeaksReachably() returns (m: Mem, n: Mem, more: set<nat>, b: Byte, p: nat)
    ensures Good(Fresh(5)) && RunOf([Fresh(5), m, n], NoKernel(), [Start(1), ForkInto(1, 2)], [true, true])
    ensures Inv(n, more) && 1 in n.procs && p in n.spaces && p != n.procs[1] && n.pool.free == 0
    ensures !KernelStorePrivate(n, n.procs[1], 0, 0, b, p)
  {
    StartReady(5);
    m, n, more, b, p := ForkWithNoneLeft(Fresh(5), {0}, NoKernel());
    TwoRun(Fresh(5), NoKernel(), Start(1), m, ForkInto(1, 2), n);
  }

  lemma ForkWithNoneLeft(a: Mem, base: set<nat>, kernel: seq<Pde>)
    returns (m: Mem, n: Mem, more: set<nat>, b: Byte, p: nat)
    requires Inv(a, base) && |kernel| == 1024 && a.procs == map[] && FreshSlot(a, 1) && RoomToLaunch(a.pool)
    requires a.pool.free == BLOCK_PAGES + 10
    ensures Works(a, kernel, Start(1), m) && Works(m, kernel, ForkInto(1, 2), n)
    ensures Inv(n, more) && 1 in n.procs && p in n.spaces && p != n.procs[1] && n.pool.free == 0
    ensures !KernelStorePrivate(n, n.procs[1], 0, 0, b, p)
  {
    m, more := FirstStart(a, base, kernel);
    n, b, p := StoreAfterFork(m, more, kernel);
  }

  lemma StartThenExit(b: Mem, base: set<nat>, kernel: seq<Pde>) returns (m: Mem, n: Mem)
    requires Inv(b, base) && |kernel| == 1024 && FreshSlot(b, 1) && RoomToLaunch(b.pool)
    ensures Works(b, kernel, Start(1), m) && Works(m, kernel, Exit(1), n)
    ensures n.procs == b.procs && n.spaces == b.spaces && n.pool.free == b.pool.free - 1
  {
    StartGoes(b, base, kernel, 1);
    LaunchWorksIff(b, kernel, 1);
    var leak;
    m, leak := LaunchReapLeaks(b, base, kernel, 1);
    n := Reap(m, 1);
    ExitGoes(m, base + {leak}, kernel, 1);
  }

  /** Launching a program and letting it exit leaves one frame fewer than before. */
  lemma LeakReachably() returns (m: Mem, n: Mem)
    ensures Good(Fresh(0)) && RunOf([Fresh(0), m, n], NoKernel(), [Start(1), Exit(1)], [true, true])
    ensures n.procs == map[] && n.spaces == map[] && n.pool.free == Fresh(0).pool.free - 1
  {
    StartReady(0);
    m, n := StartThenExit(Fresh(0), {0}, NoKernel());
    TwoRun(Fresh(0), NoKernel(), Start(1), m, Exit(1), n);
  }
}
