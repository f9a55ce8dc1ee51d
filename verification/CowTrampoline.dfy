/**
 What the trampoline pages hold (`write_sig_trampoline` of `src/proc.c`): over every run each space's own
 page still has the code that returns from a signal handler, whatever is stored, shared, copied or freed.
 */
module CowTrampoline {
  import opened Frames
  import opened Paging
  import opened CowOps
  import opened CowFork
  import opened Cow
  import opened CowWrite
  import opened CowSpaces
  import opened CowReap
  import opened CowLaunch
  import opened CowRuns

  /** The frame holds `mov eax, 173; int 0x80`, the system call that returns from a handler. */
  ghost predicate HoldsCode(phys: Phys, t: nat) {
    t < |phys| && phys[t].Data? && var p := phys[t].page; p[0] == 0xB8 && p[1] == 173 && p[2] == p[3] == p[4] == 0 && p[5] == 0xCD && p[6] == 0x80
  }

  /** The trampoline of every space does. */
  ghost predicate Coded(m: Mem) { forall s | s in m.spaces :: HoldsCode(m.phys, m.spaces[s].tramp) }

  /** Trampolines as before, each frame as before. */
  ghost predicate SameCode(m: Mem, n: Mem) {
    && n.spaces.Keys <= m.spaces.Keys && |n.phys| == |m.phys|
    && forall s | s in n.spaces :: n.spaces[s].tramp == m.spaces[s].tramp
                                   && (m.spaces[s].tramp < |m.phys| ==> n.phys[m.spaces[s].tramp] == m.phys[m.spaces[s].tramp])
  }

  lemma CodeKept(m: Mem, n: Mem)
    requires Coded(m) && SameCode(m, n)
    ensures Coded(n)
  {
    forall s | s in n.spaces ensures HoldsCode(n.phys, n.spaces[s].tramp) {
      assert HoldsCode(m.phys, m.spaces[s].tramp);
    }
  }

  lemma NewCode(phys: Phys, t: nat)
    requires t < |phys| && phys[t] == Data(TrampCode())
    ensures HoldsCode(phys, t)
  {
  }

  // ---------------------------------------------------------------- each operation

  /** Making a page private writes page tables and a frame nobody uses. */
  lemma WritableCode(m: Mem, base: set<nat>, s: nat, i: nat)
    requires Inv(m, base) && s in m.spaces && i < USER_PAGES
    ensures SameCode(m, Writable(m, s, i).0)
  {
    WritableCases(m, s, i);
    var e, n := Entry(m.phys, s, i), Writable(m, s, i).0;
    if n != m {
      assert PageOk(m, e);
      if m.pool.refs[e.frame] <= 1 {
        UnsharedEntry(m, s, i, n);
        DataCode(m, n, |m.phys|);
      } else {
        var f := AllocPage(m.pool).1.value;
        CopiedMoved(m, s, i, f, n);
        DataCode(m, n, f);
      }
    }
  }

  /** Data frames other than `f`, which is not used, are as before. */
  lemma DataCode(m: Mem, n: Mem, f: nat)
    requires Tables(m) && Control(m) && n.spaces == m.spaces && |n.phys| == |m.phys| && (f < |m.phys| ==> !m.pool.used[f])
    requires forall g | 0 <= g < |m.phys| && g != f && m.phys[g].Data? :: n.phys[g] == m.phys[g]
    ensures SameCode(m, n)
  {
    forall s | s in n.spaces ensures n.phys[m.spaces[s].tramp] == m.phys[m.spaces[s].tramp] {
      assert IsTrampoline(m, m.spaces[s].tramp);
    }
  }

  /** A store through a mapping of the window misses every trampoline. */
  lemma ThroughCode(m: Mem, base: set<nat>, s: nat, i: nat, at: nat, b: Byte)
    requires Inv(m, base) && s in m.spaces && i < USER_PAGES && at < PAGE_SIZE && Entry(m.phys, s, i).present
    ensures SameCode(m, StoreThrough(m, s, i, at, b))
  {
    MappedData(m, s, i);
    var f, n := Entry(m.phys, s, i).frame, StoreThrough(m, s, i, at, b);
    forall u | u in n.spaces ensures m.spaces[u].tramp != f {
      assert IsTrampoline(m, m.spaces[u].tramp);
      assert MapsBelow(m.phys, s, USER_PAGES, f);
    }
  }

  lemma StoreCode(m: Mem, base: set<nat>, s: nat, i: nat, at: nat, b: Byte)
    requires Inv(m, base) && s in m.spaces && i < USER_PAGES && at < PAGE_SIZE && Coded(m)
    ensures Coded(UserStore(m, s, i, at, b).0) && Coded(KernelStore(m, s, i, at, b).0)
  {
    WritableCode(m, base, s, i);
    WritableKeeps(m, base, s, i);
    var n := Writable(m, s, i).0;
    CodeKept(m, n);
    if Entry(n.phys, s, i).present {
      ThroughCode(n, base, s, i, at, b);
      CodeKept(n, StoreThrough(n, s, i, at, b));
    }
  }

  lemma DetachOneCode(m: Mem, base: set<nat>, s: nat, k: nat)
    requires Inv(m, base) && s in m.spaces && k < USER_PAGES && Coded(m)
    ensures Coded(DetachOne(m, s, k).0)
  {
    WritableCode(m, base, s, k);
    CodeKept(m, Writable(m, s, k).0);
  }

  lemma DetachCode(m: Mem, base: set<nat>, s: nat)
    requires Inv(m, base) && s in m.spaces && Coded(m)
    ensures Coded(Detach(m, s).0)
  {
    forall x, i | Inv(x, base) && s in x.spaces && 0 <= i < USER_PAGES && Coded(x) ensures Coded(DetachOne(x, s, i).0) {
      DetachOneCode(x, base, s, i);
    }
    var n := DetachInduct(m, base, s, 0, x => Coded(x));
  }

  lemma AgreeCode(m: Mem, base: set<nat>, n: Mem)
    requires Inv(m, base) && Coded(m) && Agree(m, n)
    ensures Coded(n)
  {
    forall s | s in n.spaces ensures n.phys[m.spaces[s].tramp] == m.phys[m.spaces[s].tramp] {
      assert IsTrampoline(m, m.spaces[s].tramp);
    }
    CodeKept(m, n);
  }

  lemma LaunchedCode(m: Mem, base: set<nat>, kernel: seq<Pde>, p: nat, n: Mem, pd: nat, t: nat, a: nat, b: nat, c: nat, blk: nat)
    requires Inv(m, base) && Coded(m) && Launched(m, kernel, p, n, pd, t, a, b, c, blk)
    ensures Coded(n)
  {
    NewCode(n.phys, t);
    forall s | s in n.spaces && s != pd ensures HoldsCode(n.phys, n.spaces[s].tramp) {
      OldCode(m, n, s);
    }
  }

  /** A frame in use before a launch is as before. */
  lemma OldCode(m: Mem, n: Mem, s: nat)
    requires Tables(m) && Control(m) && Coded(m) && s in m.spaces && |n.phys| == |m.phys|
    requires forall f | 0 <= f < |m.phys| && m.pool.used[f] :: n.phys[f] == m.phys[f]
    ensures HoldsCode(n.phys, m.spaces[s].tramp)
  {
    assert IsTrampoline(m, m.spaces[s].tramp) && HoldsCode(m.phys, m.spaces[s].tramp);
  }

  lemma LaunchCode(m: Mem, base: set<nat>, kernel: seq<Pde>, p: nat)
    requires Inv(m, base) && |kernel| == 1024 && Coded(m)
    ensures Coded(Launch(m, kernel, p).0)
  {
    var n := Launch(m, kernel, p).0;
    if Launch(m, kernel, p).1 {
      var pd, t, a, b, c, blk := LaunchSucceeds(m, kernel, p);
      LaunchedCode(m, base, kernel, p, n, pd, t, a, b, c, blk);
    } else {
      LaunchRefused(m, base, kernel, p);
      AgreeCode(m, base, n);
    }
  }

  lemma ForkedCode(m: Mem, base: set<nat>, s: nat, c: nat, n: Mem, pd: nat, t: nat, taken: set<nat>)
    requires Inv(m, base) && Coded(m) && Forked(m, s, c, n, pd, t, taken)
    ensures Coded(n)
  {
    NewCode(n.phys, t);
    forall u | u in n.spaces && u != pd ensures HoldsCode(n.phys, n.spaces[u].tramp) {
      assert IsTrampoline(m, m.spaces[u].tramp) && HoldsCode(m.phys, m.spaces[u].tramp);
    }
  }

  lemma ForkCode(m: Mem, base: set<nat>, p: nat, c: nat)
    requires Inv(m, base) && p in m.procs && FreshSlot(m, c) && Coded(m) && (m.pool.free < 2 || m.pool.free >= 5)
    ensures Coded(Fork(m, p, c).0)
  {
    if m.pool.free < 2 {
      ForkRefused(m, base, p, c);
      AgreeCode(m, base, Fork(m, p, c).0);
    } else {
      var pd, t, taken := ForkSucceeds(m, base, p, c);
      ForkedCode(m, base, m.procs[p], c, Fork(m, p, c).0, pd, t, taken);
    }
  }

  /** Neither reaping nor sharing writes to memory. */
  lemma QuietCode(m: Mem, p: nat, c: nat)
    requires Tables(m) && p in m.procs && m.procs[p] in m.spaces && Coded(m)
    ensures Coded(Reap(m, p)) && Coded(Share(m, p, c))
  {
    CodeKept(m, Reap(m, p));
    CodeKept(m, Share(m, p, c));
  }

  // ---------------------------------------------------------------- every run

  lemma StepCode(m: Mem, base: set<nat>, kernel: seq<Pde>, op: Op)
    requires Inv(m, base) && |kernel| == 1024 && Applies(m, op) && Roomy(m, op) && Coded(m)
    ensures Coded(Step(m, kernel, op))
  {
    match op
    case Start(p) => LaunchCode(m, base, kernel, p);
    case ForkInto(p, c) => ForkCode(m, base, p, c);
    case Thread(p, c) => QuietCode(m, p, c);
    case Store(p, i, at, b) => StoreCode(m, base, m.procs[p], i, at, b);
    case WakeStore(p, i, at, b) => StoreCode(m, base, m.procs[p], i, at, b);
    case Exec(p) => DetachCode(m, base, m.procs[p]);
    case Exit(p) => QuietCode(m, p, p);
  }

  lemma GoesCode(m: Mem, base: set<nat>, kernel: seq<Pde>, op: Op, ok: bool, n: Mem)
    requires |kernel| == 1024 && Inv(m, base) && Coded(m) && Goes(m, kernel, op, ok, n)
    ensures Coded(n)
  {
    assert Good(m);
    StepCode(m, base, kernel, op);
  }

  /** Across every run the trampoline of every space holds the return code. */
  lemma {:induction false} RunCode(ms: seq<Mem>, base: set<nat>, kernel: seq<Pde>, ops: seq<Op>, oks: seq<bool>, k: nat)
    requires RunOf(ms, kernel, ops, oks) && Inv(ms[0], base) && Coded(ms[0]) && k < |ms|
    ensures Coded(ms[k])
  {
    if k > 0 {
      RunCode(ms, base, kernel, ops, oks, k - 1);
      var more := RunInv(ms, base, kernel, ops, oks, k - 1);
      GoesCode(ms[k - 1], more, kernel, ops[k - 1], oks[k - 1], ms[k]);
    }
  }
}
