/**
 The sigreturn trampoline page: read-only in every space, as long as the kernel stores only below it.
 */
module CowSeal {
  import opened Frames
  import opened Paging
  import opened CowOps
  import opened CowFork
  import opened Cow
  import opened CowWrite
  import opened CowSpaces
  import opened CowReap
  import opened CowLaunch
  import opened CowRuns

  /** Every space maps its own trampoline, read-only, just above its user pages. */
  ghost predicate Sealed(m: Mem) {
    Tables(m) && forall s | s in m.spaces :: Entry(m.phys, s, USER_PAGES) == TrampEntry(m.spaces[s].tramp)
  }

  /** The trampolines and their entries are as they were. */
  ghost predicate SameSeals(m: Mem, n: Mem) {
    && Tables(m) && Tables(n) && n.spaces.Keys <= m.spaces.Keys
    && forall s | s in n.spaces :: n.spaces[s].tramp == m.spaces[s].tramp && Entry(n.phys, s, USER_PAGES) == Entry(m.phys, s, USER_PAGES)
  }

  lemma SealsKept(m: Mem, n: Mem)
    requires Sealed(m) && SameSeals(m, n)
    ensures Sealed(n)
  {
  }

  lemma WritableSeals(m: Mem, s: nat, i: nat)
    requires Tables(m) && Pages(m) && s in m.spaces && i < USER_PAGES
    ensures SameSeals(m, Writable(m, s, i).0)
  {
    WritableCases(m, s, i);
    var e, n := Entry(m.phys, s, i), Writable(m, s, i).0;
    if n != m {
      assert PageOk(m, e);
      if m.pool.refs[e.frame] <= 1 {
        UnsharedEntry(m, s, i, n);
      } else {
        CopiedMoved(m, s, i, AllocPage(m.pool).1.value, n);
      }
    }
  }

  lemma ThroughSeals(m: Mem, s: nat, i: nat, at: nat, b: Byte)
    requires Tables(m) && Pages(m) && s in m.spaces && i < USER_PAGES && at < PAGE_SIZE && Entry(m.phys, s, i).present
    ensures SameSeals(m, StoreThrough(m, s, i, at, b))
  {
    MappedData(m, s, i);
    var f := Entry(m.phys, s, i).frame;
    PokeTables(m, f, m.phys[f].page[at := b]);
  }

  lemma StoreSeals(m: Mem, base: set<nat>, s: nat, i: nat, at: nat, b: Byte)
    requires Inv(m, base) && s in m.spaces && i < USER_PAGES && at < PAGE_SIZE && Sealed(m)
    ensures Sealed(UserStore(m, s, i, at, b).0) && Sealed(KernelStore(m, s, i, at, b).0)
  {
    WritableSeals(m, s, i);
    WritableKeeps(m, base, s, i);
    var n := Writable(m, s, i).0;
    SealsKept(m, n);
    if Entry(n.phys, s, i).present {
      ThroughSeals(n, s, i, at, b);
      SealsKept(n, StoreThrough(n, s, i, at, b));
    }
  }

  lemma DetachOneSeals(m: Mem, base: set<nat>, s: nat, k: nat)
    requires Inv(m, base) && s in m.spaces && k < USER_PAGES && Sealed(m)
    ensures Sealed(DetachOne(m, s, k).0)
  {
    WritableSeals(m, s, k);
  }

  lemma DetachSeals(m: Mem, base: set<nat>, s: nat)
    requires Inv(m, base) && s in m.spaces && Sealed(m)
    ensures Sealed(Detach(m, s).0)
  {
    forall x, i | Inv(x, base) && s in x.spaces && 0 <= i < USER_PAGES && Sealed(x) ensures Sealed(DetachOne(x, s, i).0) {
      DetachOneSeals(x, base, s, i);
    }
    var n := DetachInduct(m, base, s, 0, x => Sealed(x));
  }

  lemma LaunchSeals(m: Mem, base: set<nat>, kernel: seq<Pde>, p: nat)
    requires Inv(m, base) && |kernel| == 1024 && Sealed(m)
    ensures Sealed(Launch(m, kernel, p).0)
  {
    var n := Launch(m, kernel, p).0;
    if Launch(m, kernel, p).1 {
      var pd, t, a, b, c, blk := LaunchSucceeds(m, kernel, p);
      LaunchedMapped(m, kernel, p, n, pd, t, a, b, c, blk);
      NewShape(m, kernel, p, n, pd, t, a, b, c, blk);
      NewSeal(m, kernel, p, n, pd, t, a, b, c, blk);
    } else {
      LaunchRefused(m, base, kernel, p);
      AgreeSeals(m, n);
    }
  }

  lemma NewSeal(m: Mem, kernel: seq<Pde>, p: nat, n: Mem, pd: nat, t: nat, a: nat, b: nat, c: nat, blk: nat)
    requires Launched(m, kernel, p, n, pd, t, a, b, c, blk) && Shape(n.phys, pd) && TableFrame(n.phys, pd, LAST_PDE) == c
    ensures Entry(n.phys, pd, USER_PAGES) == TrampEntry(t)
  {
    assert PdeOf(USER_PAGES) == LAST_PDE && 1024 * LAST_PDE + PtiOf(USER_PAGES) == USER_FIRST + USER_PAGES;
    assert n.phys[c] == Table(NewTable(LAST_PDE, blk, t));
  }

  lemma ForkedSeals(m: Mem, s: nat, c: nat, n: Mem, pd: nat, t: nat, taken: set<nat>)
    requires Sealed(m) && Forked(m, s, c, n, pd, t, taken)
    ensures Sealed(n)
  {
    ForkedReady(m, s, c, n, pd, t, taken);
    forall u | u in n.spaces ensures Entry(n.phys, u, USER_PAGES) == TrampEntry(n.spaces[u].tramp) {
      assert u != pd ==> u in m.spaces && Entry(n.phys, u, USER_PAGES) == Entry(m.phys, u, USER_PAGES);
    }
  }

  lemma AgreeSeals(m: Mem, n: Mem)
    requires Sealed(m) && Agree(m, n)
    ensures Sealed(n)
  {
    AgreeTables(m, n);
    SealsKept(m, n);
  }

  lemma ForkSeals(m: Mem, base: set<nat>, p: nat, c: nat)
    requires Inv(m, base) && p in m.procs && FreshSlot(m, c) && Sealed(m) && (m.pool.free < 2 || m.pool.free >= 5)
    ensures Sealed(Fork(m, p, c).0)
  {
    if m.pool.free < 2 {
      ForkRefused(m, base, p, c);
      AgreeSeals(m, Fork(m, p, c).0);
    } else {
      var pd, t, taken := ForkSucceeds(m, base, p, c);
      ForkedSeals(m, m.procs[p], c, Fork(m, p, c).0, pd, t, taken);
    }
  }

  lemma ReapedSeals(m: Mem, p: nat, n: Mem)
    requires Sealed(m) && p in m.procs && m.procs[p] in m.spaces && n == Reap(m, p) && Tables(n)
    ensures Sealed(n)
  {
    forall s | s in n.spaces ensures s in m.spaces && n.spaces[s].tramp == m.spaces[s].tramp {
    }
    SealsKept(m, n);
  }

  lemma ReapSeals(m: Mem, base: set<nat>, p: nat)
    requires Inv(m, base) && p in m.procs && Sealed(m)
    ensures Sealed(Reap(m, p))
  {
    ReapKeeps(m, base, p);
    ReapedSeals(m, p, Reap(m, p));
  }

  lemma SharedSeals(m: Mem, p: nat, c: nat, n: Mem)
    requires Sealed(m) && p in m.procs && m.procs[p] in m.spaces && n == Share(m, p, c) && Tables(n)
    ensures Sealed(n)
  {
  }

  lemma ThreadSeals(m: Mem, base: set<nat>, p: nat, c: nat)
    requires Inv(m, base) && p in m.procs && FreshSlot(m, c) && Sealed(m)
    ensures Sealed(Share(m, p, c))
  {
    ShareKeeps(m, base, p, c);
    SharedSeals(m, p, c, Share(m, p, c));
  }

  lemma StepSeals(m: Mem, base: set<nat>, kernel: seq<Pde>, op: Op)
    requires Inv(m, base) && |kernel| == 1024 && Applies(m, op) && Roomy(m, op) && Sealed(m)
    ensures Sealed(Step(m, kernel, op))
  {
    match op
    case Start(p) => LaunchSeals(m, base, kernel, p);
    case ForkInto(p, c) => ForkSeals(m, base, p, c);
    case Thread(p, c) => ThreadSeals(m, base, p, c);
    case Store(p, i, at, b) => StoreSeals(m, base, m.procs[p], i, at, b);
    case WakeStore(p, i, at, b) => StoreSeals(m, base, m.procs[p], i, at, b);
    case Exec(p) => DetachSeals(m, base, m.procs[p]);
    case Exit(p) => ReapSeals(m, base, p);
  }

  /** Across every run the trampolines stay read-only, as long as all stores are below them. */
  lemma {:induction false} RunSeals(ms: seq<Mem>, base: set<nat>, kernel: seq<Pde>, ops: seq<Op>, oks: seq<bool>, k: nat)
    requires RunOf(ms, kernel, ops, oks) && Inv(ms[0], base) && Sealed(ms[0]) && k < |ms|
    ensures Sealed(ms[k])
  {
    if k > 0 {
      RunSeals(ms, base, kernel, ops, oks, k - 1);
      var more := RunInv(ms, base, kernel, ops, oks, k - 1);
      GoesSeals(ms[k - 1], more, kernel, ops[k - 1], oks[k - 1], ms[k]);
    }
  }

  lemma GoesSeals(m: Mem, base: set<nat>, kernel: seq<Pde>, op: Op, ok: bool, n: Mem)
    requires |kernel| == 1024 && Inv(m, base) && Sealed(m) && Goes(m, kernel, op, ok, n)
    ensures Sealed(n)
  {
    assert Good(m);
    StepSeals(m, base, kernel, op);
  }

  /**
   The kernel's store does not look which page it is given: making a page writable leaves the
   trampoline of that space read-only if and only if the page is not the trampoline itself.
   */
  lemma TrampolineSealedIff(m: Mem, base: set<nat>, s: nat, i: nat)
    requires Inv(m, base) && Sealed(m) && s in m.spaces && i <= USER_PAGES
    ensures Entry(m.phys, s, i).present ==> Entry(m.phys, s, i).frame < |m.phys|
    ensures var r := MakeWritable(m.pool, m.phys, s, i);
            Shape(r.1, s) && (Entry(r.1, s, USER_PAGES) == TrampEntry(m.spaces[s].tramp) <==> i < USER_PAGES)
  {
    if i < USER_PAGES {
      WritableSeals(m, s, i);
      WritableReady(m, s);
    } else {
      assert IsTrampoline(m, m.spaces[s].tramp);
      SetEntryFrame(m.phys, m.spaces.Keys, s, i, Entry(m.phys, s, i).(writable := true));
    }
  }
}
