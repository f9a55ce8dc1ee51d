/**
 Address spaces in the form of `src/proc.c`: the space and process tables over the machine's
 frames, changed in place. Every method is one operation of a run.
 */
module AddressSpaces {
  import opened Options
  import opened Frames
  import opened Paging
  import opened Cow
  import opened UserPages
  import opened CowWrite
  import opened CowSpaces
  import opened CowReap
  import opened CowLaunch
  import opened CowRuns
  import CowOps

  /** Privatising pages from `i` on takes `m` to `goal`. */
  ghost predicate Detaching(m: Mem, s: nat, i: nat, goal: (Mem, bool)) {
    Good(m) && s in m.spaces && i <= USER_PAGES && DetachFrom(m, s, i) == goal
  }

  /** A page that could not be privatised is as it was; one that could is mapped. */
  lemma WritableOrSame(m: Mem, s: nat, i: nat) returns (n: Mem, ok: bool)
    requires Good(m) && s in m.spaces && i < USER_PAGES
    ensures (n, ok) == Writable(m, s, i) && Good(n) && s in n.spaces
    ensures if ok then Entry(n.phys, s, i).present else n == m
  {
    WritableGood(m, s, i);
    WritableCases(m, s, i);
    n, ok := Writable(m, s, i).0, Writable(m, s, i).1;
    var e := Entry(m.phys, s, i);
    if ok && !e.writable {
      if m.pool.refs[e.frame] <= 1 {
        UnsharedEntry(m, s, i, n);
      } else {
        CopiedMoved(m, s, i, AllocPage(m.pool).1.value, n);
      }
    }
  }

  lemma StoreSplit(m: Mem, s: nat, i: nat, at: nat, b: Byte, n: Mem, ok: bool)
    requires Good(m) && s in m.spaces && i < USER_PAGES && at < PAGE_SIZE
    requires (n, ok) == Writable(m, s, i) && Good(n) && s in n.spaces && if ok then Entry(n.phys, s, i).present else n == m
    ensures UserStore(m, s, i, at, b) == if ok then (StoreThrough(n, s, i, at, b), true) else (m, false)
  {
  }

  class Kernel {
    const machine: Machine
    var spaces: map<nat, Space>
    var procs: map<nat, nat>

    ghost predicate Fits()
      reads this, machine
    {
      machine.Fits()
    }

    ghost function State(): (m: Mem)
      requires Fits()
      reads this, machine, machine.alloc, machine.alloc.bitmap, machine.alloc.refs, machine.phys
      ensures CowOps.Sized(m.pool, m.phys)
    {
      Mem(machine.Pool(), machine.phys[..], spaces, procs)
    }

    constructor (machine: Machine)
      requires machine.Fits()
      ensures this.machine == machine && Fits() && State() == Mem(machine.Pool(), machine.phys[..], map[], map[])
    {
      this.machine := machine;
      spaces, procs := map[], map[];
    }

    /** proc_space_cow */
    method Fork(parent: nat, child: nat) returns (ok: bool)
      requires Fits() && Good(State()) && parent in procs && child !in procs
      modifies this, machine.alloc, machine.alloc.bitmap, machine.alloc.refs, machine.phys
      ensures Fits() && (State(), ok) == CowSpaces.Fork(old(State()), parent, child)
    {
      ForkIsReady(State(), procs[parent]);
      var r := machine.CowCopy(procs[parent]);
      if r.None? {
        return false;
      }
      spaces := spaces[r.value.0 := Space(r.value.1, 1)];
      procs := procs[child := r.value.0];
      return true;
    }

    /** proc_space_share */
    method ShareSpace(parent: nat, child: nat)
      requires Fits() && parent in procs && procs[parent] in spaces
      modifies this
      ensures Fits() && State() == Share(old(State()), parent, child)
    {
      var s := procs[parent];
      spaces := spaces[s := spaces[s].(refs := spaces[s].refs + 1)];
      procs := procs[child := s];
    }

    /** proc_reap: proc_space_unref, then the slot. */
    method ReapProcess(p: nat)
      requires Fits() && Tables(State()) && p in procs && procs[p] in spaces
      modifies this, machine.alloc, machine.alloc.bitmap, machine.alloc.refs
      ensures Fits() && State() == Reap(old(State()), p)
    {
      var s := procs[p];
      if spaces[s].refs > 1 {
        spaces := spaces[s := spaces[s].(refs := spaces[s].refs - 1)];
      } else {
        assert CowOps.Ready(State().pool, State().phys, s);
        machine.ReleasePages(s);
        machine.FreeUserPd(s);
        machine.alloc.Unref(spaces[s].tramp);
        spaces := spaces - {s};
      }
      procs := procs - {p};
    }

    /** mm_user_make_writable on a live space. */
    method Privatise(s: nat, i: nat) returns (ok: bool)
      requires Fits() && Tables(State()) && Pages(State()) && s in spaces && i < USER_PAGES
      modifies machine.alloc, machine.alloc.bitmap, machine.alloc.refs, machine.phys
      ensures Fits() && (State(), ok) == Writable(old(State()), s, i)
    {
      WritableReady(State(), s);
      ok := machine.MakeWritable(s, i);
    }

    /** mm_user_detach_pages */
    method DetachPages(s: nat) returns (ok: bool)
      requires Fits() && Good(State()) && s in spaces
      modifies machine.alloc, machine.alloc.bitmap, machine.alloc.refs, machine.phys
      ensures Fits() && (State(), ok) == Detach(old(State()), s)
    {
      ghost var goal := Detach(State(), s);
      ok := DetachLoop(s, goal, (m: Mem, i: nat) => Detaching(m, s, i, goal));
    }

    /** `P` stands for `Detaching` towards `goal`, so that the loop need not look inside it. */
    method DetachLoop(s: nat, ghost goal: (Mem, bool), ghost P: (Mem, nat) -> bool) returns (ok: bool)
      requires forall m, i {:trigger Detaching(m, s, i, goal)} :: P(m, i) == Detaching(m, s, i, goal)
      requires Fits() && P(State(), 0)
      modifies machine.alloc, machine.alloc.bitmap, machine.alloc.refs, machine.phys
      ensures Fits() && (State(), ok) == goal
    {
      var i := 0;
      while i < USER_PAGES
        invariant 0 <= i <= USER_PAGES && Fits() && P(State(), i)
      {
        ok := DetachPage(s, i, goal, P);
        if !ok {
          return;
        }
        i := i + 1;
      }
      assert Detaching(State(), s, i, goal);
      return true;
    }

    method DetachPage(s: nat, i: nat, ghost goal: (Mem, bool), ghost P: (Mem, nat) -> bool) returns (ok: bool)
      requires forall m, j {:trigger Detaching(m, s, j, goal)} :: P(m, j) == Detaching(m, s, j, goal)
      requires Fits() && i < USER_PAGES && P(State(), i)
      modifies machine.alloc, machine.alloc.bitmap, machine.alloc.refs, machine.phys
      ensures Fits() && if ok then P(State(), i + 1) else (State(), ok) == goal
    {
      assert Detaching(State(), s, i, goal);
      DetachOneGood(State(), s, i);
      WritableReady(State(), s);
      var e := machine.ReadEntry(s, i);
      ok := true;
      if e.present && !e.writable {
        ok := Privatise(s, i);
      }
      assert ok ==> Detaching(State(), s, i + 1, goal);
    }

    /** The byte store that follows: through the mapping, wherever it leads. */
    method StoreByte(s: nat, i: nat, at: nat, b: Byte)
      requires Fits() && Tables(State()) && Pages(State()) && s in spaces && i < USER_PAGES && at < PAGE_SIZE
      requires Entry(State().phys, s, i).present
      modifies machine.phys
      ensures Fits() && State() == StoreThrough(old(State()), s, i, at, b)
    {
      MappedData(State(), s, i);
      var e := machine.ReadEntry(s, i);
      machine.phys[e.frame] := Data(machine.phys[e.frame].page[at := b]);
    }

    method StoreIfMapped(s: nat, i: nat, at: nat, b: Byte) returns (ok: bool)
      requires Fits() && Tables(State()) && Pages(State()) && s in spaces && i < USER_PAGES && at < PAGE_SIZE
      modifies machine.phys
      ensures Fits() && ok == Entry(old(State()).phys, s, i).present
      ensures State() == if ok then StoreThrough(old(State()), s, i, at, b) else old(State())
    {
      WritableReady(State(), s);
      var e := machine.ReadEntry(s, i);
      ok := e.present;
      if ok {
        StoreByte(s, i, at, b);
      }
    }

    /** A user store of one byte: isr_handler resolves the fault, or the process dies and nothing changed. */
    method UserWrite(s: nat, i: nat, at: nat, b: Byte) returns (ok: bool)
      requires Fits() && Good(State()) && s in spaces && i < USER_PAGES && at < PAGE_SIZE
      modifies machine.alloc, machine.alloc.bitmap, machine.alloc.refs, machine.phys
      ensures Fits() && (State(), ok) == UserStore(old(State()), s, i, at, b)
    {
      ghost var n, done := WritableOrSame(State(), s, i);
      StoreSplit(State(), s, i, at, b, n, done);
      ok := Privatise(s, i);
      if ok {
        StoreByte(s, i, at, b);
      }
    }

    /** proc_user_ptr and the store through it: the outcome of privatising is ignored. */
    method KernelWrite(s: nat, i: nat, at: nat, b: Byte) returns (ok: bool)
      requires Fits() && Good(State()) && s in spaces && i < USER_PAGES && at < PAGE_SIZE
      modifies machine.alloc, machine.alloc.bitmap, machine.alloc.refs, machine.phys
      ensures Fits() && (State(), ok) == KernelStore(old(State()), s, i, at, b)
    {
      WritableGood(State(), s, i);
      var ignored := Privatise(s, i);
      ok := StoreIfMapped(s, i, at, b);
    }

    /** proc_space_alloc and the zero fill of the window. */
    method Start(kernel: seq<Pde>, p: nat) returns (ok: bool)
      requires Fits() && |kernel| == 1024 && Valid(State().pool) && machine.phys.Length > 0 && State().pool.used[0]
      modifies this, machine.alloc, machine.alloc.bitmap, machine.alloc.refs, machine.phys
      ensures Fits() && ok == Launch(old(State()), kernel, p).1 && State().pool == Launch(old(State()), kernel, p).0.pool
      ensures ok ==> State() == Launch(old(State()), kernel, p).0
      ensures !ok ==> spaces == old(spaces) && procs == old(procs)
      ensures !ok ==> forall f | 0 <= f < machine.phys.Length && old(State()).pool.used[f] :: machine.phys[f] == old(machine.phys[..])[f]
    {
      AllocPagesMeaning(State().pool, BLOCK_PAGES);
      var blk := machine.alloc.AllocPages(BLOCK_PAGES);
      if blk.None? {
        return false;
      }
      AllocPageMeaning(State().pool);
      var t := machine.alloc.AllocPage();
      if t.None? {
        machine.alloc.FreePages(blk.value, BLOCK_PAGES);
        return false;
      }
      ok := StartWith(kernel, p, blk.value, t.value);
    }

    method StartWith(kernel: seq<Pde>, p: nat, blk: nat, t: nat) returns (ok: bool)
      requires Fits() && |kernel| == 1024 && 0 < t < machine.phys.Length && 0 < blk && blk + BLOCK_PAGES <= machine.phys.Length
      modifies this, machine.alloc, machine.alloc.bitmap, machine.alloc.refs, machine.phys
      ensures Fits() && ok == LaunchWith(old(State()), kernel, p, old(State()).pool, blk, t).1
      ensures State().pool == LaunchWith(old(State()), kernel, p, old(State()).pool, blk, t).0.pool
      ensures ok ==> State() == LaunchWith(old(State()), kernel, p, old(State()).pool, blk, t).0
      ensures !ok ==> spaces == old(spaces) && procs == old(procs)
      ensures !ok ==> forall f | 0 <= f < machine.phys.Length && f != t && old(State()).pool.used[f] :: machine.phys[f] == old(machine.phys[..])[f]
    {
      machine.phys[t] := Data(CowOps.TrampCode());
      assert machine.phys[..] == CowOps.WriteTrampoline(old(machine.phys[..]), t);
      var pd := machine.CreateUserPd(kernel, blk, t);
      if pd.None? {
        machine.alloc.Unref(t);
        machine.alloc.FreePages(blk, BLOCK_PAGES);
        return false;
      }
      ZeroWindow(blk);
      spaces := spaces[pd.value := Space(t, 1)];
      procs := procs[p := pd.value];
      return true;
    }

    method ZeroWindow(blk: nat)
      requires Fits() && blk + BLOCK_PAGES <= machine.phys.Length
      modifies machine.phys
      ensures machine.phys[..] == SetRange(old(machine.phys[..]), blk, USER_PAGES, Data(ZeroPage()))
    {
      var i := 0;
      assert SetRange(machine.phys[..], blk, 0, Data(ZeroPage())) == machine.phys[..];
      while i < USER_PAGES
        invariant 0 <= i <= USER_PAGES
        invariant machine.phys[..] == SetRange(old(machine.phys[..]), blk, i, Data(ZeroPage()))
      {
        machine.phys[blk + i] := Data(ZeroPage());
        i := i + 1;
        SetRangeStep(old(machine.phys[..]), blk, i, Data(ZeroPage()));
      }
    }
  }
}
