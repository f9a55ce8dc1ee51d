/**
 The page-table operations in the form of `src/mm.c` and `src/proc.c`: frames and table entries
 changed in place, loops over the pages of the user window.
 */
module UserPages {
  import opened Options
  import opened Frames
  import opened FrameAllocator
  import opened Paging
  import CowOps
  import CowLaunch

  // ---------------------------------------------------------------- half-built directories

  const NO_PDE := Pde(false, false, 0)
  const NO_PTE := Pte(false, false, false, 0)

  function EmptyTable(): (t: seq<Pte>) { seq(1024, _ => NO_PTE) }

  /** The kernel's slots, with the user slots naming the tables allocated so far. */
  ghost function Slots(kernel: seq<Pde>, ts: seq<nat>): (pdes: seq<Pde>)
    requires |kernel| == 1024
    ensures |pdes| == 1024
  {
    seq(1024, d requires 0 <= d < 1024 =>
      if FIRST_PDE <= d <= LAST_PDE then
        (if d - FIRST_PDE < |ts| then CowLaunch.UserPde(ts[d - FIRST_PDE]) else NO_PDE)
      else kernel[d])
  }

  /** Table `d` when pages 0..i have been mapped to the block at `blk`. */
  ghost function PartTable(d: nat, blk: nat, i: nat): (t: seq<Pte>)
    ensures |t| == 1024
  {
    seq(1024, j requires 0 <= j < 1024 =>
      if USER_FIRST <= 1024 * d + j < USER_FIRST + i then Pte(true, true, true, blk + (1024 * d + j - USER_FIRST))
      else NO_PTE)
  }

  lemma PartTableStep(d: nat, blk: nat, i: nat)
    ensures PartTable(d, blk, i + 1) ==
            if d == PdeOf(i) then PartTable(d, blk, i)[PtiOf(i) := Pte(true, true, true, blk + i)] else PartTable(d, blk, i)
  {
  }

  lemma PartTableNew(d: nat, blk: nat, i: nat)
    requires i == 0 || USER_FIRST + i <= 1024 * d
    ensures PartTable(d, blk, i) == EmptyTable()
  {
  }

  lemma PartTableDone(d: nat, blk: nat, tramp: nat)
    ensures CowLaunch.NewTable(d, blk, tramp) ==
            if d == PdeOf(USER_PAGES) then PartTable(d, blk, USER_PAGES)[PtiOf(USER_PAGES) := CowOps.TrampEntry(tramp)]
            else PartTable(d, blk, USER_PAGES)
  {
  }

  lemma SlotAt(kernel: seq<Pde>, ts: seq<nat>, d: nat)
    requires |kernel| == 1024 && FIRST_PDE <= d <= LAST_PDE
    ensures Slots(kernel, ts)[d].present <==> d - FIRST_PDE < |ts|
    ensures d - FIRST_PDE < |ts| ==> Slots(kernel, ts)[d].frame == ts[d - FIRST_PDE]
  {
    assert Slots(kernel, ts)[d] == if d - FIRST_PDE < |ts| then CowLaunch.UserPde(ts[d - FIRST_PDE]) else NO_PDE;
  }

  lemma SlotsStep(kernel: seq<Pde>, ts: seq<nat>, q: nat)
    requires |kernel| == 1024 && |ts| < 3
    ensures Slots(kernel, ts + [q]) == Slots(kernel, ts)[FIRST_PDE + |ts| := CowLaunch.UserPde(q)]
  {
  }

  /** mm_free_user_pd on a directory with some user slots still empty. */
  ghost function FreeSlot(pool: Frames.Pool, e: Pde): (r: Frames.Pool)
    requires |pool.refs| == |pool.used|
    ensures |r.refs| == |r.used| == |pool.used|
  {
    if e.present then Frames.Unref(pool, e.frame) else pool
  }

  ghost function FreeDirectory(pool: Frames.Pool, pdes: seq<Pde>, pd: nat): (r: Frames.Pool)
    requires |pool.refs| == |pool.used| && |pdes| == 1024
    ensures |r.refs| == |r.used| == |pool.used|
  {
    Frames.Unref(FreeSlot(FreeSlot(FreeSlot(pool, pdes[FIRST_PDE]), pdes[FIRST_PDE + 1]), pdes[LAST_PDE]), pd)
  }

  /** How many user tables the first `i` pages touch. */
  function Started(i: nat): nat { if i == 0 then 0 else PdeOf(i - 1) - FIRST_PDE + 1 }

  lemma StartedStep(i: nat)
    requires i < USER_PAGES
    ensures FIRST_PDE <= PdeOf(i) <= LAST_PDE && Started(i + 1) == PdeOf(i) - FIRST_PDE + 1
    ensures Started(i) == Started(i + 1) || (Started(i) == PdeOf(i) - FIRST_PDE && (i == 0 || USER_FIRST + i <= 1024 * PdeOf(i)))
  {
  }

  ghost predicate Hands(was: Frames.Pool, now: Frames.Pool, f: nat) {
    |was.refs| == |was.used| && Frames.AllocPage(was) == (now, Some(f))
  }

  /** `ts` are successive allocations, `pools` the allocator before, between and after them. */
  ghost predicate Handed(pools: seq<Frames.Pool>, ts: seq<nat>) {
    && |pools| == |ts| + 1 && |pools[0].refs| == |pools[0].used|
    && forall k | 0 <= k < |ts| :: Hands(pools[k], pools[k + 1], ts[k])
  }

  lemma HandedStep(pools: seq<Frames.Pool>, ts: seq<nat>, now: Frames.Pool, f: nat)
    requires Handed(pools, ts) && Hands(pools[|ts|], now, f)
    ensures Handed(pools + [now], ts + [f])
  {
    var p, t := pools + [now], ts + [f];
    forall k | 0 <= k < |t| ensures Hands(p[k], p[k + 1], t[k]) {
      if k < |ts| {
        assert p[k] == pools[k] && p[k + 1] == pools[k + 1] && t[k] == ts[k];
      }
    }
  }

  lemma HandsUsed(was: Frames.Pool, now: Frames.Pool, f: nat)
    requires Hands(was, now, f)
    ensures |now.used| == |was.used| == |now.refs| && f < |was.used| && !was.used[f] && now.used == was.used[f := true]
  {
  }

  /** Frames handed out were unused before, and are distinct from those in use. */
  lemma {:induction false} HandedUsed(pools: seq<Frames.Pool>, ts: seq<nat>, n: nat)
    requires Handed(pools, ts) && n <= |ts|
    ensures |pools[n].used| == |pools[0].used| == |pools[n].refs|
    ensures forall k | 0 <= k < n :: ts[k] < |pools[0].used| && !pools[0].used[ts[k]] && pools[n].used[ts[k]]
    ensures forall f | 0 <= f < |pools[0].used| && pools[0].used[f] :: pools[n].used[f]
    decreases n
  {
    if n > 0 {
      HandedUsed(pools, ts, n - 1);
      assert Hands(pools[n - 1], pools[n - 1 + 1], ts[n - 1]);
      HandsUsed(pools[n - 1], pools[n], ts[n - 1]);
    }
  }

  /** The cells of a directory under construction: pages 0..i of the block are mapped. */
  ghost predicate Cells(mem: Phys, was: Phys, kernel: seq<Pde>, pd: nat, ts: seq<nat>, blk: nat, i: nat) {
    && |kernel| == 1024 && |mem| == |was| && pd < |mem| && pd !in ts && |ts| <= 3
    && (forall k | 0 <= k < |ts| :: ts[k] < |mem|)
    && (forall j, k | 0 <= j < k < |ts| :: ts[j] != ts[k])
    && mem[pd] == Directory(Slots(kernel, ts))
    && (forall k | 0 <= k < |ts| :: mem[ts[k]] == Table(PartTable(FIRST_PDE + k, blk, i)))
    && (forall f | 0 <= f < |mem| && f != pd && f !in ts :: mem[f] == was[f])
  }

  lemma CellsTable(mem: Phys, was: Phys, kernel: seq<Pde>, pd: nat, ts: seq<nat>, blk: nat, i: nat, q: nat, next: Phys)
    requires Cells(mem, was, kernel, pd, ts, blk, i) && |ts| < 3 && q < |mem| && q != pd && q !in ts
    requires i == 0 || USER_FIRST + i <= 1024 * (FIRST_PDE + |ts|)
    requires next == mem[q := Table(EmptyTable())]
                        [pd := Directory(mem[pd].pdes[FIRST_PDE + |ts| := CowLaunch.UserPde(q)])]
    ensures Cells(next, was, kernel, pd, ts + [q], blk, i)
  {
    SlotsStep(kernel, ts, q);
    PartTableNew(FIRST_PDE + |ts|, blk, i);
    var more := ts + [q];
    forall k | 0 <= k < |more| ensures more[k] < |next| && next[more[k]] == Table(PartTable(FIRST_PDE + k, blk, i)) {
      if k < |ts| {
        assert more[k] == ts[k] && ts[k] != pd && ts[k] != q;
      }
    }
    forall f | 0 <= f < |mem| && f != pd && f !in more ensures next[f] == was[f] {
      assert f !in ts && q in more;
    }
    assert pd !in more;
  }

  lemma CellsPage(mem: Phys, was: Phys, kernel: seq<Pde>, pd: nat, ts: seq<nat>, blk: nat, i: nat, next: Phys)
    requires Cells(mem, was, kernel, pd, ts, blk, i) && i < USER_PAGES && PdeOf(i) - FIRST_PDE < |ts|
    requires var t := ts[PdeOf(i) - FIRST_PDE];
             next == mem[t := Table(PartTable(PdeOf(i), blk, i)[PtiOf(i) := Pte(true, true, true, blk + i)])]
    ensures Cells(next, was, kernel, pd, ts, blk, i + 1)
  {
    var n := PdeOf(i) - FIRST_PDE;
    forall k | 0 <= k < |ts| ensures next[ts[k]] == Table(PartTable(FIRST_PDE + k, blk, i + 1)) {
      PartTableStep(FIRST_PDE + k, blk, i);
      assert k != n ==> ts[k] != ts[n];
    }
    forall f | 0 <= f < |mem| && f != pd && f !in ts ensures next[f] == was[f] {
      assert ts[n] in ts;
    }
  }

  lemma CellsDone(mem: Phys, was: Phys, kernel: seq<Pde>, pd: nat, ts: seq<nat>, blk: nat, tramp: nat)
    requires Cells(mem, was, kernel, pd, ts, blk, USER_PAGES) && |ts| == 3
    ensures mem[ts[2] := Table(PartTable(LAST_PDE, blk, USER_PAGES)[PtiOf(USER_PAGES) := CowOps.TrampEntry(tramp)])] ==
            CowLaunch.BuildTables(was, kernel, pd, ts[0], ts[1], ts[2], blk, tramp)
  {
    PartTableDone(FIRST_PDE, blk, tramp);
    PartTableDone(FIRST_PDE + 1, blk, tramp);
    PartTableDone(LAST_PDE, blk, tramp);
    assert Slots(kernel, ts) == CowLaunch.NewDirectory(kernel, ts[0], ts[1], ts[2]);
    var next := mem[ts[2] := Table(PartTable(LAST_PDE, blk, USER_PAGES)[PtiOf(USER_PAGES) := CowOps.TrampEntry(tramp)])];
    var done := CowLaunch.BuildTables(was, kernel, pd, ts[0], ts[1], ts[2], blk, tramp);
    assert ts[0] in ts && ts[1] in ts && ts[2] in ts;
    forall f | 0 <= f < |mem| ensures next[f] == done[f] {
      assert f in ts ==> f == ts[0] || f == ts[1] || f == ts[2];
    }
  }

  /** Allocation failed after the tables `ts`: they and the directory are back. */
  ghost predicate Stopped(pools: seq<Frames.Pool>, now: Frames.Pool, mem: Phys, was: Phys, kernel: seq<Pde>, pd: nat,
                          ts: seq<nat>) {
    && |kernel| == 1024 && |mem| == |was| && |ts| < 3 && Handed(pools, ts) && |pools[|ts|].refs| == |pools[|ts|].used|
    && Frames.AllocPage(pools[|ts|]).1.None? && now == FreeDirectory(pools[|ts|], Slots(kernel, ts), pd)
    && (forall f | 0 <= f < |mem| && f != pd && f !in ts :: mem[f] == was[f])
  }

  lemma FreeSlots(pool: Frames.Pool, kernel: seq<Pde>, ts: seq<nat>, pd: nat)
    requires |kernel| == 1024 && |ts| < 3 && |pool.refs| == |pool.used|
    ensures FreeDirectory(pool, Slots(kernel, ts), pd) ==
            if |ts| == 0 then Frames.Unref(pool, pd)
            else if |ts| == 1 then Frames.Unref(Frames.Unref(pool, ts[0]), pd)
            else Frames.Unref(Frames.Unref(Frames.Unref(pool, ts[0]), ts[1]), pd)
  {
    SlotAt(kernel, ts, FIRST_PDE);
    SlotAt(kernel, ts, FIRST_PDE + 1);
    SlotAt(kernel, ts, LAST_PDE);
  }

  lemma StoppedSpec(pool: Frames.Pool, pools: seq<Frames.Pool>, now: Frames.Pool, mem: Phys, was: Phys, kernel: seq<Pde>,
                    pd: nat, ts: seq<nat>, blk: nat, tramp: nat)
    requires |pool.refs| == |pool.used| == |was| && Stopped(pools, now, mem, was, kernel, pd, ts) && Hands(pool, pools[0], pd)
    ensures now == CowLaunch.CreateUserPd(pool, was, kernel, blk, tramp).0
    ensures CowLaunch.CreateUserPd(pool, was, kernel, blk, tramp).2.None?
    ensures forall f | 0 <= f < |was| && pool.used[f] :: mem[f] == was[f]
  {
    HandsUsed(pool, pools[0], pd);
    HandedUsed(pools, ts, |ts|);
    FreeSlots(pools[|ts|], kernel, ts, pd);
    assert |ts| > 0 ==> Hands(pools[0], pools[0 + 1], ts[0]);
    assert |ts| > 1 ==> Hands(pools[1], pools[1 + 1], ts[1]);
  }

  lemma BuiltSpec(pool: Frames.Pool, pools: seq<Frames.Pool>, was: Phys, kernel: seq<Pde>, pd: nat, ts: seq<nat>,
                  blk: nat, tramp: nat)
    requires |pool.refs| == |pool.used| == |was| && |kernel| == 1024
    requires Handed(pools, ts) && |ts| == 3 && Hands(pool, pools[0], pd)
    ensures pd !in ts && !pool.used[pd] && forall k | 0 <= k < 3 :: ts[k] < |was| && !pool.used[ts[k]]
    ensures CowLaunch.CreateUserPd(pool, was, kernel, blk, tramp) ==
            (pools[3], CowLaunch.BuildTables(was, kernel, pd, ts[0], ts[1], ts[2], blk, tramp), Some(pd))
  {
    HandsUsed(pool, pools[0], pd);
    HandedUsed(pools, ts, 3);
    assert Hands(pools[0], pools[0 + 1], ts[0]) && Hands(pools[1], pools[1 + 1], ts[1]) && Hands(pools[2], pools[2 + 1], ts[2]);
  }

  class Machine {
    const alloc: Allocator
    const phys: array<Cell>

    ghost predicate Fits()
      reads this
    {
      && alloc.Shape() && phys.Length == alloc.total
      && phys as object != alloc && phys as object != alloc.bitmap && phys as object != alloc.refs
    }

    ghost function Pool(): (p: Frames.Pool)
      requires Fits()
      reads this, alloc, alloc.bitmap, alloc.refs
      ensures |p.used| == |p.refs| == phys.Length
    {
      alloc.State()
    }

    ghost predicate Ready(pd: nat)
      requires Fits()
      reads this, alloc, alloc.bitmap, alloc.refs, phys
    {
      CowOps.Ready(Pool(), phys[..], pd)
    }

    /** Memory holds whatever it held at power-on. */
    constructor (reserved: nat, regions: seq<Region>, contents: seq<Cell>)
      ensures Fits() && fresh(alloc) && fresh(alloc.bitmap) && fresh(alloc.refs) && fresh(phys)
      ensures Pool() == BootPool(|contents|, reserved, regions) && phys[..] == contents
    {
      alloc := new Allocator(|contents|, reserved, regions);
      phys := new Cell[|contents|](i requires 0 <= i < |contents| => contents[i]);
    }

    // ---------------------------------------------------------------- entries

    method ReadEntry(pd: nat, i: nat) returns (e: Pte)
      requires Shape(phys[..], pd) && i <= USER_PAGES
      ensures e == Entry(phys[..], pd, i)
    {
      assert IsTable(phys[..], phys[pd].pdes[PdeOf(i)]);
      var t := phys[pd].pdes[PdeOf(i)].frame;
      e := phys[t].ptes[PtiOf(i)];
    }

    method WriteEntry(pd: nat, i: nat, e: Pte)
      requires Shape(phys[..], pd) && i <= USER_PAGES
      modifies phys
      ensures phys[..] == SetEntry(old(phys[..]), pd, i, e)
    {
      assert IsTable(phys[..], phys[pd].pdes[PdeOf(i)]);
      var t := phys[pd].pdes[PdeOf(i)].frame;
      phys[t] := Table(phys[t].ptes[PtiOf(i) := e]);
    }

    // ---------------------------------------------------------------- one page

    /** mm_user_make_writable */
    method MakeWritable(pd: nat, i: nat) returns (ok: bool)
      requires Fits() && Ready(pd) && i <= USER_PAGES
      requires Entry(phys[..], pd, i).present ==> Entry(phys[..], pd, i).frame < phys.Length
      modifies alloc, alloc.bitmap, alloc.refs, phys
      ensures (Pool(), phys[..], ok) == CowOps.MakeWritable(old(Pool()), old(phys[..]), pd, i)
    {
      ghost var pool, mem := Pool(), phys[..];
      var e := ReadEntry(pd, i);
      if !e.present {
        return false;
      }
      if e.writable {
        return true;
      }
      if alloc.refs[e.frame] > 1 {
        var f := alloc.AllocPage();
        if f.None? {
          return false;
        }
        phys[f.value] := phys[e.frame];
        assert phys[..] == mem[f.value := mem[e.frame]];
        CowOps.UnpagedReady(pool, mem, pd, f.value, mem[e.frame]);
        WriteEntry(pd, i, e.(writable := true, frame := f.value));
        alloc.Unref(e.frame);
      } else {
        WriteEntry(pd, i, e.(writable := true));
      }
      return true;
    }

    // ---------------------------------------------------------------- loops over the window

    /** mm_user_write_protect */
    method WriteProtect(pd: nat)
      requires Shape(phys[..], pd)
      modifies phys
      ensures phys[..] == Protect(old(phys[..]), pd, USER_PAGES)
    {
      var i := 0;
      while i < USER_PAGES
        invariant 0 <= i <= USER_PAGES
        invariant phys[..] == Protect(old(phys[..]), pd, i)
      {
        var e := ReadEntry(pd, i);
        if e.present {
          WriteEntry(pd, i, e.(writable := false));
        }
        i := i + 1;
      }
    }

    /** The counting loop of proc_space_cow. */
    method CountPages(pd: nat)
      requires Fits() && Shape(phys[..], pd)
      modifies alloc.refs
      ensures Pool() == CowOps.IncRefs(old(Pool()), phys[..], pd, USER_PAGES)
    {
      ghost var pool := Pool();
      var i := 0;
      while i < USER_PAGES
        invariant 0 <= i <= USER_PAGES
        invariant Pool() == CowOps.IncRefs(pool, phys[..], pd, i)
      {
        var e := ReadEntry(pd, i);
        if e.present && e.frame != 0 {
          alloc.RefInc(e.frame);
        }
        i := i + 1;
      }
    }

    /** mm_user_release_pages */
    method ReleasePages(pd: nat)
      requires Fits() && Shape(phys[..], pd)
      modifies alloc, alloc.bitmap, alloc.refs
      ensures Pool() == CowOps.ReleasePages(old(Pool()), phys[..], pd, USER_PAGES)
    {
      ghost var pool := Pool();
      var i := 0;
      while i < USER_PAGES
        invariant 0 <= i <= USER_PAGES
        invariant Pool() == CowOps.ReleasePages(pool, phys[..], pd, i)
      {
        var e := ReadEntry(pd, i);
        if e.present {
          alloc.Unref(e.frame);
        }
        i := i + 1;
      }
    }

    // ---------------------------------------------------------------- directories

    /** mm_free_user_pd */
    method FreeUserPd(pd: nat)
      requires Fits() && pd < phys.Length && phys[pd].Directory? && |phys[pd].pdes| == 1024
      modifies alloc, alloc.bitmap, alloc.refs
      ensures Pool() == FreeDirectory(old(Pool()), phys[pd].pdes, pd)
      ensures Shape(phys[..], pd) ==> Pool() == CowOps.FreeUserPd(old(Pool()), phys[..], pd)
    {
      ghost var p0 := Pool();
      ghost var p1 := FreeSlot(p0, phys[pd].pdes[FIRST_PDE]);
      ghost var p2 := FreeSlot(p1, phys[pd].pdes[FIRST_PDE + 1]);
      ghost var p3 := FreeSlot(p2, phys[pd].pdes[LAST_PDE]);
      var d := FIRST_PDE;
      while d <= LAST_PDE
        invariant FIRST_PDE <= d <= LAST_PDE + 1
        invariant Pool() == [p0, p1, p2, p3][d - FIRST_PDE]
      {
        if phys[pd].pdes[d].present {
          alloc.Unref(phys[pd].pdes[d].frame);
        }
        d := d + 1;
      }
      alloc.Unref(pd);
      if Shape(phys[..], pd) {
        assert forall c | FIRST_PDE <= c <= LAST_PDE :: IsTable(phys[..], phys[pd].pdes[c]);
      }
    }

    /** The loop of mm_clone_user_pd over the user tables, from slot `d` of a directory just copied. */
    method CloneTables(src: nat, pd: nat) returns (ok: bool)
      requires Fits() && Ready(src) && Ready(pd) && src != pd
      modifies alloc, alloc.bitmap, alloc.refs, phys
      ensures (Pool(), phys[..], ok) == CowOps.CloneTables(old(Pool()), old(phys[..]), src, pd, FIRST_PDE)
    {
      var d := FIRST_PDE;
      while d <= LAST_PDE
        invariant FIRST_PDE <= d <= LAST_PDE + 1
        invariant Ready(src) && Ready(pd)
        invariant CowOps.CloneTables(Pool(), phys[..], src, pd, d) ==
                  CowOps.CloneTables(old(Pool()), old(phys[..]), src, pd, FIRST_PDE)
      {
        ghost var pool, mem := Pool(), phys[..];
        assert IsTable(phys[..], phys[src].pdes[d]);
        var q := alloc.AllocPage();
        if q.None? {
          FreeUserPd(pd);
          return false;
        }
        CowOps.CloneTableReady(pool, mem, src, pd, d, Pool(), q.value);
        var table := phys[phys[src].pdes[d].frame];
        var slot := phys[src].pdes[d].(frame := q.value);
        phys[q.value] := Table(table.ptes);
        phys[pd] := Directory(phys[pd].pdes[d := slot]);
        assert phys[..] == CowOps.CloneTable(mem, src, pd, d, q.value);
        d := d + 1;
      }
      return true;
    }

    /** mm_clone_user_pd */
    method CloneUserPd(src: nat, tramp: nat) returns (r: Option<nat>)
      requires Fits() && Ready(src)
      modifies alloc, alloc.bitmap, alloc.refs, phys
      ensures (Pool(), phys[..], r) == CowOps.CloneUserPd(old(Pool()), old(phys[..]), src, tramp)
    {
      ghost var pool, mem := Pool(), phys[..];
      var pd := alloc.AllocPage();
      if pd.None? {
        return None;
      }
      phys[pd.value] := Directory(phys[src].pdes);
      assert phys[..] == CowOps.CopyDirectory(mem, src, pd.value);
      CowOps.FreshDirectoryReady(pool, Pool(), mem, src, pd.value);
      var ok := CloneTables(src, pd.value);
      if !ok {
        return None;
      }
      WriteEntry(pd.value, USER_PAGES, CowOps.TrampEntry(tramp));
      return pd;
    }

    /** proc_space_cow: the new directory and trampoline, or nothing. */
    method CowCopy(src: nat) returns (r: Option<(nat, nat)>)
      requires Fits() && Ready(src)
      modifies alloc, alloc.bitmap, alloc.refs, phys
      ensures (Pool(), phys[..], r) == CowOps.CowCopy(old(Pool()), old(phys[..]), src)
    {
      ghost var pool, mem := Pool(), phys[..];
      var t := alloc.AllocPage();
      if t.None? {
        return None;
      }
      phys[t.value] := Data(CowOps.TrampCode());
      assert phys[..] == CowOps.WriteTrampoline(mem, t.value);
      CowOps.TrampolineReady(pool, mem, src, t.value);
      var pd := CloneUserPd(src, t.value);
      if pd.None? {
        alloc.Unref(t.value);
        return None;
      }
      ghost var cloned := phys[..];
      CowOps.ProtectShapes(cloned, pd.value, USER_PAGES, src);
      WriteProtect(pd.value);
      CowOps.ProtectShapes(phys[..], src, USER_PAGES, pd.value);
      WriteProtect(src);
      CountPages(pd.value);
      return Some((pd.value, t.value));
    }

    /** The first touch of a user table in mm_create_user_pd: allocate it empty. */
    method TouchTable(pd: nat, i: nat, ghost was: Phys, ghost kernel: seq<Pde>, ghost pools: seq<Frames.Pool>,
                      ghost ts: seq<nat>, ghost blk: nat)
        returns (ok: bool, ghost later: seq<Frames.Pool>, ghost more: seq<nat>)
      requires Fits() && i < USER_PAGES && |ts| == Started(i) && Handed(pools, ts) && Pool() == pools[|ts|]
      requires Cells(phys[..], was, kernel, pd, ts, blk, i) && pd < |pools[0].used| && pools[0].used[pd]
      modifies alloc, alloc.bitmap, alloc.refs, phys
      ensures ok ==> |more| == Started(i + 1) && Handed(later, more) && Pool() == later[|more|] && later[0] == pools[0]
      ensures ok ==> Cells(phys[..], was, kernel, pd, more, blk, i)
      ensures !ok ==> later == pools && more == ts && Stopped(pools, Pool(), phys[..], was, kernel, pd, ts)
    {
      var d := PdeOf(i);
      later, more := pools, ts;
      StartedStep(i);
      SlotAt(kernel, ts, d);
      HandedUsed(pools, ts, |ts|);
      if !phys[pd].pdes[d].present {
        ghost var mem := phys[..];
        var q := alloc.AllocPage();
        if q.None? {
          FreeUserPd(pd);
          return false, later, more;
        }
        HandedStep(pools, ts, Pool(), q.value);
        HandsUsed(pools[|ts|], Pool(), q.value);
        phys[q.value] := Table(EmptyTable());
        phys[pd] := Directory(phys[pd].pdes[d := CowLaunch.UserPde(q.value)]);
        CellsTable(mem, was, kernel, pd, ts, blk, i, q.value, phys[..]);
        later, more := pools + [Pool()], ts + [q.value];
      }
      return true, later, more;
    }

    /** One entry of the new window. */
    method MapPage(pd: nat, i: nat, ghost was: Phys, ghost kernel: seq<Pde>, ghost ts: seq<nat>, blk: nat)
      requires i < USER_PAGES && Cells(phys[..], was, kernel, pd, ts, blk, i) && |ts| == Started(i + 1)
      modifies phys
      ensures Cells(phys[..], was, kernel, pd, ts, blk, i + 1)
    {
      StartedStep(i);
      ghost var before := phys[..];
      SlotAt(kernel, ts, PdeOf(i));
      var t := phys[pd].pdes[PdeOf(i)].frame;
      phys[t] := Table(phys[t].ptes[PtiOf(i) := Pte(true, true, true, blk + i)]);
      CellsPage(before, was, kernel, pd, ts, blk, i, phys[..]);
    }

    /** The page loop of mm_create_user_pd. */
    method MapBlock(pd: nat, ghost was: Phys, ghost kernel: seq<Pde>, blk: nat)
        returns (ok: bool, ghost pools: seq<Frames.Pool>, ghost ts: seq<nat>)
      requires Fits() && Cells(phys[..], was, kernel, pd, [], blk, 0) && Pool().used[pd]
      modifies alloc, alloc.bitmap, alloc.refs, phys
      ensures Handed(pools, ts) && pools[0] == old(Pool())
      ensures ok ==> |ts| == 3 && Pool() == pools[3] && Cells(phys[..], was, kernel, pd, ts, blk, USER_PAGES)
      ensures !ok ==> Stopped(pools, Pool(), phys[..], was, kernel, pd, ts)
    {
      pools, ts := [Pool()], [];
      var i := 0;
      while i < USER_PAGES
        invariant 0 <= i <= USER_PAGES && |ts| == Started(i) && Handed(pools, ts) && Pool() == pools[|ts|]
        invariant pools[0] == old(Pool())
        invariant Cells(phys[..], was, kernel, pd, ts, blk, i)
      {
        ok, pools, ts := TouchTable(pd, i, was, kernel, pools, ts, blk);
        if !ok {
          return;
        }
        MapPage(pd, i, was, kernel, ts, blk);
        i := i + 1;
      }
      return true, pools, ts;
    }

    /** mm_create_user_pd past its argument checks. */
    method BuildUserPd(kernel: seq<Pde>, blk: nat, tramp: nat) returns (r: Option<nat>)
      requires Fits() && |kernel| == 1024
      modifies alloc, alloc.bitmap, alloc.refs, phys
      ensures var c := CowLaunch.CreateUserPd(old(Pool()), old(phys[..]), kernel, blk, tramp);
              Pool() == c.0 && r == c.2 && (r.Some? ==> phys[..] == c.1)
      ensures forall f | 0 <= f < phys.Length && old(Pool()).used[f] :: phys[f] == old(phys[..])[f]
    {
      ghost var mem := phys[..];
      var pd := alloc.AllocPage();
      if pd.None? {
        return None;
      }
      phys[pd.value] := Directory(kernel[FIRST_PDE := NO_PDE][FIRST_PDE + 1 := NO_PDE][LAST_PDE := NO_PDE]);
      assert kernel[FIRST_PDE := NO_PDE][FIRST_PDE + 1 := NO_PDE][LAST_PDE := NO_PDE] == Slots(kernel, []);
      ghost var pools, ts;
      var ok;
      ok, pools, ts := MapBlock(pd.value, mem, kernel, blk);
      if !ok {
        StoppedSpec(old(Pool()), pools, Pool(), phys[..], mem, kernel, pd.value, ts, blk, tramp);
        return None;
      }
      BuiltSpec(old(Pool()), pools, mem, kernel, pd.value, ts, blk, tramp);
      WriteLast(pd.value, mem, kernel, ts, blk, tramp);
      return pd;
    }

    /** mm_create_user_pd, with the kernel's directory slots as a parameter. */
    method CreateUserPd(kernel: seq<Pde>, blk: nat, tramp: nat) returns (r: Option<nat>)
      requires Fits() && |kernel| == 1024
      modifies alloc, alloc.bitmap, alloc.refs, phys
      ensures blk == 0 || tramp == 0 ==> r.None? && Pool() == old(Pool()) && phys[..] == old(phys[..])
      ensures var c := CowLaunch.CreateUserPd(old(Pool()), old(phys[..]), kernel, blk, tramp);
              blk != 0 && tramp != 0 ==> Pool() == c.0 && r == c.2 && (r.Some? ==> phys[..] == c.1)
      ensures forall f | 0 <= f < phys.Length && old(Pool()).used[f] :: phys[f] == old(phys[..])[f]
    {
      if blk == 0 || tramp == 0 {
        return None;
      }
      r := BuildUserPd(kernel, blk, tramp);
    }

    /** The trampoline entry, which lies in the last table. */
    method WriteLast(pd: nat, ghost was: Phys, ghost kernel: seq<Pde>, ghost ts: seq<nat>, ghost blk: nat, tramp: nat)
      requires Cells(phys[..], was, kernel, pd, ts, blk, USER_PAGES) && |ts| == 3
      modifies phys
      ensures phys[..] == CowLaunch.BuildTables(was, kernel, pd, ts[0], ts[1], ts[2], blk, tramp)
    {
      CellsDone(phys[..], was, kernel, pd, ts, blk, tramp);
      SlotAt(kernel, ts, LAST_PDE);
      var t := phys[pd].pdes[PdeOf(USER_PAGES)].frame;
      phys[t] := Table(phys[t].ptes[PtiOf(USER_PAGES) := CowOps.TrampEntry(tramp)]);
    }
  }
}
