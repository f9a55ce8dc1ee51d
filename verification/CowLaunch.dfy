/**
 Launching a program: an 8 MB block, a trampoline and a page directory (proc_space_alloc and
 mm_create_user_pd), then the zeroed image; and what every out-of-memory exit leaves behind.
 */
module CowLaunch {
  import opened Options
  import opened Frames
  import opened Paging
  import opened CowOps
  import opened CowFork
  import opened Cow
  import opened CowWrite
  import opened CowReap

  /** USER_SIZE / PAGE_SIZE: one page more than is ever mapped from the block. */
  const BLOCK_PAGES: nat := USER_PAGES + 1

  // ---------------------------------------------------------------- frames taken and given back

  /** Like Grown, but says nothing about the counts of unused frames. */
  ghost predicate Took(was: Pool, now: Pool, taken: set<nat>) {
    && |was.refs| == |was.used| == |now.used| == |now.refs|
    && Valid(now) && now.free == was.free - |taken|
    && (forall f | f in taken :: f < |was.used| && !was.used[f])
    && (forall f | 0 <= f < |was.used| :: now.used[f] == (was.used[f] || f in taken))
    && (forall f | f in taken :: now.refs[f] == 1)
    && (forall f | 0 <= f < |was.used| && was.used[f] :: now.refs[f] == was.refs[f])
  }

  lemma TookNone(was: Pool)
    requires Valid(was)
    ensures Took(was, was, {})
  {
  }

  lemma TookOne(was: Pool, now: Pool, taken: set<nat>)
    requires Took(was, now, taken) && AllocPage(now).1.Some?
    ensures var (next, r) := AllocPage(now);
            r.value < |was.used| && r.value !in taken && !was.used[r.value] && Took(was, next, taken + {r.value})
  {
    AllocPageMeaning(now);
  }

  lemma GaveOne(was: Pool, now: Pool, taken: set<nat>, f: nat)
    requires Took(was, now, taken) && f in taken
    ensures Took(was, Unref(now, f), taken - {f})
  {
    UnrefSole(now, f);
  }

  /** The frames [start, start + n). */
  function Run(start: nat, n: nat): (s: set<nat>)
    ensures |s| == n && forall f: nat :: f in s <==> start <= f < start + n
  {
    if n == 0 then {} else Run(start, n - 1) + {start + n - 1}
  }

  lemma TookRun(was: Pool, n: nat)
    requires Valid(was) && AllocPages(was, n).1.Some?
    ensures var (next, r) := AllocPages(was, n); Took(was, next, Run(r.value, n))
  {
    AllocPagesMeaning(was, n);
    var (next, r) := AllocPages(was, n);
    forall f | f in Run(r.value, n) ensures f < |was.used| && !was.used[f] && next.refs[f] == 1 {
    }
  }

  lemma RunStep(left: set<nat>, start: nat, n: nat, all: set<nat>, last: nat)
    requires n > 0 && last == start + n - 1 && left !! Run(start, n) && all == left + Run(start, n)
    ensures last !in left && (left + {last}) !! Run(start, n - 1) && all == (left + {last}) + Run(start, n - 1)
  {
  }

  lemma GaveLast(was: Pool, now: Pool, left: set<nat>, last: nat)
    requires last !in left && Took(was, now, left + {last})
    ensures Took(was, Unref(now, last), left)
  {
    GaveOne(was, now, left + {last}, last);
    assert left + {last} - {last} == left;
  }

  lemma UnrefRangeStep(p: Pool, start: nat, n: nat, prev: Pool, last: nat)
    requires |p.refs| == |p.used| && n > 0 && last == start + n - 1 && prev == UnrefRange(p, start, n - 1)
    ensures UnrefRange(p, start, n) == Unref(prev, last)
  {
  }

  lemma {:induction false} GaveRun(was: Pool, now: Pool, left: set<nat>, start: nat, n: nat, all: set<nat>) returns (r: Pool)
    requires Took(was, now, all) && all == left + Run(start, n) && left !! Run(start, n)
    ensures r == UnrefRange(now, start, n) && Took(was, r, left)
    decreases n
  {
    if n == 0 {
      assert all == left;
      r := now;
    } else {
      var last := start + n - 1;
      RunStep(left, start, n, all, last);
      var prev := GaveRun(was, now, left + {last}, start, n - 1, all);
      GaveLast(was, prev, left, last);
      UnrefRangeStep(now, start, n, prev, last);
      r := Unref(prev, last);
    }
  }

  lemma GaveTwo(was: Pool, now: Pool, left: set<nat>, f: nat, g: nat)
    requires Took(was, now, left + {f} + {g}) && f !in left && g !in left && f != g
    ensures Took(was, Unref(Unref(now, f), g), left)
  {
    GaveOne(was, now, left + {f} + {g}, f);
    assert left + {f} + {g} - {f} == left + {g};
    GaveOne(was, Unref(now, f), left + {g}, g);
    assert left + {g} - {g} == left;
  }

  // ---------------------------------------------------------------- the directory

  function UserPde(q: nat): Pde { Pde(true, true, q) }

  /** Entry of virtual page `v` in a new directory over the block at `blk`. */
  function NewEntry(v: nat, blk: nat, tramp: nat): Pte {
    if USER_FIRST <= v < USER_FIRST + USER_PAGES then Pte(true, true, true, blk + (v - USER_FIRST))
    else if v == USER_FIRST + USER_PAGES then TrampEntry(tramp)
    else Pte(false, false, false, 0)
  }

  function NewTable(d: nat, blk: nat, tramp: nat): (t: seq<Pte>)
    ensures |t| == 1024 && forall j | 0 <= j < 1024 :: t[j] == NewEntry(1024 * d + j, blk, tramp)
  {
    seq(1024, j requires 0 <= j < 1024 => NewEntry(1024 * d + j, blk, tramp))
  }

  /** The kernel's slots, with the user slots naming three new tables. */
  function NewDirectory(kernel: seq<Pde>, a: nat, b: nat, c: nat): (pdes: seq<Pde>)
    requires |kernel| == 1024
    ensures |pdes| == 1024
  {
    kernel[FIRST_PDE := UserPde(a)][FIRST_PDE + 1 := UserPde(b)][LAST_PDE := UserPde(c)]
  }

  function BuildTables(phys: Phys, kernel: seq<Pde>, pd: nat, a: nat, b: nat, c: nat, blk: nat, tramp: nat): (r: Phys)
    requires |kernel| == 1024 && pd < |phys| && a < |phys| && b < |phys| && c < |phys|
    ensures |r| == |phys|
  {
    phys[a := Table(NewTable(FIRST_PDE, blk, tramp))]
        [b := Table(NewTable(FIRST_PDE + 1, blk, tramp))]
        [c := Table(NewTable(LAST_PDE, blk, tramp))]
        [pd := Directory(NewDirectory(kernel, a, b, c))]
  }

  /** mm_create_user_pd: the directory, then its tables as the pages first touch them; all or nothing. */
  function CreateUserPd(pool: Pool, phys: Phys, kernel: seq<Pde>, blk: nat, tramp: nat): (r: (Pool, Phys, Option<nat>))
    requires |kernel| == 1024 && |pool.refs| == |pool.used| == |phys|
    ensures |r.1| == |phys| && |r.0.refs| == |r.0.used| == |phys|
  {
    var p := AllocPage(pool);
    if p.1.None? then (pool, phys, None)
    else
      var a := AllocPage(p.0);
      if a.1.None? then (Unref(p.0, p.1.value), phys, None)
      else
        var b := AllocPage(a.0);
        if b.1.None? then (Unref(Unref(a.0, a.1.value), p.1.value), phys, None)
        else
          var c := AllocPage(b.0);
          if c.1.None? then (Unref(Unref(Unref(b.0, a.1.value), b.1.value), p.1.value), phys, None)
          else (c.0, BuildTables(phys, kernel, p.1.value, a.1.value, b.1.value, c.1.value, blk, tramp), Some(p.1.value))
  }

  lemma CreateFails(pool: Pool, phys: Phys, kernel: seq<Pde>, blk: nat, tramp: nat, was: Pool, taken: set<nat>)
    requires |kernel| == 1024 && |pool.refs| == |pool.used| == |phys|
    requires Took(was, pool, taken) && CreateUserPd(pool, phys, kernel, blk, tramp).2.None?
    ensures Took(was, CreateUserPd(pool, phys, kernel, blk, tramp).0, taken)
    ensures CreateUserPd(pool, phys, kernel, blk, tramp).1 == phys
  {
    var p := AllocPage(pool);
    if p.1.Some? {
      TookOne(was, pool, taken);
      var t1 := taken + {p.1.value};
      var a := AllocPage(p.0);
      if a.1.None? {
        GaveOne(was, p.0, t1, p.1.value);
        assert t1 - {p.1.value} == taken;
      } else {
        TookOne(was, p.0, t1);
        CreateFails2(pool, phys, kernel, blk, tramp, was, taken);
      }
    }
  }

  lemma CreateFails2(pool: Pool, phys: Phys, kernel: seq<Pde>, blk: nat, tramp: nat, was: Pool, taken: set<nat>)
    requires |kernel| == 1024 && |pool.refs| == |pool.used| == |phys|
    requires Took(was, pool, taken) && CreateUserPd(pool, phys, kernel, blk, tramp).2.None?
    requires AllocPage(pool).1.Some? && AllocPage(AllocPage(pool).0).1.Some?
    ensures Took(was, CreateUserPd(pool, phys, kernel, blk, tramp).0, taken)
    ensures CreateUserPd(pool, phys, kernel, blk, tramp).1 == phys
  {
    var p := AllocPage(pool);
    TookOne(was, pool, taken);
    var t1 := taken + {p.1.value};
    var a := AllocPage(p.0);
    TookOne(was, p.0, t1);
    var t2 := t1 + {a.1.value};
    if AllocPage(a.0).1.None? {
      assert t2 == taken + {a.1.value} + {p.1.value};
      GaveTwo(was, a.0, taken, a.1.value, p.1.value);
    } else {
      CreateFails3(was, a.0, taken, p.1.value, a.1.value);
    }
  }

  lemma CreateFails3(was: Pool, now: Pool, taken: set<nat>, p: nat, a: nat)
    requires Took(was, now, taken + {p} + {a}) && p !in taken && a !in taken && p != a
    requires AllocPage(now).1.Some?
    ensures var (next, b) := AllocPage(now); Took(was, Unref(Unref(Unref(next, a), b.value), p), taken)
  {
    TookOne(was, now, taken + {p} + {a});
    var next, b := AllocPage(now).0, AllocPage(now).1.value;
    assert taken + {p} + {a} + {b} == (taken + {p}) + {a} + {b};
    GaveTwo(was, next, taken + {p}, a, b);
    GaveOne(was, Unref(Unref(next, a), b), taken + {p}, p);
    assert taken + {p} - {p} == taken;
  }

  // ---------------------------------------------------------------- launch

  function ZeroPage(): (p: Page)
    ensures forall k | 0 <= k < PAGE_SIZE :: p[k] == 0
  {
    Zeros(PAGE_SIZE)
  }

  /** proc_space_alloc once it has its block and its trampoline page, then the zero fill of the window. */
  ghost function LaunchWith(m: Mem, kernel: seq<Pde>, p: nat, pool: Pool, blk: nat, t: nat): (r: (Mem, bool))
    requires Sized(pool, m.phys) && |kernel| == 1024 && t < |m.phys| && blk + BLOCK_PAGES <= |m.phys|
  {
    var c := CreateUserPd(pool, WriteTrampoline(m.phys, t), kernel, blk, t);
    if c.2.None? then
      (m.(pool := FreePages(Unref(c.0, t), blk, BLOCK_PAGES), phys := c.1), false)
    else
      (Mem(c.0, SetRange(c.1, blk, USER_PAGES, Data(ZeroPage())),
           m.spaces[c.2.value := Space(t, 1)], m.procs[p := c.2.value]), true)
  }

  /** proc_space_alloc for slot `p`. */
  ghost function Launch(m: Mem, kernel: seq<Pde>, p: nat): (r: (Mem, bool))
    requires Sized(m.pool, m.phys) && |kernel| == 1024
  {
    var b := AllocPages(m.pool, BLOCK_PAGES);
    if b.1.None? then (m, false)
    else
      var t := AllocPage(b.0);
      if t.1.None? then (m.(pool := FreePages(b.0, b.1.value, BLOCK_PAGES)), false)
      else LaunchWith(m, kernel, p, t.0, b.1.value, t.1.value)
  }

  lemma FreeIsUnref(p: Pool, start: nat, n: nat)
    requires |p.refs| == |p.used| && start + n <= |p.used| && n > 0
    ensures FreePages(p, start, n) == UnrefRange(p, start, n)
  {
  }

  lemma BlockBack(was: Pool, now: Pool, blk: nat)
    requires Took(was, now, Run(blk, BLOCK_PAGES)) && blk + BLOCK_PAGES <= |was.used|
    ensures Took(was, FreePages(now, blk, BLOCK_PAGES), {})
  {
    assert {} + Run(blk, BLOCK_PAGES) == Run(blk, BLOCK_PAGES);
    var r := GaveRun(was, now, {}, blk, BLOCK_PAGES, Run(blk, BLOCK_PAGES));
    FreeIsUnref(now, blk, BLOCK_PAGES);
  }

  lemma TrampolineBack(was: Pool, now: Pool, blk: nat, t: nat)
    requires Took(was, now, Run(blk, BLOCK_PAGES) + {t}) && t !in Run(blk, BLOCK_PAGES) && blk + BLOCK_PAGES <= |was.used|
    ensures Took(was, FreePages(Unref(now, t), blk, BLOCK_PAGES), {})
  {
    GaveOne(was, now, Run(blk, BLOCK_PAGES) + {t}, t);
    assert Run(blk, BLOCK_PAGES) + {t} - {t} == Run(blk, BLOCK_PAGES);
    BlockBack(was, Unref(now, t), blk);
  }

  ghost predicate GivenBack(m: Mem, n: Mem) {
    && Sized(m.pool, m.phys) && Took(m.pool, n.pool, {}) && n.spaces == m.spaces && n.procs == m.procs
    && |n.phys| == |m.phys| && forall f | 0 <= f < |m.phys| && m.pool.used[f] :: n.phys[f] == m.phys[f]
  }

  lemma TailGivesBack(m: Mem, kernel: seq<Pde>, p: nat, pool: Pool, blk: nat, t: nat)
    requires Sized(m.pool, m.phys) && |kernel| == 1024 && blk + BLOCK_PAGES <= |m.phys|
    requires t < |m.phys| && !m.pool.used[t] && t !in Run(blk, BLOCK_PAGES) && Took(m.pool, pool, Run(blk, BLOCK_PAGES) + {t})
    requires !LaunchWith(m, kernel, p, pool, blk, t).1
    ensures GivenBack(m, LaunchWith(m, kernel, p, pool, blk, t).0)
  {
    CreateFails(pool, WriteTrampoline(m.phys, t), kernel, blk, t, m.pool, Run(blk, BLOCK_PAGES) + {t});
    var c := CreateUserPd(pool, WriteTrampoline(m.phys, t), kernel, blk, t);
    TrampolineBack(m.pool, c.0, blk, t);
  }

  lemma LaunchGivesBack(m: Mem, kernel: seq<Pde>, p: nat)
    requires Tables(m) && |kernel| == 1024 && !Launch(m, kernel, p).1
    ensures GivenBack(m, Launch(m, kernel, p).0)
  {
    AllocPagesMeaning(m.pool, BLOCK_PAGES);
    var b := AllocPages(m.pool, BLOCK_PAGES);
    if b.1.None? {
      TookNone(m.pool);
    } else {
      TookRun(m.pool, BLOCK_PAGES);
      var t := AllocPage(b.0);
      if t.1.None? {
        BlockBack(m.pool, b.0, b.1.value);
      } else {
        TookOne(m.pool, b.0, Run(b.1.value, BLOCK_PAGES));
        TailGivesBack(m, kernel, p, t.0, b.1.value, t.1.value);
      }
    }
  }

  /** A launch that cannot be completed changes nothing a process or the allocator can see. */
  lemma LaunchRefused(m: Mem, base: set<nat>, kernel: seq<Pde>, p: nat)
    requires Inv(m, base) && |kernel| == 1024 && !Launch(m, kernel, p).1
    ensures Agree(m, Launch(m, kernel, p).0) && Inv(Launch(m, kernel, p).0, base)
    ensures Launch(m, kernel, p).0.pool.free == m.pool.free
  {
    LaunchGivesBack(m, kernel, p);
    var n := Launch(m, kernel, p).0;
    assert n.pool.used == m.pool.used;
    AgreeKeeps(m, base, n);
  }

  // ---------------------------------------------------------------- when a launch succeeds

  /** A block of consecutive free frames, and five more for the trampoline, the directory and its tables. */
  ghost predicate RoomToLaunch(p: Pool) { (exists s: nat :: AllFree(p.used, s, BLOCK_PAGES)) && p.free >= BLOCK_PAGES + 5 }

  lemma CreateWorksIff(pool: Pool, phys: Phys, kernel: seq<Pde>, blk: nat, tramp: nat)
    requires |kernel| == 1024 && |pool.refs| == |pool.used| == |phys| && Valid(pool)
    ensures CreateUserPd(pool, phys, kernel, blk, tramp).2.Some? <==> pool.free >= 4
  {
    AllocPageMeaning(pool);
    var p := AllocPage(pool);
    AllocPageMeaning(p.0);
    var a := AllocPage(p.0);
    AllocPageMeaning(a.0);
    var b := AllocPage(a.0);
    AllocPageMeaning(b.0);
  }

  /** A program can be launched if and only if there is room for its block and five more frames. */
  lemma LaunchWorksIff(m: Mem, kernel: seq<Pde>, p: nat)
    requires Tables(m) && |kernel| == 1024
    ensures Launch(m, kernel, p).1 <==> RoomToLaunch(m.pool)
  {
    AllocPagesMeaning(m.pool, BLOCK_PAGES);
    var b := AllocPages(m.pool, BLOCK_PAGES);
    if b.1.Some? {
      AllocPageMeaning(b.0);
      var t := AllocPage(b.0);
      if t.1.Some? {
        CreateWorksIff(t.0, WriteTrampoline(m.phys, t.1.value), kernel, b.1.value, t.1.value);
      }
    }
  }

  // ---------------------------------------------------------------- a successful launch

  /** The frames and cells of a new space. */
  ghost predicate Launched(m: Mem, kernel: seq<Pde>, p: nat, n: Mem, pd: nat, t: nat, a: nat, b: nat, c: nat, blk: nat) {
    && |kernel| == 1024 && Tables(m) && |n.phys| == |m.phys|
    && Distinct5(a, b, c, pd, t) && {pd, t, a, b, c} !! Run(blk, BLOCK_PAGES)
    && Took(m.pool, n.pool, Run(blk, BLOCK_PAGES) + {pd, t, a, b, c})
    && (forall f | 0 <= f < |m.phys| && m.pool.used[f] :: n.phys[f] == m.phys[f])
    && n.phys[pd] == Directory(NewDirectory(kernel, a, b, c))
    && n.phys[a] == Table(NewTable(FIRST_PDE, blk, t)) && n.phys[b] == Table(NewTable(FIRST_PDE + 1, blk, t))
    && n.phys[c] == Table(NewTable(LAST_PDE, blk, t)) && n.phys[t] == Data(TrampCode())
    && (forall f | blk <= f < blk + USER_PAGES :: n.phys[f] == Data(ZeroPage()))
    && n.spaces == m.spaces[pd := Space(t, 1)] && n.procs == m.procs[p := pd]
  }

  lemma TwoTaken(was: Pool, now: Pool, run: set<nat>)
    requires Took(was, now, run)
    requires AllocPage(now).1.Some? && AllocPage(AllocPage(now).0).1.Some?
    ensures var x := AllocPage(now);
            var y := AllocPage(x.0);
            && x.1.value !in run && y.1.value !in run && x.1.value != y.1.value
            && x.1.value < |was.used| && y.1.value < |was.used|
            && Took(was, y.0, run + {x.1.value, y.1.value})
  {
    TookOne(was, now, run);
    var x := AllocPage(now);
    TookOne(was, x.0, run + {x.1.value});
    var y := AllocPage(x.0);
    assert run + {x.1.value} + {y.1.value} == run + {x.1.value, y.1.value};
  }

  lemma CreateWorks(pool: Pool, phys: Phys, kernel: seq<Pde>, blk: nat, tramp: nat, was: Pool, taken: set<nat>)
      returns (pd: nat, a: nat, b: nat, c: nat)
    requires |kernel| == 1024 && |pool.refs| == |pool.used| == |phys|
    requires Took(was, pool, taken) && CreateUserPd(pool, phys, kernel, blk, tramp).2.Some?
    ensures pd < |phys| && a < |phys| && b < |phys| && c < |phys|
    ensures pd != a && pd != b && pd != c && a != b && a != c && b != c && {pd, a, b, c} !! taken
    ensures CreateUserPd(pool, phys, kernel, blk, tramp).1 == BuildTables(phys, kernel, pd, a, b, c, blk, tramp)
    ensures CreateUserPd(pool, phys, kernel, blk, tramp).2 == Some(pd)
    ensures Took(was, CreateUserPd(pool, phys, kernel, blk, tramp).0, taken + {pd, a, b, c})
  {
    TwoTaken(was, pool, taken);
    var p := AllocPage(pool);
    var q := AllocPage(p.0);
    pd, a := p.1.value, q.1.value;
    TwoTaken(was, q.0, taken + {pd, a});
    var r := AllocPage(q.0);
    b, c := r.1.value, AllocPage(r.0).1.value;
    assert taken + {pd, a} + {b, c} == taken + {pd, a, b, c};
  }

  /** What a successful launch built, before looking at single cells. */
  ghost predicate Built(m: Mem, kernel: seq<Pde>, p: nat, n: Mem, pd: nat, t: nat, a: nat, b: nat, c: nat, blk: nat) {
    && |kernel| == 1024 && Distinct5(a, b, c, pd, t) && blk + BLOCK_PAGES <= |m.phys|
    && {pd, t, a, b, c} !! Run(blk, BLOCK_PAGES)
    && Took(m.pool, n.pool, Run(blk, BLOCK_PAGES) + {pd, t, a, b, c})
    && pd < |m.phys| && t < |m.phys| && a < |m.phys| && b < |m.phys| && c < |m.phys|
    && n.phys == SetRange(BuildTables(WriteTrampoline(m.phys, t), kernel, pd, a, b, c, blk, t),
                          blk, USER_PAGES, Data(ZeroPage()))
    && n.spaces == m.spaces[pd := Space(t, 1)] && n.procs == m.procs[p := pd]
  }

  lemma TailBuilds(m: Mem, kernel: seq<Pde>, p: nat, pool: Pool, blk: nat, t: nat) returns (pd: nat, a: nat, b: nat, c: nat)
    requires Sized(m.pool, m.phys) && |kernel| == 1024 && blk + BLOCK_PAGES <= |m.phys|
    requires t < |m.phys| && !m.pool.used[t] && t !in Run(blk, BLOCK_PAGES) && Took(m.pool, pool, Run(blk, BLOCK_PAGES) + {t})
    requires LaunchWith(m, kernel, p, pool, blk, t).1
    ensures Built(m, kernel, p, LaunchWith(m, kernel, p, pool, blk, t).0, pd, t, a, b, c, blk)
  {
    var run := Run(blk, BLOCK_PAGES);
    pd, a, b, c := CreateWorks(pool, WriteTrampoline(m.phys, t), kernel, blk, t, m.pool, run + {t});
    assert run + {t} + {pd, a, b, c} == run + {pd, t, a, b, c};
  }

  lemma LaunchFrames(m: Mem, kernel: seq<Pde>, p: nat)
      returns (pd: nat, t: nat, a: nat, b: nat, c: nat, blk: nat)
    requires Tables(m) && |kernel| == 1024 && Launch(m, kernel, p).1
    ensures Built(m, kernel, p, Launch(m, kernel, p).0, pd, t, a, b, c, blk)
  {
    AllocPagesMeaning(m.pool, BLOCK_PAGES);
    var k := AllocPages(m.pool, BLOCK_PAGES);
    blk := k.1.value;
    TookRun(m.pool, BLOCK_PAGES);
    TookOne(m.pool, k.0, Run(blk, BLOCK_PAGES));
    t := AllocPage(k.0).1.value;
    pd, a, b, c := TailBuilds(m, kernel, p, AllocPage(k.0).0, blk, t);
  }

  lemma LaunchCells(phys: Phys, kernel: seq<Pde>, pd: nat, t: nat, a: nat, b: nat, c: nat, blk: nat)
    requires |kernel| == 1024 && Distinct5(a, b, c, pd, t) && blk + BLOCK_PAGES <= |phys|
    requires pd < |phys| && t < |phys| && a < |phys| && b < |phys| && c < |phys|
    requires {pd, t, a, b, c} !! Run(blk, BLOCK_PAGES)
    ensures var next := SetRange(BuildTables(WriteTrampoline(phys, t), kernel, pd, a, b, c, blk, t),
                                 blk, USER_PAGES, Data(ZeroPage()));
            && next[pd] == Directory(NewDirectory(kernel, a, b, c))
            && next[a] == Table(NewTable(FIRST_PDE, blk, t)) && next[b] == Table(NewTable(FIRST_PDE + 1, blk, t))
            && next[c] == Table(NewTable(LAST_PDE, blk, t)) && next[t] == Data(TrampCode())
            && (forall f | blk <= f < blk + USER_PAGES :: next[f] == Data(ZeroPage()))
            && (forall f | 0 <= f < |phys| && f !in Run(blk, BLOCK_PAGES) + {pd, t, a, b, c} :: next[f] == phys[f])
  {
    assert pd !in Run(blk, BLOCK_PAGES) && t !in Run(blk, BLOCK_PAGES) && a !in Run(blk, BLOCK_PAGES);
    assert b !in Run(blk, BLOCK_PAGES) && c !in Run(blk, BLOCK_PAGES);
  }

  lemma LaunchSucceeds(m: Mem, kernel: seq<Pde>, p: nat)
      returns (pd: nat, t: nat, a: nat, b: nat, c: nat, blk: nat)
    requires Tables(m) && |kernel| == 1024 && Launch(m, kernel, p).1
    ensures Launched(m, kernel, p, Launch(m, kernel, p).0, pd, t, a, b, c, blk)
  {
    pd, t, a, b, c, blk := LaunchFrames(m, kernel, p);
    LaunchCells(m.phys, kernel, pd, t, a, b, c, blk);
  }

  // ---------------------------------------------------------------- what a launch keeps

  lemma NewShape(m: Mem, kernel: seq<Pde>, p: nat, n: Mem, pd: nat, t: nat, a: nat, b: nat, c: nat, blk: nat)
    requires Launched(m, kernel, p, n, pd, t, a, b, c, blk)
    ensures Shape(n.phys, pd)
    ensures TableFrame(n.phys, pd, FIRST_PDE) == a && TableFrame(n.phys, pd, FIRST_PDE + 1) == b
    ensures TableFrame(n.phys, pd, LAST_PDE) == c
  {
    forall d | FIRST_PDE <= d <= LAST_PDE ensures IsTable(n.phys, n.phys[pd].pdes[d]) {
      assert d == FIRST_PDE || d == FIRST_PDE + 1 || d == LAST_PDE;
    }
  }

  lemma NewEntries(m: Mem, kernel: seq<Pde>, p: nat, n: Mem, pd: nat, t: nat, a: nat, b: nat, c: nat, blk: nat, i: nat)
    requires Launched(m, kernel, p, n, pd, t, a, b, c, blk) && i < USER_PAGES
    requires Shape(n.phys, pd)
    requires TableFrame(n.phys, pd, FIRST_PDE) == a && TableFrame(n.phys, pd, FIRST_PDE + 1) == b
    requires TableFrame(n.phys, pd, LAST_PDE) == c
    ensures Entry(n.phys, pd, i) == Pte(true, true, true, blk + i)
  {
    var d := PdeOf(i);
    assert d == FIRST_PDE || d == FIRST_PDE + 1 || d == LAST_PDE;
    assert 1024 * d + PtiOf(i) == USER_FIRST + i;
    assert n.phys[TableFrame(n.phys, pd, d)] == Table(NewTable(d, blk, t));
  }

  /** The tables and mappings after a launch. */
  ghost predicate LaunchedMaps(m: Mem, n: Mem, pd: nat, t: nat, blk: nat) {
    && Tables(m) && Tables(n) && n.spaces == m.spaces[pd := Space(t, 1)] && pd !in m.spaces
    && SameTables(m.phys, n.phys, m.spaces.Keys)
    && (forall p, j | p in m.spaces && 0 <= j <= USER_PAGES :: Entry(n.phys, p, j) == Entry(m.phys, p, j))
    && (forall i | 0 <= i < USER_PAGES :: Entry(n.phys, pd, i) == Pte(true, true, true, blk + i))
    && (forall p, g | p in m.spaces :: MapsBelow(n.phys, p, USER_PAGES, g) <==> MapsBelow(m.phys, p, USER_PAGES, g))
    && (forall g: nat :: MapsBelow(n.phys, pd, USER_PAGES, g) <==> blk <= g < blk + USER_PAGES)
  }

  lemma LaunchedPrivate(m: Mem, kernel: seq<Pde>, p: nat, n: Mem, pd: nat, t: nat, a: nat, b: nat, c: nat, blk: nat)
    requires Launched(m, kernel, p, n, pd, t, a, b, c, blk)
    ensures pd !in m.spaces && Private(n.phys, m.spaces.Keys + {pd}) && SameTables(m.phys, n.phys, m.spaces.Keys)
    ensures forall q, j | q in m.spaces && 0 <= j <= USER_PAGES :: Entry(n.phys, q, j) == Entry(m.phys, q, j)
  {
    NewShape(m, kernel, p, n, pd, t, a, b, c, blk);
    var unused := set f | 0 <= f < |m.phys| && !m.pool.used[f];
    Untouched(m.pool, m.phys, n.phys, m.spaces.Keys, unused);
    var taken := Run(blk, BLOCK_PAGES) + {pd, t, a, b, c};
    assert pd in taken && a in taken && b in taken && c in taken;
    assert forall q | q in m.spaces :: Ready(m.pool, m.phys, q) && m.pool.used[q];
    ThreeTables(n.phys, pd, a, b, c);
    ClonedPrivate(m.pool, m.phys, m.spaces.Keys, n.phys, pd, {a, b, c});
  }

  lemma ThreeTables(phys: Phys, pd: nat, a: nat, b: nat, c: nat)
    requires Shape(phys, pd) && a != b && a != c && b != c
    requires TableFrame(phys, pd, FIRST_PDE) == a && TableFrame(phys, pd, FIRST_PDE + 1) == b && TableFrame(phys, pd, LAST_PDE) == c
    ensures forall d | FIRST_PDE <= d <= LAST_PDE :: TableFrame(phys, pd, d) in {a, b, c}
    ensures forall x, y | FIRST_PDE <= x < y <= LAST_PDE :: TableFrame(phys, pd, x) != TableFrame(phys, pd, y)
  {
    forall d | FIRST_PDE <= d <= LAST_PDE ensures TableFrame(phys, pd, d) in {a, b, c} {
      assert d == FIRST_PDE || d == FIRST_PDE + 1 || d == LAST_PDE;
    }
    forall x, y | FIRST_PDE <= x < y <= LAST_PDE ensures TableFrame(phys, pd, x) != TableFrame(phys, pd, y) {
      assert x == FIRST_PDE || x == FIRST_PDE + 1;
    }
  }

  lemma LaunchedTables(m: Mem, kernel: seq<Pde>, p: nat, n: Mem, pd: nat, t: nat, a: nat, b: nat, c: nat, blk: nat)
    requires Launched(m, kernel, p, n, pd, t, a, b, c, blk)
    ensures Tables(n)
  {
    LaunchedPrivate(m, kernel, p, n, pd, t, a, b, c, blk);
    NewShape(m, kernel, p, n, pd, t, a, b, c, blk);
    assert n.spaces.Keys == m.spaces.Keys + {pd};
    var taken := Run(blk, BLOCK_PAGES) + {pd, t, a, b, c};
    assert pd in taken && a in taken && b in taken && c in taken;
    forall q | q in n.spaces ensures Ready(n.pool, n.phys, q) {
      if q == pd {
        forall d | FIRST_PDE <= d <= LAST_PDE ensures n.pool.used[TableFrame(n.phys, q, d)] {
          assert d == FIRST_PDE || d == FIRST_PDE + 1 || d == LAST_PDE;
        }
      } else {
        assert Ready(m.pool, m.phys, q);
      }
    }
  }

  lemma LaunchedMapped(m: Mem, kernel: seq<Pde>, p: nat, n: Mem, pd: nat, t: nat, a: nat, b: nat, c: nat, blk: nat)
    requires Launched(m, kernel, p, n, pd, t, a, b, c, blk)
    ensures LaunchedMaps(m, n, pd, t, blk)
  {
    LaunchedTables(m, kernel, p, n, pd, t, a, b, c, blk);
    LaunchedPrivate(m, kernel, p, n, pd, t, a, b, c, blk);
    NewShape(m, kernel, p, n, pd, t, a, b, c, blk);
    forall i | 0 <= i < USER_PAGES ensures Entry(n.phys, pd, i) == Pte(true, true, true, blk + i) {
      NewEntries(m, kernel, p, n, pd, t, a, b, c, blk, i);
    }
    forall q, g | q in m.spaces ensures MapsBelow(n.phys, q, USER_PAGES, g) <==> MapsBelow(m.phys, q, USER_PAGES, g) {
      assert forall i | 0 <= i < USER_PAGES :: Entry(n.phys, q, i) == Entry(m.phys, q, i);
    }
    forall g: nat ensures MapsBelow(n.phys, pd, USER_PAGES, g) <==> blk <= g < blk + USER_PAGES {
      if blk <= g < blk + USER_PAGES {
        assert Entry(n.phys, pd, g - blk).frame == g;
      }
    }
  }

  lemma LaunchedMappers(m: Mem, n: Mem, pd: nat, t: nat, blk: nat, f: nat)
    requires LaunchedMaps(m, n, pd, t, blk)
    ensures Mappers(n, f) == Mappers(m, f) + (if blk <= f < blk + USER_PAGES then {pd} else {})
  {
  }

  lemma LaunchedPages(m: Mem, kernel: seq<Pde>, p: nat, n: Mem, pd: nat, t: nat, a: nat, b: nat, c: nat, blk: nat)
    requires Launched(m, kernel, p, n, pd, t, a, b, c, blk) && LaunchedMaps(m, n, pd, t, blk) && Pages(m) && m.pool.used[0]
    ensures Pages(n)
  {
    forall q, i | q in n.spaces && 0 <= i < USER_PAGES && Entry(n.phys, q, i).present
      ensures PageOk(n, Entry(n.phys, q, i))
    {
      LaunchedPageOk(m, kernel, p, n, pd, t, a, b, c, blk, q, i);
    }
    LaunchedOneEach(m, n, pd, t, blk);
  }

  lemma LaunchedOneEach(m: Mem, n: Mem, pd: nat, t: nat, blk: nat)
    requires LaunchedMaps(m, n, pd, t, blk) && forall q | q in m.spaces :: OnePageEach(m.phys, q)
    ensures forall q | q in n.spaces :: OnePageEach(n.phys, q)
  {
    forall q | q in n.spaces ensures OnePageEach(n.phys, q) {
      if q != pd {
        assert OnePageEach(m.phys, q);
        assert forall i | 0 <= i < USER_PAGES :: Entry(n.phys, q, i) == Entry(m.phys, q, i);
      }
    }
  }

  lemma LaunchedPageOk(m: Mem, kernel: seq<Pde>, p: nat, n: Mem, pd: nat, t: nat, a: nat, b: nat, c: nat, blk: nat,
                       q: nat, i: nat)
    requires Launched(m, kernel, p, n, pd, t, a, b, c, blk) && LaunchedMaps(m, n, pd, t, blk) && Pages(m) && m.pool.used[0]
    requires q in n.spaces && i < USER_PAGES && Entry(n.phys, q, i).present
    ensures PageOk(n, Entry(n.phys, q, i))
  {
    var e := Entry(n.phys, q, i);
    var taken := Run(blk, BLOCK_PAGES) + {pd, t, a, b, c};
    LaunchedMappers(m, n, pd, t, blk, e.frame);
    if q == pd {
      assert e.frame in taken;
      forall u | u in m.spaces ensures !MapsBelow(m.phys, u, USER_PAGES, e.frame) {
        UnusedUnmapped(m, u, e.frame);
      }
      assert Mappers(m, e.frame) == {};
    } else {
      assert Entry(m.phys, q, i) == e && PageOk(m, e);
      assert e.frame !in taken;
    }
  }

  lemma LaunchedControl(m: Mem, kernel: seq<Pde>, p: nat, n: Mem, pd: nat, t: nat, a: nat, b: nat, c: nat, blk: nat)
    requires Launched(m, kernel, p, n, pd, t, a, b, c, blk) && LaunchedMaps(m, n, pd, t, blk) && Pages(m) && Control(m)
    ensures Control(n)
  {
    NewShape(m, kernel, p, n, pd, t, a, b, c, blk);
    var taken := Run(blk, BLOCK_PAGES) + {pd, t, a, b, c};
    assert pd in taken && a in taken && b in taken && c in taken && t in taken;
    forall u | u in n.spaces
      ensures n.pool.refs[u] == 1 && IsTrampoline(n, n.spaces[u].tramp)
      ensures forall d | FIRST_PDE <= d <= LAST_PDE :: n.pool.refs[TableFrame(n.phys, u, d)] == 1
    {
      LaunchedTrampoline(m, kernel, p, n, pd, t, a, b, c, blk, u);
      if u == pd {
        forall d | FIRST_PDE <= d <= LAST_PDE ensures n.pool.refs[TableFrame(n.phys, u, d)] == 1 {
          assert d == FIRST_PDE || d == FIRST_PDE + 1 || d == LAST_PDE;
        }
      } else {
        assert Ready(m.pool, m.phys, u);
      }
    }
    forall u, v | u in n.spaces && v in n.spaces && n.spaces[u].tramp == n.spaces[v].tramp ensures u == v {
      if u != pd {
        assert IsTrampoline(m, m.spaces[u].tramp);
      }
      if v != pd {
        assert IsTrampoline(m, m.spaces[v].tramp);
      }
    }
  }

  lemma LaunchedTrampoline(m: Mem, kernel: seq<Pde>, p: nat, n: Mem, pd: nat, t: nat, a: nat, b: nat, c: nat, blk: nat, u: nat)
    requires Launched(m, kernel, p, n, pd, t, a, b, c, blk) && LaunchedMaps(m, n, pd, t, blk) && Pages(m) && Control(m)
    requires u in n.spaces
    ensures IsTrampoline(n, n.spaces[u].tramp)
  {
    var v := n.spaces[u].tramp;
    var taken := Run(blk, BLOCK_PAGES) + {pd, t, a, b, c};
    assert t in taken && t !in Run(blk, BLOCK_PAGES);
    if u != pd {
      assert IsTrampoline(m, m.spaces[u].tramp);
      assert v !in taken;
    }
    forall q | q in n.spaces ensures !MapsBelow(n.phys, q, USER_PAGES, v) {
      if q != pd && u == pd {
        UnusedUnmapped(m, q, t);
      }
      if q == pd {
        assert v !in Run(blk, BLOCK_PAGES);
      }
    }
  }

  lemma NewHeldBy(m: Mem, n: Mem, pd: nat, t: nat, a: nat, b: nat, c: nat, blk: nat, f: nat)
    requires LaunchedMaps(m, n, pd, t, blk)
    requires TableFrame(n.phys, pd, FIRST_PDE) == a && TableFrame(n.phys, pd, FIRST_PDE + 1) == b
    requires TableFrame(n.phys, pd, LAST_PDE) == c
    ensures HeldBy(n, pd, f) <==> f in Run(blk, USER_PAGES) + {pd, t, a, b, c}
  {
    HeldByCases(n, pd, f);
    OwnFive(n, pd, f);
  }

  lemma LaunchedHeld(m: Mem, n: Mem, pd: nat, t: nat, a: nat, b: nat, c: nat, blk: nat, f: nat)
    requires LaunchedMaps(m, n, pd, t, blk)
    requires TableFrame(n.phys, pd, FIRST_PDE) == a && TableFrame(n.phys, pd, FIRST_PDE + 1) == b
    requires TableFrame(n.phys, pd, LAST_PDE) == c
    ensures Held(n, f) <==> Held(m, f) || f in Run(blk, USER_PAGES) + {pd, t, a, b, c}
  {
    NewHeldBy(m, n, pd, t, a, b, c, blk, f);
    forall q | q in m.spaces ensures HeldBy(n, q, f) <==> HeldBy(m, q, f) {
      assert forall d | FIRST_PDE <= d <= LAST_PDE :: TableFrame(n.phys, q, d) == TableFrame(m.phys, q, d);
    }
    assert pd in n.spaces;
  }

  lemma LaunchedUsed(m: Mem, base: set<nat>, n: Mem, pd: nat, t: nat, a: nat, b: nat, c: nat, blk: nat, f: nat)
    requires LaunchedMaps(m, n, pd, t, blk) && Exact(m, base) && f < |m.pool.used|
    requires TableFrame(n.phys, pd, FIRST_PDE) == a && TableFrame(n.phys, pd, FIRST_PDE + 1) == b
    requires TableFrame(n.phys, pd, LAST_PDE) == c
    requires {pd, t, a, b, c} !! Run(blk, BLOCK_PAGES)
    requires Took(m.pool, n.pool, Run(blk, BLOCK_PAGES) + {pd, t, a, b, c})
    ensures n.pool.used[f] <==> f in base + {blk + USER_PAGES} || Held(n, f)
    ensures f in base + {blk + USER_PAGES} ==> !Held(n, f)
  {
    LaunchedHeld(m, n, pd, t, a, b, c, blk, f);
    assert n.pool.used[f] == (m.pool.used[f] || f in Run(blk, BLOCK_PAGES) + {pd, t, a, b, c});
    assert blk + USER_PAGES in Run(blk, BLOCK_PAGES);
    assert f in Run(blk, BLOCK_PAGES) <==> f in Run(blk, USER_PAGES) || f == blk + USER_PAGES;
  }

  lemma LaunchedExact(m: Mem, base: set<nat>, n: Mem, pd: nat, t: nat, blk: nat, more: set<nat>)
    requires Tables(n)
    requires LaunchedMaps(m, n, pd, t, blk) && Exact(m, base) && |n.pool.used| == |m.pool.used|
    requires more == base + {blk + USER_PAGES} && blk + USER_PAGES < |m.pool.used|
    requires forall f | 0 <= f < |m.pool.used| ::
               (n.pool.used[f] <==> f in more || Held(n, f)) && (f in more ==> !Held(n, f))
    ensures Exact(n, more)
  {
    forall f | f in more ensures f < |n.pool.used| && !Held(n, f) {
      assert f in base || f == blk + USER_PAGES;
    }
  }

  /** The last frame of the block belongs to nobody from now on. */
  lemma LaunchedExactly(m: Mem, base: set<nat>, kernel: seq<Pde>, p: nat, n: Mem,
                        pd: nat, t: nat, a: nat, b: nat, c: nat, blk: nat, more: set<nat>)
    requires Tables(n)
    requires Launched(m, kernel, p, n, pd, t, a, b, c, blk) && LaunchedMaps(m, n, pd, t, blk) && Exact(m, base)
    requires more == base + {blk + USER_PAGES}
    ensures Exact(n, more)
  {
    NewShape(m, kernel, p, n, pd, t, a, b, c, blk);
    forall f | 0 <= f < |m.pool.used|
      ensures (n.pool.used[f] <==> f in more || Held(n, f)) && (f in more ==> !Held(n, f))
    {
      LaunchedUsed(m, base, n, pd, t, a, b, c, blk, f);
    }
    assert blk + USER_PAGES in Run(blk, BLOCK_PAGES) + {pd, t, a, b, c};
    LaunchedExact(m, base, n, pd, t, blk, more);
  }

  lemma LaunchedProcs(m: Mem, p: nat, n: Mem, pd: nat, t: nat)
    requires Procs(m) && p !in m.procs && p < PROC_MAX && pd !in m.spaces
    requires n.spaces == m.spaces[pd := Space(t, 1)] && n.procs == m.procs[p := pd]
    ensures Procs(n)
  {
    assert Users(n, pd) == {p};
    forall u | u in m.spaces ensures Users(n, u) == Users(m, u) {
    }
  }

  /** A launch keeps the invariant; the last frame of its block joins the frames no space holds. */
  lemma LaunchedKeeps(m: Mem, base: set<nat>, kernel: seq<Pde>, p: nat, n: Mem, pd: nat, t: nat, a: nat, b: nat, c: nat, blk: nat)
      returns (more: set<nat>)
    requires Inv(m, base) && p !in m.procs && p < PROC_MAX && Launched(m, kernel, p, n, pd, t, a, b, c, blk)
    ensures more == base + {blk + USER_PAGES} && Inv(n, more)
  {
    more := base + {blk + USER_PAGES};
    LaunchedMapped(m, kernel, p, n, pd, t, a, b, c, blk);
    LaunchedPages(m, kernel, p, n, pd, t, a, b, c, blk);
    LaunchedControl(m, kernel, p, n, pd, t, a, b, c, blk);
    LaunchedExactly(m, base, kernel, p, n, pd, t, a, b, c, blk, more);
    LaunchedProcs(m, p, n, pd, t);
  }

  /** The new process sees zeros; every other space is unchanged. */
  lemma NewView(m: Mem, n: Mem, pd: nat, t: nat, blk: nat)
    requires LaunchedMaps(m, n, pd, t, blk)
    requires blk + USER_PAGES <= |n.phys| && forall f | blk <= f < blk + USER_PAGES :: n.phys[f] == Data(ZeroPage())
    ensures View(n, pd) == seq(USER_PAGES, _ => Some(ZeroPage()))
  {
    forall i | 0 <= i < USER_PAGES ensures View(n, pd)[i] == Some(ZeroPage()) {
      assert n.phys[blk + i] == Data(ZeroPage());
    }
  }

  lemma OldView(m: Mem, n: Mem, pd: nat, t: nat, blk: nat, q: nat)
    requires LaunchedMaps(m, n, pd, t, blk) && Pages(m) && q in m.spaces && |n.phys| == |m.phys|
    requires forall f | 0 <= f < |m.phys| && m.pool.used[f] :: n.phys[f] == m.phys[f]
    ensures View(n, q) == View(m, q)
  {
    forall i | 0 <= i < USER_PAGES ensures PageOf(n.phys, Entry(n.phys, q, i)) == PageOf(m.phys, Entry(m.phys, q, i)) {
      if Entry(m.phys, q, i).present {
        assert PageOk(m, Entry(m.phys, q, i));
      }
    }
  }

  /** The new space reads as zeroes; every other space reads as before. */
  lemma LaunchedViews(m: Mem, kernel: seq<Pde>, p: nat, n: Mem, pd: nat, t: nat, a: nat, b: nat, c: nat, blk: nat)
    requires Launched(m, kernel, p, n, pd, t, a, b, c, blk) && Pages(m)
    ensures LaunchedMaps(m, n, pd, t, blk) && View(n, pd) == seq(USER_PAGES, _ => Some(ZeroPage()))
    ensures forall q | q in m.spaces :: View(n, q) == View(m, q)
  {
    LaunchedMapped(m, kernel, p, n, pd, t, a, b, c, blk);
    assert blk + USER_PAGES in Run(blk, BLOCK_PAGES);
    NewView(m, n, pd, t, blk);
    forall q | q in m.spaces ensures q in n.spaces && View(n, q) == View(m, q) {
      OldView(m, n, pd, t, blk, q);
    }
  }
}
