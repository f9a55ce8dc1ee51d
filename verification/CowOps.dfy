/**
 The copy-on-write operations of `src/mm.c` and `src/proc.c` on a frame pool and physical
 memory: privatising one page, cloning a directory, sharing its pages, releasing them.
 */
module CowOps {
  import opened Options
  import opened Frames
  import opened Paging

  function Zeros(n: nat): (z: seq<Byte>)
    ensures |z| == n && forall k | 0 <= k < n :: z[k] == 0
  {
    seq(n, _ => 0)
  }

  /** The trampoline code: mov eax, 173; int 0x80; zeros. */
  function TrampCode(): (p: Page) {
    [0xB8, 173, 0, 0, 0, 0xCD, 0x80] + Zeros(PAGE_SIZE - 7)
  }

  ghost predicate Sized(pool: Pool, phys: Phys) {
    |pool.refs| == |pool.used| == |phys|
  }

  /** `pd` is well formed and every frame it pages with is marked used. */
  ghost predicate Ready(pool: Pool, phys: Phys, pd: nat) {
    && Sized(pool, phys) && Shape(phys, pd)
    && pool.used[pd]
    && forall d | FIRST_PDE <= d <= LAST_PDE :: pool.used[TableFrame(phys, pd, d)]
  }

  ghost predicate FramesExist(phys: Phys, pd: nat)
    requires Shape(phys, pd)
  {
    forall i | 0 <= i < USER_PAGES :: Entry(phys, pd, i).present ==> Entry(phys, pd, i).frame < |phys|
  }

  // ---------------------------------------------------------------- one page

  /** mm_user_make_writable: copy the page first when its frame is shared. */
  ghost function MakeWritable(pool: Pool, phys: Phys, pd: nat, i: nat): (r: (Pool, Phys, bool))
    requires Ready(pool, phys, pd) && i <= USER_PAGES && (Entry(phys, pd, i).present ==> Entry(phys, pd, i).frame < |phys|)
    ensures Sized(r.0, r.1) && |r.1| == |phys|
  {
    var e := Entry(phys, pd, i);
    if !e.present then (pool, phys, false)
    else if e.writable then (pool, phys, true)
    else if pool.refs[e.frame] > 1 then
      var took := AllocPage(pool);
      if took.1.None? then (pool, phys, false)
      else
        var f := took.1.value;
        UnpagedReady(pool, phys, pd, f, phys[e.frame]);
        (Unref(took.0, e.frame),
         SetEntry(phys[f := phys[e.frame]], pd, i, e.(writable := true, frame := f)), true)
    else
      (pool, SetEntry(phys, pd, i, e.(writable := true)), true)
  }

  /** Overwriting an unused frame leaves a directory well formed, with the same entries. */
  lemma UnpagedCell(pool: Pool, phys: Phys, pd: nat, f: nat, c: Cell)
    requires Ready(pool, phys, pd) && f < |phys| && !pool.used[f]
    ensures Ready(pool, phys[f := c], pd)
    ensures forall i | 0 <= i <= USER_PAGES :: Entry(phys[f := c], pd, i) == Entry(phys, pd, i)
    ensures forall d | FIRST_PDE <= d <= LAST_PDE :: TableFrame(phys[f := c], pd, d) == TableFrame(phys, pd, d)
  {
    var next := phys[f := c];
    forall d | FIRST_PDE <= d <= LAST_PDE ensures IsTable(next, next[pd].pdes[d]) {
      assert pool.used[TableFrame(phys, pd, d)];
      assert IsTable(phys, phys[pd].pdes[d]);
    }
    forall d | FIRST_PDE <= d <= LAST_PDE
      ensures TableFrame(next, pd, d) == TableFrame(phys, pd, d) && next[TableFrame(phys, pd, d)] == phys[TableFrame(phys, pd, d)]
    {
      assert pool.used[TableFrame(phys, pd, d)];
    }
  }

  lemma UnpagedReady(pool: Pool, phys: Phys, pd: nat, f: nat, c: Cell)
    requires Ready(pool, phys, pd) && f < |phys| && !pool.used[f]
    ensures Ready(pool, phys[f := c], pd)
  {
    UnpagedCell(pool, phys, pd, f, c);
  }

  // ---------------------------------------------------------------- directories

  /** mm_free_user_pd: give back the page tables, then the directory. */
  ghost function FreeUserPd(pool: Pool, phys: Phys, pd: nat): (r: Pool)
    requires Sized(pool, phys) && Shape(phys, pd)
    ensures |r.refs| == |r.used| == |pool.used|
  {
    var p1 := Unref(pool, TableFrame(phys, pd, FIRST_PDE));
    var p2 := Unref(p1, TableFrame(phys, pd, FIRST_PDE + 1));
    var p3 := Unref(p2, TableFrame(phys, pd, LAST_PDE));
    Unref(p3, pd)
  }

  /** One step of mm_clone_user_pd: a fresh table `q` with the source's entries, named by slot `d`. */
  ghost function CloneTable(phys: Phys, src: nat, pd: nat, d: nat, q: nat): (r: Phys)
    requires Shape(phys, src) && Shape(phys, pd) && FIRST_PDE <= d <= LAST_PDE && q < |phys|
    requires q != pd
    ensures |r| == |phys|
  {
    phys[q := Table(phys[TableFrame(phys, src, d)].ptes)]
        [pd := Directory(phys[pd].pdes[d := phys[src].pdes[d].(frame := q)])]
  }

  /** The pool after more frames were taken one at a time. */
  ghost predicate Grown(was: Pool, now: Pool, taken: set<nat>) {
    && |was.refs| == |was.used| == |now.used| == |now.refs|
    && now.free == was.free - |taken|
    && (forall f | f in taken :: f < |was.used| && !was.used[f])
    && (forall f | 0 <= f < |was.used| :: now.used[f] == (was.used[f] || f in taken))
    && (forall f | 0 <= f < |was.used| :: now.refs[f] == if f in taken then 1 else was.refs[f])
  }

  lemma GrowOne(was: Pool, now: Pool, taken: set<nat>)
    requires Grown(was, now, taken)
    requires AllocPage(now).1.Some?
    ensures var (next, r) := AllocPage(now);
            && r.value < |now.used| && !now.used[r.value] && r.value !in taken
            && Grown(was, next, taken + {r.value})
  {
  }

  /** Slots FIRST_PDE..d of `pd` have their own copies of the source tables; later slots share them. */
  ghost predicate Cloned(was: Pool, before: Phys, src: nat, pd: nat, d: nat, now: Pool, phys: Phys, taken: set<nat>) {
    && Grown(was, now, taken) && |before| == |phys| && Sized(now, phys)
    && Shape(before, src) && Shape(phys, src) && Shape(phys, pd) && was.used[pd]
    && |taken| == d - FIRST_PDE && FIRST_PDE <= d <= LAST_PDE + 1
    && (forall f | 0 <= f < |before| && f !in taken && f != pd :: phys[f] == before[f])
    && (forall c | FIRST_PDE <= c <= LAST_PDE :: TableFrame(phys, src, c) == TableFrame(before, src, c))
    && (forall c | 0 <= c < 1024 && !(FIRST_PDE <= c < d) :: phys[pd].pdes[c] == before[src].pdes[c])
    && (forall c | FIRST_PDE <= c < d :: TableFrame(phys, pd, c) in taken)
    && (forall b, c | FIRST_PDE <= b < c < d :: TableFrame(phys, pd, b) != TableFrame(phys, pd, c))
    && (forall c | FIRST_PDE <= c < d :: phys[TableFrame(phys, pd, c)] == before[TableFrame(before, src, c)])
  }

  lemma CloneTableKeeps(pool: Pool, phys: Phys, src: nat, pd: nat, d: nat, q: nat)
    requires Ready(pool, phys, src) && Shape(phys, pd) && pool.used[pd] && src != pd
    requires forall c | FIRST_PDE <= c <= LAST_PDE :: pool.used[TableFrame(phys, pd, c)]
    requires FIRST_PDE <= d <= LAST_PDE && q < |phys| && !pool.used[q]
    ensures Shape(CloneTable(phys, src, pd, d, q), src) && Shape(CloneTable(phys, src, pd, d, q), pd)
    ensures forall c | FIRST_PDE <= c <= LAST_PDE ::
              TableFrame(CloneTable(phys, src, pd, d, q), src, c) == TableFrame(phys, src, c)
    ensures forall c | FIRST_PDE <= c <= LAST_PDE ::
              TableFrame(CloneTable(phys, src, pd, d, q), pd, c) == if c == d then q else TableFrame(phys, pd, c)
  {
    var next := CloneTable(phys, src, pd, d, q);
    forall c | FIRST_PDE <= c <= LAST_PDE ensures IsTable(next, next[src].pdes[c]) && IsTable(next, next[pd].pdes[c]) {
      assert IsTable(phys, phys[src].pdes[c]) && IsTable(phys, phys[pd].pdes[c]);
      assert pool.used[TableFrame(phys, src, c)] && pool.used[TableFrame(phys, pd, c)];
    }
  }

  lemma CloneTableReady(pool: Pool, phys: Phys, src: nat, pd: nat, d: nat, next: Pool, q: nat)
    requires Ready(pool, phys, src) && Ready(pool, phys, pd) && src != pd && FIRST_PDE <= d <= LAST_PDE
    requires AllocPage(pool) == (next, Some(q))
    ensures Ready(next, CloneTable(phys, src, pd, d, q), src) && Ready(next, CloneTable(phys, src, pd, d, q), pd)
  {
    CloneTableKeeps(pool, phys, src, pd, d, q);
  }

  /** The table-copying loop of mm_clone_user_pd from slot `d` on, with its out-of-memory exit. */
  ghost function CloneTables(pool: Pool, phys: Phys, src: nat, pd: nat, d: nat): (r: (Pool, Phys, bool))
    requires Ready(pool, phys, src) && Ready(pool, phys, pd) && src != pd
    requires FIRST_PDE <= d <= LAST_PDE + 1
    ensures Sized(r.0, r.1) && |r.1| == |phys|
    ensures r.2 ==> Shape(r.1, pd) && Shape(r.1, src)
    decreases LAST_PDE + 1 - d
  {
    if d > LAST_PDE then (pool, phys, true)
    else
      var took := AllocPage(pool);
      if took.1.None? then (FreeUserPd(pool, phys, pd), phys, false)
      else
        CloneTableReady(pool, phys, src, pd, d, took.0, took.1.value);
        CloneTables(took.0, CloneTable(phys, src, pd, d, took.1.value), src, pd, d + 1)
  }

  /** Enough frames: the loop gives every user slot its own copy of the source table. */
  lemma {:induction false} CloneTablesWorks(was: Pool, before: Phys, src: nat, pd: nat, d: nat,
                                            now: Pool, phys: Phys, taken: set<nat>)
      returns (all: set<nat>)
    requires Cloned(was, before, src, pd, d, now, phys, taken)
    requires Ready(now, phys, src) && Ready(now, phys, pd) && src != pd && Valid(now)
    requires Ready(was, before, src)
    requires now.free >= LAST_PDE + 1 - d
    ensures var (p, ph, ok) := CloneTables(now, phys, src, pd, d);
            ok && Valid(p) && Cloned(was, before, src, pd, LAST_PDE + 1, p, ph, all)
    decreases LAST_PDE + 1 - d
  {
    if d > LAST_PDE {
      all := taken;
    } else {
      AllocPageMeaning(now);
      var (next, r) := AllocPage(now);
      var q := r.value;
      GrowOne(was, now, taken);
      CloneStep(was, before, src, pd, d, now, phys, taken, next, q);
      all := CloneTablesWorks(was, before, src, pd, d + 1, next, CloneTable(phys, src, pd, d, q), taken + {q});
    }
  }

  lemma CloneStep(was: Pool, before: Phys, src: nat, pd: nat, d: nat, now: Pool, phys: Phys, taken: set<nat>,
                  next: Pool, q: nat)
    requires Cloned(was, before, src, pd, d, now, phys, taken)
    requires Ready(now, phys, src) && Ready(now, phys, pd) && src != pd && d <= LAST_PDE
    requires Ready(was, before, src)
    requires AllocPage(now) == (next, Some(q)) && !now.used[q] && q < |now.used|
    requires Grown(was, next, taken + {q})
    ensures var ph := CloneTable(phys, src, pd, d, q);
            && Cloned(was, before, src, pd, d + 1, next, ph, taken + {q})
            && Ready(next, ph, src) && Ready(next, ph, pd)
  {
    CloneTableKeeps(now, phys, src, pd, d, q);
    var ph := CloneTable(phys, src, pd, d, q);
    assert q !in taken;
    assert was.used[TableFrame(before, src, d)];
    assert TableFrame(before, src, d) !in taken && TableFrame(before, src, d) != pd;
    assert phys[TableFrame(phys, src, d)] == before[TableFrame(before, src, d)];
    forall c | FIRST_PDE <= c < d + 1
      ensures ph[TableFrame(ph, pd, c)] == before[TableFrame(before, src, c)]
      ensures TableFrame(ph, pd, c) in taken + {q}
    {
    }
    forall b, c | FIRST_PDE <= b < c < d + 1 ensures TableFrame(ph, pd, b) != TableFrame(ph, pd, c) {
      assert TableFrame(phys, pd, b) in taken;
    }
    assert phys[src].pdes[d] == before[src].pdes[d];
    forall c | 0 <= c < 1024 && !(FIRST_PDE <= c < d + 1) ensures ph[pd].pdes[c] == before[src].pdes[c] {
    }
    forall f | 0 <= f < |before| && f !in taken + {q} && f != pd ensures ph[f] == before[f] {
      assert phys[f] == before[f];
    }
  }

  lemma UnrefLowers(p: Pool, f: nat, g: nat)
    requires |p.refs| == |p.used| && g < |p.used|
    ensures Unref(p, f).used[g] ==> p.used[g]
    ensures Unref(p, f).refs[g] <= p.refs[g]
    ensures f == g && p.refs[f] <= 1 ==> !Unref(p, f).used[g]
    ensures f != g ==> Unref(p, f).used[g] == p.used[g] && Unref(p, f).refs[g] == p.refs[g]
  {
  }

  /**
   Too few frames: the loop stops with slot `d` and the later ones still naming the source's
   page tables, and the clean-up gives those back too.
   */
  lemma {:induction false} CloneTablesFails(was: Pool, before: Phys, src: nat, pd: nat, d: nat,
                                            now: Pool, phys: Phys, taken: set<nat>)
    requires Cloned(was, before, src, pd, d, now, phys, taken)
    requires Ready(now, phys, src) && Ready(now, phys, pd) && src != pd && Valid(now)
    requires Ready(was, before, src)
    requires now.free < LAST_PDE + 1 - d
    requires was.refs[TableFrame(before, src, LAST_PDE)] == 1
    ensures var (p, ph, ok) := CloneTables(now, phys, src, pd, d);
            !ok && !p.used[TableFrame(before, src, LAST_PDE)] &&
            Shape(ph, src) && TableFrame(ph, src, LAST_PDE) == TableFrame(before, src, LAST_PDE)
    decreases LAST_PDE + 1 - d
  {
    AllocPageMeaning(now);
    var (next, r) := AllocPage(now);
    if r.None? {
      var g := TableFrame(before, src, LAST_PDE);
      assert TableFrame(phys, pd, LAST_PDE) == g;
      assert was.used[g];
      assert now.refs[g] == 1;
      var p1 := Unref(now, TableFrame(phys, pd, FIRST_PDE));
      var p2 := Unref(p1, TableFrame(phys, pd, FIRST_PDE + 1));
      var p3 := Unref(p2, g);
      UnrefLowers(now, TableFrame(phys, pd, FIRST_PDE), g);
      UnrefLowers(p1, TableFrame(phys, pd, FIRST_PDE + 1), g);
      UnrefLowers(p2, g, g);
      UnrefLowers(p3, pd, g);
    } else {
      var q := r.value;
      GrowOne(was, now, taken);
      CloneStep(was, before, src, pd, d, now, phys, taken, next, q);
      CloneTablesFails(was, before, src, pd, d + 1, next, CloneTable(phys, src, pd, d, q), taken + {q});
    }
  }

  // ---------------------------------------------------------------- reference counts of a whole window

  ghost predicate MapsBelow(phys: Phys, pd: nat, k: nat, f: nat)
    requires Shape(phys, pd) && k <= USER_PAGES
  {
    exists i | 0 <= i < k :: Entry(phys, pd, i).present && Entry(phys, pd, i).frame == f
  }

  /** No frame is mapped twice by the directory. */
  ghost predicate OnePageEach(phys: Phys, pd: nat)
    requires Shape(phys, pd)
  {
    forall i, j | 0 <= i < j < USER_PAGES && Entry(phys, pd, i).present && Entry(phys, pd, j).present ::
      Entry(phys, pd, i).frame != Entry(phys, pd, j).frame
  }

  /** The counting loop of proc_space_cow over pages 0..k; physical address zero reads as unmapped. */
  ghost function IncRefs(pool: Pool, phys: Phys, pd: nat, k: nat): (r: Pool)
    requires Sized(pool, phys) && Shape(phys, pd) && k <= USER_PAGES
    ensures |r.refs| == |r.used| == |pool.used|
    decreases k
  {
    if k == 0 then pool
    else
      var e := Entry(phys, pd, k - 1);
      var prev := IncRefs(pool, phys, pd, k - 1);
      if e.present && e.frame != 0 then RefInc(prev, e.frame) else prev
  }

  /** mm_user_release_pages over pages 0..k. */
  ghost function ReleasePages(pool: Pool, phys: Phys, pd: nat, k: nat): (r: Pool)
    requires Sized(pool, phys) && Shape(phys, pd) && k <= USER_PAGES
    ensures |r.refs| == |r.used| == |pool.used|
    decreases k
  {
    if k == 0 then pool
    else
      var e := Entry(phys, pd, k - 1);
      var prev := ReleasePages(pool, phys, pd, k - 1);
      if e.present then Unref(prev, e.frame) else prev
  }

  lemma MapsBelowStep(phys: Phys, pd: nat, k: nat, f: nat)
    requires Shape(phys, pd) && 0 < k <= USER_PAGES
    ensures MapsBelow(phys, pd, k, f) <==>
            MapsBelow(phys, pd, k - 1, f) || (Entry(phys, pd, k - 1).present && Entry(phys, pd, k - 1).frame == f)
  {
  }

  /** Every mapped frame gains one reference, no other frame changes, and nothing saturates. */
  lemma {:induction false} IncRefsMeaning(pool: Pool, phys: Phys, pd: nat, k: nat)
    requires Sized(pool, phys) && Shape(phys, pd) && k <= USER_PAGES && OnePageEach(phys, pd) && FramesExist(phys, pd)
    requires forall i | 0 <= i < USER_PAGES && Entry(phys, pd, i).present ::
               Entry(phys, pd, i).frame != 0 && pool.refs[Entry(phys, pd, i).frame] < REF_MAX
    ensures var r := IncRefs(pool, phys, pd, k);
            && r.used == pool.used && r.free == pool.free
            && forall f | 0 <= f < |pool.refs| ::
                 r.refs[f] == pool.refs[f] + if MapsBelow(phys, pd, k, f) then 1 else 0
    decreases k
  {
    if k > 0 {
      IncRefsMeaning(pool, phys, pd, k - 1);
      var e := Entry(phys, pd, k - 1);
      var prev := IncRefs(pool, phys, pd, k - 1);
      if e.present {
        assert !MapsBelow(phys, pd, k - 1, e.frame);
        assert prev.refs[e.frame] == pool.refs[e.frame];
      }
      forall f | 0 <= f < |pool.refs|
        ensures IncRefs(pool, phys, pd, k).refs[f] == pool.refs[f] + if MapsBelow(phys, pd, k, f) then 1 else 0
      {
        MapsBelowStep(phys, pd, k, f);
        assert prev.refs[f] == pool.refs[f] + if MapsBelow(phys, pd, k - 1, f) then 1 else 0;
      }
    }
  }

  /** Every frame mapped below `k` lost one reference and is free if that was the last one. */
  ghost predicate Dropped(pool: Pool, phys: Phys, pd: nat, k: nat, r: Pool)
    requires Shape(phys, pd) && k <= USER_PAGES
  {
    && |r.refs| == |r.used| == |pool.used| == |pool.refs|
    && forall f | 0 <= f < |pool.refs| ::
         && r.refs[f] + (if MapsBelow(phys, pd, k, f) then 1 else 0) == pool.refs[f]
         && r.used[f] == (pool.used[f] && !(MapsBelow(phys, pd, k, f) && pool.refs[f] == 1))
  }

  /** mm_user_release_pages drops one reference of every mapped frame. */
  lemma {:induction false} ReleaseMeaning(pool: Pool, phys: Phys, pd: nat, k: nat)
    requires Sized(pool, phys) && Shape(phys, pd) && k <= USER_PAGES && OnePageEach(phys, pd) && FramesExist(phys, pd)
    requires Valid(pool)
    requires forall i | 0 <= i < USER_PAGES && Entry(phys, pd, i).present :: pool.refs[Entry(phys, pd, i).frame] > 0
    ensures Valid(ReleasePages(pool, phys, pd, k)) && Dropped(pool, phys, pd, k, ReleasePages(pool, phys, pd, k))
    decreases k
  {
    if k > 0 {
      ReleaseMeaning(pool, phys, pd, k - 1);
      var e := Entry(phys, pd, k - 1);
      var prev := ReleasePages(pool, phys, pd, k - 1);
      if e.present {
        assert !MapsBelow(phys, pd, k - 1, e.frame);
        assert prev.refs[e.frame] == pool.refs[e.frame];
        UnrefMeaning(prev, e.frame);
      }
      var r := ReleasePages(pool, phys, pd, k);
      forall f | 0 <= f < |pool.refs|
        ensures r.refs[f] + (if MapsBelow(phys, pd, k, f) then 1 else 0) == pool.refs[f]
        ensures r.used[f] == (pool.used[f] && !(MapsBelow(phys, pd, k, f) && pool.refs[f] == 1))
      {
        MapsBelowStep(phys, pd, k, f);
        assert prev.refs[f] + (if MapsBelow(phys, pd, k - 1, f) then 1 else 0) == pool.refs[f];
      }
    }
  }

  // ---------------------------------------------------------------- fork

  lemma SetEntryShapes(phys: Phys, pd: nat, i: nat, e: Pte, p: nat)
    requires Shape(phys, pd) && i <= USER_PAGES && Shape(phys, p)
    ensures Shape(SetEntry(phys, pd, i, e), p)
  {
    var next := SetEntry(phys, pd, i, e);
    forall d | FIRST_PDE <= d <= LAST_PDE ensures IsTable(next, next[p].pdes[d]) {
      assert IsTable(phys, phys[p].pdes[d]);
    }
  }

  lemma {:induction false} ProtectShapes(phys: Phys, pd: nat, k: nat, p: nat)
    requires Shape(phys, pd) && k <= USER_PAGES && Shape(phys, p)
    ensures Shape(Protect(phys, pd, k), p)
    decreases k
  {
    if k > 0 {
      ProtectShapes(phys, pd, k - 1, p);
      var prev := Protect(phys, pd, k - 1);
      SetEntryShapes(prev, pd, k - 1, Entry(prev, pd, k - 1).(writable := false), p);
    }
  }

  /** All 1024 slots copied, the user slots still naming the source's tables. */
  ghost function CopyDirectory(phys: Phys, src: nat, pd: nat): (r: Phys)
    requires Shape(phys, src) && pd < |phys|
    ensures |r| == |phys|
  {
    phys[pd := Directory(phys[src].pdes)]
  }

  lemma FreshDirectory(pool: Pool, next: Pool, phys: Phys, src: nat, pd: nat)
    requires Ready(pool, phys, src) && AllocPage(pool) == (next, Some(pd)) && pd < |phys| && !pool.used[pd]
    ensures src != pd
    ensures Ready(next, CopyDirectory(phys, src, pd), src) && Ready(next, CopyDirectory(phys, src, pd), pd)
    ensures forall d | FIRST_PDE <= d <= LAST_PDE ::
              TableFrame(CopyDirectory(phys, src, pd), src, d) == TableFrame(phys, src, d)
    ensures forall d | FIRST_PDE <= d <= LAST_PDE ::
              TableFrame(CopyDirectory(phys, src, pd), pd, d) == TableFrame(phys, src, d)
  {
    UnpagedCell(pool, phys, src, pd, Directory(phys[src].pdes));
    var copied := CopyDirectory(phys, src, pd);
    forall d | FIRST_PDE <= d <= LAST_PDE ensures IsTable(copied, copied[pd].pdes[d]) {
      assert IsTable(copied, copied[src].pdes[d]);
    }
    forall d | FIRST_PDE <= d <= LAST_PDE
      ensures TableFrame(copied, pd, d) == TableFrame(phys, src, d) && next.used[TableFrame(phys, src, d)]
    {
      assert TableFrame(copied, src, d) == TableFrame(phys, src, d);
    }
  }

  lemma FreshDirectoryReady(pool: Pool, next: Pool, phys: Phys, src: nat, pd: nat)
    requires Ready(pool, phys, src) && AllocPage(pool) == (next, Some(pd))
    ensures src != pd
    ensures Ready(next, CopyDirectory(phys, src, pd), src) && Ready(next, CopyDirectory(phys, src, pd), pd)
  {
    FreshDirectory(pool, next, phys, src, pd);
  }

  /** mm_clone_user_pd: a directory with the same kernel slots and its own copies of the user tables. */
  ghost function CloneUserPd(pool: Pool, phys: Phys, src: nat, tramp: nat): (r: (Pool, Phys, Option<nat>))
    requires Ready(pool, phys, src)
    ensures Sized(r.0, r.1) && |r.1| == |phys|
    ensures r.2.Some? ==> Shape(r.1, r.2.value) && Shape(r.1, src)
  {
    var took := AllocPage(pool);
    if took.1.None? then (pool, phys, None)
    else
      var pd := took.1.value;
      FreshDirectoryReady(pool, took.0, phys, src, pd);
      var r := CloneTables(took.0, CopyDirectory(phys, src, pd), src, pd, FIRST_PDE);
      if !r.2 then (r.0, r.1, None)
      else
        SetEntryShapes(r.1, pd, USER_PAGES, TrampEntry(tramp), pd);
        SetEntryShapes(r.1, pd, USER_PAGES, TrampEntry(tramp), src);
        (r.0, SetEntry(r.1, pd, USER_PAGES, TrampEntry(tramp)), Some(pd))
  }

  function TrampEntry(tramp: nat): Pte { Pte(true, false, true, tramp) }

  /** Fill the page that will be mapped at USER_SIGTRAMP. */
  ghost function WriteTrampoline(phys: Phys, t: nat): (r: Phys)
    requires t < |phys|
    ensures |r| == |phys|
  {
    phys[t := Data(TrampCode())]
  }

  lemma TrampolineReady(pool: Pool, phys: Phys, pd: nat, t: nat)
    requires Ready(pool, phys, pd) && t < |phys| && !pool.used[t]
    ensures Ready(pool, WriteTrampoline(phys, t), pd)
  {
    UnpagedCell(pool, phys, pd, t, Data(TrampCode()));
  }

  /** proc_space_cow: trampoline, cloned directory, both sides write-protected, every page counted. */
  ghost function CowCopy(pool: Pool, phys: Phys, src: nat): (r: (Pool, Phys, Option<(nat, nat)>))
    requires Ready(pool, phys, src)
    ensures Sized(r.0, r.1) && |r.1| == |phys|
  {
    var took := AllocPage(pool);
    if took.1.None? then (pool, phys, None)
    else
      var t := took.1.value;
      TrampolineReady(pool, phys, src, t);
      var c := CloneUserPd(took.0, WriteTrampoline(phys, t), src, t);
      if c.2.None? then (Unref(c.0, t), c.1, None)
      else
        var pd := c.2.value;
        var shared := ProtectBoth(c.1, src, pd);
        (IncRefs(c.0, shared, pd, USER_PAGES), shared, Some((pd, t)))
  }

  /** Child first, then parent. */
  ghost function ProtectBoth(phys: Phys, src: nat, pd: nat): (r: Phys)
    requires Shape(phys, src) && Shape(phys, pd)
    ensures |r| == |phys| && Shape(r, src) && Shape(r, pd)
  {
    ProtectShapes(phys, pd, USER_PAGES, src);
    var child := Protect(phys, pd, USER_PAGES);
    ProtectShapes(child, src, USER_PAGES, pd);
    Protect(child, src, USER_PAGES)
  }
}
