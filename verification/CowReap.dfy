/**
 Fork outcomes for every amount of free memory, threads, and the release of a space.
 */
module CowReap {
  import opened Frames
  import opened Paging
  import opened CowOps
  import opened CowFork
  import opened Cow
  import opened CowWrite
  import opened CowSpaces

  // ---------------------------------------------------------------- a refused fork

  /** Two states that agree on every used frame. */
  ghost predicate Agree(m: Mem, n: Mem) {
    && Tables(m) && n.spaces == m.spaces && n.procs == m.procs && |n.phys| == |m.phys|
    && n.pool.used == m.pool.used && Valid(n.pool)
    && forall f | 0 <= f < |m.phys| && m.pool.used[f] :: n.phys[f] == m.phys[f] && n.pool.refs[f] == m.pool.refs[f]
  }

  lemma AgreeTables(m: Mem, n: Mem)
    requires Agree(m, n)
    ensures SameMaps(m, n)
    ensures forall p, j | p in m.spaces && 0 <= j <= USER_PAGES :: Entry(n.phys, p, j) == Entry(m.phys, p, j)
  {
    var unused := set f | 0 <= f < |m.phys| && !m.pool.used[f];
    Untouched(m.pool, m.phys, n.phys, m.spaces.Keys, unused);
    forall p | p in m.spaces ensures Ready(n.pool, n.phys, p) {
      assert Ready(m.pool, m.phys, p);
    }
    forall p, g | p in m.spaces ensures MapsBelow(n.phys, p, USER_PAGES, g) <==> MapsBelow(m.phys, p, USER_PAGES, g) {
      assert forall i | 0 <= i < USER_PAGES :: Entry(n.phys, p, i) == Entry(m.phys, p, i);
    }
  }

  lemma AgreePages(m: Mem, n: Mem)
    requires Agree(m, n) && SameMaps(m, n) && Pages(m)
    requires forall p, j | p in m.spaces && 0 <= j <= USER_PAGES :: Entry(n.phys, p, j) == Entry(m.phys, p, j)
    ensures Pages(n)
  {
    forall p, j | p in n.spaces && 0 <= j < USER_PAGES && Entry(n.phys, p, j).present
      ensures PageOk(n, Entry(n.phys, p, j))
    {
      assert PageOk(m, Entry(m.phys, p, j));
      SameMappers(m, n, Entry(m.phys, p, j).frame);
    }
    forall p | p in m.spaces ensures OnePageEach(n.phys, p) {
      assert OnePageEach(m.phys, p);
      assert forall j | 0 <= j < USER_PAGES :: Entry(n.phys, p, j) == Entry(m.phys, p, j);
    }
  }

  lemma AgreeControl(m: Mem, n: Mem)
    requires Agree(m, n) && SameMaps(m, n) && Control(m)
    ensures Control(n)
  {
    forall u | u in n.spaces
      ensures n.pool.refs[u] == 1 && IsTrampoline(n, n.spaces[u].tramp)
      ensures forall d | FIRST_PDE <= d <= LAST_PDE :: n.pool.refs[TableFrame(n.phys, u, d)] == 1
    {
      assert Ready(m.pool, m.phys, u);
      assert IsTrampoline(m, m.spaces[u].tramp);
      forall d | FIRST_PDE <= d <= LAST_PDE ensures n.pool.refs[TableFrame(n.phys, u, d)] == 1 {
        assert TableFrame(n.phys, u, d) == TableFrame(m.phys, u, d);
      }
    }
  }

  lemma AgreeKeeps(m: Mem, base: set<nat>, n: Mem)
    requires Inv(m, base) && Agree(m, n)
    ensures Inv(n, base)
  {
    AgreeTables(m, n);
    AgreePages(m, n);
    AgreeControl(m, n);
    AgreeExact(m, base, n);
    SameProcs(m, n);
  }

  lemma AgreeExact(m: Mem, base: set<nat>, n: Mem)
    requires SameMaps(m, n) && Exact(m, base) && n.pool.used == m.pool.used
    ensures Exact(n, base)
  {
    forall f: nat ensures Held(n, f) <==> Held(m, f) {
      SameHeld(m, n, f);
    }
  }

  lemma AgreeView(m: Mem, n: Mem, p: nat)
    requires Agree(m, n) && Pages(m) && p in m.spaces
    ensures Tables(n) && View(n, p) == View(m, p)
  {
    AgreeTables(m, n);
    forall j | 0 <= j < USER_PAGES ensures PageOf(n.phys, Entry(n.phys, p, j)) == PageOf(m.phys, Entry(m.phys, p, j)) {
      if Entry(m.phys, p, j).present {
        assert PageOk(m, Entry(m.phys, p, j));
      }
    }
  }

  lemma ForkRefused(m: Mem, base: set<nat>, parent: nat, child: nat)
    requires Inv(m, base) && parent in m.procs && child !in m.procs && m.pool.free < 2
    ensures !Fork(m, parent, child).1 && Agree(m, Fork(m, parent, child).0)
    ensures Inv(Fork(m, parent, child).0, base)
  {
    ForkIsReady(m, m.procs[parent]);
    CowCopyRefused(m.pool, m.phys, m.spaces.Keys, m.procs[parent]);
    AgreeKeeps(m, base, Fork(m, parent, child).0);
  }

  lemma ForkBreaks(m: Mem, base: set<nat>, parent: nat, child: nat)
    requires Inv(m, base) && parent in m.procs && child !in m.procs && 2 <= m.pool.free <= 4
    ensures !Fork(m, parent, child).1 && !Good(Fork(m, parent, child).0)
  {
    var s := m.procs[parent];
    ForkIsReady(m, s);
    CowCopyBreaks(m.pool, m.phys, m.spaces.Keys, s);
    var n := Fork(m, parent, child).0;
    assert s in n.spaces && !Ready(n.pool, n.phys, s);
  }

  /**
   Fork leaves a well-formed kernel if and only if fewer than two or at least five frames are free.
   With two to four frames free the clean-up of the failed clone frees the parent's page tables.
   */
  lemma ForkKeepsIff(m: Mem, base: set<nat>, parent: nat, child: nat)
    requires Inv(m, base) && parent in m.procs && child !in m.procs && child < PROC_MAX
    ensures Good(Fork(m, parent, child).0) <==> m.pool.free < 2 || m.pool.free >= 5
    ensures Fork(m, parent, child).1 <==> m.pool.free >= 5
  {
    if m.pool.free < 2 {
      ForkRefused(m, base, parent, child);
    } else if m.pool.free < 5 {
      ForkBreaks(m, base, parent, child);
    } else {
      var pd, t, taken := ForkSucceeds(m, base, parent, child);
      ForkedKeeps(m, base, m.procs[parent], child, Fork(m, parent, child).0, pd, t, taken);
    }
  }

  // ---------------------------------------------------------------- threads

  /** proc_space_share: the thread in slot `child` uses the parent's space. */
  ghost function Share(m: Mem, parent: nat, child: nat): (n: Mem)
    requires parent in m.procs && m.procs[parent] in m.spaces
  {
    var s := m.procs[parent];
    m.(spaces := m.spaces[s := m.spaces[s].(refs := m.spaces[s].refs + 1)], procs := m.procs[child := s])
  }

  /** Same memory, same spaces; only process bookkeeping differs. */
  ghost predicate SameMemory(m: Mem, n: Mem) {
    && n.pool == m.pool && n.phys == m.phys && n.spaces.Keys == m.spaces.Keys
    && forall s | s in m.spaces :: n.spaces[s].tramp == m.spaces[s].tramp
  }

  lemma SameMemoryPages(m: Mem, n: Mem)
    requires Tables(m) && Pages(m) && SameMemory(m, n)
    ensures Tables(n) && Pages(n)
  {
    forall p, j | p in n.spaces && 0 <= j < USER_PAGES && Entry(n.phys, p, j).present
      ensures PageOk(n, Entry(n.phys, p, j))
    {
      assert PageOk(m, Entry(m.phys, p, j));
      assert Mappers(n, Entry(m.phys, p, j).frame) == Mappers(m, Entry(m.phys, p, j).frame);
    }
  }

  lemma SameMemoryControl(m: Mem, n: Mem)
    requires Tables(m) && Control(m) && SameMemory(m, n)
    ensures Tables(n) && Control(n)
  {
    forall u | u in n.spaces ensures IsTrampoline(n, n.spaces[u].tramp) {
      assert IsTrampoline(m, m.spaces[u].tramp);
    }
  }

  lemma SameMemoryExact(m: Mem, base: set<nat>, n: Mem)
    requires Tables(m) && Exact(m, base) && SameMemory(m, n)
    ensures Tables(n) && Exact(n, base)
  {
    forall f: nat ensures Held(n, f) <==> Held(m, f) {
      assert forall p | p in m.spaces :: HeldBy(n, p, f) <==> HeldBy(m, p, f);
    }
  }

  lemma SameMemoryKeeps(m: Mem, base: set<nat>, n: Mem)
    requires Tables(m) && Control(m) && Pages(m) && Exact(m, base) && SameMemory(m, n)
    ensures Tables(n) && Control(n) && Pages(n) && Exact(n, base)
    ensures forall s | s in m.spaces :: View(n, s) == View(m, s)
  {
    SameMemoryPages(m, n);
    SameMemoryControl(m, n);
    SameMemoryExact(m, base, n);
  }

  lemma ShareProcs(m: Mem, parent: nat, child: nat)
    requires Procs(m) && parent in m.procs && child !in m.procs && child < PROC_MAX
    ensures Procs(Share(m, parent, child))
  {
    var n := Share(m, parent, child);
    forall s | s in n.spaces ensures n.spaces[s].refs == |Users(n, s)| && n.spaces[s].refs > 0 {
      ShareUsers(m, parent, child, s);
    }
  }

  lemma ShareUsers(m: Mem, parent: nat, child: nat, s: nat)
    requires parent in m.procs && m.procs[parent] in m.spaces && child !in m.procs
    ensures |Users(Share(m, parent, child), s)| == |Users(m, s)| + (if s == m.procs[parent] then 1 else 0)
  {
    var n := Share(m, parent, child);
    assert child !in Users(m, s);
    if s == m.procs[parent] {
      assert Users(n, s) == Users(m, s) + {child};
    } else {
      assert Users(n, s) == Users(m, s);
    }
  }

  lemma ShareKeeps(m: Mem, base: set<nat>, parent: nat, child: nat)
    requires Inv(m, base) && parent in m.procs && child !in m.procs && child < PROC_MAX
    ensures Inv(Share(m, parent, child), base)
    ensures forall s | s in m.spaces :: View(Share(m, parent, child), s) == View(m, s)
  {
    ShareProcs(m, parent, child);
    assert SameMemory(m, Share(m, parent, child));
    SameMemoryKeeps(m, base, Share(m, parent, child));
  }

  // ---------------------------------------------------------------- releasing a space

  /** proc_space_unref for the last user: pages, then tables and directory, then the trampoline. */
  ghost function ReleaseSpace(pool: Pool, phys: Phys, s: nat, tramp: nat): (r: Pool)
    requires Sized(pool, phys) && Shape(phys, s)
    ensures |r.refs| == |r.used| == |pool.used|
  {
    Unref(FreeUserPd(ReleasePages(pool, phys, s, USER_PAGES), phys, s), tramp)
  }

  /** Reaping the process in slot `p`. */
  ghost function Reap(m: Mem, p: nat): (n: Mem)
    requires Tables(m) && p in m.procs && m.procs[p] in m.spaces
  {
    var s := m.procs[p];
    if m.spaces[s].refs > 1 then
      m.(spaces := m.spaces[s := m.spaces[s].(refs := m.spaces[s].refs - 1)], procs := m.procs - {p})
    else
      Mem(ReleaseSpace(m.pool, m.phys, s, m.spaces[s].tramp), m.phys, m.spaces - {s}, m.procs - {p})
  }

  lemma UnrefSole(p: Pool, f: nat)
    requires Valid(p) && f < |p.used| && p.used[f] && p.refs[f] == 1
    ensures Unref(p, f) == Pool(p.used[f := false], p.refs[f := 0], p.free + 1) && Valid(Unref(p, f))
  {
    UnrefMeaning(p, f);
  }

  ghost predicate Sole(p: Pool, f: nat) {
    f < |p.used| && |p.refs| == |p.used| && p.used[f] && p.refs[f] == 1
  }

  lemma UnrefFive(p: Pool, v: nat, w: nat, x: nat, y: nat, z: nat)
    requires Valid(p)
    requires Sole(p, v) && Sole(p, w) && Sole(p, x) && Sole(p, y) && Sole(p, z)
    requires v != w && v != x && v != y && v != z && w != x && w != y && w != z && x != y && x != z && y != z
    ensures var r := Unref(Unref(Unref(Unref(Unref(p, v), w), x), y), z);
            && Valid(r) && r.free == p.free + 5 && |r.used| == |p.used|
            && (forall f | 0 <= f < |p.used| :: r.used[f] == (p.used[f] && f !in {v, w, x, y, z}))
            && (forall f | 0 <= f < |p.used| :: r.refs[f] == if f in {v, w, x, y, z} then 0 else p.refs[f])
  {
    UnrefSole(p, v);
    var p1 := Unref(p, v);
    UnrefSole(p1, w);
    var p2 := Unref(p1, w);
    UnrefSole(p2, x);
    var p3 := Unref(p2, x);
    UnrefSole(p3, y);
    UnrefSole(Unref(p3, y), z);
  }

  /** The frames only `s` can hold: its directory, its tables and its trampoline. */
  ghost predicate Own(m: Mem, s: nat, f: nat)
    requires Tables(m) && s in m.spaces
  {
    f == s || f == m.spaces[s].tramp || exists d | FIRST_PDE <= d <= LAST_PDE :: TableFrame(m.phys, s, d) == f
  }

  lemma OwnFrames(m: Mem, s: nat)
    requires Tables(m) && Control(m) && Pages(m) && s in m.spaces
    ensures forall f: nat :: Own(m, s, f) ==> f < |m.pool.used| && m.pool.used[f] && m.pool.refs[f] == 1
    ensures forall f: nat, p | p in m.spaces && Own(m, s, f) :: !MapsBelow(m.phys, p, USER_PAGES, f)
    ensures forall f: nat, p | p in m.spaces && p != s && Own(m, s, f) :: !Own(m, p, f)
  {
    assert Ready(m.pool, m.phys, s);
    assert IsTrampoline(m, m.spaces[s].tramp);
    forall f: nat, p | p in m.spaces && Own(m, s, f) ensures !MapsBelow(m.phys, p, USER_PAGES, f) {
      if f != m.spaces[s].tramp {
        NotUserPage(m, p, f);
      }
    }
    forall f: nat, p | p in m.spaces && p != s && Own(m, s, f) ensures !Own(m, p, f) {
      assert Ready(m.pool, m.phys, p);
      assert IsTrampoline(m, m.spaces[p].tramp);
      forall c, d | FIRST_PDE <= c <= LAST_PDE && FIRST_PDE <= d <= LAST_PDE
        ensures TableFrame(m.phys, s, c) != TableFrame(m.phys, p, d)
      {
        assert !Clash(m.phys, s, c, p, d);
      }
    }
  }

  lemma OwnFive(m: Mem, s: nat, f: nat)
    requires Tables(m) && s in m.spaces
    ensures Own(m, s, f) <==>
            f in {TableFrame(m.phys, s, FIRST_PDE), TableFrame(m.phys, s, FIRST_PDE + 1), TableFrame(m.phys, s, LAST_PDE),
                  s, m.spaces[s].tramp}
  {
    if d :| FIRST_PDE <= d <= LAST_PDE && TableFrame(m.phys, s, d) == f {
      assert d == FIRST_PDE || d == FIRST_PDE + 1 || d == LAST_PDE;
    }
  }

  lemma ReleasedPages(m: Mem, s: nat)
    requires Tables(m) && Pages(m) && s in m.spaces
    ensures Valid(ReleasePages(m.pool, m.phys, s, USER_PAGES))
    ensures Dropped(m.pool, m.phys, s, USER_PAGES, ReleasePages(m.pool, m.phys, s, USER_PAGES))
  {
    WritableReady(m, s);
    assert OnePageEach(m.phys, s);
    forall i | 0 <= i < USER_PAGES && Entry(m.phys, s, i).present ensures m.pool.refs[Entry(m.phys, s, i).frame] > 0 {
      MappedOnce(m, s, i);
    }
    ReleaseMeaning(m.pool, m.phys, s, USER_PAGES);
  }

  lemma OwnStaysSole(m: Mem, s: nat, q: Pool, f: nat)
    requires Tables(m) && Control(m) && Pages(m) && s in m.spaces && Own(m, s, f)
    requires Dropped(m.pool, m.phys, s, USER_PAGES, q)
    ensures Sole(q, f)
  {
    OwnFrames(m, s);
  }

  /** The pool after `s` gave back its own frames and its references to shared ones. */
  ghost predicate SpaceFreed(m: Mem, s: nat, r: Pool)
    requires Tables(m) && s in m.spaces
  {
    && |r.refs| == |r.used| == |m.pool.used|
    && forall f | 0 <= f < |m.pool.used| ::
         && r.used[f] == (m.pool.used[f] && !Own(m, s, f) && !(MapsBelow(m.phys, s, USER_PAGES, f) && m.pool.refs[f] == 1))
         && (!Own(m, s, f) ==> r.refs[f] + (if MapsBelow(m.phys, s, USER_PAGES, f) then 1 else 0) == m.pool.refs[f])
  }

  lemma FreedFrom(m: Mem, s: nat, q: Pool, r: Pool, five: set<nat>)
    requires Tables(m) && s in m.spaces && Dropped(m.pool, m.phys, s, USER_PAGES, q)
    requires |r.refs| == |r.used| == |q.used|
    requires forall f | 0 <= f < |q.used| :: r.used[f] == (q.used[f] && f !in five)
    requires forall f | 0 <= f < |q.used| :: r.refs[f] == if f in five then 0 else q.refs[f]
    requires forall f: nat :: Own(m, s, f) <==> f in five
    ensures SpaceFreed(m, s, r)
  {
  }

  lemma OwnIsFive(m: Mem, s: nat)
    requires Tables(m) && s in m.spaces
    ensures forall f: nat :: Own(m, s, f) <==>
              f in {TableFrame(m.phys, s, FIRST_PDE), TableFrame(m.phys, s, FIRST_PDE + 1), TableFrame(m.phys, s, LAST_PDE),
                    s, m.spaces[s].tramp}
  {
    forall f: nat ensures Own(m, s, f) <==>
              f in {TableFrame(m.phys, s, FIRST_PDE), TableFrame(m.phys, s, FIRST_PDE + 1), TableFrame(m.phys, s, LAST_PDE),
                    s, m.spaces[s].tramp}
    {
      OwnFive(m, s, f);
    }
  }

  ghost predicate Distinct5(v: nat, w: nat, x: nat, y: nat, z: nat) {
    v != w && v != x && v != y && v != z && w != x && w != y && w != z && x != y && x != z && y != z
  }

  lemma OwnDistinct(m: Mem, s: nat)
    requires Tables(m) && Control(m) && s in m.spaces
    ensures Distinct5(TableFrame(m.phys, s, FIRST_PDE), TableFrame(m.phys, s, FIRST_PDE + 1),
                      TableFrame(m.phys, s, LAST_PDE), s, m.spaces[s].tramp)
  {
    assert IsTrampoline(m, m.spaces[s].tramp);
    TablesApart(m.phys, m.spaces.Keys, s);
  }

  /** The five unreferences of mm_free_user_pd and the trampoline free exactly the own frames. */
  lemma OwnFreed(m: Mem, s: nat, q: Pool, a: nat, b: nat, c: nat, d: nat, t: nat)
    requires Tables(m) && s in m.spaces
    requires Dropped(m.pool, m.phys, s, USER_PAGES, q) && Valid(q) && Distinct5(a, b, c, d, t)
    requires Sole(q, a) && Sole(q, b) && Sole(q, c) && Sole(q, d) && Sole(q, t)
    requires forall f: nat :: Own(m, s, f) <==> f in {a, b, c, d, t}
    ensures Valid(Unref(Unref(Unref(Unref(Unref(q, a), b), c), d), t))
    ensures SpaceFreed(m, s, Unref(Unref(Unref(Unref(Unref(q, a), b), c), d), t))
  {
    UnrefFive(q, a, b, c, d, t);
    FreedFrom(m, s, q, Unref(Unref(Unref(Unref(Unref(q, a), b), c), d), t), {a, b, c, d, t});
  }

  lemma OwnSole(m: Mem, s: nat, q: Pool)
    requires Tables(m) && Control(m) && Pages(m) && s in m.spaces
    requires Dropped(m.pool, m.phys, s, USER_PAGES, q)
    ensures Sole(q, TableFrame(m.phys, s, FIRST_PDE)) && Sole(q, TableFrame(m.phys, s, FIRST_PDE + 1))
    ensures Sole(q, TableFrame(m.phys, s, LAST_PDE)) && Sole(q, s) && Sole(q, m.spaces[s].tramp)
  {
    OwnStaysSole(m, s, q, TableFrame(m.phys, s, FIRST_PDE));
    OwnStaysSole(m, s, q, TableFrame(m.phys, s, FIRST_PDE + 1));
    OwnStaysSole(m, s, q, TableFrame(m.phys, s, LAST_PDE));
    OwnStaysSole(m, s, q, s);
    OwnStaysSole(m, s, q, m.spaces[s].tramp);
  }

  /** What the release of a space leaves of the frame pool. */
  lemma ReleaseFrees(m: Mem, s: nat)
    requires Tables(m) && Control(m) && Pages(m) && s in m.spaces
    ensures Valid(ReleaseSpace(m.pool, m.phys, s, m.spaces[s].tramp))
    ensures SpaceFreed(m, s, ReleaseSpace(m.pool, m.phys, s, m.spaces[s].tramp))
  {
    ReleasedPages(m, s);
    OwnDistinct(m, s);
    OwnIsFive(m, s);
    OwnSole(m, s, ReleasePages(m.pool, m.phys, s, USER_PAGES));
    OwnFreed(m, s, ReleasePages(m.pool, m.phys, s, USER_PAGES), TableFrame(m.phys, s, FIRST_PDE),
             TableFrame(m.phys, s, FIRST_PDE + 1), TableFrame(m.phys, s, LAST_PDE), s, m.spaces[s].tramp);
  }

  // ---------------------------------------------------------------- what the release keeps

  /** `n` is `m` without the space `s`. */
  ghost predicate Gone(m: Mem, s: nat, n: Mem) {
    && Tables(m) && Control(m) && Pages(m) && s in m.spaces
    && n.phys == m.phys && n.spaces == m.spaces - {s} && Valid(n.pool) && SpaceFreed(m, s, n.pool)
  }

  lemma GoneOwn(m: Mem, s: nat, n: Mem, p: nat, f: nat)
    requires Gone(m, s, n) && p in n.spaces && Own(m, p, f)
    ensures f < |n.pool.used| && n.pool.used[f] && n.pool.refs[f] == 1
  {
    OwnFrames(m, p);
    assert !Own(m, s, f) && !MapsBelow(m.phys, s, USER_PAGES, f);
  }

  lemma GoneTables(m: Mem, s: nat, n: Mem)
    requires Gone(m, s, n)
    ensures Tables(n)
  {
    forall p | p in n.spaces ensures Ready(n.pool, n.phys, p) {
      assert Ready(m.pool, m.phys, p);
      GoneOwn(m, s, n, p, p);
      forall d | FIRST_PDE <= d <= LAST_PDE ensures n.pool.used[TableFrame(n.phys, p, d)] {
        GoneOwn(m, s, n, p, TableFrame(m.phys, p, d));
      }
    }
  }

  lemma GoneControl(m: Mem, s: nat, n: Mem)
    requires Gone(m, s, n) && Tables(n)
    ensures Control(n)
  {
    forall u | u in n.spaces
      ensures n.pool.refs[u] == 1 && IsTrampoline(n, n.spaces[u].tramp)
      ensures forall d | FIRST_PDE <= d <= LAST_PDE :: n.pool.refs[TableFrame(n.phys, u, d)] == 1
    {
      GoneOwn(m, s, n, u, u);
      GoneOwn(m, s, n, u, m.spaces[u].tramp);
      assert IsTrampoline(m, m.spaces[u].tramp);
      forall d | FIRST_PDE <= d <= LAST_PDE ensures n.pool.refs[TableFrame(n.phys, u, d)] == 1 {
        GoneOwn(m, s, n, u, TableFrame(m.phys, u, d));
      }
    }
  }

  lemma GoneMappers(m: Mem, s: nat, n: Mem, f: nat)
    requires Gone(m, s, n) && Tables(n)
    ensures Mappers(n, f) == Mappers(m, f) - {s}
    ensures s in Mappers(m, f) <==> MapsBelow(m.phys, s, USER_PAGES, f)
  {
  }

  lemma GonePageOk(m: Mem, s: nat, n: Mem, p: nat, i: nat)
    requires Gone(m, s, n) && Tables(n) && p in n.spaces && i < USER_PAGES && Entry(n.phys, p, i).present
    ensures PageOk(n, Entry(n.phys, p, i))
  {
    var e := Entry(m.phys, p, i);
    assert PageOk(m, e);
    GoneMappers(m, s, n, e.frame);
    assert p in Mappers(n, e.frame);
    OwnFrames(m, s);
    assert MapsBelow(m.phys, p, USER_PAGES, e.frame) && !Own(m, s, e.frame);
  }

  lemma GonePages(m: Mem, s: nat, n: Mem)
    requires Gone(m, s, n) && Tables(n)
    ensures Pages(n)
  {
    forall p, i | p in n.spaces && 0 <= i < USER_PAGES && Entry(n.phys, p, i).present
      ensures PageOk(n, Entry(n.phys, p, i))
    {
      GonePageOk(m, s, n, p, i);
    }
  }

  lemma HeldByCases(m: Mem, s: nat, f: nat)
    requires Tables(m) && s in m.spaces
    ensures HeldBy(m, s, f) <==> Own(m, s, f) || MapsBelow(m.phys, s, USER_PAGES, f)
  {
  }

  lemma GoneHeld(m: Mem, s: nat, n: Mem, f: nat)
    requires Gone(m, s, n) && Tables(n) && Held(m, f) && f < |m.pool.used|
    requires m.pool.used[f]
    ensures Held(n, f) <==> n.pool.used[f]
  {
    OwnFrames(m, s);
    HeldByCases(m, s, f);
    GoneMappers(m, s, n, f);
    if Held(n, f) {
      var p :| p in n.spaces && HeldBy(n, p, f);
      HeldByCases(m, p, f);
      assert HeldBy(m, p, f);
      if MapsBelow(m.phys, p, USER_PAGES, f) {
        var i :| 0 <= i < USER_PAGES && Entry(m.phys, p, i).present && Entry(m.phys, p, i).frame == f;
        GonePageOk(m, s, n, p, i);
      } else {
        GoneOwn(m, s, n, p, f);
      }
    } else {
      NobodyElse(m, s, n, f);
    }
  }

  lemma AloneMapped(m: Mem, s: nat, n: Mem, f: nat)
    requires Gone(m, s, n) && Tables(n) && f < |m.pool.used| && MapsBelow(m.phys, s, USER_PAGES, f)
    requires forall q | q in n.spaces :: !MapsBelow(n.phys, q, USER_PAGES, f)
    ensures m.pool.refs[f] == 1
  {
    var i :| 0 <= i < USER_PAGES && Entry(m.phys, s, i).present && Entry(m.phys, s, i).frame == f;
    assert PageOk(m, Entry(m.phys, s, i));
    GoneMappers(m, s, n, f);
    assert Mappers(n, f) == {};
    assert Mappers(m, f) == {s};
  }

  lemma HolderWasGone(m: Mem, s: nat, n: Mem, f: nat)
    requires Gone(m, s, n) && Tables(n) && Held(m, f) && !Held(n, f)
    ensures HeldBy(m, s, f)
  {
    var p :| p in m.spaces && HeldBy(m, p, f);
    assert forall q | q in n.spaces :: !HeldBy(n, q, f) && !HeldBy(m, q, f);
  }

  /** A frame held by `s` alone is free once `s` is gone. */
  lemma NobodyElse(m: Mem, s: nat, n: Mem, f: nat)
    requires Gone(m, s, n) && Tables(n) && Held(m, f) && !Held(n, f) && f < |m.pool.used|
    ensures !n.pool.used[f]
  {
    HolderWasGone(m, s, n, f);
    HeldByCases(m, s, f);
    if !Own(m, s, f) {
      forall q | q in n.spaces ensures !MapsBelow(n.phys, q, USER_PAGES, f) {
        assert !HeldBy(n, q, f);
      }
      AloneMapped(m, s, n, f);
    }
  }

  lemma HeldBefore(m: Mem, s: nat, n: Mem, f: nat)
    requires Gone(m, s, n) && Tables(n) && Held(n, f)
    ensures Held(m, f)
  {
    var p :| p in n.spaces && HeldBy(n, p, f);
    assert HeldBy(m, p, f);
  }

  lemma GoneUsed(m: Mem, base: set<nat>, s: nat, n: Mem, f: nat)
    requires Gone(m, s, n) && Tables(n) && Exact(m, base) && f < |n.pool.used|
    ensures n.pool.used[f] <==> f in base || Held(n, f)
    ensures f in base ==> !Held(n, f)
  {
    if Held(n, f) {
      HeldBefore(m, s, n, f);
    }
    if f in base {
      assert !HeldBy(m, s, f);
      HeldByCases(m, s, f);
    } else if Held(m, f) {
      GoneHeld(m, s, n, f);
    }
  }

  lemma GoneExact(m: Mem, base: set<nat>, s: nat, n: Mem)
    requires Gone(m, s, n) && Tables(n) && Exact(m, base)
    ensures Exact(n, base)
  {
    forall f | 0 <= f < |n.pool.used|
      ensures n.pool.used[f] <==> f in base || Held(n, f)
      ensures f in base ==> !Held(n, f)
    {
      GoneUsed(m, base, s, n, f);
    }
  }

  lemma ReapProcs(m: Mem, p: nat)
    requires Tables(m) && Procs(m) && p in m.procs
    ensures Procs(Reap(m, p))
  {
    var s := m.procs[p];
    var n := Reap(m, p);
    assert p in Users(m, s);
    forall u | u in n.spaces ensures n.spaces[u].refs == |Users(n, u)| && n.spaces[u].refs > 0 {
      assert Users(n, u) == Users(m, u) - {p};
    }
    forall q | q in n.procs ensures q < PROC_MAX && n.procs[q] in n.spaces {
      if n.procs[q] == s && m.spaces[s].refs == 1 {
        assert {p, q} <= Users(m, s);
        SubsetSize({p, q}, Users(m, s));
      }
    }
  }

  lemma GoneKeeps(m: Mem, base: set<nat>, s: nat, n: Mem)
    requires Gone(m, s, n) && Exact(m, base)
    ensures Tables(n) && Control(n) && Pages(n) && Exact(n, base)
    ensures forall u | u in n.spaces :: View(n, u) == View(m, u)
  {
    GoneTables(m, s, n);
    GoneControl(m, s, n);
    GonePages(m, s, n);
    GoneExact(m, base, s, n);
  }

  /** Reaping a process keeps the invariant and every page of the spaces that remain. */
  lemma ReapKeeps(m: Mem, base: set<nat>, p: nat)
    requires Inv(m, base) && p in m.procs
    ensures Inv(Reap(m, p), base)
    ensures forall u | u in Reap(m, p).spaces :: u in m.spaces && View(Reap(m, p), u) == View(m, u)
    ensures Reap(m, p).spaces.Keys == if m.spaces[m.procs[p]].refs > 1 then m.spaces.Keys else m.spaces.Keys - {m.procs[p]}
  {
    ReapProcs(m, p);
    if m.spaces[m.procs[p]].refs > 1 {
      ReapOne(m, p, Reap(m, p));
      SameMemoryKeeps(m, base, Reap(m, p));
    } else {
      ReapLast(m, p, Reap(m, p));
      GoneKeeps(m, base, m.procs[p], Reap(m, p));
    }
  }

  lemma ReapOne(m: Mem, p: nat, n: Mem)
    requires Tables(m) && p in m.procs && m.procs[p] in m.spaces && m.spaces[m.procs[p]].refs > 1 && n == Reap(m, p)
    ensures SameMemory(m, n)
  {
  }

  lemma ReapLast(m: Mem, p: nat, n: Mem)
    requires Tables(m) && Control(m) && Pages(m) && p in m.procs && m.procs[p] in m.spaces
    requires m.spaces[m.procs[p]].refs <= 1 && n == Reap(m, p)
    ensures Gone(m, m.procs[p], n)
  {
    ReleaseFrees(m, m.procs[p]);
  }
}
