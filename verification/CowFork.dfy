/**
 What a copy-on-write fork does to the page tables: the child maps what the parent maps, both
 read-only, through tables of its own, and every shared frame gains one reference.
 */
module CowFork {
  import opened Options
  import opened Frames
  import opened Paging
  import opened CowOps

  /** Every directory of `ds` is well formed, uses only frames marked used, and shares no table. */
  ghost predicate AllReady(pool: Pool, phys: Phys, ds: set<nat>) {
    Sized(pool, phys) && Private(phys, ds) && forall p | p in ds :: Ready(pool, phys, p)
  }

  lemma GrownTrans(a: Pool, b: Pool, c: Pool, s: set<nat>, t: set<nat>)
    requires Grown(a, b, s) && Grown(b, c, t)
    ensures s !! t && Grown(a, c, s + t)
  {
    assert forall f | f in t :: f !in s;
  }

  /** Memories that agree outside frames unused in `pool` have the same directories and entries. */
  lemma Untouched(pool: Pool, phys: Phys, next: Phys, ds: set<nat>, taken: set<nat>)
    requires AllReady(pool, phys, ds) && |next| == |phys|
    requires forall f | f in taken :: f < |phys| && !pool.used[f]
    requires forall f | 0 <= f < |phys| && f !in taken :: next[f] == phys[f]
    ensures Private(next, ds) && SameTables(phys, next, ds)
    ensures forall p, j | p in ds && 0 <= j <= USER_PAGES :: Entry(next, p, j) == Entry(phys, p, j)
  {
    forall f | 0 <= f < |phys| && Paged(phys, ds, f) ensures next[f] == phys[f] {
      if f !in ds {
        var p, d :| p in ds && FIRST_PDE <= d <= LAST_PDE && TableFrame(phys, p, d) == f;
        assert Ready(pool, phys, p);
      }
    }
    SameCells(phys, next, ds);
  }

  /** The clone `pd` of `src` has tables of its own; nothing but taken frames was written. */
  ghost predicate CloneFrame(pool: Pool, phys: Phys, ds: set<nat>, src: nat,
                             now: Pool, next: Phys, pd: nat, taken: set<nat>) {
    && Grown(pool, now, taken) && |taken| == 4 && pd in taken && pd !in ds && src in ds
    && Private(phys, ds) && |next| == |phys| && Private(next, ds + {pd})
    && (forall f | 0 <= f < |phys| && f !in taken :: next[f] == phys[f])
    && (forall p, d | p in ds && FIRST_PDE <= d <= LAST_PDE :: TableFrame(next, p, d) == TableFrame(phys, p, d))
    && (forall d | FIRST_PDE <= d <= LAST_PDE :: TableFrame(next, pd, d) in taken)
    && (forall f | f in taken :: f < |next| && !next[f].Data?)
    && (forall p, j | p in ds && 0 <= j <= USER_PAGES :: Entry(next, p, j) == Entry(phys, p, j))
  }

  /** ... and maps what `src` maps, with its own trampoline. */
  ghost predicate IsClone(pool: Pool, phys: Phys, ds: set<nat>, src: nat, tramp: nat,
                          now: Pool, next: Phys, pd: nat, taken: set<nat>) {
    && CloneFrame(pool, phys, ds, src, now, next, pd, taken)
    && (forall j | 0 <= j <= USER_PAGES ::
          Entry(next, pd, j) == if j == USER_PAGES then TrampEntry(tramp) else Entry(phys, src, j))
  }

  lemma CloneWorks(pool: Pool, phys: Phys, ds: set<nat>, src: nat, tramp: nat) returns (pd: nat, taken: set<nat>)
    requires AllReady(pool, phys, ds) && src in ds && Valid(pool) && pool.free >= 4
    ensures var (p, ph, r) := CloneUserPd(pool, phys, src, tramp);
            r == Some(pd) && Valid(p) && IsClone(pool, phys, ds, src, tramp, p, ph, pd, taken)
  {
    assert Ready(pool, phys, src);
    AllocPageMeaning(pool);
    var (p1, r1) := AllocPage(pool);
    pd := r1.value;
    FreshDirectory(pool, p1, phys, src, pd);
    var copied := CopyDirectory(phys, src, pd);
    assert Grown(p1, p1, {});
    assert Cloned(p1, copied, src, pd, FIRST_PDE, p1, copied, {});
    var all := CloneTablesWorks(p1, copied, src, pd, FIRST_PDE, p1, copied, {});
    var (p2, ph, ok) := CloneTables(p1, copied, src, pd, FIRST_PDE);
    assert Grown(pool, p1, {pd}) by {
      GrowOne(pool, pool, {});
      assert {} + {pd} == {pd};
    }
    taken := {pd} + all;
    CloneFinished(pool, phys, ds, src, tramp, p1, p2, ph, pd, all);
  }

  lemma CloneFinished(pool: Pool, phys: Phys, ds: set<nat>, src: nat, tramp: nat, p1: Pool, p2: Pool, ph: Phys, pd: nat, all: set<nat>)
    requires AllReady(pool, phys, ds) && src in ds && pd < |phys| && !pool.used[pd] && Grown(pool, p1, {pd})
    requires Cloned(p1, CopyDirectory(phys, src, pd), src, pd, LAST_PDE + 1, p2, ph, all)
    requires Ready(p1, CopyDirectory(phys, src, pd), src) && Ready(p2, ph, pd)
    requires forall d | FIRST_PDE <= d <= LAST_PDE ::
               TableFrame(CopyDirectory(phys, src, pd), src, d) == TableFrame(phys, src, d)
    ensures IsClone(pool, phys, ds, src, tramp, p2, SetEntry(ph, pd, USER_PAGES, TrampEntry(tramp)), pd, {pd} + all)
  {
    assert Ready(pool, phys, src);
    GrownTrans(pool, p1, p2, {pd}, all);
    ClonedEntries(pool, phys, src, p1, p2, ph, pd, all);
    ClonedIsClone(pool, phys, ds, src, p2, ph, pd, all);
    AddTrampoline(pool, phys, ds, src, tramp, p2, ph, pd, {pd} + all);
  }

  lemma ClonedEntries(pool: Pool, phys: Phys, src: nat, p1: Pool, p2: Pool, ph: Phys, pd: nat, all: set<nat>)
    requires Ready(pool, phys, src) && pd < |phys| && !pool.used[pd]
    requires Cloned(p1, CopyDirectory(phys, src, pd), src, pd, LAST_PDE + 1, p2, ph, all)
    requires Ready(p1, CopyDirectory(phys, src, pd), src)
    requires forall d | FIRST_PDE <= d <= LAST_PDE ::
               TableFrame(CopyDirectory(phys, src, pd), src, d) == TableFrame(phys, src, d)
    ensures forall j | 0 <= j <= USER_PAGES :: Entry(ph, pd, j) == Entry(phys, src, j)
    ensures forall d | FIRST_PDE <= d <= LAST_PDE :: TableFrame(ph, pd, d) in all
  {
    var copied := CopyDirectory(phys, src, pd);
    forall j | 0 <= j <= USER_PAGES ensures Entry(ph, pd, j) == Entry(phys, src, j) {
      var d := PdeOf(j);
      assert ph[TableFrame(ph, pd, d)] == copied[TableFrame(copied, src, d)];
      assert pool.used[TableFrame(phys, src, d)];
    }
  }

  lemma ClonedPrivate(pool: Pool, phys: Phys, ds: set<nat>, ph: Phys, pd: nat, all: set<nat>)
    requires AllReady(pool, phys, ds)
    requires SameTables(phys, ph, ds) && Private(ph, ds) && Shape(ph, pd) && pd !in ds
    requires forall f | f in all :: f < |phys| && !pool.used[f]
    requires forall d | FIRST_PDE <= d <= LAST_PDE :: TableFrame(ph, pd, d) in all
    requires forall b, c | FIRST_PDE <= b < c <= LAST_PDE :: TableFrame(ph, pd, b) != TableFrame(ph, pd, c)
    ensures Private(ph, ds + {pd})
  {
    forall p, q, c, d | p in ds + {pd} && q in ds + {pd} && FIRST_PDE <= c <= LAST_PDE && FIRST_PDE <= d <= LAST_PDE
      ensures !Clash(ph, p, c, q, d)
    {
      if p in ds {
        assert Ready(pool, phys, p);
        assert pool.used[TableFrame(phys, p, c)];
      }
      if q in ds {
        assert Ready(pool, phys, q);
        assert pool.used[TableFrame(phys, q, d)];
      }
    }
  }

  lemma ClonedIsClone(pool: Pool, phys: Phys, ds: set<nat>, src: nat, p2: Pool, ph: Phys, pd: nat, all: set<nat>)
    requires AllReady(pool, phys, ds) && src in ds
    requires Grown(pool, p2, {pd} + all) && pd !in all && |all| == 3
    requires |ph| == |phys| && Shape(ph, pd)
    requires forall f | 0 <= f < |phys| && f !in {pd} + all :: ph[f] == phys[f]
    requires forall d | FIRST_PDE <= d <= LAST_PDE :: TableFrame(ph, pd, d) in all
    requires forall b, c | FIRST_PDE <= b < c <= LAST_PDE :: TableFrame(ph, pd, b) != TableFrame(ph, pd, c)
    ensures CloneFrame(pool, phys, ds, src, p2, ph, pd, {pd} + all)
  {
    var taken := {pd} + all;
    assert forall p | p in ds :: Ready(pool, phys, p) && pool.used[p];
    Untouched(pool, phys, ph, ds, taken);
    ClonedPrivate(pool, phys, ds, ph, pd, taken);
    ClonedKinds(ph, pd, all);
  }

  lemma AddTrampoline(pool: Pool, phys: Phys, ds: set<nat>, src: nat, tramp: nat,
                      now: Pool, ph: Phys, pd: nat, taken: set<nat>)
    requires CloneFrame(pool, phys, ds, src, now, ph, pd, taken)
    requires forall j | 0 <= j <= USER_PAGES :: Entry(ph, pd, j) == Entry(phys, src, j)
    ensures IsClone(pool, phys, ds, src, tramp, now, SetEntry(ph, pd, USER_PAGES, TrampEntry(tramp)), pd, taken)
  {
    SetEntryFrame(ph, ds + {pd}, pd, USER_PAGES, TrampEntry(tramp));
    var next := SetEntry(ph, pd, USER_PAGES, TrampEntry(tramp));
    forall p, j | p in ds && 0 <= j <= USER_PAGES ensures Entry(next, p, j) == Entry(phys, p, j) {
      assert Entry(next, p, j) == Entry(ph, p, j);
    }
    forall p, d | p in ds && FIRST_PDE <= d <= LAST_PDE ensures TableFrame(next, p, d) == TableFrame(phys, p, d) {
      assert TableFrame(next, p, d) == TableFrame(ph, p, d);
    }
  }

  lemma ClonedKinds(ph: Phys, pd: nat, all: set<nat>)
    requires Shape(ph, pd)
    requires forall d | FIRST_PDE <= d <= LAST_PDE :: TableFrame(ph, pd, d) in all
    requires forall b, c | FIRST_PDE <= b < c <= LAST_PDE :: TableFrame(ph, pd, b) != TableFrame(ph, pd, c)
    requires |all| == 3
    ensures all == {TableFrame(ph, pd, FIRST_PDE), TableFrame(ph, pd, FIRST_PDE + 1), TableFrame(ph, pd, LAST_PDE)}
  {
    var a, b, c := TableFrame(ph, pd, FIRST_PDE), TableFrame(ph, pd, FIRST_PDE + 1), TableFrame(ph, pd, LAST_PDE);
    assert a != b && a != c && b != c;
    var rest := all - {a} - {b} - {c};
    assert |rest| == 0;
    assert all == {a, b, c} + rest;
  }

  // ---------------------------------------------------------------- the whole fork

  /** The page tables after a fork of `src` into `pd`. */
  ghost predicate ForkedTables(phys: Phys, ds: set<nat>, src: nat, next: Phys, pd: nat, t: nat) {
    && Private(phys, ds) && src in ds && pd !in ds && |next| == |phys| && Private(next, ds + {pd})
    && (forall p, d | p in ds && FIRST_PDE <= d <= LAST_PDE :: TableFrame(next, p, d) == TableFrame(phys, p, d))
    && (forall p, j | p in ds && 0 <= j <= USER_PAGES ::
          Entry(next, p, j) == if p == src && j < USER_PAGES then Protected(Entry(phys, p, j)) else Entry(phys, p, j))
    && (forall j | 0 <= j <= USER_PAGES ::
          Entry(next, pd, j) == if j == USER_PAGES then TrampEntry(t) else Protected(Entry(phys, src, j)))
  }

  /** The frames a fork took, and what they hold. */
  ghost predicate ForkedFrames(pool: Pool, phys: Phys, next: Phys, pd: nat, t: nat, taken: set<nat>)
    requires Shape(next, pd)
  {
    && |next| == |phys| && Sized(pool, phys)
    && |taken| == 5 && t in taken && pd in taken && t != pd
    && (forall f | f in taken :: f < |phys| && !pool.used[f])
    && (forall d | FIRST_PDE <= d <= LAST_PDE :: TableFrame(next, pd, d) in taken && TableFrame(next, pd, d) != t)
    && (forall f | f in taken && f != t :: !next[f].Data?)
    && next[t] == Data(TrampCode())
    && (forall f | 0 <= f < |phys| && pool.used[f] && phys[f].Data? :: next[f] == phys[f])
  }

  /** The frame pool after a fork: five frames taken, one more reference to each page of the parent. */
  ghost predicate ForkedPool(pool: Pool, phys: Phys, src: nat, now: Pool, taken: set<nat>)
    requires Shape(phys, src)
  {
    && |now.refs| == |now.used| == |pool.used| == |pool.refs|
    && now.free == pool.free - 5
    && (forall f | 0 <= f < |pool.used| :: now.used[f] == (pool.used[f] || f in taken))
    && (forall f | 0 <= f < |pool.refs| ::
          now.refs[f] == if f in taken then 1
                         else pool.refs[f] + if MapsBelow(phys, src, USER_PAGES, f) then 1 else 0)
  }

  ghost predicate ForkReady(pool: Pool, phys: Phys, ds: set<nat>, src: nat) {
    && AllReady(pool, phys, ds) && src in ds && Valid(pool)
    && OnePageEach(phys, src) && FramesExist(phys, src)
    && forall i | 0 <= i < USER_PAGES && Entry(phys, src, i).present ::
         var f := Entry(phys, src, i).frame;
         f != 0 && pool.used[f] && pool.refs[f] < REF_MAX
  }

  lemma ProtectBothTables(phys: Phys, ds: set<nat>, src: nat, pd: nat)
    requires Private(phys, ds + {pd}) && src in ds && pd !in ds
    ensures var next := ProtectBoth(phys, src, pd);
            && Private(next, ds + {pd}) && SameTables(phys, next, ds + {pd}) && SameData(phys, next)
            && forall p, j | p in ds + {pd} && 0 <= j <= USER_PAGES ::
                 Entry(next, p, j) == if (p == src || p == pd) && j < USER_PAGES then Protected(Entry(phys, p, j))
                                      else Entry(phys, p, j)
  {
    var child := Protect(phys, pd, USER_PAGES);
    ProtectMeaning(phys, ds + {pd}, pd, USER_PAGES);
    ProtectMeaning(child, ds + {pd}, src, USER_PAGES);
    var next := ProtectBoth(phys, src, pd);
    forall p, d | p in ds + {pd} && FIRST_PDE <= d <= LAST_PDE ensures TableFrame(next, p, d) == TableFrame(phys, p, d) {
      assert TableFrame(child, p, d) == TableFrame(phys, p, d);
    }
    forall p, j | p in ds + {pd} && 0 <= j <= USER_PAGES
      ensures Entry(next, p, j) == if (p == src || p == pd) && j < USER_PAGES then Protected(Entry(phys, p, j))
                                   else Entry(phys, p, j)
    {
      assert Entry(child, p, j) == if p == pd && j < USER_PAGES then Protected(Entry(phys, p, j)) else Entry(phys, p, j);
    }
  }

  lemma ForkTables(phys: Phys, ds: set<nat>, src: nat, t: nat, pool: Pool, now: Pool, ph: Phys, pd: nat, taken: set<nat>)
    requires IsClone(pool, phys, ds, src, t, now, ph, pd, taken)
    ensures ForkedTables(phys, ds, src, ProtectBoth(ph, src, pd), pd, t)
    ensures SameTables(ph, ProtectBoth(ph, src, pd), ds + {pd}) && SameData(ph, ProtectBoth(ph, src, pd))
  {
    ProtectBothTables(ph, ds, src, pd);
    var next := ProtectBoth(ph, src, pd);
    forall p, j | p in ds && 0 <= j <= USER_PAGES
      ensures Entry(next, p, j) == if p == src && j < USER_PAGES then Protected(Entry(phys, p, j)) else Entry(phys, p, j)
    {
      assert Entry(ph, p, j) == Entry(phys, p, j);
    }
    forall p, d | p in ds && FIRST_PDE <= d <= LAST_PDE ensures TableFrame(next, p, d) == TableFrame(phys, p, d) {
      assert TableFrame(next, p, d) == TableFrame(ph, p, d);
    }
  }

  lemma TrampolineKeeps(pool: Pool, phys: Phys, ds: set<nat>, p1: Pool, t: nat)
    requires AllReady(pool, phys, ds) && AllocPage(pool) == (p1, Some(t)) && t < |phys| && !pool.used[t]
    ensures AllReady(p1, WriteTrampoline(phys, t), ds) && SameTables(phys, WriteTrampoline(phys, t), ds)
    ensures forall p, j | p in ds && 0 <= j <= USER_PAGES :: Entry(WriteTrampoline(phys, t), p, j) == Entry(phys, p, j)
  {
    Untouched(pool, phys, WriteTrampoline(phys, t), ds, {t});
    forall p | p in ds ensures Ready(p1, WriteTrampoline(phys, t), p) {
      assert Ready(pool, phys, p);
      TrampolineReady(pool, phys, p, t);
    }
  }

  lemma ForkedTablesFrom(phys: Phys, ph1: Phys, ds: set<nat>, src: nat, next: Phys, pd: nat, t: nat)
    requires ForkedTables(ph1, ds, src, next, pd, t)
    requires Private(phys, ds) && SameTables(phys, ph1, ds)
    requires forall p, j | p in ds && 0 <= j <= USER_PAGES :: Entry(ph1, p, j) == Entry(phys, p, j)
    ensures ForkedTables(phys, ds, src, next, pd, t)
  {
    forall p, d | p in ds && FIRST_PDE <= d <= LAST_PDE ensures TableFrame(next, p, d) == TableFrame(phys, p, d) {
      assert TableFrame(next, p, d) == TableFrame(ph1, p, d);
    }
  }

  /** What the child maps after the fork is what the parent mapped before it. */
  lemma ForkedMaps(phys: Phys, ds: set<nat>, src: nat, next: Phys, pd: nat, t: nat, k: nat, f: nat)
    requires ForkedTables(phys, ds, src, next, pd, t) && k <= USER_PAGES
    ensures MapsBelow(next, pd, k, f) <==> MapsBelow(phys, src, k, f)
    ensures MapsBelow(next, src, k, f) <==> MapsBelow(phys, src, k, f)
  {
    assert forall i | 0 <= i < k :: Entry(next, pd, i) == Protected(Entry(phys, src, i));
    assert forall i | 0 <= i < k :: Entry(next, src, i) == Protected(Entry(phys, src, i));
    if MapsBelow(phys, src, k, f) {
      var i :| 0 <= i < k && Entry(phys, src, i).present && Entry(phys, src, i).frame == f;
      assert Entry(next, pd, i).present && Entry(next, pd, i).frame == f;
      assert Entry(next, src, i).present && Entry(next, src, i).frame == f;
    }
  }

  lemma ChildPages(pool: Pool, phys: Phys, ds: set<nat>, src: nat, p2: Pool, next: Phys, pd: nat, t: nat, taken: set<nat>)
    requires ForkReady(pool, phys, ds, src) && ForkedTables(phys, ds, src, next, pd, t) && Grown(pool, p2, taken)
    ensures OnePageEach(next, pd) && FramesExist(next, pd)
    ensures forall i | 0 <= i < USER_PAGES && Entry(next, pd, i).present ::
              Entry(next, pd, i).frame != 0 && p2.refs[Entry(next, pd, i).frame] < REF_MAX
    ensures forall f | f in taken :: !MapsBelow(phys, src, USER_PAGES, f)
  {
    forall i | 0 <= i < USER_PAGES ensures Entry(next, pd, i) == Protected(Entry(phys, src, i)) {
    }
    forall i | 0 <= i < USER_PAGES && Entry(next, pd, i).present
      ensures Entry(next, pd, i).frame != 0 && Entry(next, pd, i).frame < |next|
      ensures p2.refs[Entry(next, pd, i).frame] < REF_MAX
    {
      var e := Entry(phys, src, i);
      assert pool.used[e.frame];
    }
  }

  lemma ForkCounts(pool: Pool, phys: Phys, ds: set<nat>, src: nat, p2: Pool, next: Phys, pd: nat, t: nat, taken: set<nat>)
    requires ForkReady(pool, phys, ds, src) && ForkedTables(phys, ds, src, next, pd, t)
    requires Grown(pool, p2, taken) && |taken| == 5
    ensures ForkedPool(pool, phys, src, IncRefs(p2, next, pd, USER_PAGES), taken)
    ensures IncRefs(p2, next, pd, USER_PAGES).used == p2.used && IncRefs(p2, next, pd, USER_PAGES).free == p2.free
  {
    ChildPages(pool, phys, ds, src, p2, next, pd, t, taken);
    IncRefsMeaning(p2, next, pd, USER_PAGES);
    var now := IncRefs(p2, next, pd, USER_PAGES);
    forall f | 0 <= f < |pool.refs|
      ensures now.refs[f] == if f in taken then 1
                             else pool.refs[f] + if MapsBelow(phys, src, USER_PAGES, f) then 1 else 0
    {
      ForkedMaps(phys, ds, src, next, pd, t, USER_PAGES, f);
    }
  }

  /** With six steps spelled out: trampoline, clone, protection. */
  lemma CowCopySteps(pool: Pool, phys: Phys, ds: set<nat>, src: nat)
      returns (p1: Pool, t: nat, p2: Pool, ph2: Phys, pd: nat, tk: set<nat>)
    requires AllReady(pool, phys, ds) && src in ds && Valid(pool) && pool.free >= 5
    ensures t < |phys| && !pool.used[t] && Grown(pool, p1, {t})
    ensures AllReady(p1, WriteTrampoline(phys, t), ds) && SameTables(phys, WriteTrampoline(phys, t), ds)
    ensures forall p, j | p in ds && 0 <= j <= USER_PAGES :: Entry(WriteTrampoline(phys, t), p, j) == Entry(phys, p, j)
    ensures IsClone(p1, WriteTrampoline(phys, t), ds, src, t, p2, ph2, pd, tk) && Valid(p2)
    ensures Ready(pool, phys, src) && Sized(p2, ProtectBoth(ph2, src, pd))
    ensures CowCopy(pool, phys, src) ==
            (IncRefs(p2, ProtectBoth(ph2, src, pd), pd, USER_PAGES), ProtectBoth(ph2, src, pd), Some((pd, t)))
  {
    assert Ready(pool, phys, src);
    AllocPageMeaning(pool);
    p1 := AllocPage(pool).0;
    t := AllocPage(pool).1.value;
    TrampolineKeeps(pool, phys, ds, p1, t);
    pd, tk := CloneWorks(p1, WriteTrampoline(phys, t), ds, src, t);
    p2 := CloneUserPd(p1, WriteTrampoline(phys, t), src, t).0;
    ph2 := CloneUserPd(p1, WriteTrampoline(phys, t), src, t).1;
  }

  /** With five free frames the fork succeeds; the three predicates say what it leaves. */
  lemma CowCopyWorks(pool: Pool, phys: Phys, ds: set<nat>, src: nat) returns (pd: nat, t: nat, taken: set<nat>)
    requires ForkReady(pool, phys, ds, src) && pool.free >= 5
    ensures Ready(pool, phys, src)
    ensures var (now, next, r) := CowCopy(pool, phys, src);
            && r == Some((pd, t)) && Valid(now)
            && ForkedTables(phys, ds, src, next, pd, t)
            && ForkedFrames(pool, phys, next, pd, t, taken)
            && ForkedPool(pool, phys, src, now, taken)
  {
    var p1, p2, ph2, tk;
    p1, t, p2, ph2, pd, tk := CowCopySteps(pool, phys, ds, src);
    var ph1 := WriteTrampoline(phys, t);
    ForkTables(ph1, ds, src, t, p1, p2, ph2, pd, tk);
    var next := ProtectBoth(ph2, src, pd);
    ForkedTablesFrom(phys, ph1, ds, src, next, pd, t);
    GrownTrans(pool, p1, p2, {t}, tk);
    taken := {t} + tk;
    ForkCounts(pool, phys, ds, src, p2, next, pd, t, taken);
    ProtectKinds(ph2, src, pd);
    ForkFramesHold(pool, phys, ds, src, t, p1, p2, ph2, pd, tk, next);
  }

  lemma ForkFramesHold(pool: Pool, phys: Phys, ds: set<nat>, src: nat, t: nat,
                       p1: Pool, p2: Pool, ph2: Phys, pd: nat, tk: set<nat>, next: Phys)
    requires Sized(pool, phys) && t < |phys| && !pool.used[t] && Grown(pool, p1, {t})
    requires IsClone(p1, WriteTrampoline(phys, t), ds, src, t, p2, ph2, pd, tk)
    requires SameTables(ph2, next, ds + {pd}) && SameData(ph2, next) && Private(next, ds + {pd})
    requires forall f | 0 <= f < |ph2| :: next[f].Data? == ph2[f].Data?
    ensures ForkedFrames(pool, phys, next, pd, t, {t} + tk)
  {
    var taken := {t} + tk;
    assert t !in tk;
    forall d | FIRST_PDE <= d <= LAST_PDE ensures TableFrame(next, pd, d) in taken && TableFrame(next, pd, d) != t {
      assert TableFrame(next, pd, d) == TableFrame(ph2, pd, d);
    }
    assert ph2[t] == Data(TrampCode());
  }

  lemma {:induction false} ProtectKind(phys: Phys, pd: nat, k: nat, f: nat)
    requires Shape(phys, pd) && k <= USER_PAGES && f < |phys|
    ensures Protect(phys, pd, k)[f].Data? == phys[f].Data?
    decreases k
  {
    if k > 0 {
      ProtectKind(phys, pd, k - 1, f);
    }
  }

  lemma ProtectKinds(phys: Phys, src: nat, pd: nat)
    requires Shape(phys, src) && Shape(phys, pd)
    ensures forall f | 0 <= f < |phys| :: ProtectBoth(phys, src, pd)[f].Data? == phys[f].Data?
  {
    var child := Protect(phys, pd, USER_PAGES);
    ProtectShapes(phys, pd, USER_PAGES, src);
    forall f | 0 <= f < |phys| ensures ProtectBoth(phys, src, pd)[f].Data? == phys[f].Data? {
      ProtectKind(phys, pd, USER_PAGES, f);
      ProtectKind(child, src, USER_PAGES, f);
    }
  }

  // ---------------------------------------------------------------- too few frames

  /**
   Two, three or four free frames: the clean-up of the failed clone gives back page tables that
   the parent's directory still names, so a table of a live directory ends up marked free.
   */
  lemma CowCopyBreaks(pool: Pool, phys: Phys, ds: set<nat>, src: nat)
    requires AllReady(pool, phys, ds) && src in ds && Valid(pool) && 2 <= pool.free <= 4
    requires pool.refs[TableFrame(phys, src, LAST_PDE)] == 1
    ensures Ready(pool, phys, src)
    ensures var (now, next, r) := CowCopy(pool, phys, src);
            && r.None? && Shape(next, src)
            && !now.used[TableFrame(next, src, LAST_PDE)]
  {
    assert Ready(pool, phys, src);
    AllocPageMeaning(pool);
    var p1 := AllocPage(pool).0;
    var t := AllocPage(pool).1.value;
    TrampolineKeeps(pool, phys, ds, p1, t);
    var ph1 := WriteTrampoline(phys, t);
    AllocPageMeaning(p1);
    var p2 := AllocPage(p1).0;
    var pd := AllocPage(p1).1.value;
    FreshDirectory(p1, p2, ph1, src, pd);
    var copied := CopyDirectory(ph1, src, pd);
    assert Grown(p2, p2, {});
    assert Cloned(p2, copied, src, pd, FIRST_PDE, p2, copied, {});
    assert TableFrame(copied, src, LAST_PDE) == TableFrame(ph1, src, LAST_PDE) == TableFrame(phys, src, LAST_PDE);
    assert pool.used[TableFrame(phys, src, LAST_PDE)];
    CloneTablesFails(p2, copied, src, pd, FIRST_PDE, p2, copied, {});
    var p3 := CloneTables(p2, copied, src, pd, FIRST_PDE).0;
    UnrefLowers(p3, t, TableFrame(phys, src, LAST_PDE));
  }

  /** No frame, or only one: the fork is refused and every used frame is as it was. */
  lemma CowCopyRefused(pool: Pool, phys: Phys, ds: set<nat>, src: nat)
    requires AllReady(pool, phys, ds) && src in ds && Valid(pool) && pool.free < 2
    ensures Ready(pool, phys, src)
    ensures var (now, next, r) := CowCopy(pool, phys, src);
            && r.None? && now.used == pool.used && now.free == pool.free && Valid(now)
            && (forall f | 0 <= f < |pool.used| && pool.used[f] :: next[f] == phys[f] && now.refs[f] == pool.refs[f])
  {
    assert Ready(pool, phys, src);
    AllocPageMeaning(pool);
    if pool.free == 1 {
      var p1 := AllocPage(pool).0;
      var t := AllocPage(pool).1.value;
      TrampolineKeeps(pool, phys, ds, p1, t);
      AllocPageMeaning(p1);
      UnrefMeaning(p1, t);
      assert Unref(p1, t).used == pool.used;
    }
  }
}
