/**
 What exec does to the pages it inherits (`mm_user_detach_pages` of `src/mm.c`): afterwards every mapped
 page of the space is writable and its frame belongs to that space alone.
 */
module CowDetach {
  import opened Frames
  import opened Paging
  import opened CowOps
  import opened Cow
  import opened CowWrite
  import opened CowRuns

  // ---------------------------------------------------------------- one page

  /** What becomes of an entry: mapped as before, then writable, and in another frame only if it was shared. */
  predicate Privatised(was: Pte, e: Pte, shared: bool) {
    e.present == was.present && (was.present ==> e.writable) && (e.frame == was.frame || shared)
  }

  /** The turn of the loop at page `k`, without saying how: one page becomes private, at the price of a frame if it is shared. */
  ghost predicate Turned(m: Mem, s: nat, k: nat, n: Mem) {
    && Tables(m) && Tables(n) && s in m.spaces && k < USER_PAGES && n.spaces == m.spaces && n.procs == m.procs
    && n.pool.free == m.pool.free - (if SharedPage(m, s, k) then 1 else 0)
    && Privatised(Entry(m.phys, s, k), Entry(n.phys, s, k), SharedPage(m, s, k))
    && (forall p, j | p in m.spaces && 0 <= j < USER_PAGES && (p != s || j != k) :: Entry(n.phys, p, j) == Entry(m.phys, p, j))
    && (forall j | 0 <= j < USER_PAGES && j != k :: SharedPage(n, s, j) == SharedPage(m, s, j))
  }

  lemma UnsharedTurn(m: Mem, s: nat, k: nat, n: Mem)
    requires Tables(m) && Pages(m) && s in m.spaces && k < USER_PAGES && Entry(m.phys, s, k).present
    requires !SharedPage(m, s, k) && n == m.(phys := SetEntry(m.phys, s, k, Entry(m.phys, s, k).(writable := true)))
    ensures Turned(m, s, k, n)
  {
    UnsharedEntry(m, s, k, n);
    UnsharedMaps(m, s, k, n);
    forall j | 0 <= j < USER_PAGES && j != k ensures SharedPage(n, s, j) == SharedPage(m, s, j) {
      SameMappers(m, n, Entry(m.phys, s, j).frame);
    }
  }

  /** The other pages of the space keep their frames, and so their mappers. */
  lemma OtherShared(m: Mem, s: nat, k: nat, f: nat, n: Mem, j: nat)
    requires Tables(m) && Pages(m) && s in m.spaces && k < USER_PAGES && j < USER_PAGES && j != k
    requires Entry(m.phys, s, k).present && MovedMaps(m, s, Entry(m.phys, s, k).frame, f, n)
    requires Entry(n.phys, s, j) == Entry(m.phys, s, j)
    ensures SharedPage(n, s, j) == SharedPage(m, s, j)
  {
    var e := Entry(m.phys, s, j);
    if e.present {
      assert OnePageEach(m.phys, s);
      assert e.frame != Entry(m.phys, s, k).frame;
      assert MapsBelow(m.phys, s, USER_PAGES, e.frame);
      MovedMappers(m, s, Entry(m.phys, s, k).frame, f, n, e.frame);
    }
  }

  lemma CopiedTurn(m: Mem, s: nat, k: nat, f: nat, n: Mem)
    requires Tables(m) && Pages(m) && s in m.spaces && SharedPage(m, s, k) && Copied(m, s, k, f, n)
    ensures Turned(m, s, k, n)
  {
    CopiedMoved(m, s, k, f, n);
    forall j | 0 <= j < USER_PAGES && j != k ensures SharedPage(n, s, j) == SharedPage(m, s, j) {
      OtherShared(m, s, k, f, n, j);
    }
  }

  /** A turn fails exactly when the page is shared and no frame is free, and then changes nothing. */
  lemma DetachOneMeans(m: Mem, base: set<nat>, s: nat, k: nat)
    requires Inv(m, base) && s in m.spaces && k < USER_PAGES
    ensures var (n, ok) := DetachOne(m, s, k);
            && (ok <==> (SharedPage(m, s, k) ==> m.pool.free > 0))
            && (if ok then Turned(m, s, k, n) else n == m)
  {
    var e := Entry(m.phys, s, k);
    var (n, ok) := DetachOne(m, s, k);
    if e.present && !e.writable {
      WritableCases(m, s, k);
      assert PageOk(m, e);
      if m.pool.refs[e.frame] <= 1 {
        UnsharedTurn(m, s, k, n);
      } else if m.pool.free > 0 {
        CopiedTurn(m, s, k, AllocPage(m.pool).1.value, n);
      }
    }
  }

  // ---------------------------------------------------------------- all pages

  lemma {:induction false} SharedAlike(m: Mem, n: Mem, s: nat, k: nat)
    requires Tables(m) && Tables(n) && s in m.spaces && s in n.spaces && k <= USER_PAGES
    requires forall j | k <= j < USER_PAGES :: SharedPage(n, s, j) == SharedPage(m, s, j)
    ensures SharedPages(n, s, k) == SharedPages(m, s, k)
    decreases USER_PAGES - k
  {
    if k < USER_PAGES {
      SharedAlike(m, n, s, k + 1);
    }
  }

  /** Pages from `k` on are private to `s`, where they are mapped; a page that was not shared has not moved. */
  ghost predicate Freed(m: Mem, s: nat, k: nat, n: Mem) {
    && Tables(m) && Tables(n) && s in m.spaces && n.spaces == m.spaces && n.procs == m.procs
    && forall j | k <= j < USER_PAGES :: Privatised(Entry(m.phys, s, j), Entry(n.phys, s, j), SharedPage(m, s, j))
  }

  /** Everything else maps as before. */
  ghost predicate Elsewhere(m: Mem, s: nat, k: nat, n: Mem) {
    && Tables(m) && Tables(n) && s in m.spaces && n.spaces == m.spaces
    && forall p, j | p in m.spaces && 0 <= j < USER_PAGES && (p != s || j < k) :: Entry(n.phys, p, j) == Entry(m.phys, p, j)
  }

  lemma FreedOn(m: Mem, s: nat, k: nat, w: Mem, n: Mem)
    requires Turned(m, s, k, w) && Freed(w, s, k + 1, n) && Elsewhere(w, s, k + 1, n)
    ensures Freed(m, s, k, n)
  {
    forall j | k <= j < USER_PAGES ensures Privatised(Entry(m.phys, s, j), Entry(n.phys, s, j), SharedPage(m, s, j)) {
      if j == k {
        assert Entry(n.phys, s, k) == Entry(w.phys, s, k);
      } else {
        assert Entry(w.phys, s, j) == Entry(m.phys, s, j);
      }
    }
  }

  lemma ElsewhereOn(m: Mem, s: nat, k: nat, w: Mem, n: Mem)
    requires Turned(m, s, k, w) && Elsewhere(w, s, k + 1, n)
    ensures Elsewhere(m, s, k, n)
  {
    forall p, j | p in m.spaces && 0 <= j < USER_PAGES && (p != s || j < k) ensures Entry(n.phys, p, j) == Entry(m.phys, p, j) {
      assert Entry(n.phys, p, j) == Entry(w.phys, p, j);
    }
  }

  /**
   The loop from page `k` on: it succeeds exactly when the free frames cover the shared pages, takes one
   frame for each of them, and stops with no frame left otherwise.
   */
  ghost predicate Outcome(m: Mem, s: nat, k: nat, n: Mem, ok: bool)
    requires k <= USER_PAGES
  {
    && Elsewhere(m, s, k, n)
    && (ok <==> m.pool.free >= SharedPages(m, s, k))
    && (ok ==> Freed(m, s, k, n) && n.pool.free == m.pool.free - SharedPages(m, s, k))
    && (!ok ==> n.pool.free == 0)
  }

  lemma OutcomeOn(m: Mem, s: nat, k: nat, w: Mem, n: Mem, ok: bool)
    requires Turned(m, s, k, w) && Outcome(w, s, k + 1, n, ok)
    ensures Outcome(m, s, k, n, ok)
  {
    SharedAlike(m, w, s, k + 1);
    ElsewhereOn(m, s, k, w, n);
    if ok {
      FreedOn(m, s, k, w, n);
    }
  }

  lemma OutcomeStops(m: Mem, s: nat, k: nat)
    requires Tables(m) && s in m.spaces && SharedPage(m, s, k) && m.pool.free == 0
    ensures Outcome(m, s, k, m, false)
  {
  }

  lemma DetachTurnMeans(m: Mem, base: set<nat>, s: nat, k: nat) returns (w: Mem, ok: bool)
    requires Inv(m, base) && s in m.spaces && k < USER_PAGES
    ensures Inv(w, base) && s in w.spaces
    ensures if ok then Turned(m, s, k, w) else w == m && SharedPage(m, s, k) && m.pool.free == 0
    ensures DetachFrom(m, s, k) == if ok then DetachFrom(w, s, k + 1) else (w, false)
  {
    DetachOneMeans(m, base, s, k);
    DetachOneKeeps(m, base, s, k);
    w, ok := DetachOne(m, s, k).0, DetachOne(m, s, k).1;
  }

  lemma {:induction false} DetachFromMeans(m: Mem, base: set<nat>, s: nat, k: nat) returns (n: Mem, ok: bool)
    requires Inv(m, base) && s in m.spaces && k <= USER_PAGES
    ensures DetachFrom(m, s, k) == (n, ok) && Outcome(m, s, k, n, ok)
    decreases USER_PAGES - k
  {
    if k == USER_PAGES {
      n, ok := m, true;
    } else {
      n, ok := DetachTurnMeans(m, base, s, k);
      if ok {
        var w := n;
        n, ok := DetachFromMeans(w, base, s, k + 1);
        OutcomeOn(m, s, k, w, n, ok);
      } else {
        OutcomeStops(m, s, k);
      }
    }
  }

  /** `s` maps page `i` writable, and no other space maps its frame. */
  ghost predicate Own(n: Mem, s: nat, i: nat)
    requires Tables(n) && s in n.spaces && i < USER_PAGES
  {
    var e := Entry(n.phys, s, i);
    e.writable && forall p, j | p in n.spaces && 0 <= j < USER_PAGES && Entry(n.phys, p, j).present && Entry(n.phys, p, j).frame == e.frame ::
                    p == s && j == i
  }

  /** A writable page has one mapper, which is its own space. */
  lemma WritableOwn(n: Mem, s: nat, i: nat)
    requires Tables(n) && Pages(n) && s in n.spaces && i < USER_PAGES
    requires Entry(n.phys, s, i).present && Entry(n.phys, s, i).writable
    ensures Own(n, s, i)
  {
    var e := Entry(n.phys, s, i);
    assert PageOk(n, e);
    forall p, j | p in n.spaces && 0 <= j < USER_PAGES && Entry(n.phys, p, j).present && Entry(n.phys, p, j).frame == e.frame
      ensures p == s && j == i
    {
      SoleMapper(n, s, i, p, j);
    }
  }

  /**
   exec's detach. It succeeds if and only if the free frames cover the protected pages whose frame
   something else maps; then every mapped page is writable in a frame of its own, the same pages are
   mapped as before, those that were not shared in the same frames, and one frame went for each of the
   others. When it fails no frame is left. Every page of every space reads as before either way.
   */
  lemma DetachIff(m: Mem, base: set<nat>, s: nat)
    requires Inv(m, base) && s in m.spaces
    ensures var (n, ok) := Detach(m, s);
            && Inv(n, base) && n.spaces == m.spaces && n.procs == m.procs
            && Outcome(m, s, 0, n, ok)
            && (ok ==> forall i | 0 <= i < USER_PAGES && Entry(n.phys, s, i).present :: Own(n, s, i))
            && forall p | p in m.spaces :: View(n, p) == View(m, p)
  {
    var n, ok := DetachFromMeans(m, base, s, 0);
    var same := DetachKeeps(m, base, s, 0);
    if ok {
      forall i | 0 <= i < USER_PAGES && Entry(n.phys, s, i).present ensures Own(n, s, i) {
        WritableOwn(n, s, i);
      }
    }
  }

  /** A store to such a page never lacks a frame, however few are left. */
  lemma OwnStores(n: Mem, base: set<nat>, s: nat, i: nat, at: nat, b: Byte)
    requires Inv(n, base) && s in n.spaces && i < USER_PAGES && at < PAGE_SIZE && Entry(n.phys, s, i).present && Own(n, s, i)
    ensures UserStore(n, s, i, at, b).1 && UserStore(n, s, i, at, b).0.pool == n.pool
  {
    WritableCases(n, s, i);
    StoreKeeps(n, base, s, i, at, b);
  }
}
