/**
 A write to a shared page: the writer's entry moves to a fresh copy, and no other space notices.
 */
module CowWrite {
  import opened Options
  import opened Frames
  import opened Paging
  import opened CowOps
  import opened CowFork
  import opened Cow

  // ---------------------------------------------------------------- the copied page

  function CopyEntry(e: Pte, f: nat): Pte { e.(writable := true, frame := f) }

  lemma CopiedEntry(m: Mem, s: nat, i: nat, f: nat, n: Mem)
    requires Tables(m) && s in m.spaces && i < USER_PAGES && Copied(m, s, i, f, n)
    requires m.phys[Entry(m.phys, s, i).frame].Data? && m.pool.used[Entry(m.phys, s, i).frame]
    ensures OneEntry(m, s, i, CopyEntry(Entry(m.phys, s, i), f), n)
    ensures n.phys[f] == m.phys[Entry(m.phys, s, i).frame]
    ensures forall g | 0 <= g < |m.phys| && g != f && m.phys[g].Data? :: n.phys[g] == m.phys[g]
  {
    var e := Entry(m.phys, s, i);
    var copied := m.phys[f := m.phys[e.frame]];
    var ds := m.spaces.Keys;
    Untouched(m.pool, m.phys, copied, ds, {f});
    SetEntryFrame(copied, ds, s, i, CopyEntry(e, f));
    CountUpdate(m.pool.used, f, true);
    forall p, d | p in ds && FIRST_PDE <= d <= LAST_PDE ensures TableFrame(n.phys, p, d) == TableFrame(m.phys, p, d) {
      assert TableFrame(copied, p, d) == TableFrame(m.phys, p, d);
    }
    OneEntryReady(m, s, i, CopyEntry(e, f), n.pool, n.phys);
    forall p, j | p in m.spaces && 0 <= j <= USER_PAGES
      ensures Entry(n.phys, p, j) == if p == s && j == i then CopyEntry(e, f) else Entry(m.phys, p, j)
    {
      assert Entry(copied, p, j) == Entry(m.phys, p, j);
    }
  }

  lemma UnusedUnmapped(m: Mem, p: nat, f: nat)
    requires Tables(m) && Pages(m) && p in m.spaces && f < |m.phys| && !m.pool.used[f]
    ensures !MapsBelow(m.phys, p, USER_PAGES, f)
  {
    forall j | 0 <= j < USER_PAGES && Entry(m.phys, p, j).present ensures Entry(m.phys, p, j).frame != f {
      assert PageOk(m, Entry(m.phys, p, j));
    }
  }

  /** What `Copied` does to the frames a space maps. */
  ghost predicate MovedMaps(m: Mem, s: nat, from: nat, f: nat, n: Mem) {
    && Tables(m) && Tables(n) && n.spaces == m.spaces && n.procs == m.procs && s in m.spaces && from != f
    && SameTables(m.phys, n.phys, m.spaces.Keys)
    && (forall p | p in m.spaces :: !MapsBelow(m.phys, p, USER_PAGES, f))
    && MapsBelow(m.phys, s, USER_PAGES, from)
    && (forall p, g | p in m.spaces && p != s ::
          MapsBelow(n.phys, p, USER_PAGES, g) <==> MapsBelow(m.phys, p, USER_PAGES, g))
    && (forall g: nat :: MapsBelow(n.phys, s, USER_PAGES, g) <==>
          g == f || (g != from && MapsBelow(m.phys, s, USER_PAGES, g)))
  }

  lemma CopiedMaps(m: Mem, s: nat, i: nat, f: nat, n: Mem)
    requires Tables(m) && Pages(m) && s in m.spaces && i < USER_PAGES && Copied(m, s, i, f, n)
    requires Entry(m.phys, s, i).present
    requires OneEntry(m, s, i, CopyEntry(Entry(m.phys, s, i), f), n)
    ensures MovedMaps(m, s, Entry(m.phys, s, i).frame, f, n)
  {
    var e := Entry(m.phys, s, i);
    assert PageOk(m, e);
    assert OnePageEach(m.phys, s);
    forall p | p in m.spaces ensures !MapsBelow(m.phys, p, USER_PAGES, f) {
      UnusedUnmapped(m, p, f);
    }
    forall p, g | p in m.spaces && p != s
      ensures MapsBelow(n.phys, p, USER_PAGES, g) <==> MapsBelow(m.phys, p, USER_PAGES, g)
    {
      OneEntryMaps(m, s, i, CopyEntry(e, f), n, p, g);
    }
    forall g: nat ensures MapsBelow(n.phys, s, USER_PAGES, g) <==>
                     g == f || (g != e.frame && MapsBelow(m.phys, s, USER_PAGES, g))
    {
      OneEntryMaps(m, s, i, CopyEntry(e, f), n, s, g);
    }
  }

  lemma MovedMappers(m: Mem, s: nat, from: nat, f: nat, n: Mem, g: nat)
    requires MovedMaps(m, s, from, f, n)
    ensures Mappers(n, g) == if g == f then {s} else if g == from then Mappers(m, g) - {s} else Mappers(m, g)
    ensures s in Mappers(m, from)
  {
    forall p | p in m.spaces
      ensures p in Mappers(n, g) <==> p in if g == f then {s} else if g == from then Mappers(m, g) - {s} else Mappers(m, g)
    {
    }
  }

  lemma CopiedPageOk(m: Mem, s: nat, i: nat, f: nat, n: Mem, p: nat, j: nat)
    requires Tables(m) && Pages(m) && s in m.spaces && i < USER_PAGES && Copied(m, s, i, f, n) && f != 0
    requires Entry(m.phys, s, i).present
    requires OneEntry(m, s, i, CopyEntry(Entry(m.phys, s, i), f), n)
    requires MovedMaps(m, s, Entry(m.phys, s, i).frame, f, n)
    requires n.phys[f].Data?
    requires forall g | 0 <= g < |m.phys| && g != f && m.phys[g].Data? :: n.phys[g] == m.phys[g]
    requires p in m.spaces && j < USER_PAGES && Entry(n.phys, p, j).present
    ensures PageOk(n, Entry(n.phys, p, j))
  {
    var e := Entry(m.phys, s, i);
    assert PageOk(m, e);
    if p == s && j == i {
      MovedMappers(m, s, e.frame, f, n, f);
    } else {
      var u := Entry(m.phys, p, j);
      assert Entry(n.phys, p, j) == u;
      assert PageOk(m, u);
      OtherPageOk(m, s, i, f, n, u);
    }
  }

  lemma OtherPageOk(m: Mem, s: nat, i: nat, f: nat, n: Mem, u: Pte)
    requires Tables(m) && Tables(n) && s in m.spaces && i < USER_PAGES && Copied(m, s, i, f, n)
    requires PageOk(m, Entry(m.phys, s, i)) && PageOk(m, u)
    requires MovedMaps(m, s, Entry(m.phys, s, i).frame, f, n)
    requires forall g | 0 <= g < |m.phys| && g != f && m.phys[g].Data? :: n.phys[g] == m.phys[g]
    ensures PageOk(n, u)
  {
    MovedMappers(m, s, Entry(m.phys, s, i).frame, f, n, u.frame);
  }

  lemma CopiedPages(m: Mem, s: nat, i: nat, f: nat, n: Mem)
    requires Tables(m) && Pages(m) && s in m.spaces && i < USER_PAGES && Copied(m, s, i, f, n) && f != 0
    requires Entry(m.phys, s, i).present
    requires OneEntry(m, s, i, CopyEntry(Entry(m.phys, s, i), f), n)
    requires MovedMaps(m, s, Entry(m.phys, s, i).frame, f, n)
    requires n.phys[f].Data?
    requires forall g | 0 <= g < |m.phys| && g != f && m.phys[g].Data? :: n.phys[g] == m.phys[g]
    ensures Pages(n)
  {
    forall p, j | p in n.spaces && 0 <= j < USER_PAGES && Entry(n.phys, p, j).present
      ensures PageOk(n, Entry(n.phys, p, j))
    {
      CopiedPageOk(m, s, i, f, n, p, j);
    }
    forall p | p in n.spaces ensures OnePageEach(n.phys, p) {
      assert OnePageEach(m.phys, p);
      forall j, k | 0 <= j < k < USER_PAGES && Entry(n.phys, p, j).present && Entry(n.phys, p, k).present
        ensures Entry(n.phys, p, j).frame != Entry(n.phys, p, k).frame
      {
        assert !MapsBelow(m.phys, p, USER_PAGES, f);
      }
    }
  }

  lemma CopiedTrampoline(m: Mem, s: nat, from: nat, f: nat, n: Mem, t: nat)
    requires MovedMaps(m, s, from, f, n) && IsTrampoline(m, t) && |n.phys| == |m.phys|
    requires f < |m.phys| && !m.pool.used[f] && from < |m.phys| && m.pool.refs[from] > 1
    requires n.pool.used == m.pool.used[f := true]
    requires n.pool.refs == m.pool.refs[f := 1][from := m.pool.refs[from] - 1]
    requires forall g | 0 <= g < |m.phys| && g != f && m.phys[g].Data? :: n.phys[g] == m.phys[g]
    ensures IsTrampoline(n, t)
  {
    assert t != from && t != f;
    forall p | p in n.spaces ensures !MapsBelow(n.phys, p, USER_PAGES, t) {
      assert !MapsBelow(m.phys, p, USER_PAGES, t);
    }
  }

  lemma CopiedControlRefs(m: Mem, from: nat, f: nat, n: Mem, u: nat)
    requires Tables(m) && Control(m) && Tables(n) && n.spaces == m.spaces && u in m.spaces
    requires SameTables(m.phys, n.phys, m.spaces.Keys)
    requires from < |m.phys| && f < |m.phys| && !m.pool.used[f] && m.phys[from].Data? && m.pool.refs[from] > 1
    requires n.pool.refs == m.pool.refs[f := 1][from := m.pool.refs[from] - 1]
    ensures n.pool.refs[u] == 1
    ensures forall d | FIRST_PDE <= d <= LAST_PDE :: n.pool.refs[TableFrame(n.phys, u, d)] == 1
  {
    assert Ready(m.pool, m.phys, u);
    forall d | FIRST_PDE <= d <= LAST_PDE ensures n.pool.refs[TableFrame(n.phys, u, d)] == 1 {
      assert TableFrame(n.phys, u, d) == TableFrame(m.phys, u, d);
    }
  }

  lemma MovedControl(m: Mem, s: nat, from: nat, f: nat, n: Mem)
    requires MovedMaps(m, s, from, f, n) && Control(m) && |n.phys| == |m.phys|
    requires f < |m.phys| && !m.pool.used[f] && from < |m.phys| && m.pool.refs[from] > 1 && m.phys[from].Data?
    requires n.pool.used == m.pool.used[f := true]
    requires n.pool.refs == m.pool.refs[f := 1][from := m.pool.refs[from] - 1]
    requires forall g | 0 <= g < |m.phys| && g != f && m.phys[g].Data? :: n.phys[g] == m.phys[g]
    ensures Control(n)
  {
    forall u | u in n.spaces
      ensures n.pool.refs[u] == 1 && IsTrampoline(n, n.spaces[u].tramp)
      ensures forall d | FIRST_PDE <= d <= LAST_PDE :: n.pool.refs[TableFrame(n.phys, u, d)] == 1
    {
      CopiedControlRefs(m, from, f, n, u);
      CopiedTrampoline(m, s, from, f, n, m.spaces[u].tramp);
    }
  }

  lemma MovedHeld(m: Mem, s: nat, from: nat, f: nat, n: Mem, g: nat)
    requires MovedMaps(m, s, from, f, n)
    requires |Mappers(m, from)| > 1
    ensures Held(n, g) <==> Held(m, g) || g == f
  {
    MovedMappers(m, s, from, f, n, from);
    var others := Mappers(m, from) - {s};
    assert |others| > 0;
    var o :| o in others;
    assert MapsBelow(n.phys, o, USER_PAGES, from) && HeldBy(n, o, from);
    assert HeldBy(n, s, f);
    forall p | p in m.spaces
      ensures p != s ==> (HeldBy(n, p, g) <==> HeldBy(m, p, g))
      ensures HeldBy(n, s, g) ==> HeldBy(m, s, g) || g == f
      ensures HeldBy(m, s, g) ==> HeldBy(n, s, g) || g == from
    {
      forall d | FIRST_PDE <= d <= LAST_PDE
        ensures TableFrame(n.phys, p, d) == TableFrame(m.phys, p, d) && TableFrame(n.phys, s, d) == TableFrame(m.phys, s, d)
      {
      }
    }
  }

  lemma MovedExact(m: Mem, base: set<nat>, s: nat, from: nat, f: nat, n: Mem)
    requires MovedMaps(m, s, from, f, n) && Exact(m, base) && |Mappers(m, from)| > 1
    requires f < |m.pool.used| && !m.pool.used[f] && n.pool.used == m.pool.used[f := true]
    ensures Exact(n, base)
  {
    forall g | 0 <= g < |n.pool.used| ensures n.pool.used[g] <==> g in base || Held(n, g) {
      MovedHeld(m, s, from, f, n, g);
    }
    forall g | g in base ensures g < |n.pool.used| && !Held(n, g) {
      MovedHeld(m, s, from, f, n, g);
      assert m.pool.used[g];
    }
  }

  /** MovedMaps, with the frame pool and the data that go with it. */
  ghost predicate Moved(m: Mem, s: nat, from: nat, f: nat, n: Mem) {
    && MovedMaps(m, s, from, f, n) && |n.phys| == |m.phys|
    && f < |m.phys| && !m.pool.used[f] && from < |m.phys| && m.phys[from].Data?
    && m.pool.refs[from] == |Mappers(m, from)| > 1
    && n.pool.used == m.pool.used[f := true]
    && n.pool.refs == m.pool.refs[f := 1][from := m.pool.refs[from] - 1]
    && n.phys[f] == m.phys[from]
    && forall g | 0 <= g < |m.phys| && g != f && m.phys[g].Data? :: n.phys[g] == m.phys[g]
  }

  lemma CopiedMoved(m: Mem, s: nat, i: nat, f: nat, n: Mem)
    requires Tables(m) && Pages(m) && s in m.spaces && i < USER_PAGES && Copied(m, s, i, f, n)
    requires Entry(m.phys, s, i).present
    ensures OneEntry(m, s, i, CopyEntry(Entry(m.phys, s, i), f), n)
    ensures Moved(m, s, Entry(m.phys, s, i).frame, f, n)
  {
    assert PageOk(m, Entry(m.phys, s, i));
    CopiedEntry(m, s, i, f, n);
    CopiedMaps(m, s, i, f, n);
  }

  lemma MovedKeeps(m: Mem, base: set<nat>, s: nat, from: nat, f: nat, n: Mem)
    requires Moved(m, s, from, f, n) && Control(m) && Exact(m, base) && Procs(m)
    ensures Control(n) && Exact(n, base) && Procs(n)
  {
    MovedControl(m, s, from, f, n);
    MovedExact(m, base, s, from, f, n);
    SameProcs(m, n);
  }

  /** Moving a shared page to a fresh copy keeps the invariant. */
  lemma CopiedKeeps(m: Mem, base: set<nat>, s: nat, i: nat, f: nat, n: Mem)
    requires Inv(m, base) && s in m.spaces && i < USER_PAGES && Copied(m, s, i, f, n)
    requires Entry(m.phys, s, i).present
    ensures Inv(n, base)
  {
    CopiedMoved(m, s, i, f, n);
    CopiedPages(m, s, i, f, n);
    MovedKeeps(m, base, s, Entry(m.phys, s, i).frame, f, n);
  }

  lemma CopiedViews(m: Mem, s: nat, i: nat, f: nat, n: Mem, p: nat)
    requires Tables(m) && Pages(m) && s in m.spaces && i < USER_PAGES && Copied(m, s, i, f, n) && p in m.spaces
    requires Entry(m.phys, s, i).present
    ensures Tables(n) && n.spaces == m.spaces && View(n, p) == View(m, p)
  {
    assert PageOk(m, Entry(m.phys, s, i));
    CopiedEntry(m, s, i, f, n);
    forall j | 0 <= j < USER_PAGES ensures PageOf(n.phys, Entry(n.phys, p, j)) == PageOf(m.phys, Entry(m.phys, p, j)) {
      var e := Entry(m.phys, p, j);
      if e.present {
        assert PageOk(m, e);
      }
    }
  }

  /** Privatising a page keeps the invariant and changes no page of any space. */
  lemma WritableKeeps(m: Mem, base: set<nat>, s: nat, i: nat)
    requires Inv(m, base) && s in m.spaces && i < USER_PAGES
    ensures var (n, ok) := Writable(m, s, i);
            && Inv(n, base) && n.spaces == m.spaces && n.procs == m.procs
            && (ok ==> Entry(n.phys, s, i).present && Entry(n.phys, s, i).writable)
            && (!ok ==> n == m)
            && (ok <==> Entry(m.phys, s, i).present &&
                        (Entry(m.phys, s, i).writable || m.pool.refs[Entry(m.phys, s, i).frame] <= 1 || m.pool.free > 0))
  {
    WritableCases(m, s, i);
    var e := Entry(m.phys, s, i);
    var (n, ok) := Writable(m, s, i);
    if e.present {
      assert PageOk(m, e);
      if !e.writable && m.pool.refs[e.frame] <= 1 {
        UnsharedKeeps(m, base, s, i, n);
        UnsharedEntry(m, s, i, n);
      } else if !e.writable && m.pool.free > 0 {
        var f := AllocPage(m.pool).1.value;
        CopiedKeeps(m, base, s, i, f, n);
        CopiedMoved(m, s, i, f, n);
      }
    }
  }

  lemma WritableViews(m: Mem, base: set<nat>, s: nat, i: nat, p: nat)
    requires Inv(m, base) && s in m.spaces && i < USER_PAGES && p in m.spaces
    ensures Tables(Writable(m, s, i).0) && p in Writable(m, s, i).0.spaces
    ensures View(Writable(m, s, i).0, p) == View(m, p)
  {
    WritableCases(m, s, i);
    var e := Entry(m.phys, s, i);
    var (n, ok) := Writable(m, s, i);
    if e.present {
      assert PageOk(m, e);
      if !e.writable && m.pool.refs[e.frame] <= 1 {
        UnsharedViews(m, s, i, n, p);
      } else if !e.writable && m.pool.free > 0 {
        CopiedViews(m, s, i, AllocPage(m.pool).1.value, n, p);
      }
    }
  }

  // ---------------------------------------------------------------- storing into a frame

  ghost function Poke(m: Mem, f: nat, page: Page): (n: Mem)
    requires f < |m.phys|
  {
    m.(phys := m.phys[f := Data(page)])
  }

  lemma PokeTables(m: Mem, f: nat, page: Page)
    requires Tables(m) && f < |m.phys| && m.phys[f].Data?
    ensures Tables(Poke(m, f, page)) && SameTables(m.phys, Poke(m, f, page).phys, m.spaces.Keys)
    ensures forall p, j | p in m.spaces && 0 <= j <= USER_PAGES ::
              Entry(Poke(m, f, page).phys, p, j) == Entry(m.phys, p, j)
  {
    var n := Poke(m, f, page);
    forall g | 0 <= g < |m.phys| && Paged(m.phys, m.spaces.Keys, g) ensures n.phys[g] == m.phys[g] {
      if g in m.spaces {
        assert Ready(m.pool, m.phys, g);
      }
    }
    SameCells(m.phys, n.phys, m.spaces.Keys);
    forall p | p in m.spaces ensures Ready(n.pool, n.phys, p) {
      assert Ready(m.pool, m.phys, p);
    }
  }

  lemma PokeMaps(m: Mem, f: nat, page: Page)
    requires Tables(m) && f < |m.phys| && m.phys[f].Data?
    ensures SameMaps(m, Poke(m, f, page))
  {
    var n := Poke(m, f, page);
    PokeTables(m, f, page);
    forall p, g | p in m.spaces ensures MapsBelow(n.phys, p, USER_PAGES, g) <==> MapsBelow(m.phys, p, USER_PAGES, g) {
      assert forall i | 0 <= i < USER_PAGES :: Entry(n.phys, p, i) == Entry(m.phys, p, i);
    }
  }

  /** A store into a data frame cannot disturb tables, counts or ownership. */
  lemma PokeKeeps(m: Mem, base: set<nat>, f: nat, page: Page)
    requires Inv(m, base) && f < |m.phys| && m.phys[f].Data?
    ensures Inv(Poke(m, f, page), base)
  {
    var n := Poke(m, f, page);
    PokeTables(m, f, page);
    PokeMaps(m, f, page);
    forall u | u in n.spaces ensures IsTrampoline(n, n.spaces[u].tramp) {
      assert IsTrampoline(m, m.spaces[u].tramp);
    }
    SameExact(m, n, base);
    SameProcs(m, n);
    PokePages(m, f, page);
  }

  lemma PokePages(m: Mem, f: nat, page: Page)
    requires Tables(m) && Pages(m) && f < |m.phys| && m.phys[f].Data?
    ensures Tables(Poke(m, f, page)) && Pages(Poke(m, f, page))
  {
    var n := Poke(m, f, page);
    PokeTables(m, f, page);
    PokeMaps(m, f, page);
    forall p, j | p in n.spaces && 0 <= j < USER_PAGES && Entry(n.phys, p, j).present
      ensures PageOk(n, Entry(n.phys, p, j))
    {
      assert PageOk(m, Entry(m.phys, p, j));
      SameMappers(m, n, Entry(m.phys, p, j).frame);
    }
    forall p | p in m.spaces ensures OnePageEach(n.phys, p) {
      assert OnePageEach(m.phys, p);
      assert forall j | 0 <= j < USER_PAGES :: Entry(n.phys, p, j) == Entry(m.phys, p, j);
    }
  }

  /** Exactly the pages backed by that frame show the store. */
  lemma PokeView(m: Mem, f: nat, page: Page, p: nat, j: nat)
    requires Tables(m) && f < |m.phys| && m.phys[f].Data? && p in m.spaces && j < USER_PAGES
    ensures Tables(Poke(m, f, page))
    ensures View(Poke(m, f, page), p)[j] ==
            if Entry(m.phys, p, j).present && Entry(m.phys, p, j).frame == f then Some(page) else View(m, p)[j]
  {
    PokeTables(m, f, page);
  }

  // ---------------------------------------------------------------- user and kernel stores

  lemma WritableGood(m: Mem, s: nat, i: nat)
    requires Good(m) && s in m.spaces && i < USER_PAGES
    ensures Good(Writable(m, s, i).0) && Writable(m, s, i).0.spaces == m.spaces
  {
    var base :| Inv(m, base);
    WritableKeeps(m, base, s, i);
  }

  lemma MappedData(m: Mem, s: nat, i: nat)
    requires Tables(m) && Pages(m) && s in m.spaces && i < USER_PAGES && Entry(m.phys, s, i).present
    ensures Entry(m.phys, s, i).frame < |m.phys| && m.phys[Entry(m.phys, s, i).frame].Data?
  {
    assert PageOk(m, Entry(m.phys, s, i));
  }

  /** One byte stored at the physical address the page maps to. */
  ghost function StoreThrough(m: Mem, s: nat, i: nat, at: nat, b: Byte): (n: Mem)
    requires Tables(m) && Pages(m) && s in m.spaces && i < USER_PAGES && at < PAGE_SIZE && Entry(m.phys, s, i).present
  {
    MappedData(m, s, i);
    var f := Entry(m.phys, s, i).frame;
    Poke(m, f, m.phys[f].page[at := b])
  }

  /** A user store of one byte; the page fault handler resolves a write to a protected page. */
  ghost function UserStore(m: Mem, s: nat, i: nat, at: nat, b: Byte): (r: (Mem, bool))
    requires Good(m) && s in m.spaces && i < USER_PAGES && at < PAGE_SIZE
  {
    WritableGood(m, s, i);
    var r := Writable(m, s, i);
    if r.1 && Entry(r.0.phys, s, i).present then (StoreThrough(r.0, s, i, at, b), true) else (m, false)
  }

  /** proc_user_ptr: the kernel privatises the page, ignores the outcome, and stores through the mapping. */
  ghost function KernelStore(m: Mem, s: nat, i: nat, at: nat, b: Byte): (r: (Mem, bool))
    requires Good(m) && s in m.spaces && i < USER_PAGES && at < PAGE_SIZE
  {
    WritableGood(m, s, i);
    var n := Writable(m, s, i).0;
    if Entry(n.phys, s, i).present then (StoreThrough(n, s, i, at, b), true) else (n, false)
  }

  lemma StoreKeeps(m: Mem, base: set<nat>, s: nat, i: nat, at: nat, b: Byte)
    requires Inv(m, base) && s in m.spaces && i < USER_PAGES && at < PAGE_SIZE && Entry(m.phys, s, i).present
    ensures Inv(StoreThrough(m, s, i, at, b), base)
    ensures StoreThrough(m, s, i, at, b).spaces == m.spaces && StoreThrough(m, s, i, at, b).procs == m.procs
    ensures StoreThrough(m, s, i, at, b).pool == m.pool
  {
    var f, page := ThroughPoke(m, s, i, at, b);
    PokeKeeps(m, base, f, page);
  }

  /** Storing through a mapping is replacing the contents of one data frame. */
  lemma ThroughPoke(m: Mem, s: nat, i: nat, at: nat, b: Byte) returns (f: nat, page: Page)
    requires Tables(m) && Pages(m) && s in m.spaces && i < USER_PAGES && at < PAGE_SIZE && Entry(m.phys, s, i).present
    ensures f < |m.phys| && m.phys[f].Data? && StoreThrough(m, s, i, at, b) == Poke(m, f, page)
  {
    MappedData(m, s, i);
    f := Entry(m.phys, s, i).frame;
    page := m.phys[f].page[at := b];
  }

  ghost function StoredPage(v: Option<Page>, at: nat, b: Byte): Option<Page>
    requires at < PAGE_SIZE
  {
    match v case None => None case Some(page) => Some(page[at := b])
  }

  lemma StoreViewAt(m: Mem, s: nat, i: nat, at: nat, b: Byte, p: nat, j: nat)
    requires Tables(m) && Pages(m) && s in m.spaces && i < USER_PAGES && at < PAGE_SIZE && p in m.spaces && j < USER_PAGES
    requires Entry(m.phys, s, i).present
    ensures Tables(StoreThrough(m, s, i, at, b)) && StoreThrough(m, s, i, at, b).spaces == m.spaces
    ensures View(m, s)[i].Some?
    ensures View(StoreThrough(m, s, i, at, b), p)[j] ==
            if Entry(m.phys, p, j).present && Entry(m.phys, p, j).frame == Entry(m.phys, s, i).frame
            then StoredPage(View(m, s)[i], at, b) else View(m, p)[j]
  {
    MappedData(m, s, i);
    var e := Entry(m.phys, s, i);
    var page := m.phys[e.frame].page[at := b];
    PokeTables(m, e.frame, page);
    PokeView(m, e.frame, page, p, j);
  }

  /** Through an unshared frame a store shows in one page of one space. */
  lemma StoreViews(m: Mem, s: nat, i: nat, at: nat, b: Byte, p: nat)
    requires Tables(m) && Pages(m) && s in m.spaces && i < USER_PAGES && at < PAGE_SIZE && p in m.spaces
    requires Entry(m.phys, s, i).present && m.pool.refs[Entry(m.phys, s, i).frame] == 1
    ensures Tables(StoreThrough(m, s, i, at, b)) && StoreThrough(m, s, i, at, b).spaces == m.spaces
    ensures View(StoreThrough(m, s, i, at, b), p) ==
            if p == s then View(m, s)[i := StoredPage(View(m, s)[i], at, b)] else View(m, p)
  {
    MappedData(m, s, i);
    StoreViewAt(m, s, i, at, b, p, i);
    var v := View(StoreThrough(m, s, i, at, b), p);
    var w := if p == s then View(m, s)[i := StoredPage(View(m, s)[i], at, b)] else View(m, p);
    forall j | 0 <= j < USER_PAGES ensures v[j] == w[j] {
      StoreViewAt(m, s, i, at, b, p, j);
      SoleMapper(m, s, i, p, j);
    }
  }

  lemma SoleMapper(m: Mem, s: nat, i: nat, p: nat, j: nat)
    requires Tables(m) && Pages(m) && s in m.spaces && i < USER_PAGES && p in m.spaces && j < USER_PAGES
    requires Entry(m.phys, s, i).present && Entry(m.phys, s, i).frame < |m.phys| && m.pool.refs[Entry(m.phys, s, i).frame] == 1
    ensures Entry(m.phys, p, j).present && Entry(m.phys, p, j).frame == Entry(m.phys, s, i).frame ==> p == s && j == i
  {
    var e := Entry(m.phys, s, i);
    assert PageOk(m, e);
    assert s in Mappers(m, e.frame);
    if Entry(m.phys, p, j).present && Entry(m.phys, p, j).frame == e.frame {
      assert p in Mappers(m, e.frame);
      if p != s {
        assert {s, p} <= Mappers(m, e.frame);
        assert |{s, p}| == 2;
        SubsetSize({s, p}, Mappers(m, e.frame));
      }
      assert OnePageEach(m.phys, s);
    }
  }

  lemma {:induction false} SubsetSize<T>(a: set<T>, b: set<T>)
    requires a <= b
    ensures |a| <= |b|
    decreases |a|
  {
    if a != {} {
      var x :| x in a;
      SubsetSize(a - {x}, b - {x});
    }
  }

  /**
   A user store either fails and changes nothing, or changes one byte of one page of the
   writing space and no page of any other space.
   */
  lemma UserStoreIsolated(m: Mem, base: set<nat>, s: nat, i: nat, at: nat, b: Byte)
    requires Inv(m, base) && s in m.spaces && i < USER_PAGES && at < PAGE_SIZE
    ensures var (n, ok) := UserStore(m, s, i, at, b);
            && Inv(n, base) && n.spaces == m.spaces && n.procs == m.procs
            && (!ok ==> n == m)
            && (ok <==> Entry(m.phys, s, i).present &&
                        (Entry(m.phys, s, i).writable || m.pool.refs[Entry(m.phys, s, i).frame] <= 1 || m.pool.free > 0))
            && (ok ==> forall p | p in m.spaces ::
                  View(n, p) == if p == s then View(m, s)[i := StoredPage(View(m, s)[i], at, b)] else View(m, p))
  {
    WritableKeeps(m, base, s, i);
    var (n, ok) := Writable(m, s, i);
    if ok {
      assert PageOk(n, Entry(n.phys, s, i));
      StoreKeeps(n, base, s, i, at, b);
      forall p | p in m.spaces
        ensures View(StoreThrough(n, s, i, at, b), p) ==
                if p == s then View(m, s)[i := StoredPage(View(m, s)[i], at, b)] else View(m, p)
      {
        StoreViews(n, s, i, at, b, p);
        WritableViews(m, base, s, i, p);
        WritableViews(m, base, s, i, s);
      }
    }
  }

  lemma KernelStoreWhenPrivate(m: Mem, base: set<nat>, s: nat, i: nat, at: nat, b: Byte)
    requires Inv(m, base) && s in m.spaces && i < USER_PAGES && at < PAGE_SIZE && Entry(m.phys, s, i).present
    requires Entry(m.phys, s, i).writable || m.pool.refs[Entry(m.phys, s, i).frame] <= 1 || m.pool.free > 0
    ensures KernelStore(m, s, i, at, b) == UserStore(m, s, i, at, b)
  {
    WritableKeeps(m, base, s, i);
  }

  lemma OtherMapper(m: Mem, s: nat, i: nat) returns (p: nat, j: nat)
    requires Tables(m) && Pages(m) && s in m.spaces && i < USER_PAGES && Entry(m.phys, s, i).present
    requires Entry(m.phys, s, i).frame < |m.phys| && m.pool.refs[Entry(m.phys, s, i).frame] > 1
    ensures p in m.spaces && p != s && j < USER_PAGES
    ensures Entry(m.phys, p, j).present && Entry(m.phys, p, j).frame == Entry(m.phys, s, i).frame
  {
    var e := Entry(m.phys, s, i);
    assert PageOk(m, e);
    var sharers := Mappers(m, e.frame) - {s};
    assert s in Mappers(m, e.frame);
    assert |sharers| > 0;
    p :| p in sharers;
    j :| 0 <= j < USER_PAGES && Entry(m.phys, p, j).present && Entry(m.phys, p, j).frame == e.frame;
  }

  lemma SharedStoreLeaks(m: Mem, s: nat, i: nat, at: nat) returns (b: Byte, p: nat)
    requires Tables(m) && Pages(m) && s in m.spaces && i < USER_PAGES && at < PAGE_SIZE && Entry(m.phys, s, i).present
    requires Entry(m.phys, s, i).frame < |m.phys| && m.pool.refs[Entry(m.phys, s, i).frame] > 1
    ensures p in m.spaces && p != s
    ensures Tables(StoreThrough(m, s, i, at, b)) && StoreThrough(m, s, i, at, b).spaces == m.spaces
    ensures View(StoreThrough(m, s, i, at, b), p) != View(m, p)
  {
    var j;
    p, j := OtherMapper(m, s, i);
    MappedData(m, s, i);
    var page := m.phys[Entry(m.phys, s, i).frame].page;
    b := if page[at] == 0 then 1 else 0;
    StoreViewAt(m, s, i, at, b, p, j);
    assert View(m, p)[j] == Some(page) && View(m, s)[i] == Some(page);
    assert page[at := b][at] != page[at];
  }

  /** With the page shared and no frame free, some other space sees the kernel's store. */
  lemma KernelStoreLeaks(m: Mem, s: nat, i: nat, at: nat) returns (b: Byte, p: nat)
    requires Good(m) && s in m.spaces && i < USER_PAGES && at < PAGE_SIZE && Entry(m.phys, s, i).present
    requires Entry(m.phys, s, i).frame < |m.phys|
    requires !Entry(m.phys, s, i).writable && m.pool.refs[Entry(m.phys, s, i).frame] > 1 && m.pool.free == 0
    ensures p in m.spaces && p != s && !KernelStorePrivate(m, s, i, at, b, p)
  {
    WritableCases(m, s, i);
    b, p := SharedStoreLeaks(m, s, i, at);
  }

  /** The kernel's store of `b` for space `s` is invisible to space `p`. */
  ghost predicate KernelStorePrivate(m: Mem, s: nat, i: nat, at: nat, b: Byte, p: nat)
    requires Good(m) && s in m.spaces && i < USER_PAGES && at < PAGE_SIZE && p in m.spaces
  {
    var n := KernelStore(m, s, i, at, b).0;
    Tables(n) && n.spaces == m.spaces && View(n, p) == View(m, p)
  }

  /**
   The kernel's stores into a process stay private to it if and only if, at the time of the call,
   the page is already private or a frame is free to copy it to.
   */
  lemma KernelStoreIsolatedIff(m: Mem, base: set<nat>, s: nat, i: nat, at: nat)
    requires Inv(m, base) && s in m.spaces && i < USER_PAGES && at < PAGE_SIZE && Entry(m.phys, s, i).present
    ensures (forall b, p | p in m.spaces && p != s :: KernelStorePrivate(m, s, i, at, b, p)) <==>
            Entry(m.phys, s, i).writable || m.pool.refs[Entry(m.phys, s, i).frame] <= 1 || m.pool.free > 0
  {
    MappedData(m, s, i);
    if Entry(m.phys, s, i).writable || m.pool.refs[Entry(m.phys, s, i).frame] <= 1 || m.pool.free > 0 {
      forall b, p | p in m.spaces && p != s ensures KernelStorePrivate(m, s, i, at, b, p) {
        KernelStoreWhenPrivate(m, base, s, i, at, b);
        UserStoreIsolated(m, base, s, i, at, b);
      }
    } else {
      var b, p := KernelStoreLeaks(m, s, i, at);
    }
  }
}
