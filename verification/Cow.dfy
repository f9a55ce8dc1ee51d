/**
 Address spaces over shared frames (`src/mm.c`, `src/proc.c`).

 `Inv` is what holds between any two kernel operations: every mapped frame is counted once per
 mapping, a writable mapping is the only one, page tables and trampolines belong to one space,
 and a frame is marked used exactly when something holds it.
 */
module Cow {
  import opened Options
  import opened Frames
  import opened Paging
  import opened CowOps
  import opened CowFork

  const PROC_MAX: nat := 8

  /** proc_space_t, keyed by its page directory frame. */
  datatype Space = Space(tramp: nat, refs: nat)

  /** Frames, physical memory, the live spaces, and which process slot uses which space. */
  datatype Mem = Mem(pool: Pool, phys: Phys, spaces: map<nat, Space>, procs: map<nat, nat>)

  // ---------------------------------------------------------------- the invariant

  ghost predicate Tables(m: Mem) {
    AllReady(m.pool, m.phys, m.spaces.Keys) && Valid(m.pool)
  }

  /** Directories, page tables and trampolines have one holder each. */
  ghost predicate Control(m: Mem)
    requires Tables(m)
  {
    && (forall s | s in m.spaces :: m.pool.refs[s] == 1)
    && (forall s, d | s in m.spaces && FIRST_PDE <= d <= LAST_PDE :: m.pool.refs[TableFrame(m.phys, s, d)] == 1)
    && (forall s | s in m.spaces :: IsTrampoline(m, m.spaces[s].tramp))
    && (forall s, u {:trigger m.spaces[s].tramp, m.spaces[u].tramp} |
          s in m.spaces && u in m.spaces && m.spaces[s].tramp == m.spaces[u].tramp :: s == u)
  }

  ghost predicate IsTrampoline(m: Mem, t: nat)
    requires Tables(m)
  {
    && t < |m.phys| && m.pool.used[t] && m.pool.refs[t] == 1 && m.phys[t].Data?
    && forall s {:trigger MapsBelow(m.phys, s, USER_PAGES, t)} | s in m.spaces :: !MapsBelow(m.phys, s, USER_PAGES, t)
  }

  /** The spaces that map frame `f`. */
  ghost function Mappers(m: Mem, f: nat): set<nat>
    requires Tables(m)
  {
    set s | s in m.spaces && MapsBelow(m.phys, s, USER_PAGES, f)
  }

  ghost predicate PageOk(m: Mem, e: Pte)
    requires Tables(m)
  {
    && 0 < e.frame < |m.phys| && m.pool.used[e.frame] && m.phys[e.frame].Data?
    && m.pool.refs[e.frame] == |Mappers(m, e.frame)|
    && (e.writable ==> m.pool.refs[e.frame] == 1)
  }

  ghost predicate Pages(m: Mem)
    requires Tables(m)
  {
    && (forall s, i | s in m.spaces && 0 <= i < USER_PAGES && Entry(m.phys, s, i).present ::
          PageOk(m, Entry(m.phys, s, i)))
    && (forall s | s in m.spaces :: OnePageEach(m.phys, s))
  }

  ghost function Users(m: Mem, s: nat): set<nat> { set p | p in m.procs && m.procs[p] == s }

  ghost predicate Procs(m: Mem) {
    && (forall p | p in m.procs :: p < PROC_MAX && m.procs[p] in m.spaces)
    && (forall s | s in m.spaces :: m.spaces[s].refs == |Users(m, s)| && m.spaces[s].refs > 0)
  }

  /** Space `s` holds frame `f`: as directory, page table, trampoline or user page. */
  ghost predicate HeldBy(m: Mem, s: nat, f: nat)
    requires Tables(m) && s in m.spaces
  {
    || f == s || f == m.spaces[s].tramp
    || (exists d | FIRST_PDE <= d <= LAST_PDE :: TableFrame(m.phys, s, d) == f)
    || MapsBelow(m.phys, s, USER_PAGES, f)
  }

  ghost predicate Held(m: Mem, f: nat)
    requires Tables(m)
  {
    exists s | s in m.spaces :: HeldBy(m, s, f)
  }

  /** Used frames are those taken for other purposes (`base`) and those a space holds, never both. */
  ghost predicate Exact(m: Mem, base: set<nat>)
    requires Tables(m)
  {
    && (forall f {:trigger Held(m, f)} | 0 <= f < |m.pool.used| :: m.pool.used[f] <==> f in base || Held(m, f))
    && (forall f | f in base :: f < |m.pool.used| && !Held(m, f))
    && 0 in base
  }

  ghost predicate Inv(m: Mem, base: set<nat>) {
    Tables(m) && Control(m) && Pages(m) && Procs(m) && Exact(m, base)
  }

  /** The invariant for some set of other used frames. */
  ghost predicate Good(m: Mem) { exists base :: Inv(m, base) }

  // ---------------------------------------------------------------- what a process sees

  ghost function PageOf(phys: Phys, e: Pte): (c: Option<Page>) {
    if e.present && e.frame < |phys| && phys[e.frame].Data? then Some(phys[e.frame].page) else None
  }

  /** The contents of every page of a space; unmapped pages have none. */
  ghost function View(m: Mem, s: nat): (v: seq<Option<Page>>)
    requires Tables(m) && s in m.spaces
    ensures |v| == USER_PAGES
  {
    seq(USER_PAGES, i requires 0 <= i < USER_PAGES => PageOf(m.phys, Entry(m.phys, s, i)))
  }

  // ---------------------------------------------------------------- privatising a page

  ghost function Writable(m: Mem, s: nat, i: nat): (r: (Mem, bool))
    requires Tables(m) && Pages(m) && s in m.spaces && i < USER_PAGES
  {
    WritableReady(m, s);
    var r := MakeWritable(m.pool, m.phys, s, i);
    (m.(pool := r.0, phys := r.1), r.2)
  }

  lemma WritableReady(m: Mem, s: nat)
    requires Tables(m) && Pages(m) && s in m.spaces
    ensures Ready(m.pool, m.phys, s) && FramesExist(m.phys, s)
  {
    assert Ready(m.pool, m.phys, s);
    forall i | 0 <= i < USER_PAGES && Entry(m.phys, s, i).present ensures Entry(m.phys, s, i).frame < |m.phys| {
      assert PageOk(m, Entry(m.phys, s, i));
    }
  }

  /** The three ways mm_user_make_writable ends. */
  lemma WritableCases(m: Mem, s: nat, i: nat)
    requires Tables(m) && Pages(m) && s in m.spaces && i < USER_PAGES
    ensures var e := Entry(m.phys, s, i);
            var (n, ok) := Writable(m, s, i);
            if !e.present || (!e.writable && m.pool.refs[e.frame] > 1 && m.pool.free == 0) then n == m && !ok
            else if e.writable then n == m && ok
            else if m.pool.refs[e.frame] <= 1 then
              ok && n == m.(phys := SetEntry(m.phys, s, i, e.(writable := true)))
            else
              ok && AllocPage(m.pool).1.Some? && Copied(m, s, i, AllocPage(m.pool).1.value, n)
  {
    WritableReady(m, s);
    AllocPageMeaning(m.pool);
    var e := Entry(m.phys, s, i);
    if e.present {
      assert PageOk(m, e);
      if !e.writable && m.pool.refs[e.frame] > 1 && m.pool.free > 0 {
        var f := AllocPage(m.pool).1.value;
        UnpagedCell(m.pool, m.phys, s, f, m.phys[e.frame]);
      }
    }
  }

  /** A shared page of `s` moved to the fresh frame `f`. */
  ghost predicate Copied(m: Mem, s: nat, i: nat, f: nat, n: Mem)
    requires Tables(m) && s in m.spaces && i < USER_PAGES
  {
    var e := Entry(m.phys, s, i);
    && f < |m.phys| && !m.pool.used[f] && e.frame < |m.phys| && m.pool.refs[e.frame] > 1
    && Shape(m.phys[f := m.phys[e.frame]], s)
    && n.phys == SetEntry(m.phys[f := m.phys[e.frame]], s, i, e.(writable := true, frame := f))
    && n.pool == Pool(m.pool.used[f := true], m.pool.refs[f := 1][e.frame := m.pool.refs[e.frame] - 1], m.pool.free - 1)
    && n.spaces == m.spaces && n.procs == m.procs
  }

  /** `n` has the tables of `m` with one entry replaced. */
  ghost predicate OneEntry(m: Mem, s: nat, i: nat, e: Pte, n: Mem) {
    && n.spaces == m.spaces && n.procs == m.procs && Tables(m) && Tables(n) && |n.phys| == |m.phys|
    && s in m.spaces && i < USER_PAGES
    && SameTables(m.phys, n.phys, m.spaces.Keys)
    && forall p, j | p in m.spaces && 0 <= j <= USER_PAGES ::
         Entry(n.phys, p, j) == if p == s && j == i then e else Entry(m.phys, p, j)
  }

  lemma OneEntryMaps(m: Mem, s: nat, i: nat, e: Pte, n: Mem, p: nat, g: nat)
    requires OneEntry(m, s, i, e, n) && p in m.spaces && OnePageEach(m.phys, s)
    requires Entry(m.phys, s, i).present && e.present
    ensures p != s ==> (MapsBelow(n.phys, p, USER_PAGES, g) <==> MapsBelow(m.phys, p, USER_PAGES, g))
    ensures MapsBelow(n.phys, s, USER_PAGES, g) <==>
            g == e.frame || (g != Entry(m.phys, s, i).frame && MapsBelow(m.phys, s, USER_PAGES, g))
  {
    var was := Entry(m.phys, s, i);
    assert Entry(n.phys, s, i) == e;
    if MapsBelow(m.phys, p, USER_PAGES, g) {
      var j :| 0 <= j < USER_PAGES && Entry(m.phys, p, j).present && Entry(m.phys, p, j).frame == g;
      assert p != s || j != i ==> Entry(n.phys, p, j) == Entry(m.phys, p, j);
    }
    if MapsBelow(n.phys, p, USER_PAGES, g) {
      var j :| 0 <= j < USER_PAGES && Entry(n.phys, p, j).present && Entry(n.phys, p, j).frame == g;
      assert p != s || j != i ==> Entry(n.phys, p, j) == Entry(m.phys, p, j);
    }
    if MapsBelow(m.phys, s, USER_PAGES, g) && g != was.frame {
      var j :| 0 <= j < USER_PAGES && Entry(m.phys, s, j).present && Entry(m.phys, s, j).frame == g;
      assert Entry(n.phys, s, j) == Entry(m.phys, s, j);
    }
    if MapsBelow(n.phys, s, USER_PAGES, g) && g != e.frame {
      var j :| 0 <= j < USER_PAGES && Entry(n.phys, s, j).present && Entry(n.phys, s, j).frame == g;
      assert Entry(n.phys, s, j) == Entry(m.phys, s, j);
      assert j != i;
    }
  }

  lemma OneEntryReady(m: Mem, s: nat, i: nat, e: Pte, pool: Pool, phys: Phys)
    requires Tables(m) && s in m.spaces && i < USER_PAGES && |phys| == |m.phys| && Sized(pool, phys) && Valid(pool)
    requires Private(phys, m.spaces.Keys) && SameTables(m.phys, phys, m.spaces.Keys)
    requires forall f | 0 <= f < |phys| && m.pool.used[f] :: pool.used[f]
    ensures AllReady(pool, phys, m.spaces.Keys)
  {
    forall p | p in m.spaces ensures Ready(pool, phys, p) {
      assert Ready(m.pool, m.phys, p);
    }
  }

  // Case 1: the frame is not shared; only the writable bit changes.

  lemma UnsharedEntry(m: Mem, s: nat, i: nat, n: Mem)
    requires Tables(m) && Pages(m) && s in m.spaces && i < USER_PAGES
    requires n == m.(phys := SetEntry(m.phys, s, i, Entry(m.phys, s, i).(writable := true)))
    ensures OneEntry(m, s, i, Entry(m.phys, s, i).(writable := true), n) && SameData(m.phys, n.phys)
  {
    var e := Entry(m.phys, s, i).(writable := true);
    SetEntryFrame(m.phys, m.spaces.Keys, s, i, e);
    OneEntryReady(m, s, i, e, m.pool, n.phys);
  }

  /** Every space maps the same frames. */
  ghost predicate SameMaps(m: Mem, n: Mem) {
    && Tables(m) && Tables(n) && n.spaces == m.spaces && n.procs == m.procs
    && SameTables(m.phys, n.phys, m.spaces.Keys)
    && forall p, g | p in m.spaces :: MapsBelow(n.phys, p, USER_PAGES, g) <==> MapsBelow(m.phys, p, USER_PAGES, g)
  }

  lemma SameMappers(m: Mem, n: Mem, f: nat)
    requires SameMaps(m, n)
    ensures Mappers(n, f) == Mappers(m, f)
  {
  }

  lemma SameControl(m: Mem, n: Mem)
    requires SameMaps(m, n) && n.pool == m.pool && Control(m) && SameData(m.phys, n.phys)
    ensures Control(n)
  {
    forall s | s in n.spaces ensures IsTrampoline(n, n.spaces[s].tramp) {
      assert IsTrampoline(m, m.spaces[s].tramp);
    }
  }

  lemma SameHeld(m: Mem, n: Mem, f: nat)
    requires SameMaps(m, n)
    ensures Held(n, f) <==> Held(m, f)
  {
    forall p | p in m.spaces ensures HeldBy(n, p, f) <==> HeldBy(m, p, f) {
      forall d | FIRST_PDE <= d <= LAST_PDE ensures TableFrame(n.phys, p, d) == TableFrame(m.phys, p, d) {
      }
    }
  }

  lemma SameExact(m: Mem, n: Mem, base: set<nat>)
    requires SameMaps(m, n) && n.pool == m.pool && Exact(m, base)
    ensures Exact(n, base)
  {
    forall f: nat ensures Held(n, f) <==> Held(m, f) {
      SameHeld(m, n, f);
    }
  }

  lemma SameProcs(m: Mem, n: Mem)
    requires n.spaces == m.spaces && n.procs == m.procs && Procs(m)
    ensures Procs(n)
  {
    assert forall s | s in n.spaces :: Users(n, s) == Users(m, s);
  }

  /** Entries that differ at most in the writable bit, over the same data, show the same pages. */
  lemma SameView(m: Mem, n: Mem, p: nat)
    requires Tables(m) && Tables(n) && Pages(m) && p in m.spaces && p in n.spaces && SameData(m.phys, n.phys)
    requires forall j | 0 <= j < USER_PAGES :: Entry(n.phys, p, j) == Entry(m.phys, p, j).(writable := Entry(n.phys, p, j).writable)
    ensures View(n, p) == View(m, p)
  {
    forall j | 0 <= j < USER_PAGES ensures PageOf(n.phys, Entry(n.phys, p, j)) == PageOf(m.phys, Entry(m.phys, p, j)) {
      var e := Entry(m.phys, p, j);
      if e.present {
        assert PageOk(m, e);
      }
    }
  }

  lemma UnsharedPages(m: Mem, s: nat, i: nat, n: Mem)
    requires Tables(m) && Pages(m) && SameMaps(m, n) && n.pool == m.pool && SameData(m.phys, n.phys)
    requires s in m.spaces && i < USER_PAGES && Entry(m.phys, s, i).present && m.pool.refs[Entry(m.phys, s, i).frame] == 1
    requires OneEntry(m, s, i, Entry(m.phys, s, i).(writable := true), n)
    ensures Pages(n)
  {
    forall p, j | p in n.spaces && 0 <= j < USER_PAGES && Entry(n.phys, p, j).present
      ensures PageOk(n, Entry(n.phys, p, j))
    {
      assert PageOk(m, Entry(m.phys, p, j));
      SameMappers(m, n, Entry(m.phys, p, j).frame);
    }
    forall p | p in m.spaces ensures OnePageEach(n.phys, p) {
      assert OnePageEach(m.phys, p);
      UnsharedOnce(m, s, i, n, p);
    }
  }

  lemma UnsharedOnce(m: Mem, s: nat, i: nat, n: Mem, p: nat)
    requires Tables(m) && s in m.spaces && i < USER_PAGES && OneEntry(m, s, i, Entry(m.phys, s, i).(writable := true), n)
    requires p in m.spaces && OnePageEach(m.phys, p)
    ensures OnePageEach(n.phys, p)
  {
    forall j | 0 <= j < USER_PAGES
      ensures Entry(n.phys, p, j).present == Entry(m.phys, p, j).present && Entry(n.phys, p, j).frame == Entry(m.phys, p, j).frame
    {
    }
  }

  lemma UnsharedMaps(m: Mem, s: nat, i: nat, n: Mem)
    requires Tables(m) && Pages(m) && s in m.spaces && i < USER_PAGES && Entry(m.phys, s, i).present
    requires OneEntry(m, s, i, Entry(m.phys, s, i).(writable := true), n)
    ensures SameMaps(m, n)
  {
    var was := Entry(m.phys, s, i);
    forall p, g | p in m.spaces ensures MapsBelow(n.phys, p, USER_PAGES, g) <==> MapsBelow(m.phys, p, USER_PAGES, g) {
      OneEntryMaps(m, s, i, was.(writable := true), n, p, g);
      assert MapsBelow(m.phys, s, USER_PAGES, was.frame);
    }
  }

  lemma MappedOnce(m: Mem, s: nat, i: nat)
    requires Tables(m) && Pages(m) && s in m.spaces && i < USER_PAGES && Entry(m.phys, s, i).present
    ensures Entry(m.phys, s, i).frame < |m.phys| && m.pool.refs[Entry(m.phys, s, i).frame] >= 1
  {
    var e := Entry(m.phys, s, i);
    assert PageOk(m, e);
    assert s in Mappers(m, e.frame);
  }

  /** A page nobody else maps: only its writable bit changes. */
  lemma UnsharedKeeps(m: Mem, base: set<nat>, s: nat, i: nat, n: Mem)
    requires Inv(m, base) && s in m.spaces && i < USER_PAGES
    requires Entry(m.phys, s, i).present && m.pool.refs[Entry(m.phys, s, i).frame] <= 1
    requires n == m.(phys := SetEntry(m.phys, s, i, Entry(m.phys, s, i).(writable := true)))
    ensures Inv(n, base)
  {
    MappedOnce(m, s, i);
    UnsharedEntry(m, s, i, n);
    UnsharedMaps(m, s, i, n);
    UnsharedPages(m, s, i, n);
    SameControl(m, n);
    SameExact(m, n, base);
    SameProcs(m, n);
  }

  lemma UnsharedViews(m: Mem, s: nat, i: nat, n: Mem, p: nat)
    requires Tables(m) && Pages(m) && s in m.spaces && i < USER_PAGES && p in m.spaces
    requires n == m.(phys := SetEntry(m.phys, s, i, Entry(m.phys, s, i).(writable := true)))
    ensures Tables(n) && View(n, p) == View(m, p)
  {
    UnsharedEntry(m, s, i, n);
    SameView(m, n, p);
  }
}
