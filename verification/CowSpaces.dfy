/**
 Whole address spaces: fork, thread creation, and the last process of a space going away.
 */
module CowSpaces {
  import opened Options
  import opened Frames
  import opened Paging
  import opened CowOps
  import opened CowFork
  import opened Cow
  import opened CowWrite

  // ---------------------------------------------------------------- how many spaces there can be

  lemma {:induction false} ValuesSize(m: map<nat, nat>)
    ensures |m.Values| <= |m.Keys|
    decreases |m.Keys|
  {
    if k :| k in m {
      var rest := m - {k};
      ValuesSize(rest);
      assert rest.Keys == m.Keys - {k};
      assert m.Values <= rest.Values + {m[k]} by {
        forall v | v in m.Values ensures v in rest.Values + {m[k]} {
          var j :| j in m && m[j] == v;
          assert j != k ==> j in rest && rest[j] == v;
        }
      }
      SubsetSize(m.Values, rest.Values + {m[k]});
    } else {
      assert m.Values == {};
    }
  }

  function Below(n: nat): (s: set<nat>)
    ensures forall k: nat :: k in s <==> k < n
    ensures |s| == n
  {
    if n == 0 then {} else Below(n - 1) + {n - 1}
  }

  /** There are at most PROC_MAX spaces, so an 8-bit count never saturates. */
  lemma FewSpaces(m: Mem)
    requires Procs(m)
    ensures |m.spaces.Keys| <= PROC_MAX
  {
    assert m.spaces.Keys <= m.procs.Values by {
      forall s | s in m.spaces ensures s in m.procs.Values {
        assert |Users(m, s)| > 0;
        var p :| p in Users(m, s);
        assert m.procs[p] == s;
      }
    }
    SubsetSize(m.spaces.Keys, m.procs.Values);
    ValuesSize(m.procs);
    SubsetSize(m.procs.Keys, Below(PROC_MAX));
  }

  lemma NoSaturation(m: Mem, f: nat)
    requires Tables(m) && Procs(m)
    ensures |Mappers(m, f)| < REF_MAX
  {
    FewSpaces(m);
    SubsetSize(Mappers(m, f), m.spaces.Keys);
  }

  // ---------------------------------------------------------------- fork

  lemma ForkIsReady(m: Mem, s: nat)
    requires Good(m) && s in m.spaces
    ensures ForkReady(m.pool, m.phys, m.spaces.Keys, s) && Ready(m.pool, m.phys, s)
  {
    WritableReady(m, s);
    assert OnePageEach(m.phys, s);
    forall i | 0 <= i < USER_PAGES && Entry(m.phys, s, i).present
      ensures var f := Entry(m.phys, s, i).frame; f != 0 && m.pool.used[f] && m.pool.refs[f] < REF_MAX
    {
      assert PageOk(m, Entry(m.phys, s, i));
      NoSaturation(m, Entry(m.phys, s, i).frame);
    }
  }

  /** proc_space_cow for process slot `child`, a fresh slot. */
  ghost function Fork(m: Mem, parent: nat, child: nat): (r: (Mem, bool))
    requires Good(m) && parent in m.procs && child !in m.procs
  {
    ForkIsReady(m, m.procs[parent]);
    var c := CowCopy(m.pool, m.phys, m.procs[parent]);
    if c.2.None? then (m.(pool := c.0, phys := c.1), false)
    else
      (Mem(c.0, c.1, m.spaces[c.2.value.0 := Space(c.2.value.1, 1)], m.procs[child := c.2.value.0]), true)
  }

  /** The state after a successful fork of space `s` into `pd`. */
  ghost predicate Forked(m: Mem, s: nat, child: nat, n: Mem, pd: nat, t: nat, taken: set<nat>) {
    && Tables(m) && Pages(m) && s in m.spaces && child !in m.procs && child < PROC_MAX
    && n.spaces == m.spaces[pd := Space(t, 1)] && n.procs == m.procs[child := pd] && Valid(n.pool)
    && ForkedTables(m.phys, m.spaces.Keys, s, n.phys, pd, t)
    && ForkedFrames(m.pool, m.phys, n.phys, pd, t, taken)
    && ForkedPool(m.pool, m.phys, s, n.pool, taken)
  }

  lemma ForkSucceeds(m: Mem, base: set<nat>, parent: nat, child: nat) returns (pd: nat, t: nat, taken: set<nat>)
    requires Inv(m, base) && parent in m.procs && child !in m.procs && child < PROC_MAX && m.pool.free >= 5
    ensures Fork(m, parent, child).1 && Forked(m, m.procs[parent], child, Fork(m, parent, child).0, pd, t, taken)
  {
    var s := m.procs[parent];
    ForkIsReady(m, s);
    pd, t, taken := CowCopyWorks(m.pool, m.phys, m.spaces.Keys, s);
  }

  lemma ForkedReady(m: Mem, s: nat, child: nat, n: Mem, pd: nat, t: nat, taken: set<nat>)
    requires Forked(m, s, child, n, pd, t, taken)
    ensures Tables(n) && n.spaces.Keys == m.spaces.Keys + {pd}
  {
    assert n.spaces.Keys == m.spaces.Keys + {pd};
    forall p | p in n.spaces ensures Ready(n.pool, n.phys, p) {
      if p != pd {
        assert Ready(m.pool, m.phys, p);
        forall d | FIRST_PDE <= d <= LAST_PDE ensures n.pool.used[TableFrame(n.phys, p, d)] {
          assert TableFrame(n.phys, p, d) == TableFrame(m.phys, p, d);
        }
      }
    }
  }

  /** The child maps what the parent maps; no other space changed. */
  lemma ForkedMapsOf(m: Mem, s: nat, child: nat, n: Mem, pd: nat, t: nat, taken: set<nat>, p: nat, f: nat)
    requires Forked(m, s, child, n, pd, t, taken) && Tables(n) && p in n.spaces
    ensures MapsBelow(n.phys, p, USER_PAGES, f) <==> MapsBelow(m.phys, if p == pd then s else p, USER_PAGES, f)
  {
    ForkedMaps(m.phys, m.spaces.Keys, s, n.phys, pd, t, USER_PAGES, f);
    if p != pd && p != s {
      assert p in m.spaces;
      assert forall i | 0 <= i < USER_PAGES :: Entry(n.phys, p, i) == Entry(m.phys, p, i);
    }
  }

  lemma OneMoreMapper(m: Mem, n: Mem, s: nat, pd: nat, f: nat)
    requires Tables(m) && Tables(n) && n.spaces.Keys == m.spaces.Keys + {pd} && pd !in m.spaces && s in m.spaces
    requires forall p | p in m.spaces :: MapsBelow(n.phys, p, USER_PAGES, f) <==> MapsBelow(m.phys, p, USER_PAGES, f)
    requires MapsBelow(n.phys, pd, USER_PAGES, f) <==> MapsBelow(m.phys, s, USER_PAGES, f)
    ensures |Mappers(n, f)| == |Mappers(m, f)| + (if MapsBelow(m.phys, s, USER_PAGES, f) then 1 else 0)
  {
    assert Mappers(n, f) == if MapsBelow(m.phys, s, USER_PAGES, f) then Mappers(m, f) + {pd} else Mappers(m, f);
  }

  lemma ForkedMappers(m: Mem, s: nat, child: nat, n: Mem, pd: nat, t: nat, taken: set<nat>, f: nat)
    requires Forked(m, s, child, n, pd, t, taken) && Tables(n)
    ensures |Mappers(n, f)| == |Mappers(m, f)| + (if MapsBelow(m.phys, s, USER_PAGES, f) then 1 else 0)
  {
    forall p | p in m.spaces ensures MapsBelow(n.phys, p, USER_PAGES, f) <==> MapsBelow(m.phys, p, USER_PAGES, f) {
      ForkedMapsOf(m, s, child, n, pd, t, taken, p, f);
    }
    ForkedMapsOf(m, s, child, n, pd, t, taken, pd, f);
    OneMoreMapper(m, n, s, pd, f);
  }

  lemma ForkedPageOk(m: Mem, s: nat, child: nat, n: Mem, pd: nat, t: nat, taken: set<nat>, p: nat, i: nat)
    requires Forked(m, s, child, n, pd, t, taken) && Tables(n) && p in n.spaces && i < USER_PAGES
    requires Entry(n.phys, p, i).present
    ensures PageOk(n, Entry(n.phys, p, i))
  {
    var q := if p == pd then s else p;
    assert q in m.spaces;
    var e := Entry(m.phys, q, i);
    assert Entry(n.phys, p, i) == if q == s then Protected(e) else e;
    assert PageOk(m, e);
    ForkedMappers(m, s, child, n, pd, t, taken, e.frame);
    if Entry(n.phys, p, i).writable {
      assert q != s;
      NotMappedBy(m, q, i, s);
    }
  }

  lemma NotMappedBy(m: Mem, q: nat, i: nat, s: nat)
    requires Tables(m) && Pages(m) && q in m.spaces && s in m.spaces && q != s && i < USER_PAGES
    requires Entry(m.phys, q, i).present && Entry(m.phys, q, i).frame < |m.phys| && m.pool.refs[Entry(m.phys, q, i).frame] == 1
    ensures !MapsBelow(m.phys, s, USER_PAGES, Entry(m.phys, q, i).frame)
  {
    forall j | 0 <= j < USER_PAGES && Entry(m.phys, s, j).present
      ensures Entry(m.phys, s, j).frame != Entry(m.phys, q, i).frame
    {
      SoleMapper(m, q, i, s, j);
    }
  }

  lemma ForkedPages(m: Mem, s: nat, child: nat, n: Mem, pd: nat, t: nat, taken: set<nat>)
    requires Forked(m, s, child, n, pd, t, taken) && Tables(n)
    ensures Pages(n)
  {
    forall p, i | p in n.spaces && 0 <= i < USER_PAGES && Entry(n.phys, p, i).present
      ensures PageOk(n, Entry(n.phys, p, i))
    {
      ForkedPageOk(m, s, child, n, pd, t, taken, p, i);
    }
    forall p | p in n.spaces ensures OnePageEach(n.phys, p) {
      var q := if p == pd then s else p;
      assert q in m.spaces;
      assert OnePageEach(m.phys, q);
      forall i | 0 <= i < USER_PAGES
        ensures Entry(n.phys, p, i).present == Entry(m.phys, q, i).present
        ensures Entry(n.phys, p, i).frame == Entry(m.phys, q, i).frame
      {
        assert Entry(n.phys, p, i) == if q == s then Protected(Entry(m.phys, q, i)) else Entry(m.phys, q, i);
      }
    }
  }

  lemma FiveOfFive(five: set<nat>, v: nat, w: nat, x: nat, y: nat, z: nat)
    requires |five| == 5 && {v, w, x, y, z} <= five
    requires v != w && v != x && v != y && v != z && w != x && w != y && w != z && x != y && x != z && y != z
    ensures five == {v, w, x, y, z}
  {
    var a := five - {v};
    var b := a - {w};
    var c := b - {x};
    var d := c - {y};
    assert |a| == 4 && |b| == 3 && |c| == 2 && |d| == 1;
    assert d == {z} by {
      assert |d - {z}| == 0;
    }
    forall f | f in five ensures f in {v, w, x, y, z} {
      assert f == v || f == w || f == x || f == y || f in d;
    }
  }

  lemma TablesApart(phys: Phys, ds: set<nat>, pd: nat)
    requires Private(phys, ds) && pd in ds
    ensures forall d | FIRST_PDE <= d <= LAST_PDE :: TableFrame(phys, pd, d) != pd
    ensures TableFrame(phys, pd, FIRST_PDE) != TableFrame(phys, pd, FIRST_PDE + 1)
    ensures TableFrame(phys, pd, FIRST_PDE) != TableFrame(phys, pd, LAST_PDE)
    ensures TableFrame(phys, pd, FIRST_PDE + 1) != TableFrame(phys, pd, LAST_PDE)
  {
    assert !Clash(phys, pd, FIRST_PDE, pd, FIRST_PDE + 1);
    assert !Clash(phys, pd, FIRST_PDE, pd, LAST_PDE);
    assert !Clash(phys, pd, FIRST_PDE + 1, pd, LAST_PDE);
  }

  /** The five frames a fork takes are the child's directory, page tables and trampoline. */
  lemma ForkedTaken(m: Mem, s: nat, child: nat, n: Mem, pd: nat, t: nat, taken: set<nat>, f: nat)
    requires Forked(m, s, child, n, pd, t, taken) && Tables(n)
    ensures f in taken <==> f == pd || f == t || exists d | FIRST_PDE <= d <= LAST_PDE :: TableFrame(n.phys, pd, d) == f
  {
    TablesApart(n.phys, n.spaces.Keys, pd);
    FiveOfFive(taken, pd, t, TableFrame(n.phys, pd, FIRST_PDE), TableFrame(n.phys, pd, FIRST_PDE + 1),
               TableFrame(n.phys, pd, LAST_PDE));
  }

  lemma ForkedTrampoline(m: Mem, s: nat, child: nat, n: Mem, pd: nat, t: nat, taken: set<nat>, u: nat)
    requires Forked(m, s, child, n, pd, t, taken) && Tables(n) && Control(m) && u in n.spaces
    ensures IsTrampoline(n, n.spaces[u].tramp)
  {
    var v := n.spaces[u].tramp;
    if u != pd {
      assert IsTrampoline(m, m.spaces[u].tramp);
      assert v !in taken;
    }
    forall p | p in n.spaces ensures !MapsBelow(n.phys, p, USER_PAGES, v) {
      ForkedMapsOf(m, s, child, n, pd, t, taken, p, v);
      if u == pd {
        UnusedUnmapped(m, if p == pd then s else p, t);
      }
    }
  }

  lemma ForkedRefs(m: Mem, s: nat, child: nat, n: Mem, pd: nat, t: nat, taken: set<nat>, u: nat)
    requires Forked(m, s, child, n, pd, t, taken) && Tables(n) && Control(m) && u in n.spaces
    ensures n.pool.refs[u] == 1
    ensures forall d | FIRST_PDE <= d <= LAST_PDE :: n.pool.refs[TableFrame(n.phys, u, d)] == 1
  {
    if u != pd {
      assert u in m.spaces && Ready(m.pool, m.phys, u);
      NotUserPage(m, s, u);
      forall d | FIRST_PDE <= d <= LAST_PDE ensures n.pool.refs[TableFrame(n.phys, u, d)] == 1 {
        assert TableFrame(n.phys, u, d) == TableFrame(m.phys, u, d);
        NotUserPage(m, s, TableFrame(m.phys, u, d));
      }
    }
  }

  /** Only data frames are user pages. */
  lemma NotUserPage(m: Mem, s: nat, f: nat)
    requires Tables(m) && Pages(m) && s in m.spaces && f < |m.phys| && !m.phys[f].Data?
    ensures !MapsBelow(m.phys, s, USER_PAGES, f)
  {
    forall j | 0 <= j < USER_PAGES && Entry(m.phys, s, j).present ensures Entry(m.phys, s, j).frame != f {
      assert PageOk(m, Entry(m.phys, s, j));
    }
  }

  lemma ForkedControl(m: Mem, s: nat, child: nat, n: Mem, pd: nat, t: nat, taken: set<nat>)
    requires Forked(m, s, child, n, pd, t, taken) && Tables(n) && Control(m)
    ensures Control(n)
  {
    forall u | u in n.spaces
      ensures n.pool.refs[u] == 1 && IsTrampoline(n, n.spaces[u].tramp)
      ensures forall d | FIRST_PDE <= d <= LAST_PDE :: n.pool.refs[TableFrame(n.phys, u, d)] == 1
    {
      ForkedRefs(m, s, child, n, pd, t, taken, u);
      ForkedTrampoline(m, s, child, n, pd, t, taken, u);
    }
    forall u, v | u in n.spaces && v in n.spaces && n.spaces[u].tramp == n.spaces[v].tramp ensures u == v {
      if u != pd {
        assert IsTrampoline(m, m.spaces[u].tramp);
      }
      if v != pd {
        assert IsTrampoline(m, m.spaces[v].tramp);
      }
    }
  }

  lemma ForkedProcs(m: Mem, s: nat, child: nat, n: Mem, pd: nat, t: nat, taken: set<nat>)
    requires Forked(m, s, child, n, pd, t, taken) && Procs(m)
    ensures Procs(n)
  {
    assert pd !in m.spaces;
    assert Users(n, pd) == {child};
    forall u | u in m.spaces ensures Users(n, u) == Users(m, u) {
    }
  }

  lemma ForkedHeld(m: Mem, s: nat, child: nat, n: Mem, pd: nat, t: nat, taken: set<nat>, f: nat)
    requires Forked(m, s, child, n, pd, t, taken) && Tables(n)
    ensures Held(n, f) <==> Held(m, f) || f in taken
  {
    ForkedTaken(m, s, child, n, pd, t, taken, f);
    ForkedMapsOf(m, s, child, n, pd, t, taken, pd, f);
    assert pd in n.spaces && (f in taken ==> HeldBy(n, pd, f));
    assert HeldBy(n, pd, f) ==> f in taken || HeldBy(m, s, f);
    forall p | p in m.spaces ensures HeldBy(n, p, f) <==> HeldBy(m, p, f) {
      ForkedMapsOf(m, s, child, n, pd, t, taken, p, f);
      assert forall d | FIRST_PDE <= d <= LAST_PDE :: TableFrame(n.phys, p, d) == TableFrame(m.phys, p, d);
    }
  }

  lemma ForkedExact(m: Mem, base: set<nat>, s: nat, child: nat, n: Mem, pd: nat, t: nat, taken: set<nat>)
    requires Forked(m, s, child, n, pd, t, taken) && Tables(n) && Exact(m, base)
    ensures Exact(n, base)
  {
    forall f | 0 <= f < |n.pool.used| ensures n.pool.used[f] <==> f in base || Held(n, f) {
      ForkedHeld(m, s, child, n, pd, t, taken, f);
    }
    forall f | f in base ensures f < |n.pool.used| && !Held(n, f) {
      ForkedHeld(m, s, child, n, pd, t, taken, f);
      assert m.pool.used[f];
    }
  }

  lemma ForkedKeeps(m: Mem, base: set<nat>, s: nat, child: nat, n: Mem, pd: nat, t: nat, taken: set<nat>)
    requires Inv(m, base) && Forked(m, s, child, n, pd, t, taken)
    ensures Inv(n, base)
  {
    ForkedReady(m, s, child, n, pd, t, taken);
    ForkedPages(m, s, child, n, pd, t, taken);
    ForkedControl(m, s, child, n, pd, t, taken);
    ForkedProcs(m, s, child, n, pd, t, taken);
    ForkedExact(m, base, s, child, n, pd, t, taken);
  }

  /** The child sees exactly the parent's pages and every other space sees its own. */
  lemma ForkedView(m: Mem, s: nat, child: nat, n: Mem, pd: nat, t: nat, taken: set<nat>, p: nat)
    requires Forked(m, s, child, n, pd, t, taken) && Tables(n) && p in n.spaces
    ensures View(n, p) == View(m, if p == pd then s else p)
  {
    var q := if p == pd then s else p;
    assert q in m.spaces;
    forall i | 0 <= i < USER_PAGES ensures PageOf(n.phys, Entry(n.phys, p, i)) == PageOf(m.phys, Entry(m.phys, q, i)) {
      var e := Entry(m.phys, q, i);
      assert Entry(n.phys, p, i) == if q == s then Protected(e) else e;
      if e.present {
        assert PageOk(m, e);
      }
    }
  }
}
