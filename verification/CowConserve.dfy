/**
 Frame conservation: what a fork, any stores and execs of the two processes, and the end of the
 child leave of the free count; and the frame every launch loses.
 */
module CowConserve {
  import opened Frames
  import opened Paging
  import opened CowOps
  import opened Cow
  import opened CowWrite
  import opened CowSpaces
  import opened CowReap
  import opened CowLaunch
  import opened CowRuns

  // ---------------------------------------------------------------- counting

  function UsedSet(used: seq<bool>): set<nat> { set f: nat | f < |used| && used[f] }

  lemma {:induction false} CountUsed(used: seq<bool>)
    ensures CountFree(used) + |UsedSet(used)| == |used|
  {
    if |used| == 0 {
      assert UsedSet(used) == {};
    } else {
      var n := |used| - 1;
      CountUsed(used[..n]);
      assert UsedSet(used) == UsedSet(used[..n]) + (if used[n] then {n} else {});
    }
  }

  /** The image of a finite set under an injective map has as many elements. */
  lemma {:induction false} ImageSize(c: set<nat>, g: seq<nat>)
    requires (forall i | i in c :: i < |g|) && forall i, j | i in c && j in c && g[i] == g[j] :: i == j
    ensures |set i | i in c :: g[i]| == |c|
    decreases |c|
  {
    var image := set i | i in c :: g[i];
    if c == {} {
      assert image == {};
    } else {
      var x :| x in c;
      var d := c - {x};
      ImageSize(d, g);
      assert image == (set i | i in d :: g[i]) + {g[x]};
      assert g[x] !in (set i | i in d :: g[i]);
    }
  }

  // ---------------------------------------------------------------- what a fork's aftermath can change

  ghost predicate SameSpace(m: Mem, n: Mem, p: nat)
    requires Tables(m) && Tables(n) && p in m.spaces && p in n.spaces
  {
    && n.spaces[p].tramp == m.spaces[p].tramp
    && (forall d | FIRST_PDE <= d <= LAST_PDE :: TableFrame(n.phys, p, d) == TableFrame(m.phys, p, d))
  }

  /** Page `j` of `s` is where it was, or in a frame that was free at the start. */
  ghost predicate Drifted(m: Mem, n: Mem, s: nat, j: nat)
    requires Tables(m) && Tables(n) && s in m.spaces && s in n.spaces && j < USER_PAGES
  {
    && Entry(n.phys, s, j).present == Entry(m.phys, s, j).present
    && (Entry(n.phys, s, j).present ==>
          || Entry(n.phys, s, j).frame == Entry(m.phys, s, j).frame
          || (Entry(n.phys, s, j).frame < |m.pool.used| && !m.pool.used[Entry(n.phys, s, j).frame]))
  }

  /** `n` comes after `m` through changes to the pages of `s` alone, as far as the spaces of `m` go. */
  ghost predicate After(m: Mem, n: Mem, s: nat) {
    && Tables(m) && Tables(n) && s in m.spaces && m.spaces.Keys <= n.spaces.Keys && |n.pool.used| == |m.pool.used|
    && (forall p | p in m.spaces :: SameSpace(m, n, p))
    && (forall p, j | p in m.spaces && p != s && 0 <= j < USER_PAGES :: Entry(n.phys, p, j) == Entry(m.phys, p, j))
    && (forall j | 0 <= j < USER_PAGES :: Drifted(m, n, s, j))
  }

  /** ... and no frame in use has been given back. */
  ghost predicate Growing(m: Mem, n: Mem) {
    |n.pool.used| == |m.pool.used| && forall f | 0 <= f < |m.pool.used| && m.pool.used[f] :: n.pool.used[f]
  }

  lemma ForkAfter(m: Mem, s: nat, child: nat, n: Mem, pd: nat, t: nat, taken: set<nat>)
    requires Forked(m, s, child, n, pd, t, taken)
    ensures After(m, n, s) && Growing(m, n)
  {
    ForkedReady(m, s, child, n, pd, t, taken);
    forall p | p in m.spaces ensures SameSpace(m, n, p) {
    }
    forall j | 0 <= j < USER_PAGES ensures Drifted(m, n, s, j) {
      assert Entry(n.phys, s, j) == Protected(Entry(m.phys, s, j));
    }
  }

  /** One more change of an entry of `s` or of a space that was not there at the start. */
  lemma EntryAfter(m: Mem, k: Mem, n: Mem, s: nat, u: nat, i: nat, e: Pte)
    requires After(m, k, s) && OneEntry(k, u, i, e, n) && (u == s || u !in m.spaces)
    requires Entry(k.phys, u, i).present && e.present
    requires e.frame == Entry(k.phys, u, i).frame || (e.frame < |m.pool.used| && !m.pool.used[e.frame])
    ensures After(m, n, s)
  {
    forall p | p in m.spaces ensures SameSpace(m, n, p) {
      assert SameSpace(m, k, p);
      forall d | FIRST_PDE <= d <= LAST_PDE ensures TableFrame(n.phys, p, d) == TableFrame(m.phys, p, d) {
        assert TableFrame(n.phys, p, d) == TableFrame(k.phys, p, d);
      }
    }
    forall j | 0 <= j < USER_PAGES ensures Drifted(m, n, s, j) {
      assert Drifted(m, k, s, j);
    }
  }

  lemma UnsharedAfter(m: Mem, k: Mem, s: nat, u: nat, i: nat, n: Mem)
    requires After(m, k, s) && Growing(m, k) && Pages(k) && (u == s || u !in m.spaces) && u in k.spaces && i < USER_PAGES
    requires Entry(k.phys, u, i).present && n == k.(phys := SetEntry(k.phys, u, i, Entry(k.phys, u, i).(writable := true)))
    ensures After(m, n, s) && Growing(m, n)
  {
    UnsharedEntry(k, u, i, n);
    EntryAfter(m, k, n, s, u, i, Entry(k.phys, u, i).(writable := true));
  }

  lemma CopiedAfter(m: Mem, k: Mem, s: nat, u: nat, i: nat, f: nat, n: Mem)
    requires After(m, k, s) && Growing(m, k) && Pages(k) && (u == s || u !in m.spaces) && u in k.spaces && i < USER_PAGES
    requires Entry(k.phys, u, i).present && Copied(k, u, i, f, n)
    ensures After(m, n, s) && Growing(m, n)
  {
    assert PageOk(k, Entry(k.phys, u, i));
    CopiedMoved(k, u, i, f, n);
    EntryAfter(m, k, n, s, u, i, CopyEntry(Entry(k.phys, u, i), f));
  }

  lemma WritableAfter(m: Mem, k: Mem, s: nat, u: nat, i: nat)
    requires After(m, k, s) && Growing(m, k) && Pages(k) && (u == s || u !in m.spaces) && u in k.spaces && i < USER_PAGES
    ensures After(m, Writable(k, u, i).0, s) && Growing(m, Writable(k, u, i).0)
  {
    WritableCases(k, u, i);
    var e := Entry(k.phys, u, i);
    var n := Writable(k, u, i).0;
    if e.present {
      assert PageOk(k, e);
      if !e.writable && k.pool.refs[e.frame] <= 1 {
        UnsharedAfter(m, k, s, u, i, n);
      } else if !e.writable && k.pool.free > 0 {
        CopiedAfter(m, k, s, u, i, AllocPage(k.pool).1.value, n);
      }
    }
  }

  lemma PokeAfter(m: Mem, k: Mem, s: nat, f: nat, page: Page)
    requires After(m, k, s) && Growing(m, k) && f < |k.phys| && k.phys[f].Data?
    ensures After(m, Poke(k, f, page), s) && Growing(m, Poke(k, f, page))
  {
    var n := Poke(k, f, page);
    PokeTables(k, f, page);
    forall p | p in m.spaces ensures SameSpace(m, n, p) {
      assert SameSpace(m, k, p);
      forall d | FIRST_PDE <= d <= LAST_PDE ensures TableFrame(n.phys, p, d) == TableFrame(m.phys, p, d) {
        assert TableFrame(n.phys, p, d) == TableFrame(k.phys, p, d);
      }
    }
    forall j | 0 <= j < USER_PAGES ensures Drifted(m, n, s, j) {
      assert Drifted(m, k, s, j);
    }
  }

  // ---------------------------------------------------------------- quiet runs

  /** A store or an exec by a process of space `s` or `pd`. */
  predicate Quiet(m: Mem, op: Op, s: nat, pd: nat) {
    && (op.Store? || op.WakeStore? || op.Exec?)
    && op.slot in m.procs && (m.procs[op.slot] == s || m.procs[op.slot] == pd)
  }

  lemma StoreThroughAfter(m: Mem, k: Mem, s: nat, u: nat, i: nat, at: nat, b: Byte)
    requires After(m, k, s) && Growing(m, k) && Pages(k) && u in k.spaces && i < USER_PAGES && at < PAGE_SIZE
    requires Entry(k.phys, u, i).present
    ensures After(m, StoreThrough(k, u, i, at, b), s) && Growing(m, StoreThrough(k, u, i, at, b))
  {
    MappedData(k, u, i);
    var f := Entry(k.phys, u, i).frame;
    PokeAfter(m, k, s, f, k.phys[f].page[at := b]);
  }

  lemma KernelStoreAfter(m: Mem, base: set<nat>, k: Mem, s: nat, u: nat, i: nat, at: nat, b: Byte) returns (n: Mem)
    requires After(m, k, s) && Growing(m, k) && Inv(k, base) && (u == s || u !in m.spaces)
    requires u in k.spaces && i < USER_PAGES && at < PAGE_SIZE
    ensures n == KernelStore(k, u, i, at, b).0
    ensures After(m, n, s) && Growing(m, n) && Inv(n, base) && n.spaces == k.spaces && n.procs == k.procs
  {
    WritableKeeps(k, base, u, i);
    WritableAfter(m, k, s, u, i);
    var w := Writable(k, u, i).0;
    n := KernelStore(k, u, i, at, b).0;
    if Entry(w.phys, u, i).present {
      StoreKeeps(w, base, u, i, at, b);
      StoreThroughAfter(m, w, s, u, i, at, b);
    }
  }

  lemma UserStoreAfter(m: Mem, base: set<nat>, k: Mem, s: nat, u: nat, i: nat, at: nat, b: Byte) returns (n: Mem)
    requires After(m, k, s) && Growing(m, k) && Inv(k, base) && (u == s || u !in m.spaces)
    requires u in k.spaces && i < USER_PAGES && at < PAGE_SIZE
    ensures n == UserStore(k, u, i, at, b).0
    ensures After(m, n, s) && Growing(m, n) && Inv(n, base) && n.spaces == k.spaces && n.procs == k.procs
  {
    WritableKeeps(k, base, u, i);
    if Writable(k, u, i).1 {
      n := KernelStoreAfter(m, base, k, s, u, i, at, b);
    } else {
      n := k;
    }
  }

  lemma DetachOneAfter(m: Mem, k: Mem, s: nat, u: nat, j: nat)
    requires After(m, k, s) && Growing(m, k) && Good(k) && (u == s || u !in m.spaces) && u in k.spaces && j < USER_PAGES
    ensures After(m, DetachOne(k, u, j).0, s) && Growing(m, DetachOne(k, u, j).0)
  {
    assert Tables(k) && Pages(k);
    if Entry(k.phys, u, j).present && !Entry(k.phys, u, j).writable {
      var n := Writable(k, u, j).0;
      WritableAfter(m, k, s, u, j);
      assert DetachOne(k, u, j).0 == n;
    } else {
      assert DetachOne(k, u, j).0 == k;
    }
  }

  ghost predicate Follows(m: Mem, n: Mem, s: nat) { After(m, n, s) && Growing(m, n) }

  lemma DetachAfter(m: Mem, base: set<nat>, k: Mem, s: nat, u: nat)
    requires Follows(m, k, s) && Inv(k, base) && (u == s || u !in m.spaces) && u in k.spaces
    ensures Follows(m, DetachFrom(k, u, 0).0, s)
  {
    var P := (x: Mem) => Follows(m, x, s);
    forall x, i | Inv(x, base) && u in x.spaces && 0 <= i < USER_PAGES && P(x) ensures P(DetachOne(x, u, i).0) {
      DetachOneAfter(m, x, s, u, i);
    }
    var n := DetachInduct(k, base, u, 0, P);
  }

  lemma QuietStep(m: Mem, base: set<nat>, k: Mem, kernel: seq<Pde>, op: Op, s: nat, pd: nat) returns (n: Mem)
    requires After(m, k, s) && Growing(m, k) && Inv(k, base) && pd !in m.spaces && |kernel| == 1024
    requires Applies(k, op) && Quiet(k, op, s, pd)
    ensures n == Step(k, kernel, op)
    ensures After(m, n, s) && Growing(m, n) && Inv(n, base) && n.spaces == k.spaces && n.procs == k.procs
  {
    var u := k.procs[op.slot];
    match op
    case Store(p, i, at, b) => n := UserStoreAfter(m, base, k, s, u, i, at, b);
    case WakeStore(p, i, at, b) => n := KernelStoreAfter(m, base, k, s, u, i, at, b);
    case Exec(p) =>
      DetachAfter(m, base, k, s, u);
      n := DetachKeeps(k, base, u, 0);
  }

  /** A run of quiet operations from `k` to `n`. */
  ghost predicate QuietRun(k: Mem, kernel: seq<Pde>, ops: seq<Op>, s: nat, pd: nat, n: Mem)
    requires |kernel| == 1024
    decreases |ops|
  {
    if |ops| == 0 then n == k
    else Good(k) ==> Applies(k, ops[0]) && Quiet(k, ops[0], s, pd) && QuietRun(Step(k, kernel, ops[0]), kernel, ops[1..], s, pd, n)
  }

  lemma {:induction false} QuietRunAfter(m: Mem, base: set<nat>, k: Mem, kernel: seq<Pde>, ops: seq<Op>, s: nat, pd: nat, n: Mem)
    requires After(m, k, s) && Growing(m, k) && Inv(k, base) && pd !in m.spaces && |kernel| == 1024
    requires QuietRun(k, kernel, ops, s, pd, n)
    ensures After(m, n, s) && Inv(n, base) && n.spaces == k.spaces && n.procs == k.procs
    decreases |ops|
  {
    if |ops| > 0 {
      var next := QuietStep(m, base, k, kernel, ops[0], s, pd);
      QuietRunAfter(m, base, next, kernel, ops[1..], s, pd, n);
    }
  }

  // ---------------------------------------------------------------- the balance

  /** Pages of `s` that moved to another frame between `m` and `n`. */
  ghost function MovedPages(m: Mem, n: Mem, s: nat): set<nat>
    requires Tables(m) && Tables(n) && s in m.spaces && s in n.spaces
  {
    set i: nat | i < USER_PAGES && Entry(m.phys, s, i).present && Entry(n.phys, s, i).frame != Entry(m.phys, s, i).frame
  }

  /** Those whose old frame some other space mapped at the start. */
  ghost function MovedShared(m: Mem, n: Mem, s: nat): set<nat>
    requires Tables(m) && Tables(n) && s in m.spaces && s in n.spaces
  {
    set i | i in MovedPages(m, n, s) && Entry(m.phys, s, i).frame < |m.pool.refs| && m.pool.refs[Entry(m.phys, s, i).frame] > 1
  }

  ghost function FrameMap(m: Mem, s: nat): (g: seq<nat>)
    requires Tables(m) && s in m.spaces
    ensures |g| == USER_PAGES
  {
    seq(USER_PAGES, i requires 0 <= i < USER_PAGES => Entry(m.phys, s, i).frame)
  }

  ghost function Gained(m: Mem, n: Mem, s: nat): set<nat>
    requires Tables(m) && Tables(n) && s in m.spaces && s in n.spaces
  {
    set i | i in MovedPages(m, n, s) :: FrameMap(n, s)[i]
  }

  ghost function Lost(m: Mem, n: Mem, s: nat): set<nat>
    requires Tables(m) && Tables(n) && s in m.spaces && s in n.spaces
  {
    set i | i in MovedPages(m, n, s) - MovedShared(m, n, s) :: FrameMap(m, s)[i]
  }

  /** Both ends of a quiet stretch, with the same spaces. */
  ghost predicate Ends(m: Mem, n: Mem, s: nat, base: set<nat>) {
    Inv(m, base) && Inv(n, base) && After(m, n, s) && n.spaces.Keys == m.spaces.Keys
  }

  lemma OwnSame(m: Mem, n: Mem, s: nat, p: nat, f: nat)
    requires After(m, n, s) && p in m.spaces
    ensures Own(n, p, f) <==> Own(m, p, f)
    ensures p != s ==> (MapsBelow(n.phys, p, USER_PAGES, f) <==> MapsBelow(m.phys, p, USER_PAGES, f))
  {
    assert SameSpace(m, n, p);
    if p != s {
      assert forall j | 0 <= j < USER_PAGES :: Entry(n.phys, p, j) == Entry(m.phys, p, j);
    }
  }

  /** A frame in use at the start that `s` still maps at the end is mapped by the same page. */
  lemma StillMapped(m: Mem, n: Mem, s: nat, j: nat)
    requires After(m, n, s) && Pages(m) && j < USER_PAGES && Entry(n.phys, s, j).present
    requires Entry(n.phys, s, j).frame < |m.pool.used| && m.pool.used[Entry(n.phys, s, j).frame]
    ensures Entry(m.phys, s, j).present && Entry(m.phys, s, j).frame == Entry(n.phys, s, j).frame
  {
    assert Drifted(m, n, s, j);
  }

  lemma LostGone(m: Mem, n: Mem, s: nat, base: set<nat>, i: nat)
    requires Ends(m, n, s, base) && i in MovedPages(m, n, s) && i !in MovedShared(m, n, s)
    ensures var f := Entry(m.phys, s, i).frame; f < |m.pool.used| && m.pool.used[f] && !n.pool.used[f]
  {
    var e := Entry(m.phys, s, i);
    MappedOnce(m, s, i);
    assert PageOk(m, e);
    var f := e.frame;
    assert MapsBelow(m.phys, s, USER_PAGES, f);
    assert HeldBy(m, s, f) && Held(m, f) && f !in base;
    forall p | p in n.spaces ensures !HeldBy(n, p, f) {
      OwnFrames(m, p);
      OwnSame(m, n, s, p, f);
      HeldByCases(n, p, f);
      if p == s {
        forall j | 0 <= j < USER_PAGES && Entry(n.phys, s, j).present ensures Entry(n.phys, s, j).frame != f {
          if Entry(n.phys, s, j).frame == f {
            StillMapped(m, n, s, j);
            SoleMapper(m, s, i, s, j);
          }
        }
      } else {
        NotMappedBy(m, s, i, p);
      }
    }
    assert !Held(n, f);
  }

  lemma KeptUsed(m: Mem, n: Mem, s: nat, base: set<nat>, f: nat)
    requires Ends(m, n, s, base) && f < |m.pool.used| && m.pool.used[f]
    requires forall i | i in MovedPages(m, n, s) && i !in MovedShared(m, n, s) :: Entry(m.phys, s, i).frame != f
    ensures n.pool.used[f]
  {
    if f !in base {
      assert Held(m, f);
      var p :| p in m.spaces && HeldBy(m, p, f);
      HeldByCases(m, p, f);
      OwnSame(m, n, s, p, f);
      HeldByCases(n, p, f);
      if !HeldBy(n, p, f) {
        assert p == s && MapsBelow(m.phys, s, USER_PAGES, f);
        var i :| 0 <= i < USER_PAGES && Entry(m.phys, s, i).present && Entry(m.phys, s, i).frame == f;
        KeptByOther(m, n, s, i);
      }
      assert Held(n, f);
    }
  }

  lemma KeptByOther(m: Mem, n: Mem, s: nat, i: nat)
    requires After(m, n, s) && Pages(m) && i < USER_PAGES && Entry(m.phys, s, i).present
    requires !MapsBelow(n.phys, s, USER_PAGES, Entry(m.phys, s, i).frame)
    requires i in MovedPages(m, n, s) ==> i in MovedShared(m, n, s)
    ensures Held(n, Entry(m.phys, s, i).frame)
  {
    assert Drifted(m, n, s, i);
    assert i in MovedPages(m, n, s);
    var p, j := OtherMapper(m, s, i);
    var f := Entry(m.phys, s, i).frame;
    assert MapsBelow(m.phys, p, USER_PAGES, f);
    OwnSame(m, n, s, p, f);
    assert p in n.spaces && HeldBy(n, p, f);
  }

  lemma NewUsed(m: Mem, n: Mem, s: nat, base: set<nat>, f: nat)
    requires Ends(m, n, s, base) && f < |m.pool.used| && !m.pool.used[f]
    ensures n.pool.used[f] <==> f in Gained(m, n, s)
  {
    if n.pool.used[f] {
      assert f !in base && Held(n, f);
      var p :| p in n.spaces && HeldBy(n, p, f);
      HeldByCases(n, p, f);
      OwnSame(m, n, s, p, f);
      assert !HeldBy(m, p, f) by {
        assert !Held(m, f);
      }
      HeldByCases(m, p, f);
      assert p == s;
      var j :| 0 <= j < USER_PAGES && Entry(n.phys, s, j).present && Entry(n.phys, s, j).frame == f;
      GainedAt(m, n, s, j);
    }
    if f in Gained(m, n, s) {
      var i :| i in MovedPages(m, n, s) && FrameMap(n, s)[i] == f;
      assert Drifted(m, n, s, i);
      assert PageOk(n, Entry(n.phys, s, i));
    }
  }

  lemma GainedAt(m: Mem, n: Mem, s: nat, j: nat)
    requires After(m, n, s) && Pages(m) && j < USER_PAGES && Entry(n.phys, s, j).present
    requires Entry(n.phys, s, j).frame < |m.pool.used| && !m.pool.used[Entry(n.phys, s, j).frame]
    ensures Entry(n.phys, s, j).frame in Gained(m, n, s)
  {
    assert Drifted(m, n, s, j);
    assert PageOk(m, Entry(m.phys, s, j));
    assert j in MovedPages(m, n, s);
    assert FrameMap(n, s)[j] == Entry(n.phys, s, j).frame;
  }

  lemma GainedSize(m: Mem, n: Mem, s: nat)
    requires After(m, n, s) && Pages(n)
    ensures |Gained(m, n, s)| == |MovedPages(m, n, s)|
  {
    var c, g := MovedPages(m, n, s), FrameMap(n, s);
    assert OnePageEach(n.phys, s);
    forall i, j | i in c && j in c && g[i] == g[j] ensures i == j {
      assert Drifted(m, n, s, i) && Drifted(m, n, s, j);
      assert Entry(n.phys, s, i).present && Entry(n.phys, s, j).present;
      assert !(i < j) && !(j < i);
    }
    ImageSize(c, g);
  }

  lemma LostSize(m: Mem, n: Mem, s: nat)
    requires After(m, n, s) && Pages(m)
    ensures |Lost(m, n, s)| == |MovedPages(m, n, s)| - |MovedShared(m, n, s)|
  {
    var c, g := MovedPages(m, n, s) - MovedShared(m, n, s), FrameMap(m, s);
    assert OnePageEach(m.phys, s);
    forall i, j | i in c && j in c && g[i] == g[j] ensures i == j {
      assert Entry(m.phys, s, i).present && Entry(m.phys, s, j).present;
      assert !(i < j) && !(j < i);
    }
    ImageSize(c, g);
    assert MovedShared(m, n, s) <= MovedPages(m, n, s);
  }

  lemma LostPage(m: Mem, n: Mem, s: nat, f: nat) returns (i: nat)
    requires After(m, n, s) && f in Lost(m, n, s)
    ensures i in MovedPages(m, n, s) && i !in MovedShared(m, n, s) && Entry(m.phys, s, i).frame == f
  {
    i :| i in MovedPages(m, n, s) - MovedShared(m, n, s) && FrameMap(m, s)[i] == f;
  }

  lemma GainedWasFree(m: Mem, n: Mem, s: nat, f: nat)
    requires After(m, n, s) && f in Gained(m, n, s)
    ensures f < |m.pool.used| && !m.pool.used[f]
  {
    var i :| i in MovedPages(m, n, s) && FrameMap(n, s)[i] == f;
    assert Drifted(m, n, s, i);
  }

  lemma UsedAt(m: Mem, n: Mem, s: nat, base: set<nat>, f: nat)
    requires Ends(m, n, s, base) && f < |m.pool.used|
    ensures m.pool.used[f] && f !in Lost(m, n, s) ==> n.pool.used[f]
    ensures !m.pool.used[f] ==> (n.pool.used[f] <==> f in Gained(m, n, s))
  {
    if m.pool.used[f] && f !in Lost(m, n, s) {
      forall i | i in MovedPages(m, n, s) && i !in MovedShared(m, n, s) ensures Entry(m.phys, s, i).frame != f {
        assert FrameMap(m, s)[i] in Lost(m, n, s);
      }
      KeptUsed(m, n, s, base, f);
    } else if !m.pool.used[f] {
      NewUsed(m, n, s, base, f);
    }
  }

  /** Losing some used frames and gaining some free ones changes the free count by the difference. */
  lemma CountBalance(a: seq<bool>, b: seq<bool>, lost: set<nat>, gained: set<nat>)
    requires |a| == |b|
    requires forall f | f in lost :: f < |a| && a[f] && !b[f]
    requires forall f | f in gained :: f < |a| && !a[f] && b[f]
    requires forall f | 0 <= f < |a| && a[f] && !b[f] :: f in lost
    requires forall f | 0 <= f < |a| && !a[f] && b[f] :: f in gained
    ensures CountFree(b) == CountFree(a) + |lost| - |gained|
  {
    var x, y := UsedSet(a), UsedSet(b);
    assert lost <= x && gained !! x;
    assert y == x - lost + gained;
    assert |x - lost| == |x| - |lost|;
    CountUsed(a);
    CountUsed(b);
  }

  /** The free count falls by one for every moved page whose old frame somebody else still maps. */
  lemma Balance(m: Mem, n: Mem, s: nat, base: set<nat>)
    requires Ends(m, n, s, base)
    ensures n.pool.free == m.pool.free - |MovedShared(m, n, s)|
  {
    var lost, gained := Lost(m, n, s), Gained(m, n, s);
    forall f | f in lost ensures f < |m.pool.used| && m.pool.used[f] && !n.pool.used[f] {
      var i := LostPage(m, n, s, f);
      LostGone(m, n, s, base, i);
    }
    forall f | f in gained ensures f < |m.pool.used| && !m.pool.used[f] && n.pool.used[f] {
      GainedWasFree(m, n, s, f);
      UsedAt(m, n, s, base, f);
    }
    forall f | 0 <= f < |m.pool.used|
      ensures m.pool.used[f] && !n.pool.used[f] ==> f in lost
      ensures !m.pool.used[f] && n.pool.used[f] ==> f in gained
    {
      UsedAt(m, n, s, base, f);
    }
    GainedSize(m, n, s);
    LostSize(m, n, s);
    CountBalance(m.pool.used, n.pool.used, lost, gained);
  }

  lemma ReapAfter(m: Mem, k: Mem, s: nat, c: nat, pd: nat)
    requires After(m, k, s) && Procs(k) && c in k.procs && k.procs[c] == pd && k.spaces[pd].refs == 1
    requires k.spaces.Keys == m.spaces.Keys + {pd} && pd !in m.spaces && Tables(Reap(k, c))
    ensures After(m, Reap(k, c), s) && Reap(k, c).spaces.Keys == m.spaces.Keys
  {
    var n := Reap(k, c);
    assert n.spaces.Keys == m.spaces.Keys;
    forall p | p in m.spaces ensures SameSpace(m, n, p) {
      assert SameSpace(m, k, p);
    }
    forall j | 0 <= j < USER_PAGES ensures Drifted(m, n, s, j) {
      assert Drifted(m, k, s, j);
    }
  }

  lemma ForkQuiet(m: Mem, base: set<nat>, kernel: seq<Pde>, s: nat, child: nat, n: Mem, pd: nat, t: nat,
                  taken: set<nat>, ops: seq<Op>, k: Mem)
    requires Inv(m, base) && Forked(m, s, child, n, pd, t, taken) && |kernel| == 1024
    requires QuietRun(n, kernel, ops, s, pd, k)
    ensures Inv(k, base) && After(m, k, s) && k.procs == n.procs && k.spaces == n.spaces
  {
    ForkedKeeps(m, base, s, child, n, pd, t, taken);
    ForkAfter(m, s, child, n, pd, t, taken);
    QuietRunAfter(m, base, n, kernel, ops, s, pd, k);
  }

  lemma QuietEnds(m: Mem, s: nat, child: nat, pd: nat, t: nat, k: Mem)
    requires After(m, k, s) && Procs(k) && pd !in m.spaces && child in k.procs && k.procs[child] == pd
    requires k.spaces == m.spaces[pd := Space(t, 1)] && Tables(Reap(k, child))
    ensures After(m, Reap(k, child), s) && Reap(k, child).spaces.Keys == m.spaces.Keys
  {
    assert k.spaces.Keys == m.spaces.Keys + {pd};
    ReapAfter(m, k, s, child, pd);
  }

  /**
   Fork, any run of stores and execs by parent and child, then the end of the child: the free
   count is what it was before the fork, less one frame for each page that the parent moved away
   from a frame another space was already sharing when the fork began.
   */
  lemma ForkReapConserves(m: Mem, base: set<nat>, kernel: seq<Pde>, parent: nat, child: nat, n: Mem, ops: seq<Op>, k: Mem)
    requires Inv(m, base) && parent in m.procs && FreshSlot(m, child) && m.pool.free >= 5 && |kernel| == 1024
    requires n == Fork(m, parent, child).0 && child in n.procs
    requires QuietRun(n, kernel, ops, m.procs[parent], n.procs[child], k)
    ensures Inv(k, base) && child in k.procs && Ends(m, Reap(k, child), m.procs[parent], base)
    ensures Reap(k, child).pool.free == m.pool.free - |MovedShared(m, Reap(k, child), m.procs[parent])|
  {
    var pd, t, taken := ForkSucceeds(m, base, parent, child);
    ForkQuiet(m, base, kernel, m.procs[parent], child, n, pd, t, taken, ops, k);
    ReapKeeps(k, base, child);
    QuietEnds(m, m.procs[parent], child, pd, t, k);
    Balance(m, Reap(k, child), m.procs[parent], base);
  }

  // ---------------------------------------------------------------- launch, then exit

  lemma LaunchedOwn(m: Mem, kernel: seq<Pde>, p: nat, n: Mem, pd: nat, t: nat, a: nat, b: nat, c: nat, blk: nat, f: nat)
    requires Launched(m, kernel, p, n, pd, t, a, b, c, blk) && Tables(n)
    ensures Own(n, pd, f) <==> f in {pd, t, a, b, c}
  {
    NewShape(m, kernel, p, n, pd, t, a, b, c, blk);
    forall d | FIRST_PDE <= d <= LAST_PDE ensures TableFrame(n.phys, pd, d) in {a, b, c} {
      assert d == FIRST_PDE || d == FIRST_PDE + 1 || d == LAST_PDE;
    }
  }

  /** Everything a launch takes but the last page of its block belongs to the new space alone. */
  lemma LaunchedOwns(was: Pool, now: Pool, five: set<nat>, blk: nat, f: nat)
    requires Took(was, now, Run(blk, BLOCK_PAGES) + five) && five !! Run(blk, BLOCK_PAGES) && f < |was.used|
    ensures !was.used[f] && now.used[f] && f != blk + USER_PAGES ==>
              f in five || (blk <= f < blk + USER_PAGES && now.refs[f] == 1)
    ensures was.used[f] || f == blk + USER_PAGES ==> now.used[f] && f !in five && !(blk <= f < blk + USER_PAGES)
  {
    assert f == blk + USER_PAGES ==> f in Run(blk, BLOCK_PAGES);
  }

  lemma LaunchedTook(m: Mem, kernel: seq<Pde>, p: nat, n: Mem, pd: nat, t: nat, a: nat, b: nat, c: nat, blk: nat)
    requires Launched(m, kernel, p, n, pd, t, a, b, c, blk)
    ensures Took(m.pool, n.pool, Run(blk, BLOCK_PAGES) + {pd, t, a, b, c}) && {pd, t, a, b, c} !! Run(blk, BLOCK_PAGES)
  {
  }

  lemma FreedPool(n: Mem, pd: nat, five: set<nat>, blk: nat, r: Pool)
    requires Tables(n) && pd in n.spaces && SpaceFreed(n, pd, r)
    requires forall f: nat :: Own(n, pd, f) <==> f in five
    requires forall f: nat :: MapsBelow(n.phys, pd, USER_PAGES, f) <==> blk <= f < blk + USER_PAGES
    ensures |r.used| == |n.pool.used| == |n.pool.refs|
    ensures forall f | 0 <= f < |r.used| ::
              r.used[f] == (n.pool.used[f] && f !in five && !(blk <= f < blk + USER_PAGES && n.pool.refs[f] == 1))
  {
  }

  lemma LeakFrame(was: Pool, now: Pool, five: set<nat>, blk: nat)
    requires Took(was, now, Run(blk, BLOCK_PAGES) + five)
    ensures blk + USER_PAGES < |was.used| && !was.used[blk + USER_PAGES] && |now.used| == |was.used|
  {
    assert blk + USER_PAGES in Run(blk, BLOCK_PAGES) + five;
  }

  lemma LaunchedLeaks(was: Pool, now: Pool, five: set<nat>, blk: nat, r: Pool)
    requires Took(was, now, Run(blk, BLOCK_PAGES) + five) && five !! Run(blk, BLOCK_PAGES) && |r.used| == |now.used|
    requires forall f | 0 <= f < |r.used| ::
               r.used[f] == (now.used[f] && f !in five && !(blk <= f < blk + USER_PAGES && now.refs[f] == 1))
    ensures blk + USER_PAGES < |was.used| && !was.used[blk + USER_PAGES]
    ensures r.used == was.used[blk + USER_PAGES := true]
  {
    LeakFrame(was, now, five, blk);
    forall f | 0 <= f < |was.used| ensures r.used[f] == (was.used[f] || f == blk + USER_PAGES) {
      LaunchedOwns(was, now, five, blk, f);
    }
  }

  lemma LaunchedFive(m: Mem, kernel: seq<Pde>, p: nat, n: Mem, pd: nat, t: nat, a: nat, b: nat, c: nat, blk: nat)
      returns (five: set<nat>)
    requires Launched(m, kernel, p, n, pd, t, a, b, c, blk) && Tables(n) && pd in n.spaces
    ensures Took(m.pool, n.pool, Run(blk, BLOCK_PAGES) + five) && five !! Run(blk, BLOCK_PAGES)
    ensures forall f: nat :: Own(n, pd, f) <==> f in five
  {
    five := {pd, t, a, b, c};
    LaunchedTook(m, kernel, p, n, pd, t, a, b, c, blk);
    forall f: nat ensures Own(n, pd, f) <==> f in five {
      LaunchedOwn(m, kernel, p, n, pd, t, a, b, c, blk, f);
    }
  }

  lemma ReapSole(n: Mem, p: nat, pd: nat, t: nat)
    requires Tables(n) && Control(n) && Pages(n) && p in n.procs && n.procs[p] == pd && pd in n.spaces && n.spaces[pd] == Space(t, 1)
    ensures SpaceFreed(n, pd, Reap(n, p).pool) && Valid(Reap(n, p).pool)
    ensures Reap(n, p).spaces == n.spaces - {pd} && Reap(n, p).procs == n.procs - {p}
  {
    ReleaseFrees(n, pd);
  }

  lemma OneLess(was: Pool, r: Pool, leak: nat)
    requires Valid(was) && Valid(r) && leak < |was.used| && !was.used[leak] && r.used == was.used[leak := true]
    ensures r.free == was.free - 1
  {
    CountUpdate(was.used, leak, true);
  }

  lemma RemoveAdded<V>(m: map<nat, V>, k: nat, v: V)
    requires k !in m
    ensures m[k := v] - {k} == m
  {
  }

  /**
   A launch followed by the exit of the launched process costs one frame, always: the block has
   one page more than the window maps, and nothing ever gives that page back.
   */
  lemma LaunchReapLeaks(m: Mem, base: set<nat>, kernel: seq<Pde>, p: nat) returns (n: Mem, leak: nat)
    requires Inv(m, base) && FreshSlot(m, p) && |kernel| == 1024 && Launch(m, kernel, p).1
    ensures n == Launch(m, kernel, p).0 && p in n.procs && Inv(n, base + {leak})
    ensures leak < |m.pool.used| && Reap(n, p).pool.used == m.pool.used[leak := true] && !m.pool.used[leak]
    ensures Reap(n, p).pool.free == m.pool.free - 1 && Inv(Reap(n, p), base + {leak})
    ensures Reap(n, p).procs == m.procs && Reap(n, p).spaces == m.spaces
  {
    n := Launch(m, kernel, p).0;
    var pd, t, a, b, c, blk := LaunchSucceeds(m, kernel, p);
    leak := blk + USER_PAGES;
    var more := LaunchedKeeps(m, base, kernel, p, n, pd, t, a, b, c, blk);
    LaunchedMapped(m, kernel, p, n, pd, t, a, b, c, blk);
    ReapKeeps(n, more, p);
    ReapSole(n, p, pd, t);
    var five := LaunchedFive(m, kernel, p, n, pd, t, a, b, c, blk);
    FreedPool(n, pd, five, blk, Reap(n, p).pool);
    LaunchedLeaks(m.pool, n.pool, five, blk, Reap(n, p).pool);
    OneLess(m.pool, Reap(n, p).pool, leak);
    RemoveAdded(m.procs, p, pd);
    RemoveAdded(m.spaces, pd, Space(t, 1));
  }

  /** When no page of the parent was shared before the fork, the round trip restores the free count exactly. */
  lemma ForkReapExact(m: Mem, base: set<nat>, kernel: seq<Pde>, parent: nat, child: nat, n: Mem, ops: seq<Op>, k: Mem)
    requires Inv(m, base) && parent in m.procs && FreshSlot(m, child) && m.pool.free >= 5 && |kernel| == 1024
    requires n == Fork(m, parent, child).0 && child in n.procs
    requires QuietRun(n, kernel, ops, m.procs[parent], n.procs[child], k)
    requires forall i | 0 <= i < USER_PAGES && Entry(m.phys, m.procs[parent], i).present ::
               m.pool.refs[Entry(m.phys, m.procs[parent], i).frame] == 1
    ensures child in k.procs && Inv(k, base) && Reap(k, child).pool.free == m.pool.free
  {
    ForkReapConserves(m, base, kernel, parent, child, n, ops, k);
    assert MovedShared(m, Reap(k, child), m.procs[parent]) == {};
  }
}
