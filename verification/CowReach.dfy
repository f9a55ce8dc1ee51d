/**
 Reachable states: every run of kernel operations from a machine with no process.
 */
module CowReach {
  import opened Frames
  import opened Paging
  import opened CowOps
  import opened Cow
  import opened CowRuns

  /** A machine that has booted and launched nothing: every used frame is the kernel's. */
  function Booted(pool: Pool, phys: Phys): Mem { Mem(pool, phys, map[], map[]) }

  lemma BootInv(pool: Pool, phys: Phys)
    requires Valid(pool) && |phys| == |pool.used| > 0 && pool.used[0]
    ensures Inv(Booted(pool, phys), set f: nat | f < |pool.used| && pool.used[f])
  {
    var m := Booted(pool, phys);
    forall f: nat ensures !Held(m, f) {
    }
  }

  // ---------------------------------------------------------------- counting entries

  /** The (space, page) entries that map frame `f`. */
  ghost function Entries(m: Mem, f: nat): set<(nat, nat)>
    requires Tables(m)
  {
    set s: nat, i: nat | s in m.spaces && i < USER_PAGES && Entry(m.phys, s, i).present && Entry(m.phys, s, i).frame == f
      :: (s, i)
  }

  /** Two sets matched by the first component of the pairs have as many elements. */
  lemma {:induction false} PairCount(a: set<(nat, nat)>, b: set<nat>)
    requires forall x | x in a :: x.0 in b
    requires forall x, y | x in a && y in a && x.0 == y.0 :: x == y
    requires forall s | s in b :: exists x :: x in a && x.0 == s
    ensures |a| == |b|
    decreases a
  {
    if a == {} {
      assert b == {} by {
        forall s ensures s !in b {
        }
      }
    } else {
      var x :| x in a;
      var c, d := a - {x}, b - {x.0};
      forall s | s in d ensures exists y :: y in c && y.0 == s {
        var y :| y in a && y.0 == s;
        assert y in c;
      }
      PairCount(c, d);
    }
  }

  /** A mapped frame's count is the number of entries that map it. */
  lemma EntryCount(m: Mem, s: nat, i: nat)
    requires Tables(m) && Pages(m) && s in m.spaces && i < USER_PAGES && Entry(m.phys, s, i).present
    ensures m.pool.refs[Entry(m.phys, s, i).frame] == |Entries(m, Entry(m.phys, s, i).frame)|
  {
    var f := Entry(m.phys, s, i).frame;
    assert PageOk(m, Entry(m.phys, s, i));
    var a, b := Entries(m, f), Mappers(m, f);
    forall x, y | x in a && y in a && x.0 == y.0 ensures x == y {
      assert OnePageEach(m.phys, x.0);
      assert !(x.1 < y.1) && !(y.1 < x.1);
    }
    forall u | u in b ensures exists x :: x in a && x.0 == u {
      var j :| 0 <= j < USER_PAGES && Entry(m.phys, u, j).present && Entry(m.phys, u, j).frame == f;
      assert (u, j) in a;
    }
    forall x | x in a ensures x.0 in b {
      assert Entry(m.phys, x.0, x.1).present;
    }
    PairCount(a, b);
  }

  /**
   In every reachable state: a mapped frame is marked used and counted once per entry mapping it,
   a writable entry is the only one, and the free count is the number of unused frames.
   */
  lemma ReachableCounts(pool: Pool, phys: Phys, kernel: seq<Pde>, ms: seq<Mem>, ops: seq<Op>, oks: seq<bool>, k: nat, s: nat, i: nat)
    requires Valid(pool) && |phys| == |pool.used| > 0 && pool.used[0]
    requires RunOf(ms, kernel, ops, oks) && ms[0] == Booted(pool, phys) && k < |ms|
    ensures var n := ms[k]; Good(n) && n.pool.free == CountFree(n.pool.used)
    ensures var n := ms[k];
            s in n.spaces && i < USER_PAGES && Entry(n.phys, s, i).present ==>
              var e := Entry(n.phys, s, i);
              && e.frame < |n.pool.used| && n.pool.used[e.frame]
              && n.pool.refs[e.frame] == |Entries(n, e.frame)|
              && (e.writable ==> n.pool.refs[e.frame] == 1)
  {
    BootInv(pool, phys);
    var base := set f: nat | f < |pool.used| && pool.used[f];
    var more := RunInv(ms, base, kernel, ops, oks, k);
    InvCounts(ms[k], more, s, i);
  }

  lemma InvCounts(n: Mem, base: set<nat>, s: nat, i: nat)
    requires Inv(n, base)
    ensures Good(n) && n.pool.free == CountFree(n.pool.used)
    ensures s in n.spaces && i < USER_PAGES && Entry(n.phys, s, i).present ==>
              var e := Entry(n.phys, s, i);
              && e.frame < |n.pool.used| && n.pool.used[e.frame]
              && n.pool.refs[e.frame] == |Entries(n, e.frame)|
              && (e.writable ==> n.pool.refs[e.frame] == 1)
  {
    if s in n.spaces && i < USER_PAGES && Entry(n.phys, s, i).present {
      assert PageOk(n, Entry(n.phys, s, i));
      EntryCount(n, s, i);
    }
  }
}
