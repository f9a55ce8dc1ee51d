/**
 FAT32 cluster chains (`src/fat.c`): the hinted two-pass allocator, the write loop that links
 clusters as it goes, the rollback, and the walk that reads a file back. The FAT is a sequence of
 entries and the data area a sequence of clusters; sector reads and writes succeed.
 */
module Fat {
  import opened Options
  import opened Sectors

  /** Links are 28 bits wide; from EOC on they end a chain. */
  const MASK: nat := 0x1000_0000
  const EOC: nat := 0x0FFF_FFF8
  const LAST: nat := 0x0FFF_FFFF
  /** Cluster walks give up after this many steps. */
  const GUARD: nat := 4096

  type Fat = seq<nat>

  /** fat_next: the low 28 bits of the entry. */
  function Next(f: Fat, c: nat): (n: nat)
    requires c < |f|
    ensures n < MASK
  {
    f[c] % MASK
  }

  predicate Free(f: Fat, c: nat) { 2 <= c < |f| && Next(f, c) == 0 }

  /** The FAT has room for links: cluster numbers are below EOC. */
  predicate Sized(f: Fat) { 2 <= |f| <= EOC }

  // ---------------------------------------------------------------- allocation

  /** The first free cluster in [start, stop). */
  function Scan(f: Fat, start: nat, stop: nat): (r: Option<nat>)
    requires 2 <= start && stop <= |f|
    ensures r.Some? ==> start <= r.value < stop && Free(f, r.value) && forall c | start <= c < r.value :: !Free(f, c)
    ensures r.None? ==> forall c | start <= c < stop :: !Free(f, c)
    decreases if start < stop then stop - start else 0
  {
    if start >= stop then None else if Free(f, start) then Some(start) else Scan(f, start + 1, stop)
  }

  /** alloc_cluster: from the hint up, then from the start up to the hint. */
  function Pick(f: Fat, hint: nat): (r: Option<nat>)
    requires 2 <= hint <= |f|
  {
    var a := Scan(f, hint, |f|);
    if a.Some? then a else Scan(f, 2, hint)
  }

  function NextHint(f: Fat, c: nat): (h: nat) { if c + 1 >= |f| then 2 else c + 1 }

  /** The scan fails only when nothing is free, and otherwise takes the first free cluster round from the hint. */
  lemma PickMeaning(f: Fat, hint: nat)
    requires 2 <= hint <= |f|
    ensures Pick(f, hint).None? <==> forall c | 2 <= c < |f| :: !Free(f, c)
    ensures var r := Pick(f, hint);
            r.Some? ==>
              && Free(f, r.value) && 2 <= NextHint(f, r.value) <= |f|
              && (forall c | hint <= c < |f| && Free(f, c) :: hint <= r.value <= c)
              && (forall c | 2 <= c < hint && Free(f, c) :: hint <= r.value || r.value <= c)
  {
  }

  // ---------------------------------------------------------------- chains

  /** `cs` are the clusters of a chain, in order, each once. */
  predicate Chain(f: Fat, cs: seq<nat>) {
    && |cs| > 0
    && (forall i | 0 <= i < |cs| :: 2 <= cs[i] < |f|)
    && (forall i, j | 0 <= i < j < |cs| :: cs[i] != cs[j])
    && (forall i | 0 <= i < |cs| - 1 :: Next(f, cs[i]) == cs[i + 1])
    && Next(f, cs[|cs| - 1]) >= EOC
  }

  /** No cluster of a chain is free. */
  lemma ChainBusy(f: Fat, cs: seq<nat>, i: nat)
    requires Chain(f, cs) && i < |cs|
    ensures !Free(f, cs[i])
  {
    if i < |cs| - 1 {
      assert Next(f, cs[i]) == cs[i + 1];
    }
  }

  /** One more cluster: the old end links to it, it ends the chain. */
  function Linked(f: Fat, cs: seq<nat>, c: nat): (r: Fat)
    requires c < |f| && forall i | 0 <= i < |cs| :: cs[i] < |f|
    ensures |r| == |f|
  {
    if |cs| == 0 then f[c := LAST] else f[c := LAST][cs[|cs| - 1] := c]
  }

  /** `f` differs from `was` only in the clusters of `cs`, which were all free. */
  predicate Grown(was: Fat, f: Fat, cs: seq<nat>) {
    && |f| == |was| && (cs == [] || Chain(f, cs))
    && (forall i | 0 <= i < |cs| :: Free(was, cs[i]))
    && forall c | 0 <= c < |was| && c !in cs :: f[c] == was[c]
  }

  lemma LinkFresh(was: Fat, f: Fat, cs: seq<nat>, c: nat)
    requires Grown(was, f, cs) && Free(f, c)
    ensures c !in cs && Free(was, c)
  {
    forall i | 0 <= i < |cs| ensures cs[i] != c {
      ChainBusy(f, cs, i);
    }
  }

  lemma LinkChain(f: Fat, cs: seq<nat>, c: nat)
    requires Sized(f) && (cs == [] || Chain(f, cs)) && Free(f, c) && c !in cs
    ensures Chain(Linked(f, cs, c), cs + [c])
  {
    var n, g, ds := |cs|, Linked(f, cs, c), cs + [c];
    forall i | 0 <= i < |ds| - 1 ensures Next(g, ds[i]) == ds[i + 1] {
      LinkAt(f, cs, c, i);
    }
  }

  lemma LinkAt(f: Fat, cs: seq<nat>, c: nat, i: nat)
    requires Sized(f) && Chain(f, cs) && Free(f, c) && c !in cs && i < |cs|
    ensures Next(Linked(f, cs, c), cs[i]) == if i == |cs| - 1 then c else cs[i + 1]
  {
    assert cs[i] in cs;
    if i < |cs| - 1 {
      assert Next(f, cs[i]) == cs[i + 1];
    }
  }

  lemma LinkGrows(was: Fat, f: Fat, cs: seq<nat>, c: nat)
    requires Sized(was) && Grown(was, f, cs) && Free(f, c)
    ensures Grown(was, Linked(f, cs, c), cs + [c]) && c !in cs && Free(was, c)
  {
    LinkFresh(was, f, cs, c);
    LinkChain(f, cs, c);
    var n, g, ds := |cs|, Linked(f, cs, c), cs + [c];
    forall x | 0 <= x < |was| && x !in ds ensures g[x] == was[x] {
      assert x !in cs && c in ds;
      assert n > 0 ==> cs[n - 1] in cs;
    }
  }

  /** Chains already there are untouched: their clusters were not free. */
  lemma OtherChain(was: Fat, f: Fat, cs: seq<nat>, ds: seq<nat>)
    requires Grown(was, f, cs) && Chain(was, ds)
    ensures Chain(f, ds) && forall i | 0 <= i < |ds| :: ds[i] !in cs
  {
    forall i | 0 <= i < |ds| ensures ds[i] !in cs && f[ds[i]] == was[ds[i]] {
      ChainBusy(was, ds, i);
      assert forall j | 0 <= j < |cs| :: Free(was, cs[j]);
    }
    forall i | 0 <= i < |ds| - 1 ensures Next(f, ds[i]) == ds[i + 1] {
      assert Next(was, ds[i]) == ds[i + 1];
    }
  }

  // ---------------------------------------------------------------- freeing

  /** free_chain, at most `guard` steps. */
  function FreeFrom(f: Fat, c: nat, guard: nat): (r: Fat)
    ensures |r| == |f|
    decreases guard
  {
    if guard == 0 || !(2 <= c < EOC) || c >= |f| then f
    else FreeFrom(f[c := 0], Next(f, c), guard - 1)
  }

  function Zeroed(f: Fat, cs: seq<nat>): (r: Fat)
    ensures |r| == |f|
    ensures forall c | 0 <= c < |f| :: r[c] == if c in cs then 0 else f[c]
  {
    seq(|f|, c requires 0 <= c < |f| => if c in cs then 0 else f[c])
  }

  function Min(a: nat, b: nat): (m: nat) { if a < b then a else b }

  lemma ZeroedMore(f: Fat, cs: seq<nat>, n: nat)
    requires 0 < n <= |cs| && cs[0] < |f|
    ensures Zeroed(f[cs[0] := 0], cs[1..][..n - 1]) == Zeroed(f, cs[..n])
  {
    assert cs[..n] == [cs[0]] + cs[1..][..n - 1];
  }

  lemma TailChain(f: Fat, cs: seq<nat>)
    requires Chain(f, cs) && |cs| > 1
    ensures Chain(f[cs[0] := 0], cs[1..])
  {
    var g, ds := f[cs[0] := 0], cs[1..];
    forall i | 0 <= i < |ds| - 1 ensures Next(g, ds[i]) == ds[i + 1] {
      assert Next(f, cs[i + 1]) == cs[i + 1 + 1];
    }
  }

  /** free_chain clears the first 4096 clusters of a chain, no more and no fewer. */
  lemma {:induction false} FreeMeaning(f: Fat, cs: seq<nat>, guard: nat)
    requires Sized(f) && Chain(f, cs)
    ensures FreeFrom(f, cs[0], guard) == Zeroed(f, cs[..Min(|cs|, guard)])
    decreases guard
  {
    if guard == 0 {
      assert Zeroed(f, cs[..0]) == f;
    } else if |cs| == 1 {
      assert cs[..1] == cs;
      assert FreeFrom(f[cs[0] := 0], Next(f, cs[0]), guard - 1) == f[cs[0] := 0];
      assert f[cs[0] := 0] == Zeroed(f, cs);
    } else {
      assert Next(f, cs[0]) == cs[0 + 1];
      TailChain(f, cs);
      FreeMeaning(f[cs[0] := 0], cs[1..], guard - 1);
      ZeroedMore(f, cs, Min(|cs|, guard));
    }
  }

  /** The same links everywhere. */
  predicate SameLinks(f: Fat, g: Fat) { |g| == |f| && forall c | 0 <= c < |f| :: Next(g, c) == Next(f, c) }

  /** Rolling back a chain just built restores every link exactly when it has at most 4096 clusters. */
  lemma RollbackIff(was: Fat, f: Fat, cs: seq<nat>)
    requires Sized(was) && Grown(was, f, cs) && |cs| > 0
    ensures SameLinks(was, FreeFrom(f, cs[0], GUARD)) <==> |cs| <= GUARD
  {
    FreeMeaning(f, cs, GUARD);
    var n := Min(|cs|, GUARD);
    var g := FreeFrom(f, cs[0], GUARD);
    if |cs| <= GUARD {
      assert cs[..n] == cs;
      forall c | 0 <= c < |was| ensures Next(g, c) == Next(was, c) {
        if c in cs {
          var i :| 0 <= i < |cs| && cs[i] == c;
          assert Free(was, cs[i]);
        }
      }
    } else {
      var c := cs[GUARD];
      assert c !in cs[..n];
      ChainBusy(f, cs, GUARD);
      assert Free(was, c) && Next(g, c) == Next(f, c);
    }
  }

  /** A file of one cluster too many: rolling it back leaves its last cluster linked. */
  lemma RollbackLeaves() returns (was: Fat, f: Fat, cs: seq<nat>)
    ensures Sized(was) && Grown(was, f, cs) && |cs| == GUARD + 1 && !SameLinks(was, FreeFrom(f, cs[0], GUARD))
  {
    was := seq(GUARD + 3, _ => 0);
    cs := seq(GUARD + 1, i => i + 2);
    f := seq(GUARD + 3, c => if c < 2 then 0 else if c == GUARD + 2 then LAST else c + 1);
    assert Chain(f, cs);
    forall c | 2 <= c < |was| ensures c in cs {
      assert cs[c - 2] == c;
    }
    RollbackIff(was, f, cs);
  }

  // ---------------------------------------------------------------- file contents

  type Clusters = seq<seq<Byte>>

  predicate Whole(d: Clusters, bytes: nat) { forall c | 0 <= c < |d| :: |d[c]| == bytes }

  /** The bytes of the clusters of `cs`, in order. */
  function Joined(d: Clusters, cs: seq<nat>): (s: seq<Byte>)
    requires forall i | 0 <= i < |cs| :: cs[i] < |d|
  {
    if |cs| == 0 then [] else Joined(d, cs[..|cs| - 1]) + d[cs[|cs| - 1]]
  }

  lemma {:induction false} JoinedSame(d: Clusters, e: Clusters, cs: seq<nat>)
    requires |e| == |d| && forall i | 0 <= i < |cs| :: cs[i] < |d| && e[cs[i]] == d[cs[i]]
    ensures Joined(e, cs) == Joined(d, cs)
    decreases |cs|
  {
    if |cs| > 0 {
      JoinedSame(d, e, cs[..|cs| - 1]);
    }
  }

  lemma {:induction false} JoinedSize(d: Clusters, cs: seq<nat>, bytes: nat)
    requires Whole(d, bytes) && forall i | 0 <= i < |cs| :: cs[i] < |d|
    ensures |Joined(d, cs)| == bytes * |cs|
    decreases |cs|
  {
    if |cs| > 0 {
      JoinedSize(d, cs[..|cs| - 1], bytes);
    }
  }

  lemma {:induction false} JoinedHead(d: Clusters, cs: seq<nat>)
    requires |cs| > 0 && forall i | 0 <= i < |cs| :: cs[i] < |d|
    ensures Joined(d, cs) == d[cs[0]] + Joined(d, cs[1..])
    decreases |cs|
  {
    var n := |cs| - 1;
    if n > 0 {
      JoinedHead(d, cs[..n]);
      assert cs[1..][..n - 1] == cs[..n][1..];
    } else {
      assert Joined(d, cs[..0]) == [];
    }
  }

  /** fat_read_file: walk from `c`, copying until `want` bytes or `guard` clusters. */
  function Walk(f: Fat, d: Clusters, c: nat, want: nat, guard: nat): (s: seq<Byte>)
    requires |d| == |f|
    decreases guard
  {
    if guard == 0 || !(2 <= c < EOC) || c >= |f| || want == 0 then []
    else if want <= |d[c]| then d[c][..want]
    else d[c] + Walk(f, d, Next(f, c), want - |d[c]|, guard - 1)
  }

  function Prefix(s: seq<Byte>, n: nat): (p: seq<Byte>) { s[..Min(n, |s|)] }

  /** Walking a chain reads its clusters in order, as far as the size and the guard allow. */
  lemma {:induction false} WalkMeaning(f: Fat, d: Clusters, cs: seq<nat>, want: nat, guard: nat)
    requires Sized(f) && Chain(f, cs) && |d| == |f| && want <= |Joined(d, cs)|
    ensures Walk(f, d, cs[0], want, guard) == Prefix(Joined(d, cs[..Min(|cs|, guard)]), want)
    decreases guard
  {
    if guard == 0 {
      assert cs[..0] == [];
    } else if |cs| == 1 {
      JoinedOne(d, cs);
      assert cs[..1] == cs;
    } else {
      var m := Min(|cs|, guard);
      JoinedHead(d, cs);
      JoinedHead(d, cs[..m]);
      assert cs[..m][1..] == cs[1..][..m - 1];
      var a, b := d[cs[0]], Joined(d, cs[1..][..m - 1]);
      PrefixSplit(a, b, want);
      if want > |a| {
        RestChain(f, cs);
        assert Next(f, cs[0]) == cs[0 + 1];
        WalkMeaning(f, d, cs[1..], want - |a|, guard - 1);
      }
    }
  }

  lemma JoinedOne(d: Clusters, cs: seq<nat>)
    requires |cs| == 1 && cs[0] < |d|
    ensures Joined(d, cs) == d[cs[0]]
  {
    assert Joined(d, cs[..0]) == [];
  }

  lemma PrefixSplit(a: seq<Byte>, b: seq<Byte>, n: nat)
    ensures Prefix(a + b, n) == if n <= |a| then a[..n] else a + Prefix(b, n - |a|)
  {
  }

  lemma RestChain(f: Fat, cs: seq<nat>)
    requires Chain(f, cs) && |cs| > 1
    ensures Chain(f, cs[1..])
  {
    var ds := cs[1..];
    forall i | 0 <= i < |ds| - 1 ensures Next(f, ds[i]) == ds[i + 1] {
      assert Next(f, cs[i + 1]) == cs[i + 1 + 1];
    }
  }
}
