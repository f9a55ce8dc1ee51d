/**
 The kernel heap as a list of blocks (`src/kheap.c`). Everything is a multiple of 16 bytes, so
 sizes and positions are counted in 16-byte units; a header takes one unit.
 */
module Heap {
  import opened Options

  /** Payload units, and whether the block is allocated. */
  datatype Block = Block(size: nat, used: bool)

  type Blocks = seq<Block>

  /** Where block `i` starts: after the headers and payloads of the blocks before it. */
  function Start(bs: Blocks, i: nat): (n: nat)
    requires i <= |bs|
  {
    if i == 0 then 0 else Start(bs, i - 1) + 1 + bs[i - 1].size
  }

  /** Units covered by all blocks. */
  function Span(bs: Blocks): (n: nat) { Start(bs, |bs|) }

  lemma SpanOne(b: Block)
    ensures Span([b]) == 1 + b.size
  {
    assert Start([b], 1) == Start([b], 0) + 1 + [b][0].size;
  }

  lemma SpanTwo(a: Block, b: Block)
    ensures Span([a, b]) == 2 + a.size + b.size && Start([a, b], 1) == 1 + a.size
  {
    assert Start([a, b], 1) == Start([a, b], 0) + 1 + [a, b][0].size;
    assert Start([a, b], 2) == Start([a, b], 1) + 1 + [a, b][1].size;
  }

  lemma {:induction false} StartOrder(bs: Blocks, i: nat, j: nat)
    requires i < j <= |bs|
    ensures Start(bs, i) + 1 + bs[i].size <= Start(bs, j)
    decreases j
  {
    if i < j - 1 {
      StartOrder(bs, i, j - 1);
    }
  }

  /** Equal stretches of blocks, [i, x) of `bs` and [j, y) of `cs`, cover equally many units. */
  lemma {:induction false} StartShift(bs: Blocks, i: nat, x: nat, cs: Blocks, j: nat, y: nat)
    requires i <= x <= |bs| && j <= y <= |cs| && x - i == y - j
    requires forall q {:trigger bs[q]} | i <= q < x :: bs[q] == cs[q - i + j]
    ensures Start(bs, x) - Start(bs, i) == Start(cs, y) - Start(cs, j)
    decreases x
  {
    if i < x {
      StartShift(bs, i, x - 1, cs, j, y - 1);
      assert bs[x - 1] == cs[y - 1];
    }
  }

  // ---------------------------------------------------------------- the invariants

  /** No two free blocks in a row. */
  predicate Merged(bs: Blocks) { forall i | 0 <= i < |bs| - 1 :: bs[i].used || bs[i + 1].used }

  /** Every payload has at least one unit. */
  predicate Proper(bs: Blocks) { forall i | 0 <= i < |bs| :: bs[i].size > 0 }

  /** The blocks tile a heap of `n` units. */
  predicate Tiles(bs: Blocks, n: nat) { |bs| > 0 && Span(bs) == n }

  /** Payloads of different blocks are disjoint and inside the heap. */
  lemma Disjoint(bs: Blocks, n: nat, i: nat, j: nat)
    requires Tiles(bs, n) && i < j < |bs|
    ensures Start(bs, i) + 1 + bs[i].size <= Start(bs, j) && Start(bs, j) + 1 + bs[j].size <= n
  {
    StartOrder(bs, i, j);
    StartOrder(bs, j, |bs|);
  }

  // ---------------------------------------------------------------- replacing a stretch

  /** `s` is `bs` with the `k` blocks from `i` replaced by `r`, which cover the same units. */
  predicate Spliced(bs: Blocks, i: nat, k: nat, r: Blocks, s: Blocks) {
    && i + k <= |bs| && |s| == |bs| - k + |r| && Span(r) == Start(bs, i + k) - Start(bs, i)
    && (forall j {:trigger s[j]} | 0 <= j < i :: s[j] == bs[j])
    && (forall j {:trigger s[j]} | i <= j < i + |r| :: s[j] == r[j - i])
    && (forall j {:trigger s[j]} | i + |r| <= j < |s| :: s[j] == bs[j - |r| + k])
  }

  /** Block `b` at unit `at` is block `j` after the replacement. */
  predicate Placed(bs: Blocks, i: nat, k: nat, r: Blocks, j: nat, b: Block, at: nat)
    requires i + k <= |bs| && j < |bs| - k + |r|
  {
    if j < i then b == bs[j] && at == Start(bs, j)
    else if j < i + |r| then b == r[j - i] && at == Start(bs, i) + Start(r, j - i)
    else b == bs[j - |r| + k] && at == Start(bs, j - |r| + k)
  }

  lemma SplicedBefore(bs: Blocks, i: nat, k: nat, r: Blocks, s: Blocks, j: nat)
    requires Spliced(bs, i, k, r, s) && j <= i
    ensures Start(s, j) == Start(bs, j)
  {
    StartShift(s, 0, j, bs, 0, j);
  }

  lemma SplicedInside(bs: Blocks, i: nat, k: nat, r: Blocks, s: Blocks, j: nat)
    requires Spliced(bs, i, k, r, s) && i <= j <= i + |r|
    ensures Start(s, j) == Start(bs, i) + Start(r, j - i)
  {
    SplicedBefore(bs, i, k, r, s, i);
    StartShift(s, i, j, r, 0, j - i);
  }

  lemma SplicedAfter(bs: Blocks, i: nat, k: nat, r: Blocks, s: Blocks, j: nat)
    requires Spliced(bs, i, k, r, s) && i + |r| <= j <= |s|
    ensures Start(s, j) == Start(bs, j - |r| + k)
  {
    SplicedInside(bs, i, k, r, s, i + |r|);
    StartShift(s, i + |r|, j, bs, i + k, j - |r| + k);
  }

  lemma SplicedPlaces(bs: Blocks, i: nat, k: nat, r: Blocks, s: Blocks, j: nat)
    requires Spliced(bs, i, k, r, s) && j < |s|
    ensures Placed(bs, i, k, r, j, s[j], Start(s, j))
  {
    if j < i {
      SplicedBefore(bs, i, k, r, s, j);
    } else if j < i + |r| {
      SplicedInside(bs, i, k, r, s, j);
    } else {
      SplicedAfter(bs, i, k, r, s, j);
    }
  }

  lemma SplicedSpan(bs: Blocks, i: nat, k: nat, r: Blocks, s: Blocks)
    requires Spliced(bs, i, k, r, s)
    ensures Span(s) == Span(bs)
  {
    SplicedAfter(bs, i, k, r, s, |s|);
  }

  function Replace(bs: Blocks, i: nat, k: nat, r: Blocks): (s: Blocks)
    requires i + k <= |bs|
  {
    bs[..i] + r + bs[i + k..]
  }

  lemma ReplaceSplices(bs: Blocks, i: nat, k: nat, r: Blocks)
    requires i + k <= |bs| && Span(r) == Start(bs, i + k) - Start(bs, i)
    ensures Spliced(bs, i, k, r, Replace(bs, i, k, r))
  {
  }

  // ---------------------------------------------------------------- allocation

  predicate Fits(b: Block, need: nat) { !b.used && b.size >= need }

  /** First fit. */
  function FirstFit(bs: Blocks, need: nat, i: nat): (r: Option<nat>)
    requires i <= |bs|
    ensures r.Some? ==> i <= r.value < |bs| && Fits(bs[r.value], need) && forall j | i <= j < r.value :: !Fits(bs[j], need)
    ensures r.None? ==> forall j | i <= j < |bs| :: !Fits(bs[j], need)
    decreases |bs| - i
  {
    if i == |bs| then None else if Fits(bs[i], need) then Some(i) else FirstFit(bs, need, i + 1)
  }

  /** A fitting block becomes used; a remainder with room for a header and one unit is split off. */
  function Carve(b: Block, need: nat): (r: Blocks)
    requires Fits(b, need)
    ensures |r| > 0 && Span(r) == 1 + b.size
  {
    if b.size >= need + 2 then
      SpanTwo(Block(need, true), Block(b.size - need - 1, false));
      [Block(need, true), Block(b.size - need - 1, false)]
    else
      SpanOne(Block(b.size, true));
      [Block(b.size, true)]
  }

  function Malloc(bs: Blocks, need: nat): (r: (Blocks, Option<nat>)) {
    var i := FirstFit(bs, need, 0);
    if i.None? then (bs, None) else (Replace(bs, i.value, 1, Carve(bs[i.value], need)), i)
  }

  lemma CarveSplices(bs: Blocks, i: nat, need: nat)
    requires i < |bs| && Fits(bs[i], need)
    ensures Spliced(bs, i, 1, Carve(bs[i], need), Replace(bs, i, 1, Carve(bs[i], need)))
  {
    ReplaceSplices(bs, i, 1, Carve(bs[i], need));
  }

  lemma CarveMerged(bs: Blocks, k: nat, need: nat, s: Blocks)
    requires Merged(bs) && k < |bs| && Fits(bs[k], need) && Spliced(bs, k, 1, Carve(bs[k], need), s)
    ensures Merged(s)
  {
    var c := Carve(bs[k], need);
    forall j | 0 <= j < |s| - 1 ensures s[j].used || s[j + 1].used {
      if j < k - 1 {
        assert bs[j].used || bs[j + 1].used;
      } else if j >= k + |c| - 1 {
        var m := j - |c| + 1;
        assert s[j + 1] == bs[m + 1];
        if j >= k + |c| {
          assert s[j] == bs[m];
        }
        assert bs[m].used || bs[m + 1].used;
      }
    }
  }

  lemma CarveProper(bs: Blocks, k: nat, need: nat, s: Blocks)
    requires Proper(bs) && k < |bs| && Fits(bs[k], need) && Spliced(bs, k, 1, Carve(bs[k], need), s) && need > 0
    ensures Proper(s)
  {
  }

  /** Allocation keeps the tiling and the merging, and fails exactly when no free block is big enough. */
  lemma MallocKeeps(bs: Blocks, n: nat, need: nat)
    requires Tiles(bs, n) && Merged(bs) && Proper(bs) && need > 0
    ensures var (r, i) := Malloc(bs, need);
            && Tiles(r, n) && Merged(r) && Proper(r)
            && (i.None? <==> forall j | 0 <= j < |bs| :: !Fits(bs[j], need))
            && (i.None? ==> r == bs)
            && (i.Some? ==> i.value < |r| && r[i.value].used && r[i.value].size >= need && Start(r, i.value) == Start(bs, i.value))
  {
    var (r, i) := Malloc(bs, need);
    if i.Some? {
      var k := i.value;
      CarveSplices(bs, k, need);
      SplicedSpan(bs, k, 1, Carve(bs[k], need), r);
      SplicedBefore(bs, k, 1, Carve(bs[k], need), r, k);
      CarveMerged(bs, k, need, r);
      CarveProper(bs, k, need, r);
    }
  }

  // ---------------------------------------------------------------- freeing

  /** Free blocks from `i` on, up to the first used one. */
  function FreeRun(bs: Blocks, i: nat): (k: nat)
    requires i <= |bs|
    ensures i + k <= |bs| && (forall j | i <= j < i + k :: !bs[j].used) && (i + k < |bs| ==> bs[i + k].used)
    decreases |bs| - i
  {
    if i == |bs| || bs[i].used then 0 else 1 + FreeRun(bs, i + 1)
  }

  /** One free block over the units of `k` blocks. */
  function Fused(bs: Blocks, i: nat, k: nat): (b: Block)
    requires i + k <= |bs| && k > 0
    ensures Span([b]) == Start(bs, i + k) - Start(bs, i)
  {
    StartOrder(bs, i, i + k);
    SpanOne(Block(Start(bs, i + k) - Start(bs, i) - 1, false));
    Block(Start(bs, i + k) - Start(bs, i) - 1, false)
  }

  /** kfree of block `i`: nothing unless it is used; then merge the free blocks after it and the one before it. */
  function FreeBlock(bs: Blocks, i: nat): (r: Blocks)
    requires i < |bs|
  {
    if !bs[i].used then bs
    else
      var k := 1 + FreeRun(bs, i + 1);
      if i > 0 && !bs[i - 1].used then Replace(bs, i - 1, k + 1, [Fused(bs, i - 1, k + 1)])
      else Replace(bs, i, k, [Fused(bs, i, k)])
  }

  lemma FusedSplices(bs: Blocks, i: nat, k: nat)
    requires i + k <= |bs| && k > 0
    ensures Spliced(bs, i, k, [Fused(bs, i, k)], Replace(bs, i, k, [Fused(bs, i, k)]))
  {
    ReplaceSplices(bs, i, k, [Fused(bs, i, k)]);
  }

  /** What freeing a used block does to the list. */
  lemma FreeSplices(bs: Blocks, i: nat)
    requires i < |bs| && bs[i].used
    ensures var k, s := 1 + FreeRun(bs, i + 1), FreeBlock(bs, i);
            if i > 0 && !bs[i - 1].used then Spliced(bs, i - 1, k + 1, [Fused(bs, i - 1, k + 1)], s)
            else Spliced(bs, i, k, [Fused(bs, i, k)], s)
  {
    var k := 1 + FreeRun(bs, i + 1);
    if i > 0 && !bs[i - 1].used {
      FusedSplices(bs, i - 1, k + 1);
    } else {
      FusedSplices(bs, i, k);
    }
  }

  /** A fused block has used neighbours. */
  lemma FusedMerged(bs: Blocks, i: nat, k: nat, s: Blocks)
    requires Merged(bs) && i + k <= |bs| && k > 0 && Spliced(bs, i, k, [Fused(bs, i, k)], s)
    requires (i > 0 ==> bs[i - 1].used) && (i + k < |bs| ==> bs[i + k].used)
    ensures Merged(s)
  {
    forall j | 0 <= j < |s| - 1 ensures s[j].used || s[j + 1].used {
      if j < i - 1 {
        assert bs[j].used || bs[j + 1].used;
      } else if j > i {
        assert bs[j + k - 1].used || bs[j + k - 1 + 1].used;
      }
    }
  }

  lemma FusedProper(bs: Blocks, i: nat, k: nat, s: Blocks)
    requires Proper(bs) && i + k <= |bs| && k > 0 && Spliced(bs, i, k, [Fused(bs, i, k)], s)
    ensures Proper(s)
  {
    StartOrder(bs, i, i + k);
  }

  /** Before a free block stands a used one. */
  lemma PreviousUsed(bs: Blocks, i: nat)
    requires Merged(bs) && 0 < i <= |bs| && !bs[i - 1].used
    ensures i > 1 ==> bs[i - 2].used
  {
    assert i > 1 ==> bs[i - 2].used;
  }

  lemma FreeKeeps(bs: Blocks, n: nat, i: nat)
    requires Tiles(bs, n) && Merged(bs) && Proper(bs) && i < |bs|
    ensures Tiles(FreeBlock(bs, i), n) && Merged(FreeBlock(bs, i)) && Proper(FreeBlock(bs, i))
  {
    if bs[i].used {
      var k, s := 1 + FreeRun(bs, i + 1), FreeBlock(bs, i);
      FreeSplices(bs, i);
      if i > 0 && !bs[i - 1].used {
        PreviousUsed(bs, i);
        FusedKeeps(bs, n, i - 1, k + 1, s);
      } else {
        FusedKeeps(bs, n, i, k, s);
      }
    }
  }

  lemma FusedKeeps(bs: Blocks, n: nat, i: nat, k: nat, s: Blocks)
    requires Tiles(bs, n) && Merged(bs) && Proper(bs) && i + k <= |bs| && k > 0 && Spliced(bs, i, k, [Fused(bs, i, k)], s)
    requires (i > 0 ==> bs[i - 1].used) && (i + k < |bs| ==> bs[i + k].used)
    ensures Tiles(s, n) && Merged(s) && Proper(s)
  {
    SplicedSpan(bs, i, k, [Fused(bs, i, k)], s);
    FusedMerged(bs, i, k, s);
    FusedProper(bs, i, k, s);
  }

  /** The free run after a block just carved is its own remainder. */
  lemma CarvedRun(bs: Blocks, i: nat, need: nat, s: Blocks)
    requires Merged(bs) && i < |bs| && Fits(bs[i], need) && Spliced(bs, i, 1, Carve(bs[i], need), s)
    ensures s[i].used && (i > 0 ==> s[i - 1].used) && FreeRun(s, i + 1) == |Carve(bs[i], need)| - 1
  {
    var c := Carve(bs[i], need);
    assert i > 0 ==> bs[i - 1].used;
    assert i + 1 < |bs| ==> bs[i + 1].used;
    assert |c| == 2 ==> s[i + 1] == c[1];
    assert i + |c| < |s| ==> s[i + |c|] == bs[i + 1];
  }

  lemma SplicedBack(bs: Blocks, i: nat, c: Blocks, r: Blocks, s: Blocks)
    requires i < |bs| && Spliced(bs, i, 1, c, r) && Spliced(r, i, |c|, [bs[i]], s)
    ensures s == bs
  {
    assert |s| == |bs|;
    forall j | 0 <= j < |bs| ensures s[j] == bs[j] {
      if j < i {
        assert r[j] == bs[j];
      } else if j > i {
        var m := j - 1 + |c|;
        assert s[j] == r[m] && r[m] == bs[m - |c| + 1];
        assert m - |c| + 1 == j;
      }
    }
  }

  /** kfree(kmalloc(n)) restores the block layout. */
  lemma FreeUndoesMalloc(bs: Blocks, need: nat)
    requires Merged(bs)
    ensures var (r, i) := Malloc(bs, need); i.Some? ==> i.value < |r| && FreeBlock(r, i.value) == bs
  {
    var (r, o) := Malloc(bs, need);
    if o.Some? {
      var i := o.value;
      var c := Carve(bs[i], need);
      CarveSplices(bs, i, need);
      CarvedRun(bs, i, need, r);
      SplicedBefore(bs, i, 1, c, r, i);
      SplicedInside(bs, i, 1, c, r, i + |c|);
      assert Fused(r, i, |c|) == bs[i];
      FreeSplices(r, i);
      SplicedBack(bs, i, c, r, FreeBlock(r, i));
    }
  }
}
