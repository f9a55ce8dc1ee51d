/**
 The kernel heap as its clients see it (`src/kheap.c`): a set of live blocks, each with an address and
 a size; kmalloc adds one and kfree takes one away.
 */
module HeapLive {
  import opened Options
  import opened Heap

  /** An allocated block of `size` units starts at unit `at`. */
  predicate Live(bs: Blocks, at: nat, size: nat) {
    exists i | 0 <= i < |bs| :: bs[i].used && bs[i].size == size && Start(bs, i) == at
  }

  /** Starts are different. */
  lemma StartOnce(bs: Blocks, i: nat, j: nat)
    requires i < |bs| && j < |bs| && Start(bs, i) == Start(bs, j)
    ensures i == j
  {
    if i < j {
      StartOrder(bs, i, j);
    } else if j < i {
      StartOrder(bs, j, i);
    }
  }

  /** Block `j` outside a replaced stretch is a block of the new list, at the same unit. */
  lemma OutsideKept(bs: Blocks, i: nat, k: nat, r: Blocks, s: Blocks, j: nat) returns (m: nat)
    requires Spliced(bs, i, k, r, s) && j < |bs| && (j < i || i + k <= j)
    ensures m < |s| && s[m] == bs[j] && Start(s, m) == Start(bs, j) && (m < i || i + |r| <= m)
  {
    m := if j < i then j else j - k + |r|;
    SplicedPlaces(bs, i, k, r, s, m);
  }

  /** The live blocks after a replacement: those outside it, and those in it. */
  lemma SplicedLive(bs: Blocks, i: nat, k: nat, r: Blocks, s: Blocks, at: nat, size: nat)
    requires Spliced(bs, i, k, r, s)
    ensures Live(s, at, size) <==>
            || (exists j | 0 <= j < |bs| && (j < i || i + k <= j) :: bs[j].used && bs[j].size == size && Start(bs, j) == at)
            || (exists j | 0 <= j < |r| :: r[j].used && r[j].size == size && Start(bs, i) + Start(r, j) == at)
  {
    if Live(s, at, size) {
      var m :| 0 <= m < |s| && s[m].used && s[m].size == size && Start(s, m) == at;
      SplicedPlaces(bs, i, k, r, s, m);
      if m < i {
        assert bs[m].used;
      } else if m < i + |r| {
        assert r[m - i].used;
      } else {
        assert bs[m - |r| + k].used;
      }
    }
    if j :| 0 <= j < |bs| && (j < i || i + k <= j) && bs[j].used && bs[j].size == size && Start(bs, j) == at {
      var m := OutsideKept(bs, i, k, r, s, j);
      assert s[m].used;
    }
    if j :| 0 <= j < |r| && r[j].used && r[j].size == size && Start(bs, i) + Start(r, j) == at {
      SplicedPlaces(bs, i, k, r, s, i + j);
      assert s[i + j].used;
    }
  }

  /** Carving a free block adds its first part to the live blocks. */
  lemma CarveLive(bs: Blocks, i: nat, need: nat, s: Blocks, at: nat, size: nat)
    requires i < |bs| && Fits(bs[i], need) && Spliced(bs, i, 1, Carve(bs[i], need), s)
    ensures Live(s, at, size) <==> Live(bs, at, size) || (at == Start(bs, i) && size == Carve(bs[i], need)[0].size)
  {
    var r := Carve(bs[i], need);
    SplicedLive(bs, i, 1, r, s, at, size);
    assert Start(r, 0) == 0 && r[0].used;
    if at == Start(bs, i) && size == r[0].size {
      assert Start(bs, i) + Start(r, 0) == at;
    }
  }

  /**
   kmalloc: the first free block that is big enough gives a block of the units asked for, or one more when a
   single unit would be left over; nothing was live there, and every other live block stays.
   */
  lemma MallocGives(bs: Blocks, need: nat)
    requires Malloc(bs, need).1.Some?
    ensures var (r, o) := Malloc(bs, need);
            && o.value < |bs| && Fits(bs[o.value], need) && (forall j | 0 <= j < o.value :: !Fits(bs[j], need))
            && var (at, size) := (Start(bs, o.value), if bs[o.value].size == need + 1 then need + 1 else need);
               && (forall x :: !Live(bs, at, x))
               && forall a, x :: Live(r, a, x) <==> Live(bs, a, x) || (a == at && x == size)
  {
    var (r, o) := Malloc(bs, need);
    var i := o.value;
    CarveSplices(bs, i, need);
    forall x ensures !Live(bs, Start(bs, i), x) {
      if Live(bs, Start(bs, i), x) {
        var j :| 0 <= j < |bs| && bs[j].used && bs[j].size == x && Start(bs, j) == Start(bs, i);
        StartOnce(bs, i, j);
      }
    }
    forall a, x ensures Live(r, a, x) <==> Live(bs, a, x) || (a == Start(bs, i) && x == Carve(bs[i], need)[0].size) {
      CarveLive(bs, i, need, r, a, x);
    }
  }

  /** Fusing blocks of which only block `i` was used takes just that one away. */
  lemma FusedLive(bs: Blocks, f: nat, k: nat, i: nat, s: Blocks, at: nat, size: nat)
    requires f <= i < f + k <= |bs| && Spliced(bs, f, k, [Fused(bs, f, k)], s)
    requires bs[i].used && forall j | f <= j < f + k && j != i :: !bs[j].used
    ensures Live(s, at, size) <==> Live(bs, at, size) && at != Start(bs, i)
  {
    SplicedLive(bs, f, k, [Fused(bs, f, k)], s, at, size);
    if j :| 0 <= j < |bs| && bs[j].used && bs[j].size == size && Start(bs, j) == at && at != Start(bs, i) {
      assert j < f || f + k <= j;
    }
    if j :| 0 <= j < |bs| && (j < f || f + k <= j) && bs[j].used && bs[j].size == size && Start(bs, j) == at {
      if at == Start(bs, i) {
        StartOnce(bs, i, j);
      }
    }
  }

  /** The stretch that freeing block `i` fuses: it and the free blocks next to it. */
  lemma FreeSpan(bs: Blocks, i: nat) returns (f: nat, k: nat)
    requires i < |bs| && bs[i].used
    ensures f <= i < f + k <= |bs| && Spliced(bs, f, k, [Fused(bs, f, k)], FreeBlock(bs, i))
    ensures forall j | f <= j < f + k && j != i :: !bs[j].used
  {
    FreeSplices(bs, i);
    k := 1 + FreeRun(bs, i + 1);
    if i > 0 && !bs[i - 1].used {
      f, k := i - 1, k + 1;
    } else {
      f := i;
    }
  }

  lemma FreeTakesOne(bs: Blocks, i: nat, a: nat, x: nat)
    requires i < |bs| && bs[i].used
    ensures Live(FreeBlock(bs, i), a, x) <==> Live(bs, a, x) && a != Start(bs, i)
  {
    var f, k := FreeSpan(bs, i);
    FusedLive(bs, f, k, i, FreeBlock(bs, i), a, x);
  }

  /** kfree: that block is no longer live, every other one is; a block that is free already changes nothing. */
  lemma FreeTakes(bs: Blocks, i: nat)
    requires i < |bs|
    ensures if bs[i].used then forall a, x :: Live(FreeBlock(bs, i), a, x) <==> Live(bs, a, x) && a != Start(bs, i)
            else FreeBlock(bs, i) == bs
  {
    if bs[i].used {
      forall a, x ensures Live(FreeBlock(bs, i), a, x) <==> Live(bs, a, x) && a != Start(bs, i) {
        FreeTakesOne(bs, i, a, x);
      }
    }
  }
}
