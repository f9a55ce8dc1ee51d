/**
 The kernel heap in the form of `src/kheap.c`: headers inside one block of memory, found by
 walking, split and merged in place.
 */
module KernelHeap {
  import opened Options
  import opened Heap

  const MAGIC: nat := 0x4B48454F
  const WORD: nat := 0x1_0000_0000
  const UNIT: nat := 16

  /** One 16-byte unit read as a header; the size is counted in units. */
  datatype Cell = Cell(magic: nat, size: nat, used: nat, pad: nat)

  predicate HeaderAt(mem: seq<Cell>, p: nat, b: Block) {
    p < |mem| && mem[p].magic == MAGIC && mem[p].size == b.size && (mem[p].used != 0 <==> b.used)
  }

  /** The headers in memory are those of the block list. */
  ghost predicate Reflects(mem: seq<Cell>, bs: Blocks) {
    Tiles(bs, |mem|) && forall i {:trigger HeaderAt(mem, Start(bs, i), bs[i])} | 0 <= i < |bs| :: HeaderAt(mem, Start(bs, i), bs[i])
  }

  predicate Forged(c: Cell) { c.magic == MAGIC && c.used != 0 }

  ghost predicate StartsAt(bs: Blocks, i: nat, p: int) { i < |bs| && Start(bs, i) == p }

  ghost predicate IsStart(bs: Blocks, p: int) { exists i: nat :: StartsAt(bs, i, p) }

  /** No unit outside the headers looks like the header of a live block. */
  ghost predicate Unforged(mem: seq<Cell>, bs: Blocks) {
    forall p | 0 <= p < |mem| && Forged(mem[p]) :: IsStart(bs, p)
  }

  ghost predicate Sound(mem: seq<Cell>, bs: Blocks) { Reflects(mem, bs) && Merged(bs) && Proper(bs) && Unforged(mem, bs) }

  // ---------------------------------------------------------------- walking

  /** A walk that reaches the end of memory has seen every block; before that there is one more. */
  lemma EndsAt(mem: seq<Cell>, bs: Blocks, i: nat)
    requires Reflects(mem, bs) && i <= |bs|
    ensures Start(bs, i) <= |mem| && (Start(bs, i) == |mem| <==> i == |bs|)
    ensures i < |bs| ==> HeaderAt(mem, Start(bs, i), bs[i]) && Start(bs, i) + 1 + bs[i].size <= |mem|
  {
    if i < |bs| {
      StartOrder(bs, i, |bs|);
      assert HeaderAt(mem, Start(bs, i), bs[i]);
    }
  }

  /** At most one block starts at a given unit. */
  lemma SameStart(bs: Blocks, i: nat, j: nat)
    requires i <= |bs| && j <= |bs| && Start(bs, i) == Start(bs, j)
    ensures i == j
  {
    if i < j {
      StartOrder(bs, i, j);
    } else if j < i {
      StartOrder(bs, j, i);
    }
  }

  /** Block `j` starts inside the stretch of `k` blocks from `i` only if it is one of them. */
  lemma WithinStretch(bs: Blocks, i: nat, k: nat, j: nat)
    requires i + k <= |bs| && j < |bs|
    ensures Start(bs, i) <= Start(bs, j) < Start(bs, i + k) <==> i <= j < i + k
  {
    if j < i {
      StartOrder(bs, j, i);
    } else if j >= i + k {
      if j > i + k {
        StartOrder(bs, i + k, j);
      }
    } else {
      StartOrder(bs, j, i + k);
      if i < j {
        StartOrder(bs, i, j);
      }
    }
  }

  // ---------------------------------------------------------------- replacing a stretch of blocks

  /** Memory outside the blocks i..i+k is unchanged. */
  ghost predicate Outside(bs: Blocks, i: nat, k: nat, mem: seq<Cell>, next: seq<Cell>)
    requires i + k <= |bs|
  {
    |next| == |mem| && forall p | 0 <= p < |mem| && !(Start(bs, i) <= p < Start(bs, i + k)) :: next[p] == mem[p]
  }

  /** The headers of `r` lie in memory from unit `at` on. */
  ghost predicate Headers(mem: seq<Cell>, at: nat, r: Blocks) {
    forall q {:trigger HeaderAt(mem, at + Start(r, q), r[q])} | 0 <= q < |r| :: HeaderAt(mem, at + Start(r, q), r[q])
  }

  lemma PlacedHeader(mem: seq<Cell>, bs: Blocks, i: nat, k: nat, r: Blocks, next: seq<Cell>, j: nat, b: Block, at: nat)
    requires Reflects(mem, bs) && i + k <= |bs| && Outside(bs, i, k, mem, next) && Headers(next, Start(bs, i), r)
    requires j < |bs| - k + |r| && Placed(bs, i, k, r, j, b, at)
    ensures HeaderAt(next, at, b)
  {
    if j < i {
      WithinStretch(bs, i, k, j);
      assert HeaderAt(mem, Start(bs, j), bs[j]);
    } else if j >= i + |r| {
      var m: nat := j - |r| + k;
      WithinStretch(bs, i, k, m);
      assert HeaderAt(mem, Start(bs, m), bs[m]);
    } else {
      assert HeaderAt(next, Start(bs, i) + Start(r, j - i), r[j - i]);
    }
  }

  lemma ReflectsReplace(mem: seq<Cell>, bs: Blocks, i: nat, k: nat, r: Blocks, next: seq<Cell>, s: Blocks)
    requires Reflects(mem, bs) && Spliced(bs, i, k, r, s) && |r| > 0 && Outside(bs, i, k, mem, next)
    requires Headers(next, Start(bs, i), r)
    ensures Reflects(next, s)
  {
    SplicedSpan(bs, i, k, r, s);
    forall j | 0 <= j < |s| ensures HeaderAt(next, Start(s, j), s[j]) {
      SplicedPlaces(bs, i, k, r, s, j);
      PlacedHeader(mem, bs, i, k, r, next, j, s[j], Start(s, j));
    }
  }

  lemma StartStays(bs: Blocks, i: nat, k: nat, r: Blocks, s: Blocks, j: nat)
    requires Spliced(bs, i, k, r, s) && j < |bs| && !(i <= j < i + k)
    ensures IsStart(s, Start(bs, j))
  {
    if j < i {
      SplicedBefore(bs, i, k, r, s, j);
      assert StartsAt(s, j, Start(bs, j));
    } else {
      SplicedAfter(bs, i, k, r, s, j - k + |r|);
      assert StartsAt(s, j - k + |r|, Start(bs, j));
    }
  }

  /** A forged unit of the new memory is a start of the new list. */
  lemma UnforgedReplace(mem: seq<Cell>, bs: Blocks, i: nat, k: nat, r: Blocks, next: seq<Cell>, s: Blocks)
    requires Unforged(mem, bs) && Spliced(bs, i, k, r, s) && Outside(bs, i, k, mem, next)
    requires forall p | Start(bs, i) <= p < Start(bs, i + k) && p < |next| && Forged(next[p]) :: IsStart(r, p - Start(bs, i))
    ensures Unforged(next, s)
  {
    forall p | 0 <= p < |next| && Forged(next[p]) ensures IsStart(s, p) {
      if Start(bs, i) <= p < Start(bs, i + k) {
        var q: nat :| StartsAt(r, q, p - Start(bs, i));
        SplicedInside(bs, i, k, r, s, i + q);
        assert StartsAt(s, i + q, p);
      } else {
        assert Forged(mem[p]);
        var j: nat :| StartsAt(bs, j, p);
        WithinStretch(bs, i, k, j);
        StartStays(bs, i, k, r, s, j);
      }
    }
  }

  // ---------------------------------------------------------------- one allocation

  /** Memory after kmalloc took block `i`: its header, and that of the remainder if there is one. */
  ghost predicate Carved(mem: seq<Cell>, bs: Blocks, i: nat, need: nat, next: seq<Cell>)
    requires i < |bs| && Fits(bs[i], need)
  {
    var p, c := Start(bs, i), Carve(bs[i], need);
    && |next| == |mem| && HeaderAt(next, p, c[0]) && (|c| == 2 ==> HeaderAt(next, p + 1 + need, c[1]))
    && forall x | 0 <= x < |mem| && x != p && !(|c| == 2 && x == p + 1 + need) :: next[x] == mem[x]
  }

  lemma CarveStarts(b: Block, need: nat)
    requires Fits(b, need)
    ensures var c := Carve(b, need); Start(c, 0) == 0 && (|c| == 2 ==> Start(c, 1) == 1 + need) && |c| <= 2
  {
    if b.size >= need + 2 {
      SpanTwo(Block(need, true), Block(b.size - need - 1, false));
    }
  }

  lemma CarvedReflects(mem: seq<Cell>, bs: Blocks, i: nat, need: nat, next: seq<Cell>, s: Blocks)
    requires Reflects(mem, bs) && i < |bs| && Fits(bs[i], need) && Carved(mem, bs, i, need, next)
    requires Spliced(bs, i, 1, Carve(bs[i], need), s)
    ensures Outside(bs, i, 1, mem, next) && Reflects(next, s)
  {
    CarveStarts(bs[i], need);
    assert Start(bs, i + 1) == Start(bs, i) + 1 + bs[i].size;
    ReflectsReplace(mem, bs, i, 1, Carve(bs[i], need), next, s);
  }

  lemma CarvedUnforged(mem: seq<Cell>, bs: Blocks, i: nat, need: nat, next: seq<Cell>, x: nat)
    requires Unforged(mem, bs) && i < |bs| && Fits(bs[i], need) && Carved(mem, bs, i, need, next)
    requires Start(bs, i) <= x < Start(bs, i + 1) && x < |next| && Forged(next[x])
    ensures IsStart(Carve(bs[i], need), x - Start(bs, i))
  {
    var c, p := Carve(bs[i], need), Start(bs, i);
    CarveStarts(bs[i], need);
    assert x == p ==> StartsAt(c, 0, x - p);
    assert x == p + 1 + need && |c| == 2 ==> StartsAt(c, 1, x - p);
    if x != p && !(|c| == 2 && x == p + 1 + need) {
      var j: nat :| StartsAt(bs, j, x);
      WithinStretch(bs, i, 1, j);
    }
  }

  lemma CarvedSound(mem: seq<Cell>, bs: Blocks, i: nat, need: nat, next: seq<Cell>, s: Blocks)
    requires Sound(mem, bs) && i < |bs| && Fits(bs[i], need) && need > 0 && Carved(mem, bs, i, need, next)
    requires Spliced(bs, i, 1, Carve(bs[i], need), s)
    ensures Sound(next, s)
  {
    CarvedReflects(mem, bs, i, need, next, s);
    CarveMerged(bs, i, need, s);
    CarveProper(bs, i, need, s);
    forall x | Start(bs, i) <= x < Start(bs, i + 1) && x < |next| && Forged(next[x])
      ensures IsStart(Carve(bs[i], need), x - Start(bs, i))
    {
      CarvedUnforged(mem, bs, i, need, next, x);
    }
    UnforgedReplace(mem, bs, i, 1, Carve(bs[i], need), next, s);
  }

  // ---------------------------------------------------------------- one free

  /** Memory after the `k` blocks from `i` were fused: one header, the others left as free ones. */
  ghost predicate Joined(mem: seq<Cell>, bs: Blocks, i: nat, k: nat, next: seq<Cell>)
    requires i + k <= |bs| && k > 0
  {
    && Outside(bs, i, k, mem, next) && HeaderAt(next, Start(bs, i), Fused(bs, i, k))
    && forall x | Start(bs, i) < x < Start(bs, i + k) && x < |mem| :: next[x] == mem[x] || !Forged(next[x])
  }

  /** Block `f` is the only used one of the stretch, and no longer looks live. */
  ghost predicate Dying(bs: Blocks, i: nat, k: nat, f: nat, next: seq<Cell>)
    requires i + k <= |bs|
  {
    i <= f < i + k && (forall j | i <= j < i + k && j != f :: !bs[j].used) && Start(bs, f) < |next| && !Forged(next[Start(bs, f)])
  }

  lemma JoinedClean(mem: seq<Cell>, bs: Blocks, i: nat, k: nat, next: seq<Cell>, f: nat, x: nat)
    requires Reflects(mem, bs) && Unforged(mem, bs) && i + k <= |bs| && k > 0 && Joined(mem, bs, i, k, next)
    requires Dying(bs, i, k, f, next) && Start(bs, i) <= x < Start(bs, i + k) && x < |next|
    ensures !Forged(next[x])
  {
    if x != Start(bs, i) && Forged(mem[x]) {
      var j: nat :| StartsAt(bs, j, x);
      WithinStretch(bs, i, k, j);
      assert HeaderAt(mem, Start(bs, j), bs[j]);
    }
  }

  lemma JoinedSound(mem: seq<Cell>, bs: Blocks, i: nat, k: nat, next: seq<Cell>, s: Blocks, f: nat)
    requires Sound(mem, bs) && i + k <= |bs| && k > 0 && Joined(mem, bs, i, k, next) && Dying(bs, i, k, f, next)
    requires Spliced(bs, i, k, [Fused(bs, i, k)], s)
    requires (i > 0 ==> bs[i - 1].used) && (i + k < |bs| ==> bs[i + k].used)
    ensures Sound(next, s)
  {
    ReflectsReplace(mem, bs, i, k, [Fused(bs, i, k)], next, s);
    FusedMerged(bs, i, k, s);
    FusedProper(bs, i, k, s);
    forall x | Start(bs, i) <= x < Start(bs, i + k) && x < |next| ensures !Forged(next[x]) {
      JoinedClean(mem, bs, i, k, next, f, x);
    }
    UnforgedReplace(mem, bs, i, k, [Fused(bs, i, k)], next, s);
  }

  /** The header of block `i` now spans `k` blocks and is free; nothing else changed. */
  ghost predicate Swallowed(was: seq<Cell>, bs: Blocks, i: nat, k: nat, next: seq<Cell>)
    requires i + k <= |bs| && k > 0
  {
    && |next| == |was| && Start(bs, i) < |was| && Start(bs, i) < Start(bs, i + k)
    && next == was[Start(bs, i) := Cell(MAGIC, Start(bs, i + k) - Start(bs, i) - 1, 0, was[Start(bs, i)].pad)]
  }

  /** Everything the forward loop needs to know about the block it looks at. */
  lemma NextHeader(was: seq<Cell>, bs: Blocks, i: nat, m: nat)
    requires Reflects(was, bs) && i < m <= |bs| && Start(bs, m) < |was|
    ensures m < |bs| && Start(bs, i) < Start(bs, m) && HeaderAt(was, Start(bs, m), bs[m])
    ensures Start(bs, m + 1) == Start(bs, m) + 1 + bs[m].size
  {
    EndsAt(was, bs, m);
    StartOrder(bs, i, m);
  }

  lemma SwallowedMore(was: seq<Cell>, bs: Blocks, i: nat, k: nat, mid: seq<Cell>, next: seq<Cell>)
    requires i + k < |bs| && k > 0 && Swallowed(was, bs, i, k, mid)
    requires next == mid[Start(bs, i) := mid[Start(bs, i)].(size := mid[Start(bs, i)].size + 1 + bs[i + k].size)]
    ensures Swallowed(was, bs, i, k + 1, next)
  {
    assert Start(bs, i + k + 1) == Start(bs, i + k) + 1 + bs[i + k].size;
  }

  lemma SwallowedJoined(was: seq<Cell>, bs: Blocks, i: nat, k: nat, next: seq<Cell>)
    requires i + k <= |bs| && k > 0 && Swallowed(was, bs, i, k, next)
    ensures Joined(was, bs, i, k, next) && !Forged(next[Start(bs, i)])
  {
    StartOrder(bs, i, i + k);
  }

  /** Freeing block `i` with no free block before it. */
  lemma ForwardSound(was: seq<Cell>, bs: Blocks, i: nat, next: seq<Cell>)
    requires Sound(was, bs) && i < |bs| && bs[i].used && (i > 0 ==> bs[i - 1].used)
    requires Swallowed(was, bs, i, 1 + FreeRun(bs, i + 1), next)
    ensures Sound(next, FreeBlock(bs, i))
  {
    var k := 1 + FreeRun(bs, i + 1);
    SwallowedJoined(was, bs, i, k, next);
    FreeSplices(bs, i);
    JoinedSound(was, bs, i, k, next, FreeBlock(bs, i), i);
  }

  lemma SwallowedBack(was: seq<Cell>, bs: Blocks, i: nat, k: nat, mid: seq<Cell>, next: seq<Cell>)
    requires Reflects(was, bs) && 0 < i && i + k <= |bs| && k > 0 && !bs[i - 1].used && Swallowed(was, bs, i, k, mid)
    requires Start(bs, i - 1) < |mid| && next == mid[Start(bs, i - 1) := was[Start(bs, i - 1)].(size := Fused(bs, i - 1, k + 1).size)]
    ensures Joined(was, bs, i - 1, k + 1, next) && !Forged(next[Start(bs, i)])
  {
    assert HeaderAt(was, Start(bs, i - 1), bs[i - 1]);
    StartOrder(bs, i - 1, i);
    StartOrder(bs, i, i + k);
  }

  /** Freeing block `i` when a free block precedes it. */
  lemma BackSound(was: seq<Cell>, bs: Blocks, i: nat, k: nat, mid: seq<Cell>, next: seq<Cell>)
    requires Sound(was, bs) && 0 < i < |bs| && bs[i].used && k == 1 + FreeRun(bs, i + 1) && !bs[i - 1].used
    requires Swallowed(was, bs, i, k, mid) && Start(bs, i - 1) < |mid|
    requires next == mid[Start(bs, i - 1) := was[Start(bs, i - 1)].(size := Fused(bs, i - 1, k + 1).size)]
    ensures Sound(next, FreeBlock(bs, i))
  {
    SwallowedBack(was, bs, i, k, mid, next);
    PreviousUsed(bs, i);
    FreeSplices(bs, i);
    JoinedSound(was, bs, i - 1, k + 1, next, FreeBlock(bs, i), i);
  }

  /** What the backward walk sees at block `j` before block `i`. */
  lemma BeforeHeader(was: seq<Cell>, bs: Blocks, i: nat, j: nat)
    requires Reflects(was, bs) && j < i < |bs|
    ensures HeaderAt(was, Start(bs, j), bs[j]) && Start(bs, j) < Start(bs, i) < |was|
    ensures Start(bs, j + 1) == Start(bs, j) + 1 + bs[j].size && Start(bs, j + 1) <= Start(bs, i)
    ensures Start(bs, j + 1) == Start(bs, i) <==> j + 1 == i
  {
    StartOrder(bs, j, i);
    EndsAt(was, bs, i);
    if j + 1 < i {
      StartOrder(bs, j + 1, i);
    }
  }

  // ---------------------------------------------------------------- pointers

  /** The live block whose payload starts at unit `ptr`. */
  ghost predicate LiveAt(bs: Blocks, ptr: nat, i: nat) { i < |bs| && bs[i].used && Start(bs, i) + 1 == ptr }

  /** Live payloads start inside the heap, behind a header that looks live. */
  lemma LiveMarked(mem: seq<Cell>, bs: Blocks, ptr: nat)
    requires Reflects(mem, bs) && Proper(bs) && (ptr < 1 || ptr >= |mem| || !Forged(mem[ptr - 1]))
    ensures forall i | 0 <= i < |bs| :: !LiveAt(bs, ptr, i)
  {
    forall i | 0 <= i < |bs| && bs[i].used ensures Start(bs, i) + 1 != ptr {
      EndsAt(mem, bs, i);
    }
  }

  lemma OneLive(bs: Blocks, ptr: nat, i: nat)
    requires i < |bs| && bs[i].used && Start(bs, i) + 1 == ptr
    ensures LiveAt(bs, ptr, i) && forall j | LiveAt(bs, ptr, j) :: j == i
  {
    forall j | LiveAt(bs, ptr, j) ensures j == i {
      SameStart(bs, i, j);
    }
  }

  // ---------------------------------------------------------------- clients

  /** Unit `p` lies in the payload of a live block. */
  ghost predicate InPayload(bs: Blocks, p: nat) { exists i: nat :: Inside(bs, i, p) }

  ghost predicate Inside(bs: Blocks, i: nat, p: nat) {
    i < |bs| && bs[i].used && Start(bs, i) < p < Start(bs, i) + 1 + bs[i].size
  }

  /** A client that writes its own payload and forges no header leaves the heap sound. */
  lemma PayloadKeeps(mem: seq<Cell>, bs: Blocks, p: nat, c: Cell)
    requires Sound(mem, bs) && InPayload(bs, p) && !Forged(c)
    ensures p < |mem| && Sound(mem[p := c], bs)
  {
    var i: nat :| Inside(bs, i, p);
    EndsAt(mem, bs, i);
    var next := mem[p := c];
    forall j | 0 <= j < |bs| ensures HeaderAt(next, Start(bs, j), bs[j]) {
      assert HeaderAt(mem, Start(bs, j), bs[j]);
      if j < i {
        StartOrder(bs, j, i);
      } else if j > i {
        StartOrder(bs, i, j);
      }
    }
    forall x | 0 <= x < |next| && Forged(next[x]) ensures IsStart(bs, x) {
      assert Forged(mem[x]);
    }
  }

  datatype Request = Want(size: nat) | Release(ptr: nat) | Put(unit: nat, cell: Cell)

  /** What a release does to the blocks: nothing, unless the pointer is a live payload. */
  ghost function FreeAt(bs: Blocks, ptr: nat): (r: Blocks) {
    if i: nat :| LiveAt(bs, ptr, i) then FreeBlock(bs, i) else bs
  }

  /** One request on the block list. */
  ghost function Served(bs: Blocks, q: Request): (r: Blocks) {
    match q
    case Want(size) => if size < WORD && Units(size).Some? then Malloc(bs, Units(size).value).0 else bs
    case Release(ptr) => FreeAt(bs, ptr)
    case Put(_, _) => bs
  }

  ghost function AllServed(bs: Blocks, qs: seq<Request>): (r: Blocks)
    decreases |qs|
  {
    if qs == [] then bs else AllServed(Served(bs, qs[0]), qs[1..])
  }

  /** Sizes are 32-bit, and clients write only their own payloads and forge no header. */
  ghost predicate Fair(bs: Blocks, qs: seq<Request>)
    decreases |qs|
  {
    qs != [] ==>
      && (qs[0].Want? ==> qs[0].size < WORD) && (qs[0].Put? ==> InPayload(bs, qs[0].unit) && !Forged(qs[0].cell))
      && Fair(Served(bs, qs[0]), qs[1..])
  }

  /** Units needed for a request, or none when rounding up would wrap. */
  function Units(size: nat): (need: Option<nat>)
    requires size < WORD
    ensures need.Some? ==> need.value > 0 && UNIT * (need.value - 1) < (if size == 0 then 1 else size) <= UNIT * need.value
    ensures need.None? <==> size > WORD - UNIT
  {
    var n := if size == 0 then 1 else size;
    if n + UNIT - 1 >= WORD then None else Some((n + UNIT - 1) / UNIT)
  }

  class KHeap {
    const mem: array<Cell>
    ghost var blocks: Blocks

    ghost predicate Valid()
      reads this, mem
    {
      Sound(mem[..], blocks)
    }

    /** kheap_init: one free block over everything; memory holds whatever it held, but no live header. */
    constructor (mem: array<Cell>)
      requires mem.Length > 1 && forall p | 0 <= p < mem.Length :: !Forged(mem[p])
      modifies mem
      ensures this.mem == mem && Valid() && blocks == [Block(mem.Length - 1, false)]
    {
      this.mem := mem;
      blocks := [Block(mem.Length - 1, false)];
      new;
      mem[0] := Cell(MAGIC, mem.Length - 1, 0, 0);
      SpanOne(blocks[0]);
    }

    /** kmalloc: the unit where the payload starts. */
    method Alloc(size: nat) returns (r: Option<nat>)
      requires Valid() && size < WORD
      modifies this`blocks, mem
      ensures Valid()
      ensures Units(size).None? ==> r.None? && blocks == old(blocks)
      ensures Units(size).Some? ==>
                && blocks == Malloc(old(blocks), Units(size).value).0
                && (r.None? <==> Malloc(old(blocks), Units(size).value).1.None?)
                && (r.Some? ==> LiveAt(blocks, r.value, Malloc(old(blocks), Units(size).value).1.value))
    {
      var need := Units(size);
      if need.None? {
        return None;
      }
      var p := 0;
      ghost var i := 0;
      while p + 1 <= mem.Length && mem[p].magic == MAGIC
        invariant 0 <= i <= |blocks| && p == Start(blocks, i) && Valid() && blocks == old(blocks) && mem[..] == old(mem[..])
        invariant FirstFit(blocks, need.value, 0) == FirstFit(blocks, need.value, i)
        decreases mem.Length - p
      {
        EndsAt(mem[..], blocks, i);
        if mem[p].used == 0 && mem[p].size >= need.value {
          r := Take(p, need.value, i);
          return;
        }
        p := p + 1 + mem[p].size;
        i := i + 1;
      }
      EndsAt(mem[..], blocks, i);
      return None;
    }

    /** Split the block at unit `p` if the rest is worth a header, and mark it used. */
    method Take(p: nat, need: nat, ghost i: nat) returns (r: Option<nat>)
      requires Valid() && i < |blocks| && p == Start(blocks, i) && FirstFit(blocks, need, 0) == Some(i) && need > 0
      modifies this`blocks, mem
      ensures Valid() && blocks == Malloc(old(blocks), need).0 && r == Some(p + 1) && LiveAt(blocks, p + 1, i)
    {
      ghost var was, bs := mem[..], blocks;
      EndsAt(was, bs, i);
      if mem[p].size >= need + 2 {
        mem[p + 1 + need] := Cell(MAGIC, mem[p].size - need - 1, 0, 0);
        mem[p] := mem[p].(size := need);
      }
      mem[p] := mem[p].(used := 1);
      blocks := Replace(bs, i, 1, Carve(bs[i], need));
      CarveSplices(bs, i, need);
      CarvedSound(was, bs, i, need, mem[..], blocks);
      SplicedBefore(bs, i, 1, Carve(bs[i], need), blocks, i);
      return Some(p + 1);
    }

    /** kfree: a pointer that is not the payload of a live block changes nothing. */
    method Free(ptr: nat)
      requires Valid()
      modifies this`blocks, mem
      ensures Valid()
      ensures forall i | LiveAt(old(blocks), ptr, i) :: blocks == FreeBlock(old(blocks), i)
      ensures (forall i | 0 <= i < |old(blocks)| :: !LiveAt(old(blocks), ptr, i)) ==> blocks == old(blocks) && mem[..] == old(mem[..])
    {
      if ptr < 1 || ptr >= mem.Length || mem[ptr - 1].magic != MAGIC || mem[ptr - 1].used == 0 {
        LiveMarked(mem[..], blocks, ptr);
        return;
      }
      var p := ptr - 1;
      assert Forged(mem[..][p]);
      ghost var i: nat :| StartsAt(blocks, i, p);
      assert HeaderAt(mem[..], Start(blocks, i), blocks[i]);
      OneLive(blocks, ptr, i);
      ghost var was, bs := mem[..], blocks;
      Forward(p, i);
      Backward(p, was, bs, i);
    }

    /** Mark the block free and merge the free blocks that follow. */
    method Forward(p: nat, ghost i: nat)
      requires Valid() && i < |blocks| && p == Start(blocks, i) && blocks[i].used
      modifies mem
      ensures Swallowed(old(mem[..]), blocks, i, 1 + FreeRun(blocks, i + 1), mem[..])
    {
      ghost var was := mem[..];
      EndsAt(was, blocks, i);
      mem[p] := mem[p].(used := 0);
      var next := p + 1 + mem[p].size;
      ghost var m := i + 1;
      while next + 1 <= mem.Length
        invariant i < m <= |blocks| && next == Start(blocks, m)
        invariant FreeRun(blocks, i + 1) == m - i - 1 + FreeRun(blocks, m)
        invariant Swallowed(was, blocks, i, m - i, mem[..])
        decreases mem.Length - next
      {
        NextHeader(was, blocks, i, m);
        if mem[next].magic != MAGIC || mem[next].used != 0 {
          return;
        }
        ghost var mid := mem[..];
        mem[p] := mem[p].(size := mem[p].size + 1 + mem[next].size);
        SwallowedMore(was, blocks, i, m - i, mid, mem[..]);
        next := next + 1 + mem[next].size;
        m := m + 1;
      }
      EndsAt(was, blocks, m);
    }

    /** Find the block before and let it swallow the freed one if it is free. */
    method Backward(p: nat, ghost was: seq<Cell>, ghost bs: Blocks, ghost i: nat)
      requires blocks == bs && Sound(was, bs) && i < |bs| && p == Start(bs, i) && bs[i].used
      requires Swallowed(was, bs, i, 1 + FreeRun(bs, i + 1), mem[..])
      modifies this`blocks, mem
      ensures Valid() && blocks == FreeBlock(bs, i)
    {
      var cur := 0;
      ghost var j, mid := 0, mem[..];
      EndsAt(was, bs, i);
      if i > 0 {
        StartOrder(bs, 0, i);
      }
      while cur + 1 <= mem.Length && cur < p && mem[cur].magic == MAGIC
        invariant mem[..] == mid && 0 <= j <= i && cur == Start(bs, j) && cur <= p && (i > 0 ==> j < i && cur < p)
        decreases p - cur
      {
        BeforeHeader(was, bs, i, j);
        var nxt := cur + 1 + mem[cur].size;
        if nxt == p {
          if mem[cur].used == 0 {
            mem[cur] := mem[cur].(size := mem[cur].size + 1 + mem[p].size);
            BackSound(was, bs, i, 1 + FreeRun(bs, i + 1), mid, mem[..]);
          } else {
            ForwardSound(was, bs, i, mem[..]);
          }
          blocks := FreeBlock(bs, i);
          return;
        }
        cur := nxt;
        j := j + 1;
      }
      assert i == 0 by {
        if i > 0 {
          BeforeHeader(was, bs, i, j);
        }
      }
      ForwardSound(was, bs, i, mem[..]);
      blocks := FreeBlock(bs, i);
    }

    /** A client writes one unit of its payload. */
    method Poke(p: nat, c: Cell)
      requires Valid() && InPayload(blocks, p) && !Forged(c)
      modifies mem
      ensures Valid() && p < mem.Length && mem[..] == old(mem[..])[p := c]
    {
      PayloadKeeps(mem[..], blocks, p, c);
      mem[p] := c;
    }

    /** Any run of allocations, releases and client writes is the same run on the block list. */
    method Serve(qs: seq<Request>)
      requires Valid() && Fair(blocks, qs)
      modifies this`blocks, mem
      ensures Valid() && blocks == AllServed(old(blocks), qs)
    {
      assert qs[0..] == qs;
      for k := 0 to |qs|
        invariant Valid() && Fair(blocks, qs[k..]) && AllServed(blocks, qs[k..]) == AllServed(old(blocks), qs)
      {
        assert qs[k..][0] == qs[k] && qs[k..][1..] == qs[k + 1..];
        ServeOne(qs[k]);
      }
    }

    method ServeOne(q: Request)
      requires Valid() && (q.Want? ==> q.size < WORD) && (q.Put? ==> InPayload(blocks, q.unit) && !Forged(q.cell))
      modifies this`blocks, mem
      ensures Valid() && blocks == Served(old(blocks), q)
    {
      match q {
        case Want(size) => var _ := Alloc(size);
        case Release(ptr) => Free(ptr);
        case Put(p, c) => Poke(p, c);
      }
    }
  }
}
