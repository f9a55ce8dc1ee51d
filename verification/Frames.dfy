/**
 The physical frame allocator of `src/mm.c`: a bitmap of 32-bit words, a saturating
 8-bit reference count per frame, and a running count of free frames.

 The allocator is described twice. `Pool` is the simple form: one boolean and one count
 per frame, with every operation a function. `FrameAllocator` is the form of the source:
 words updated in place, a scan that skips full words, and a search for contiguous frames
 that skips past the first obstacle. Each method is proved to have the effect of its function.
 */
module Frames {
  import opened Options

  const REF_MAX: nat := 255

  // ---------------------------------------------------------------- the simple form

  /** One flag and one count per frame below `total_pages`, and the running free count. */
  datatype Pool = Pool(used: seq<bool>, refs: seq<nat>, free: int)

  /** The number of clear bits. */
  function CountFree(used: seq<bool>): nat {
    if |used| == 0 then 0
    else CountFree(used[..|used| - 1]) + (if used[|used| - 1] then 0 else 1)
  }

  ghost predicate Valid(p: Pool) {
    && |p.refs| == |p.used|
    && p.free == CountFree(p.used)
  }

  /** The lowest clear frame at or above `from`, or the number of frames when there is none. */
  function FirstFree(used: seq<bool>, from: nat): (f: nat)
    requires from <= |used|
    ensures from <= f <= |used|
    ensures f < |used| ==> !used[f]
    ensures forall g | from <= g < f :: used[g]
    decreases |used| - from
  {
    if from == |used| || !used[from] then from else FirstFree(used, from + 1)
  }

  predicate AllFree(used: seq<bool>, start: nat, n: nat) {
    start + n <= |used| && forall k | start <= k < start + n :: !used[k]
  }

  /** The lowest start of `n` consecutive clear frames at or above `from`. */
  function FirstRun(used: seq<bool>, n: nat, from: nat): (r: Option<nat>)
    ensures r.Some? ==> from <= r.value && AllFree(used, r.value, n)
    ensures r.Some? ==> forall s | from <= s < r.value :: !AllFree(used, s, n)
    ensures r.None? ==> forall s | from <= s :: !AllFree(used, s, n)
    decreases |used| - from
  {
    if from + n > |used| then None
    else if AllFree(used, from, n) then Some(from)
    else FirstRun(used, n, from + 1)
  }

  function SetRange<T>(s: seq<T>, start: nat, n: nat, v: T): (r: seq<T>)
    requires start + n <= |s|
    ensures |r| == |s|
    ensures forall k | 0 <= k < |s| :: r[k] == if start <= k < start + n then v else s[k]
  {
    seq(|s|, k requires 0 <= k < |s| => if start <= k < start + n then v else s[k])
  }

  function AllocPage(p: Pool): (r: (Pool, Option<nat>))
    requires |p.refs| == |p.used|
  {
    var f := FirstFree(p.used, 0);
    if f == |p.used| then (p, None)
    else (Pool(p.used[f := true], p.refs[f := 1], p.free - 1), Some(f))
  }

  function AllocPages(p: Pool, n: nat): (r: (Pool, Option<nat>))
    requires |p.refs| == |p.used|
  {
    if n == 0 || n > |p.used| || p.free < n then (p, None)
    else match FirstRun(p.used, n, 0)
      case None => (p, None)
      case Some(s) =>
        (Pool(SetRange(p.used, s, n, true), SetRange(p.refs, s, n, 1), p.free - n), Some(s))
  }

  function RefInc(p: Pool, f: nat): (r: Pool)
    requires |p.refs| == |p.used|
  {
    if f >= |p.used| || p.refs[f] >= REF_MAX then p else p.(refs := p.refs[f := p.refs[f] + 1])
  }

  function Unref(p: Pool, f: nat): (r: Pool)
    requires |p.refs| == |p.used|
  {
    if f >= |p.used| then p
    else if p.refs[f] > 1 then p.(refs := p.refs[f := p.refs[f] - 1])
    else if p.used[f] then Pool(p.used[f := false], p.refs[f := 0], p.free + 1)
    else p.(refs := p.refs[f := 0])
  }

  /** `n` calls of Unref on consecutive frames. */
  function UnrefRange(p: Pool, start: nat, n: nat): (r: Pool)
    requires |p.refs| == |p.used|
    ensures |r.refs| == |r.used| == |p.used|
  {
    if n == 0 then p else Unref(UnrefRange(p, start, n - 1), start + n - 1)
  }

  function FreePages(p: Pool, start: nat, n: nat): (r: Pool)
    requires |p.refs| == |p.used|
    ensures |r.refs| == |r.used| == |p.used|
  {
    if n == 0 || start >= |p.used| || start + n > |p.used| then p else UnrefRange(p, start, n)
  }

  const FRAME: nat := 4096

  /** mm_reserve_range on the bytes from `start` up to `end`. */
  function ReserveRange(p: Pool, start: nat, end: nat): (r: (Pool, bool))
    requires |p.refs| == |p.used|
  {
    if end <= start then (p, false)
    else
      var first, last := start / FRAME, (end - 1) / FRAME + 1;
      if first >= |p.used| || last > |p.used| || !AllFree(p.used, first, last - first) then (p, false)
      else (Pool(SetRange(p.used, first, last - first, true), p.refs, p.free - (last - first)), true)
  }

  // ---------------------------------------------------------------- what the operations keep

  lemma SetRangeStep<T>(s: seq<T>, start: nat, n: nat, v: T)
    requires n > 0
    requires start + n <= |s|
    ensures SetRange(s, start, n - 1, v)[start + n - 1 := v] == SetRange(s, start, n, v)
  {
  }

  lemma {:induction false} CountUpdate(used: seq<bool>, f: nat, b: bool)
    requires f < |used|
    ensures CountFree(used[f := b]) ==
            CountFree(used) + (if used[f] then 1 else 0) - (if b then 1 else 0)
  {
    var n := |used| - 1;
    if f < n {
      CountUpdate(used[..n], f, b);
      assert used[f := b][..n] == used[..n][f := b];
    } else {
      assert used[f := b][..n] == used[..n];
    }
  }

  lemma {:induction false} CountSetRange(used: seq<bool>, start: nat, n: nat)
    requires AllFree(used, start, n)
    ensures CountFree(SetRange(used, start, n, true)) == CountFree(used) - n
  {
    if n == 0 {
      assert SetRange(used, start, n, true) == used;
    } else {
      CountSetRange(used, start, n - 1);
      var u := SetRange(used, start, n - 1, true);
      CountUpdate(u, start + n - 1, true);
      SetRangeStep(used, start, n, true);
    }
  }

  lemma RunNeedsRoom(used: seq<bool>, start: nat, n: nat)
    requires AllFree(used, start, n)
    ensures n <= CountFree(used)
  {
    CountSetRange(used, start, n);
  }

  lemma {:induction false} NoneFree(used: seq<bool>)
    ensures CountFree(used) == 0 <==> forall k | 0 <= k < |used| :: used[k]
  {
    if |used| > 0 {
      NoneFree(used[..|used| - 1]);
      assert forall k | 0 <= k < |used| - 1 :: used[..|used| - 1][k] == used[k];
    }
  }

  /** One frame: taken exactly when one is free, and then the lowest; all else is untouched. */
  lemma AllocPageMeaning(p: Pool)
    requires Valid(p)
    ensures var (q, r) := AllocPage(p);
            && Valid(q)
            && (r.None? <==> p.free == 0)
            && (r.None? ==> q == p)
            && (r.Some? ==>
                  && r.value < |p.used| && !p.used[r.value]
                  && (forall g | 0 <= g < r.value :: p.used[g])
                  && q.used == p.used[r.value := true]
                  && q.refs == p.refs[r.value := 1]
                  && q.free == p.free - 1)
  {
    NoneFree(p.used);
    var f := FirstFree(p.used, 0);
    if f < |p.used| {
      CountUpdate(p.used, f, true);
    }
  }

  /**
   Contiguous frames: the request is refused exactly when no run of `n` clear frames exists,
   and otherwise the lowest such run is taken and nothing else changes.
   */
  lemma AllocPagesMeaning(p: Pool, n: nat)
    requires Valid(p)
    ensures var (q, r) := AllocPages(p, n);
            && Valid(q)
            && (r.None? <==> n == 0 || forall s: nat :: !AllFree(p.used, s, n))
            && (r.None? ==> q == p)
            && (r.Some? ==>
                  && AllFree(p.used, r.value, n)
                  && (forall s | 0 <= s < r.value :: !AllFree(p.used, s, n))
                  && q.free == p.free - n
                  && forall k | 0 <= k < |p.used| ::
                       if r.value <= k < r.value + n then q.used[k] && q.refs[k] == 1
                       else q.used[k] == p.used[k] && q.refs[k] == p.refs[k])
  {
    if n > 0 {
      forall s: nat | AllFree(p.used, s, n) ensures n <= p.free && n <= |p.used| {
        RunNeedsRoom(p.used, s, n);
      }
      var r := FirstRun(p.used, n, 0);
      if r.Some? {
        CountSetRange(p.used, r.value, n);
      }
    }
  }

  /** Dropping a reference keeps the free count exact; on a free frame it changes no flag. */
  lemma UnrefMeaning(p: Pool, f: nat)
    requires Valid(p)
    ensures Valid(Unref(p, f))
    ensures f < |p.used| && !p.used[f] ==> Unref(p, f).used == p.used && Unref(p, f).free == p.free
    ensures f < |p.used| && p.refs[f] > 1 ==>
              Unref(p, f).used == p.used && Unref(p, f).free == p.free && Unref(p, f).refs == p.refs[f := p.refs[f] - 1]
    ensures f < |p.used| && p.used[f] && p.refs[f] <= 1 ==>
              !Unref(p, f).used[f] && Unref(p, f).free == p.free + 1
  {
    if f < |p.used| && p.used[f] {
      CountUpdate(p.used, f, false);
    } else if f < |p.used| {
      assert p.used[f := false] == p.used;
    }
  }

  lemma {:induction false} UnrefRangeMeaning(p: Pool, start: nat, n: nat)
    requires Valid(p)
    requires start + n <= |p.used|
    requires forall k | start <= k < start + n :: p.used[k] && p.refs[k] <= 1
    ensures var q := UnrefRange(p, start, n);
            && Valid(q)
            && q.used == SetRange(p.used, start, n, false)
            && q.refs == SetRange(p.refs, start, n, 0)
            && q.free == p.free + n
  {
    if n == 0 {
      assert SetRange(p.used, start, n, false) == p.used;
      assert SetRange(p.refs, start, n, 0) == p.refs;
    } else {
      UnrefRangeMeaning(p, start, n - 1);
      UnrefMore(p, start, n, UnrefRange(p, start, n - 1));
    }
  }

  lemma UnrefMore(p: Pool, start: nat, n: nat, q: Pool)
    requires Valid(q) && 0 < n && start + n <= |p.used| && |p.refs| == |p.used|
    requires p.used[start + n - 1] && p.refs[start + n - 1] <= 1 && q.free == p.free + n - 1
    requires q.used == SetRange(p.used, start, n - 1, false) && q.refs == SetRange(p.refs, start, n - 1, 0)
    ensures var r := Unref(q, start + n - 1);
            && Valid(r) && r.used == SetRange(p.used, start, n, false) && r.refs == SetRange(p.refs, start, n, 0)
            && r.free == p.free + n
  {
    UnrefMeaning(q, start + n - 1);
    SetRangeStep(p.used, start, n, false);
    SetRangeStep(p.refs, start, n, 0);
  }

  /** Freeing a block a second time, before any frame of it is handed out again, changes nothing. */
  lemma {:induction false} DoubleFree(p: Pool, start: nat, n: nat)
    requires Valid(p)
    requires start + n <= |p.used|
    requires forall k | start <= k < start + n :: !p.used[k] && p.refs[k] == 0
    ensures FreePages(p, start, n) == p
  {
    if n > 0 {
      DoubleFree(p, start, n - 1);
      assert UnrefRange(p, start, n - 1) == p;
      assert p.refs[start + n - 1 := 0] == p.refs;
    }
  }

  /** Taking a block of frames and giving it back leaves the flags and the free count as they were. */
  lemma AllocThenFree(p: Pool, n: nat)
    requires Valid(p)
    requires AllocPages(p, n).1.Some?
    ensures var (q, r) := AllocPages(p, n);
            FreePages(q, r.value, n).used == p.used && FreePages(q, r.value, n).free == p.free
  {
    AllocPagesMeaning(p, n);
    var (q, r) := AllocPages(p, n);
    UnrefRangeMeaning(q, r.value, n);
    assert FreePages(q, r.value, n).used == p.used;
  }

  /** Frame `k` holds some byte of the range. */
  predicate Touches(k: nat, start: nat, end: nat) { k * FRAME < end && start < (k + 1) * FRAME }

  lemma TouchesIff(k: nat, start: nat, end: nat)
    requires start < end
    ensures Touches(k, start, end) <==> start / FRAME <= k < (end - 1) / FRAME + 1
  {
  }

  /** A range is reserved exactly when every frame with a byte of it exists and is free, and then just those are taken. */
  lemma ReserveMeaning(p: Pool, start: nat, end: nat)
    requires Valid(p)
    ensures var (q, ok) := ReserveRange(p, start, end);
            && Valid(q)
            && (ok <==> start < end && forall k: nat | Touches(k, start, end) :: Vacant(p.used, k))
            && (!ok ==> q == p)
            && (ok ==> |q.used| == |p.used| && q.refs == p.refs &&
                       forall k | 0 <= k < |p.used| :: q.used[k] == (p.used[k] || Touches(k, start, end)))
  {
    if start < end {
      forall k: nat ensures Touches(k, start, end) <==> start / FRAME <= k < (end - 1) / FRAME + 1 {
        TouchesIff(k, start, end);
      }
      ReserveFrames(p, start, end, start / FRAME, (end - 1) / FRAME + 1);
    }
  }

  predicate Vacant(used: seq<bool>, k: nat) { k < |used| && !used[k] }

  lemma AllVacant(used: seq<bool>, first: nat, last: nat)
    requires first < last
    ensures AllFree(used, first, last - first) <==> forall k: nat | first <= k < last :: Vacant(used, k)
  {
    if forall k: nat | first <= k < last :: Vacant(used, k) {
      assert Vacant(used, last - 1);
      forall k | first <= k < last ensures !used[k] {
        assert Vacant(used, k);
      }
    }
  }

  lemma ReserveFrames(p: Pool, start: nat, end: nat, first: nat, last: nat)
    requires Valid(p) && start < end && first == start / FRAME && last == (end - 1) / FRAME + 1
    ensures first < last
    ensures ReserveRange(p, start, end).1 <==> forall k: nat | first <= k < last :: Vacant(p.used, k)
    ensures var q := ReserveRange(p, start, end).0;
            && Valid(q) && |q.used| == |p.used| && q.refs == p.refs
            && (!ReserveRange(p, start, end).1 ==> q == p)
            && (ReserveRange(p, start, end).1 ==>
                  forall k | 0 <= k < |p.used| :: q.used[k] == (p.used[k] || first <= k < last))
  {
    AllVacant(p.used, first, last);
    if AllFree(p.used, first, last - first) {
      CountSetRange(p.used, first, last - first);
    }
  }

  // ---------------------------------------------------------------- boot: the memory map

  /** A usable region of the memory map, as the frames [first, last). */
  datatype Region = Region(first: nat, last: nat)

  function Clip(r: Region, reserved: nat, total: nat): (c: Region) {
    Region(if r.first < reserved then reserved else r.first, if r.last > total then total else r.last)
  }

  function RegionSize(c: Region): nat { if c.first < c.last then c.last - c.first else 0 }

  predicate Covers(c: Region, f: nat) { c.first <= f < c.last }

  predicate Apart(c: Region, d: Region) { RegionSize(c) == 0 || RegionSize(d) == 0 || c.last <= d.first || d.last <= c.first }

  /** Every frame reserved, then each usable region cleared and counted frame by frame. */
  function BootPool(total: nat, reserved: nat, regions: seq<Region>): (p: Pool)
    ensures |p.used| == |p.refs| == total
  {
    if |regions| == 0 then Pool(seq(total, _ => true), seq(total, _ => 0), 0)
    else
      var p := BootPool(total, reserved, regions[..|regions| - 1]);
      var c := Clip(regions[|regions| - 1], reserved, total);
      if c.first < c.last then
        Pool(SetRange(p.used, c.first, c.last - c.first, false), p.refs, p.free + (c.last - c.first))
      else p
  }

  /** Some usable region, clipped, holds the frame. */
  predicate Usable(total: nat, reserved: nat, regions: seq<Region>, f: nat) {
    exists k | 0 <= k < |regions| :: Covers(Clip(regions[k], reserved, total), f)
  }

  lemma UsableSplit(total: nat, reserved: nat, regions: seq<Region>, f: nat)
    requires |regions| > 0
    ensures var n := |regions| - 1;
            Usable(total, reserved, regions, f) <==>
            Usable(total, reserved, regions[..n], f) || Covers(Clip(regions[n], reserved, total), f)
  {
    var n := |regions| - 1;
    if Usable(total, reserved, regions, f) {
      var k :| 0 <= k < |regions| && Covers(Clip(regions[k], reserved, total), f);
      if k < n {
        assert regions[..n][k] == regions[k];
      }
    }
    if Usable(total, reserved, regions[..n], f) {
      var k :| 0 <= k < n && Covers(Clip(regions[..n][k], reserved, total), f);
      assert regions[..n][k] == regions[k];
    }
  }

  /** After boot a frame is free exactly when a usable region holds it. */
  lemma {:induction false} BootFrees(total: nat, reserved: nat, regions: seq<Region>, f: nat)
    requires f < total
    ensures !BootPool(total, reserved, regions).used[f] <==> Usable(total, reserved, regions, f)
  {
    if |regions| > 0 {
      BootFrees(total, reserved, regions[..|regions| - 1], f);
      UsableSplit(total, reserved, regions, f);
    }
  }

  /** Clearing a range raises the number of clear bits by the set bits in it. */
  lemma {:induction false} CountClearRange(used: seq<bool>, start: nat, n: nat)
    requires start + n <= |used|
    ensures CountFree(SetRange(used, start, n, false)) <= CountFree(used) + n
    ensures CountFree(SetRange(used, start, n, false)) == CountFree(used) + n <==> AllUsed(used, start, n)
  {
    if n == 0 {
      assert SetRange(used, start, n, false) == used;
    } else {
      CountClearRange(used, start, n - 1);
      var u := SetRange(used, start, n - 1, false);
      CountUpdate(u, start + n - 1, false);
      SetRangeStep(used, start, n, false);
      assert u[start + n - 1] == used[start + n - 1];
      assert AllUsed(used, start, n) <==> AllUsed(used, start, n - 1) && used[start + n - 1];
    }
  }

  predicate AllApart(total: nat, reserved: nat, regions: seq<Region>) {
    forall j, k | 0 <= j < k < |regions| ::
      Apart(Clip(regions[j], reserved, total), Clip(regions[k], reserved, total))
  }

  predicate ApartFromAll(total: nat, reserved: nat, regions: seq<Region>, c: Region) {
    forall j | 0 <= j < |regions| :: Apart(Clip(regions[j], reserved, total), c)
  }

  lemma AllApartSplit(total: nat, reserved: nat, regions: seq<Region>)
    requires |regions| > 0
    ensures var n := |regions| - 1;
            AllApart(total, reserved, regions) <==>
            AllApart(total, reserved, regions[..n]) &&
            ApartFromAll(total, reserved, regions[..n], Clip(regions[n], reserved, total))
  {
    var n := |regions| - 1;
    var front := regions[..n];
    assert forall k | 0 <= k < n :: front[k] == regions[k];
  }

  /**
   The boot loop counts a frame once for every usable region that holds it, so the free count
   is exact if and only if no two usable regions of the memory map overlap (after clipping).
   */
  lemma {:induction false} BootCountExactIffApart(total: nat, reserved: nat, regions: seq<Region>)
    ensures BootPool(total, reserved, regions).free >= CountFree(BootPool(total, reserved, regions).used)
    ensures Valid(BootPool(total, reserved, regions)) <==> AllApart(total, reserved, regions)
  {
    if |regions| == 0 {
      NoneFree(seq(total, _ => true));
    } else {
      var n := |regions| - 1;
      BootCountExactIffApart(total, reserved, regions[..n]);
      AllApartSplit(total, reserved, regions);
      var p := BootPool(total, reserved, regions[..n]);
      var c := Clip(regions[n], reserved, total);
      if c.first < c.last {
        CountClearRange(p.used, c.first, c.last - c.first);
        UntouchedIffApart(total, reserved, regions[..n], c);
      }
    }
  }

  /** Two regions of the map that share a frame make the boot count one too high. */
  lemma BootMiscounts()
    ensures var p := BootPool(3, 0, [Region(0, 2), Region(1, 3)]); p.free == 4 && CountFree(p.used) <= 3 && !Valid(p)
  {
    var rs := [Region(0, 2), Region(1, 3)];
    BootCountExactIffApart(3, 0, rs);
    assert !Apart(Clip(rs[0], 0, 3), Clip(rs[1], 0, 3));
    assert rs[..1] == [Region(0, 2)] && rs[..1][..0] == [];
    CountBound(BootPool(3, 0, rs).used);
  }

  lemma {:induction false} CountBound(used: seq<bool>)
    ensures CountFree(used) <= |used|
    decreases |used|
  {
    if |used| > 0 {
      CountBound(used[..|used| - 1]);
    }
  }

  predicate AllUsed(used: seq<bool>, start: nat, n: nat) {
    start + n <= |used| && forall k | start <= k < start + n :: used[k]
  }

  /** A region meets no frame cleared so far exactly when it is apart from every region so far. */
  lemma UntouchedIffApart(total: nat, reserved: nat, regions: seq<Region>, c: Region)
    requires c.first < c.last <= total
    ensures AllUsed(BootPool(total, reserved, regions).used, c.first, c.last - c.first) <==>
            ApartFromAll(total, reserved, regions, c)
  {
    var p := BootPool(total, reserved, regions);
    forall f | c.first <= f < c.last
      ensures p.used[f] <==> !Usable(total, reserved, regions, f)
    {
      BootFrees(total, reserved, regions, f);
    }
    if AllUsed(p.used, c.first, c.last - c.first) {
      forall j | 0 <= j < |regions| ensures Apart(Clip(regions[j], reserved, total), c) {
        var d := Clip(regions[j], reserved, total);
        var f := if d.first < c.first then c.first else d.first;
        if !Apart(d, c) {
          assert p.used[f];
          assert Covers(d, f);
        }
      }
      assert ApartFromAll(total, reserved, regions, c);
    }
    if ApartFromAll(total, reserved, regions, c) {
      forall f | c.first <= f < c.last ensures p.used[f] {
        forall j | 0 <= j < |regions| ensures !Covers(Clip(regions[j], reserved, total), f) {
          assert Apart(Clip(regions[j], reserved, total), c);
        }
      }
    }
  }
}
