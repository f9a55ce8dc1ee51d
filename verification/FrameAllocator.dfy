/**
 The frame allocator in the form of `src/mm.c`: 32-bit bitmap words changed in place, a scan
 that skips full words and a contiguous search that skips past the first frame in the way.
 */
module FrameAllocator {
  import opened Options
  import opened Frames

  /** A 32-bit word, as the set of its one bits: `w | (1u << j)` is `w + {j}`. */
  type Word = w: set<nat> | w <= FULL witness {}

  const FULL: set<nat> := set j: nat | j < 32

  // ---------------------------------------------------------------- words as flags

  ghost function Flags(words: seq<Word>, total: nat): (used: seq<bool>)
    requires total <= 32 * |words|
    ensures |used| == total
  {
    seq(total, f requires 0 <= f < total => f % 32 in words[f / 32])
  }

  lemma FlagsSet(words: seq<Word>, total: nat, f: nat)
    requires f < total <= 32 * |words|
    ensures Flags(words[f / 32 := words[f / 32] + {f % 32}], total) == Flags(words, total)[f := true]
  {
  }

  lemma FlagsClear(words: seq<Word>, total: nat, f: nat)
    requires f < total <= 32 * |words|
    ensures Flags(words[f / 32 := words[f / 32] - {f % 32}], total) == Flags(words, total)[f := false]
  {
  }

  // ---------------------------------------------------------------- the allocator

  class Allocator {
    const total: nat
    const bitmap: array<Word>
    const refs: array<nat>
    var free: int

    ghost predicate Shape() {
      total <= 32 * bitmap.Length && refs.Length == total && bitmap as object != refs
    }

    ghost function State(): (p: Pool)
      requires Shape()
      reads this, bitmap, refs
      ensures |p.used| == |p.refs| == total
    {
      Pool(Flags(bitmap[..], total), refs[..], free)
    }

    /** Boot: reserve everything, then release the usable regions above the kernel. */
    constructor (total: nat, reserved: nat, regions: seq<Region>)
      ensures Shape() && fresh(bitmap) && fresh(refs)
      ensures this.total == total
      ensures State() == BootPool(total, reserved, regions)
    {
      this.total := total;
      this.bitmap := new Word[(total + 31) / 32](_ => FULL);
      this.refs := new nat[total](_ => 0);
      this.free := 0;
      new;
      assert Flags(bitmap[..], total) == seq(total, _ => true);
      assert refs[..] == seq(total, _ => 0);
      var i := 0;
      assert regions[..0] == [];
      while i < |regions|
        invariant 0 <= i <= |regions|
        invariant State() == BootPool(total, reserved, regions[..i])
      {
        var c := Clip(regions[i], reserved, total);
        ghost var p := State();
        assert regions[..i + 1][..i] == regions[..i];
        if c.first < c.last {
          var f := c.first;
          assert SetRange(p.used, c.first, 0, false) == p.used;
          while f < c.last
            invariant c.first <= f <= c.last
            invariant State() ==
                      Pool(SetRange(p.used, c.first, f - c.first, false), p.refs, p.free + (f - c.first))
          {
            BitmapClear(f);
            free := free + 1;
            f := f + 1;
            SetRangeStep(p.used, c.first, f - c.first, false);
          }
        }
        i := i + 1;
      }
      assert regions[..i] == regions;
    }

    method BitmapSet(frame: nat)
      requires Shape() && frame < total
      modifies bitmap
      ensures State() == old(State()).(used := old(State()).used[frame := true])
    {
      FlagsSet(bitmap[..], total, frame);
      bitmap[frame / 32] := bitmap[frame / 32] + {frame % 32};
      assert bitmap[..] == old(bitmap[..])[frame / 32 := old(bitmap[..])[frame / 32] + {frame % 32}];
    }

    method BitmapClear(frame: nat)
      requires Shape() && frame < total
      modifies bitmap
      ensures State() == old(State()).(used := old(State()).used[frame := false])
    {
      FlagsClear(bitmap[..], total, frame);
      bitmap[frame / 32] := bitmap[frame / 32] - {frame % 32};
      assert bitmap[..] == old(bitmap[..])[frame / 32 := old(bitmap[..])[frame / 32] - {frame % 32}];
    }

    method BitmapTest(frame: nat) returns (b: bool)
      requires Shape() && frame < total
      ensures b == State().used[frame]
    {
      b := frame % 32 in bitmap[frame / 32];
    }

    /** The word-skipping scan finds the lowest clear frame, or the frame count when there is none. */
    method FindFirstFree() returns (frame: nat)
      requires Shape()
      ensures frame == FirstFree(State().used, 0)
    {
      ghost var used := State().used;
      var words := (total + 31) / 32;
      var i := 0;
      while i < words
        invariant 0 <= i <= words
        invariant forall f | 0 <= f < 32 * i && f < total :: used[f]
      {
        if bitmap[i] != FULL {
          var j := 0;
          while j < 32
            invariant 0 <= j <= 32
            invariant forall f | 0 <= f < 32 * i + j && f < total :: used[f]
          {
            var f := i * 32 + j;
            if f >= total {
              return total;
            }
            assert used[f] == (f % 32 in bitmap[f / 32]);
            if j !in bitmap[i] {
              return f;
            }
            j := j + 1;
          }
        } else {
          assert forall f | 32 * i <= f < 32 * (i + 1) && f < total :: used[f] == (f % 32 in bitmap[f / 32]);
        }
        i := i + 1;
      }
      return total;
    }

    method AllocPage() returns (r: Option<nat>)
      requires Shape()
      modifies this, bitmap, refs
      ensures (State(), r) == Frames.AllocPage(old(State()))
    {
      var frame := FindFirstFree();
      if frame == total {
        return None;
      }
      BitmapSet(frame);
      refs[frame] := 1;
      assert refs[..] == old(refs[..])[frame := 1];
      free := free - 1;
      return Some(frame);
    }

    /** The search that resumes just past the first used frame finds the lowest run of all. */
    method AllocPages(count: nat) returns (r: Option<nat>)
      requires Shape()
      modifies this, bitmap, refs
      ensures (State(), r) == Frames.AllocPages(old(State()), count)
    {
      if count == 0 || count > total || free < count {
        return None;
      }
      ghost var p := State();
      var start := 0;
      while start + count <= total
        invariant State() == p
        invariant forall s | 0 <= s < start :: !AllFree(p.used, s, count)
      {
        var found := true;
        var i := 0;
        while i < count && found
          invariant 0 <= i <= count
          invariant State() == p
          invariant found ==> forall k | start <= k < start + i :: !p.used[k]
          invariant !found ==> i < count && p.used[start + i]
          decreases count - i, found
        {
          var busy := BitmapTest(start + i);
          if busy {
            found := false;
          } else {
            i := i + 1;
          }
        }
        if found {
          assert AllFree(p.used, start, count);
          TakeRun(start, count);
          return Some(start);
        }
        forall s | start <= s <= start + i ensures !AllFree(p.used, s, count) {
          assert p.used[start + i];
        }
        start := start + i + 1;
      }
      return None;
    }

    method TakeRun(start: nat, count: nat)
      requires Shape() && start + count <= total
      modifies this, bitmap, refs
      ensures State() == Pool(SetRange(old(State()).used, start, count, true),
                              SetRange(old(State()).refs, start, count, 1), old(free) - count)
    {
      ghost var p := State();
      var i := 0;
      assert SetRange(p.used, start, 0, true) == p.used;
      assert SetRange(p.refs, start, 0, 1) == p.refs;
      while i < count
        invariant 0 <= i <= count
        invariant State() == Pool(SetRange(p.used, start, i, true), SetRange(p.refs, start, i, 1), p.free)
      {
        BitmapSet(start + i);
        refs[start + i] := 1;
        assert refs[..] == SetRange(p.refs, start, i, 1)[start + i := 1];
        i := i + 1;
        SetRangeStep(p.used, start, i, true);
        SetRangeStep(p.refs, start, i, 1);
      }
      free := free - count;
    }

    method RefInc(frame: nat)
      requires Shape()
      modifies refs
      ensures State() == Frames.RefInc(old(State()), frame)
    {
      if frame < total && refs[frame] < REF_MAX {
        refs[frame] := refs[frame] + 1;
        assert refs[..] == old(refs[..])[frame := refs[frame]];
      }
    }

    method Unref(frame: nat)
      requires Shape()
      modifies this, bitmap, refs
      ensures State() == Frames.Unref(old(State()), frame)
    {
      if frame >= total {
        return;
      }
      if refs[frame] > 1 {
        refs[frame] := refs[frame] - 1;
        assert refs[..] == old(refs[..])[frame := refs[frame]];
        return;
      }
      refs[frame] := 0;
      assert refs[..] == old(refs[..])[frame := 0];
      var busy := BitmapTest(frame);
      if busy {
        BitmapClear(frame);
        free := free + 1;
      }
    }

    method FreePages(start: nat, count: nat)
      requires Shape()
      modifies this, bitmap, refs
      ensures State() == Frames.FreePages(old(State()), start, count)
    {
      if count == 0 || start >= total || start + count > total {
        return;
      }
      var i := 0;
      while i < count
        invariant 0 <= i <= count
        invariant State() == UnrefRange(old(State()), start, i)
      {
        Unref(start + i);
        i := i + 1;
      }
    }

    /** All or nothing: a range with a used frame in it is left alone. */
    method ReserveRange(start: nat, end: nat) returns (ok: bool)
      requires Shape()
      modifies this, bitmap
      ensures (State(), ok) == Frames.ReserveRange(old(State()), start, end)
    {
      if end <= start {
        return false;
      }
      var first, last := start / FRAME, (end - 1) / FRAME + 1;
      if first >= total || last > total {
        return false;
      }
      ghost var p := State();
      var f := first;
      while f < last
        invariant first <= f <= last
        invariant State() == p
        invariant forall k | first <= k < f :: !p.used[k]
      {
        var busy := BitmapTest(f);
        if busy {
          return false;
        }
        f := f + 1;
      }
      f := first;
      assert SetRange(p.used, first, 0, true) == p.used;
      while f < last
        invariant first <= f <= last
        invariant State() == Pool(SetRange(p.used, first, f - first, true), p.refs, p.free - (f - first))
      {
        BitmapSet(f);
        free := free - 1;
        f := f + 1;
        SetRangeStep(p.used, first, f - first, true);
      }
      return true;
    }
  }
}
