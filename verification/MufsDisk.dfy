/**
 Write-through (`src/fs.c`): after every operation the disk holds the tables and the contents of
 memory, so that a remount brings back the same paths and the same bytes.
 */
module MufsDisk {
  import opened Sectors
  import opened Journal
  import opened MufsJournal
  import opened Records
  import opened Mufs

  /** The data area starts at sector 16; a slot has 128 sectors. */
  const DATA_AT: nat := 16 * SECTOR
  const DISK_BYTES: nat := DATA_AT + MAX_SIZE * FILE_SLOTS

  function SlotAt(i: nat): nat { DATA_AT + MAX_SIZE * i }

  predicate Big(d: Image) { |d| >= DISK_BYTES }

  function Metas(fs: seq<File>): (ms: seq<FileMeta>)
    ensures |ms| == |fs| && forall i | 0 <= i < |fs| :: ms[i] == fs[i].m
  {
    seq(|fs|, i requires 0 <= i < |fs| => fs[i].m)
  }

  /** The tables persist_meta writes. */
  function TablesOf(s: Fs): (t: Tables)
    requires Shaped(s)
    ensures Fits(t, MUFS)
  {
    Tables(PutFiles(Metas(s.files)), PutDirs(s.dirs))
  }

  // ---------------------------------------------------------------- agreement

  /** Equal but for the access time, which reads update in memory only. */
  predicate SameMeta(a: FileMeta, b: FileMeta) { a == b.(atime := a.atime) }

  predicate TablesAgree(s: Fs, d: Image)
    requires Shaped(s) && Big(d)
  {
    && !Pending(d, MUFS)
    && (forall i | 0 <= i < FILE_SLOTS :: SameMeta(GetFile(FileSlot(Home(d, MUFS).meta, i)), s.files[i].m))
    && (forall i | 0 <= i < DIR_SLOTS :: GetDir(DirSlot(Home(d, MUFS).dir, i)) == s.dirs[i])
  }

  /** The file's bytes are on disk. */
  predicate BodyAgrees(f: File, d: Image, i: nat)
    requires Big(d) && i < FILE_SLOTS && f.m.size <= MAX_SIZE
  {
    f.m.used != 0 ==> d[SlotAt(i)..SlotAt(i) + f.m.size] == f.data[..f.m.size]
  }

  predicate Sizes(s: Fs) { forall i | 0 <= i < |s.files| :: s.files[i].m.size <= MAX_SIZE }

  predicate Agrees(s: Fs, d: Image) {
    && Shaped(s) && Sizes(s) && Big(d) && TablesAgree(s, d)
    && forall i | 0 <= i < FILE_SLOTS :: BodyAgrees(s.files[i], d, i)
  }

  // ---------------------------------------------------------------- writing through

  /** persist_meta */
  function SyncMeta(s: Fs, d: Image, gen: seq<Byte>): (r: Image)
    requires Shaped(s) && Big(d) && |gen| == 4
    ensures |r| == |d|
  {
    CommitWithin(d, MUFS, TablesOf(s), gen);
    Run(d, Commit(MUFS, TablesOf(s), gen))
  }

  lemma {:induction false} RunBelow(d: Image, plan: seq<Request>, a: nat)
    requires AllWithin(d, plan) && a <= |d| && forall i | 0 <= i < |plan| :: plan[i].off + |plan[i].data| <= a
    ensures Run(d, plan)[a..] == d[a..]
    decreases |plan|
  {
    if |plan| > 0 {
      RunBelow(Apply(d, plan[0]), plan[1..], a);
      assert Apply(d, plan[0])[a..] == d[a..];
    }
  }

  lemma SyncMetaDone(s: Fs, d: Image, gen: seq<Byte>)
    requires Shaped(s) && Big(d) && |gen| == 4
    ensures TablesAgree(s, SyncMeta(s, d, gen)) && SyncMeta(s, d, gen)[DATA_AT..] == d[DATA_AT..]
  {
    var t := TablesOf(s);
    var e := SyncMeta(s, d, gen);
    MufsSound();
    CommitWithin(d, MUFS, t, gen);
    CommitDone(d, MUFS, t, gen);
    RunBelow(d, Commit(MUFS, t, gen), DATA_AT);
    forall i | 0 <= i < FILE_SLOTS
      ensures GetFile(FileSlot(Home(e, MUFS).meta, i)) == s.files[i].m && GetDir(DirSlot(Home(e, MUFS).dir, i)) == s.dirs[i]
    {
      TableRoundTrip(Metas(s.files), s.dirs, i);
    }
  }

  /** Size rounded up to whole sectors. */
  function RoundUp(n: nat): (r: nat)
    ensures n <= r < n + SECTOR && r % SECTOR == 0
    ensures n <= MAX_SIZE ==> r <= MAX_SIZE
  {
    (n + SECTOR - 1) / SECTOR * SECTOR
  }

  function RoundDown(n: nat): (r: nat)
    ensures r <= n < r + SECTOR && r % SECTOR == 0
  {
    n / SECTOR * SECTOR
  }

  lemma SlotFits(i: nat, off: nat, n: nat)
    requires i < FILE_SLOTS && off + n <= MAX_SIZE
    ensures SlotAt(i) + off + n <= DISK_BYTES
  {
  }

  /** persist_slot */
  function SyncBody(f: File, d: Image, i: nat): (r: Image)
    requires Big(d) && i < FILE_SLOTS && f.m.size <= MAX_SIZE
    ensures |r| == |d|
  {
    SlotFits(i, 0, RoundUp(f.m.size));
    Splice(d, SlotAt(i), f.data[..RoundUp(f.m.size)])
  }

  /** persist_slot_range */
  function SyncRange(f: File, d: Image, i: nat, off: nat, len: nat): (r: Image)
    requires Big(d) && i < FILE_SLOTS && off + len <= MAX_SIZE
    ensures |r| == |d|
  {
    if len == 0 then d
    else
      SlotFits(i, RoundDown(off), RoundUp(off + len) - RoundDown(off));
      Splice(d, SlotAt(i) + RoundDown(off), f.data[RoundDown(off)..RoundUp(off + len)])
  }

  /** A write inside slot `i` leaves the tables and every other slot. */
  lemma SlotWrite(s: Fs, d: Image, i: nat, off: nat, data: seq<Byte>, e: Image)
    requires Shaped(s) && Sizes(s) && Big(d) && i < FILE_SLOTS && off + |data| <= MAX_SIZE
    requires SlotAt(i) + off + |data| <= |d| && e == Splice(d, SlotAt(i) + off, data)
    ensures TablesAgree(s, d) ==> TablesAgree(s, e)
    ensures forall j | 0 <= j < FILE_SLOTS && j != i :: BodyAgrees(s.files[j], d, j) ==> BodyAgrees(s.files[j], e, j)
  {
    assert e[..DATA_AT] == d[..DATA_AT];
    TablesBelow(d, e);
    forall j | 0 <= j < FILE_SLOTS && j != i && BodyAgrees(s.files[j], d, j) ensures BodyAgrees(s.files[j], e, j) {
      var n := s.files[j].m.size;
      SlotFits(j, 0, n);
      assert e[SlotAt(j)..SlotAt(j) + n] == d[SlotAt(j)..SlotAt(j) + n];
    }
  }

  lemma TablesBelow(d: Image, e: Image)
    requires Big(d) && |e| == |d| && e[..DATA_AT] == d[..DATA_AT]
    ensures Home(e, MUFS) == Home(d, MUFS) && Header(e, MUFS) == Header(d, MUFS)
  {
    SliceBelow(d, e, MUFS.meta, MUFS.metaLen);
    SliceBelow(d, e, MUFS.dir, MUFS.dirLen);
    SliceBelow(d, e, MUFS.jl, HEADER);
  }

  lemma SliceBelow(d: Image, e: Image, a: nat, n: nat)
    requires |e| == |d| && a + n <= DATA_AT <= |d| && e[..DATA_AT] == d[..DATA_AT]
    ensures e[a..a + n] == d[a..a + n]
  {
    assert e[a..a + n] == e[..DATA_AT][a..a + n];
    assert d[a..a + n] == d[..DATA_AT][a..a + n];
  }

  lemma BodySynced(f: File, d: Image, i: nat)
    requires Big(d) && i < FILE_SLOTS && f.m.size <= MAX_SIZE
    ensures BodyAgrees(f, SyncBody(f, d, i), i)
  {
    SlotFits(i, 0, RoundUp(f.m.size));
    var e := SyncBody(f, d, i);
    assert e[SlotAt(i)..SlotAt(i) + f.m.size] == f.data[..f.m.size];
  }

  /** Slot `i` needs no data written: empty, or its bytes were there already. */
  predicate Settled(f: File, g: File) {
    g.m.used != 0 ==> g.m.size == 0 || (f.m.used != 0 && g.m.size <= f.m.size && g.data == f.data)
  }

  /** Writing the new tables settles every slot but `skip`. */
  lemma MetaStep(s: Fs, t: Fs, d: Image, gen: seq<Byte>, skip: int)
    requires Agrees(s, d) && Shaped(t) && Sizes(t) && |gen| == 4
    requires forall i | 0 <= i < FILE_SLOTS && i != skip :: Settled(s.files[i], t.files[i])
    ensures TablesAgree(t, SyncMeta(t, d, gen))
    ensures forall i | 0 <= i < FILE_SLOTS && i != skip :: BodyAgrees(t.files[i], SyncMeta(t, d, gen), i)
  {
    SyncMetaDone(t, d, gen);
    var e := SyncMeta(t, d, gen);
    forall i | 0 <= i < FILE_SLOTS && i != skip ensures BodyAgrees(t.files[i], e, i) {
      var n := t.files[i].m.size;
      if t.files[i].m.used != 0 && n > 0 {
        assert BodyAgrees(s.files[i], d, i);
        BodyStays(s.files[i], d, e, i, n);
      }
    }
  }

  lemma BodyStays(f: File, d: Image, e: Image, i: nat, n: nat)
    requires Big(d) && |e| == |d| && e[DATA_AT..] == d[DATA_AT..] && i < FILE_SLOTS && n <= f.m.size <= MAX_SIZE
    requires f.m.used != 0 && BodyAgrees(f, d, i)
    ensures SlotAt(i) + n <= |e| && e[SlotAt(i)..SlotAt(i) + n] == f.data[..n]
  {
    SlotFits(i, 0, f.m.size);
    var a, m := SlotAt(i), f.m.size;
    forall k | 0 <= k < n ensures e[a + k] == f.data[k] {
      assert e[a + k] == e[DATA_AT..][a + k - DATA_AT] && d[a + k] == d[DATA_AT..][a + k - DATA_AT];
      assert d[a..a + m][k] == f.data[..m][k];
    }
  }

  /** Tables, then the whole body of slot `i`: everything agrees. */
  lemma BodyStep(s: Fs, t: Fs, d: Image, gen: seq<Byte>, i: nat)
    requires Agrees(s, d) && Shaped(t) && Sizes(t) && |gen| == 4 && i < FILE_SLOTS
    requires forall j | 0 <= j < FILE_SLOTS && j != i :: Settled(s.files[j], t.files[j])
    ensures Agrees(t, SyncBody(t.files[i], SyncMeta(t, d, gen), i))
  {
    MetaStep(s, t, d, gen, i);
    var e := SyncMeta(t, d, gen);
    SlotFits(i, 0, RoundUp(t.files[i].m.size));
    BodySynced(t.files[i], e, i);
    SlotWrite(t, e, i, 0, t.files[i].data[..RoundUp(t.files[i].m.size)], SyncBody(t.files[i], e, i));
  }

  // ---------------------------------------------------------------- writes past the end

  /** The bytes of slot `i` between the old and the new end that the write did not send to disk are there. */
  predicate GapClean(f: File, d: Image, i: nat, off: nat, n: nat)
    requires Big(d) && i < FILE_SLOTS && f.m.size <= MAX_SIZE && off + n <= MAX_SIZE
  {
    var end := if n == 0 then off else RoundDown(off);
    f.m.size < end ==> (SlotFits(i, f.m.size, end - f.m.size);
                        d[SlotAt(i) + f.m.size..SlotAt(i) + end] == f.data[f.m.size..end])
  }

  /** The file after fs_write_at. */
  function Wrote(f: File, off: nat, data: seq<Byte>, now: Word): (g: File)
    requires off + |data| <= MAX_SIZE
  {
    f.(data := Patched(f.data, off, data),
       m := f.m.(size := if off + |data| > f.m.size then off + |data| else f.m.size, mtime := now, ctime := now))
  }

  /** Byte `k` of the body after the range is written. */
  lemma RangeAt(f: File, d: Image, i: nat, off: nat, data: seq<Byte>, now: Word, k: nat)
    requires Big(d) && i < FILE_SLOTS && f.m.size <= MAX_SIZE && f.m.used != 0 && off + |data| <= MAX_SIZE
    requires (k < f.m.size ==> SlotAt(i) + k < |d| && d[SlotAt(i) + k] == f.data[k]) && k < Wrote(f, off, data, now).m.size
    ensures var g := Wrote(f, off, data, now);
            var e := SyncRange(g, d, i, off, |data|);
            && SlotAt(i) + k < |e|
            && if f.m.size <= k < (if |data| == 0 then off else RoundDown(off)) then e[SlotAt(i) + k] == d[SlotAt(i) + k] && g.data[k] == f.data[k]
               else e[SlotAt(i) + k] == g.data[k]
  {
    SlotFits(i, k, 1);
  }

  /** After the range is written, the body agrees exactly when no stale gap was exposed. */
  lemma RangeSynced(f: File, d: Image, i: nat, off: nat, data: seq<Byte>, now: Word)
    requires Big(d) && i < FILE_SLOTS && f.m.size <= MAX_SIZE && f.m.used != 0 && off + |data| <= MAX_SIZE
    requires BodyAgrees(f, d, i)
    ensures var g := Wrote(f, off, data, now);
            BodyAgrees(g, SyncRange(g, d, i, off, |data|), i) <==> GapClean(f, d, i, off, |data|)
  {
    var g := Wrote(f, off, data, now);
    var e := SyncRange(g, d, i, off, |data|);
    var a, end := SlotAt(i), if |data| == 0 then off else RoundDown(off);
    SlotFits(i, 0, g.m.size);
    BodyPointwise(f, d, i);
    forall k | 0 <= k < g.m.size
      ensures if f.m.size <= k < end then e[a + k] == d[a + k] && g.data[k] == f.data[k] else e[a + k] == g.data[k]
    {
      RangeAt(f, d, i, off, data, now, k);
    }
    BodyPointwise(g, e, i);
    if f.m.size < end {
      SlotFits(i, f.m.size, end - f.m.size);
      GapPointwise(f, d, i, end);
    }
  }

  lemma BodyPointwise(f: File, d: Image, i: nat)
    requires Big(d) && i < FILE_SLOTS && f.m.size <= MAX_SIZE && f.m.used != 0
    ensures SlotAt(i) + f.m.size <= |d|
    ensures BodyAgrees(f, d, i) <==> forall k | 0 <= k < f.m.size :: d[SlotAt(i) + k] == f.data[k]
  {
    SlotFits(i, 0, f.m.size);
    var x, y := d[SlotAt(i)..SlotAt(i) + f.m.size], f.data[..f.m.size];
    assert forall k | 0 <= k < f.m.size :: x[k] == d[SlotAt(i) + k] && y[k] == f.data[k];
  }

  lemma GapPointwise(f: File, d: Image, i: nat, end: nat)
    requires Big(d) && i < FILE_SLOTS && f.m.size < end <= MAX_SIZE && SlotAt(i) + end <= |d|
    ensures d[SlotAt(i) + f.m.size..SlotAt(i) + end] == f.data[f.m.size..end] <==>
            forall k | f.m.size <= k < end :: d[SlotAt(i) + k] == f.data[k]
  {
    var x, y := d[SlotAt(i) + f.m.size..SlotAt(i) + end], f.data[f.m.size..end];
    assert forall k | f.m.size <= k < end :: x[k - f.m.size] == d[SlotAt(i) + k] && y[k - f.m.size] == f.data[k];
  }

  /** Tables, then the touched sectors of slot `i`: all but that slot's body is settled. */
  lemma RangeOthers(s: Fs, d: Image, gen: seq<Byte>, i: nat, g: File, off: nat, len: nat)
    requires Agrees(s, d) && |gen| == 4 && i < FILE_SLOTS && g.m.size <= MAX_SIZE && off + len <= MAX_SIZE
    ensures var t := SetFile(s, i, g);
            var e := SyncRange(g, SyncMeta(t, d, gen), i, off, len);
            && Shaped(t) && Sizes(t) && Big(e) && TablesAgree(t, e)
            && forall j | 0 <= j < FILE_SLOTS && j != i :: BodyAgrees(t.files[j], e, j)
  {
    var t := SetFile(s, i, g);
    MetaStep(s, t, d, gen, i);
    RangeWrite(t, SyncMeta(t, d, gen), i, off, len);
  }

  lemma RangeWrite(t: Fs, d: Image, i: nat, off: nat, len: nat)
    requires Shaped(t) && Sizes(t) && Big(d) && i < FILE_SLOTS && off + len <= MAX_SIZE
    ensures var e := SyncRange(t.files[i], d, i, off, len);
            && (TablesAgree(t, d) ==> TablesAgree(t, e))
            && forall j | 0 <= j < FILE_SLOTS && j != i :: BodyAgrees(t.files[j], d, j) ==> BodyAgrees(t.files[j], e, j)
  {
    if len > 0 {
      var a, b := RoundDown(off), RoundUp(off + len);
      SlotFits(i, a, b - a);
      SlotWrite(t, d, i, a, t.files[i].data[a..b], SyncRange(t.files[i], d, i, off, len));
    }
  }

  lemma RangeBody(s: Fs, d: Image, gen: seq<Byte>, i: nat, off: nat, data: seq<Byte>, now: Word)
    requires Agrees(s, d) && |gen| == 4 && InUse(s, i) && off + |data| <= MAX_SIZE
    ensures var g := Wrote(s.files[i], off, data, now);
            var t := SetFile(s, i, g);
            && Shaped(t)
            && (BodyAgrees(g, SyncRange(g, SyncMeta(t, d, gen), i, off, |data|), i) <==> GapClean(s.files[i], d, i, off, |data|))
  {
    var f := s.files[i];
    var t := SetFile(s, i, Wrote(f, off, data, now));
    SyncMetaDone(t, d, gen);
    var e := SyncMeta(t, d, gen);
    assert BodyAgrees(f, d, i);
    BodyStays(f, d, e, i, f.m.size);
    RangeSynced(f, e, i, off, data, now);
    GapStays(f, d, e, i, off, |data|);
  }

  /** After fs_write_at disk and memory agree exactly when the write exposed no stale gap. */
  lemma RangeStep(s: Fs, d: Image, gen: seq<Byte>, i: nat, off: nat, data: seq<Byte>, now: Word)
    requires Agrees(s, d) && |gen| == 4 && InUse(s, i) && off + |data| <= MAX_SIZE
    ensures var g := Wrote(s.files[i], off, data, now);
            var t := SetFile(s, i, g);
            && Shaped(t)
            && (Agrees(t, SyncRange(g, SyncMeta(t, d, gen), i, off, |data|)) <==> GapClean(s.files[i], d, i, off, |data|))
  {
    var g := Wrote(s.files[i], off, data, now);
    RangeOthers(s, d, gen, i, g, off, |data|);
    RangeBody(s, d, gen, i, off, data, now);
    var t := SetFile(s, i, g);
    AllButOne(t, SyncRange(g, SyncMeta(t, d, gen), i, off, |data|), i);
  }

  lemma AllButOne(t: Fs, e: Image, i: nat)
    requires Shaped(t) && Sizes(t) && Big(e) && TablesAgree(t, e) && i < FILE_SLOTS
    requires forall j | 0 <= j < FILE_SLOTS && j != i :: BodyAgrees(t.files[j], e, j)
    ensures Agrees(t, e) <==> BodyAgrees(t.files[i], e, i)
  {
  }

  lemma GapStays(f: File, d: Image, e: Image, i: nat, off: nat, n: nat)
    requires Big(d) && |e| == |d| && e[DATA_AT..] == d[DATA_AT..] && i < FILE_SLOTS && f.m.size <= MAX_SIZE && off + n <= MAX_SIZE
    ensures GapClean(f, e, i, off, n) <==> GapClean(f, d, i, off, n)
  {
    var end := if n == 0 then off else RoundDown(off);
    if f.m.size < end {
      SlotFits(i, f.m.size, end - f.m.size);
      var a, b := SlotAt(i) + f.m.size, SlotAt(i) + end;
      assert e[a..b] == e[DATA_AT..][a - DATA_AT..b - DATA_AT];
      assert d[a..b] == d[DATA_AT..][a - DATA_AT..b - DATA_AT];
    }
  }
}
