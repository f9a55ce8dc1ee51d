/**
 A crash inside a whole MuFS operation, at any sector of its table commit or of the body it writes
 afterwards, followed by any number of interrupted mounts and one that completes.
 */
module MufsCrash {
  import opened Sectors
  import opened Journal
  import opened MufsJournal
  import opened Records
  import opened Paths
  import opened Namespace
  import opened Mufs
  import opened MufsTree
  import opened MufsDisk
  import opened MufsRuns

  // ---------------------------------------------------------------- what an operation writes

  /** What an operation leaves in memory, and whether it commits the tables and then writes part of a body. */
  datatype Effect =
    | Quiet(t: Fs)
    | Commits(t: Fs)
    | Writes(t: Fs, slot: nat, q: Request)

  function BodyRequest(f: File, i: nat): (q: Request)
    requires f.m.size <= MAX_SIZE
  {
    Request(SlotAt(i), f.data[..RoundUp(f.m.size)])
  }

  function RangeRequest(f: File, i: nat, off: nat, len: nat): (q: Request)
    requires 0 < len && off + len <= MAX_SIZE
  {
    Request(SlotAt(i) + RoundDown(off), f.data[RoundDown(off)..RoundUp(off + len)])
  }

  function IfDone(s: Fs, r: (Fs, int)): (x: Effect) { if r.1 < 0 then Quiet(s) else Commits(r.0) }

  function EffectOf(v: Vol, op: Op, now: Word): (x: Effect)
    requires Ready(v)
  {
    match op
    case OpCreate(p) =>
      var (t, r) := Create(v.s, p, now); if r < 0 then Quiet(v.s) else Writes(t, r, BodyRequest(t.files[r], r))
    case OpMkdir(p) => IfDone(v.s, Mkdir(v.s, p))
    case OpRmdir(p) => IfDone(v.s, Rmdir(v.s, p))
    case OpDelete(p) => IfDone(v.s, Delete(v.s, p, now))
    case OpRef(i) => Quiet(Ref(v.s, i).0)
    case OpUnref(i) =>
      var t := Mufs.Unref(v.s, i).0; if InUse(v.s, i) && !InUse(t, i) then Commits(t) else Quiet(t)
    case OpRename(i, p) => IfDone(v.s, Rename(v.s, i, p, now))
    case OpRenameDir(p, q) => IfDone(v.s, RenameDir(v.s, p, q, now))
    case OpWrite(i, data) =>
      var (t, r) := Write(v.s, i, data, now); if r < 0 then Quiet(v.s) else Writes(t, i, BodyRequest(t.files[i], i))
    case OpWriteAt(i, off, data) =>
      var (t, r) := WriteAt(v.s, i, off, data, now);
      if r < 0 then Quiet(v.s) else if r == 0 then Commits(t) else Writes(t, i, RangeRequest(t.files[i], i, off, r))
    case OpTruncate(i, len) =>
      var (t, r) := Truncate(v.s, i, len, now); if r < 0 then Quiet(v.s) else Writes(t, i, BodyRequest(t.files[i], i))
    case OpRead(i, off, len) => Quiet(ReadAt(v.s, i, off, len, now).0)
    case OpAttr(i, m) => IfDone(v.s, SetAttr(v.s, i, m))
  }

  /** A write inside slot `i` of the data area. */
  predicate InSlot(q: Request, i: nat) { i < FILE_SLOTS && SlotAt(i) <= q.off && q.off + |q.data| <= SlotAt(i) + MAX_SIZE }

  /** Volume `w` is `v` after the writes of `x`. */
  predicate Performs(v: Vol, x: Effect, w: Vol)
    requires Big(v.d) && |v.gen| == 4
  {
    && w.s == x.t && w.gen == v.gen && Shaped(x.t)
    && match x {
         case Quiet(_) => w.d == v.d
         case Commits(t) => w.d == SyncMeta(t, v.d, v.gen)
         case Writes(t, i, q) =>
           InSlot(q, i) && Within(SyncMeta(t, v.d, v.gen), q) && w.d == Apply(SyncMeta(t, v.d, v.gen), q)
       }
  }

  lemma DoneIs(v: Vol, r: (Fs, int))
    requires Ready(v) && Shaped(r.0)
    ensures Performs(v, IfDone(v.s, r), StepMeta(v, r.0, r.1))
  {
  }

  lemma BodyIs(v: Vol, t: Fs, i: nat)
    requires Ready(v) && Shaped(t) && Sizes(t) && i < FILE_SLOTS
    ensures Performs(v, Writes(t, i, BodyRequest(t.files[i], i)), WithBody(v, t, i))
  {
    SlotFits(i, 0, RoundUp(t.files[i].m.size));
  }

  lemma RangeIs(v: Vol, t: Fs, i: nat, off: nat, len: nat)
    requires Ready(v) && Shaped(t) && i < FILE_SLOTS && 0 < len && off + len <= MAX_SIZE
    ensures Performs(v, Writes(t, i, RangeRequest(t.files[i], i, off, len)),
                     Vol(t, SyncRange(t.files[i], SyncMeta(t, v.d, v.gen), i, off, len), v.gen))
  {
    SlotFits(i, RoundDown(off), RoundUp(off + len) - RoundDown(off));
  }

  lemma CreateIs(v: Vol, p: Path, now: Word)
    requires Ready(v)
    ensures Performs(v, EffectOf(v, OpCreate(p), now), StepCreate(v, p, now))
  {
    CreateKeeps(v.s, p, now);
    var (t, r) := Create(v.s, p, now);
    if r >= 0 {
      FsSizes(t);
      BodyIs(v, t, r);
    }
  }

  lemma WriteIs(v: Vol, i: int, data: seq<Byte>, now: Word)
    requires Ready(v)
    ensures Performs(v, EffectOf(v, OpWrite(i, data), now), StepWrite(v, i, data, now))
  {
    FsSizes(v.s);
    if InUse(v.s, i) {
      BodyIs(v, Write(v.s, i, data, now).0, i);
    }
  }

  lemma WriteAtIs(v: Vol, i: int, off: nat, data: seq<Byte>, now: Word)
    requires Ready(v)
    ensures Performs(v, EffectOf(v, OpWriteAt(i, off, data), now), StepWriteAt(v, i, off, data, now))
  {
    var (t, r) := WriteAt(v.s, i, off, data, now);
    if r > 0 {
      RangeIs(v, t, i, off, r);
    }
  }

  lemma TruncateIs(v: Vol, i: int, len: nat, now: Word)
    requires Ready(v)
    ensures Performs(v, EffectOf(v, OpTruncate(i, len), now), StepTruncate(v, i, len, now))
  {
    FsSizes(v.s);
    var (t, r) := Truncate(v.s, i, len, now);
    if r >= 0 {
      BodyIs(v, t, i);
    }
  }

  /** Operations that write no body. */
  lemma NamesIs(v: Vol, op: Op, now: Word)
    requires Ready(v) && !(op.OpCreate? || op.OpWrite? || op.OpWriteAt? || op.OpTruncate?)
    ensures Performs(v, EffectOf(v, op, now), Step(v, op, now))
  {
    match op
    case OpMkdir(p) => DoneIs(v, Mkdir(v.s, p));
    case OpRmdir(p) => DoneIs(v, Rmdir(v.s, p));
    case OpDelete(p) => DoneIs(v, Delete(v.s, p, now));
    case OpRename(i, p) => DoneIs(v, Rename(v.s, i, p, now));
    case OpRenameDir(p, q) => DoneIs(v, RenameDir(v.s, p, q, now));
    case OpAttr(i, m) => DoneIs(v, SetAttr(v.s, i, m));
    case _ =>
  }

  /** The effect of an operation is what its step writes. */
  lemma EffectIs(v: Vol, op: Op, now: Word)
    requires Ready(v)
    ensures Performs(v, EffectOf(v, op, now), Step(v, op, now))
  {
    match op
    case OpCreate(p) => CreateIs(v, p, now);
    case OpMkdir(_) => NamesIs(v, op, now);
    case OpRmdir(_) => NamesIs(v, op, now);
    case OpDelete(_) => NamesIs(v, op, now);
    case OpRef(_) => NamesIs(v, op, now);
    case OpUnref(_) => NamesIs(v, op, now);
    case OpRename(_, _) => NamesIs(v, op, now);
    case OpRenameDir(_, _) => NamesIs(v, op, now);
    case OpWrite(i, data) => WriteIs(v, i, data, now);
    case OpWriteAt(i, off, data) => WriteAtIs(v, i, off, data, now);
    case OpTruncate(i, len) => TruncateIs(v, i, len, now);
    case OpRead(_, _, _) => NamesIs(v, op, now);
    case OpAttr(_, _) => NamesIs(v, op, now);
  }

  // ---------------------------------------------------------------- where it may stop

  /** `e` is the disk when the operation stopped anywhere. */
  ghost predicate Stops(v: Vol, x: Effect, e: Image)
    requires Big(v.d) && |v.gen| == 4
  {
    && Shaped(x.t)
    && match x {
         case Quiet(_) => e == v.d
         case Commits(t) => StopsCommit(v, t, e)
         case Writes(t, _, q) => StopsCommit(v, t, e) || Cut(SyncMeta(t, v.d, v.gen), q, e)
       }
  }

  ghost predicate StopsCommit(v: Vol, t: Fs, e: Image)
    requires Big(v.d) && |v.gen| == 4 && Shaped(t)
  {
    CommitWithin(v.d, MUFS, TablesOf(t), v.gen);
    Crash(v.d, Commit(MUFS, TablesOf(t), v.gen), e)
  }

  /** The tables hold file slots 0 to 14 and the directories of `s`. */
  predicate Names15(h: Tables, s: Fs)
    requires Fits(h, MUFS) && Shaped(s)
  {
    && (forall i | 0 <= i < FILE_SLOTS - 1 :: SameMeta(GetFile(FileSlot(h.meta, i)), s.files[i].m))
    && (forall i | 0 <= i < DIR_SLOTS :: GetDir(DirSlot(h.dir, i)) == s.dirs[i])
  }

  lemma {:induction false} TablesAre(s: Fs, h: Tables)
    requires Shaped(s) && Fits(h, MUFS) && h.dir == TablesOf(s).dir
    requires forall i | 0 <= i < FILE_SLOTS - 1 :: FileSlot(h.meta, i) == FileSlot(TablesOf(s).meta, i)
    ensures Names15(h, s)
  {
    forall i | 0 <= i < FILE_SLOTS - 1 ensures SameMeta(GetFile(FileSlot(h.meta, i)), s.files[i].m) {
      TableRoundTrip(Metas(s.files), s.dirs, i);
    }
    forall i | 0 <= i < DIR_SLOTS ensures GetDir(DirSlot(h.dir, i)) == s.dirs[i] {
      TableRoundTrip(Metas(s.files), s.dirs, i);
    }
  }

  /** A torn write to a body leaves the tables and the journal header. */
  lemma CutTables(d: Image, q: Request, i: nat, e: Image)
    requires Big(d) && InSlot(q, i) && Cut(d, q, e)
    ensures |e| == |d| && Home(e, MUFS) == Home(d, MUFS) && Header(e, MUFS) == Header(d, MUFS)
  {
    CutOutside(d, q, e, MUFS.meta, MUFS.metaLen);
    CutOutside(d, q, e, MUFS.dir, MUFS.dirLen);
    CutOutside(d, q, e, MUFS.jl, HEADER);
  }

  /** Whatever stops the operation, the mount that completes reads the old names or the new ones. */
  lemma TablesOldOrNew(v: Vol, x: Effect, es: seq<Image>)
    requires VolOk(v) && (x.Writes? ==> InSlot(x.q, x.slot))
    requires Restarts(MUFS, es) && Stops(v, x, es[0])
    ensures Names15(Recovered(es[|es| - 1], MUFS), v.s) || Names15(Recovered(es[|es| - 1], MUFS), x.t)
  {
    MufsSound();
    RestartsRecover(MUFS, es, |es| - 1);
    if x.Quiet? {
      RecoveredIs(v.d, MUFS);
    } else if StopsCommit(v, x.t, es[0]) {
      CommitOldOrNew(v, x.t, es);
    } else {
      var d := SyncMeta(x.t, v.d, v.gen);
      SyncMetaDone(x.t, v.d, v.gen);
      CutTables(d, x.q, x.slot, es[0]);
      RecoveredIs(es[0], MUFS);
    }
  }

  lemma CommitOldOrNew(v: Vol, t: Fs, es: seq<Image>)
    requires VolOk(v) && Shaped(t) && Restarts(MUFS, es) && StopsCommit(v, t, es[0])
    ensures Names15(Recovered(es[|es| - 1], MUFS), v.s) || Names15(Recovered(es[|es| - 1], MUFS), t)
  {
    CommitWithin(v.d, MUFS, TablesOf(t), v.gen);
    MufsAtomic(v.d, TablesOf(t), v.gen, es);
    var r := Recovered(es[|es| - 1], MUFS);
    if r != Home(v.d, MUFS) {
      TablesAre(t, r);
    }
  }

  // ---------------------------------------------------------------- the bodies of other slots

  /** A crash of writes below `a` leaves everything from `a` on. */
  lemma {:induction false} CrashBelow(d: Image, plan: seq<Request>, e: Image, a: nat)
    requires AllWithin(d, plan) && a <= |d| && Crash(d, plan, e)
    requires forall i | 0 <= i < |plan| :: plan[i].off + |plan[i].data| <= a
    ensures |e| == |d| && e[a..] == d[a..]
    decreases |plan|
  {
    if |plan| > 0 {
      if Cut(d, plan[0], e) {
        CutOutside(d, plan[0], e, a, |d| - a);
      } else {
        CrashBelow(Apply(d, plan[0]), plan[1..], e, a);
        ApplyOutside(d, plan[0], a, |d| - a);
      }
    }
  }

  /** Neither a crashed replay nor one that completes touches the data area. */
  lemma MountData(d: Image)
    requires Big(d)
    ensures Mount(d, MUFS)[DATA_AT..] == d[DATA_AT..]
  {
    ReplayWithin(d, MUFS);
    RunBelow(d, Replay(d, MUFS), DATA_AT);
  }

  lemma {:induction false} RestartsData(es: seq<Image>, i: nat)
    requires Restarts(MUFS, es) && i < |es| && Big(es[0])
    ensures |es[i]| == |es[0]| && es[i][DATA_AT..] == es[0][DATA_AT..]
    decreases i
  {
    if i > 0 {
      RestartsData(es, i - 1);
      assert Restart(MUFS, es[i - 1], es[i - 1 + 1]);
      CrashBelow(es[i - 1], Replay(es[i - 1], MUFS), es[i], DATA_AT);
    }
  }

  /** The slot whose body the operation may have torn. */
  predicate Torn1(x: Effect, j: nat) { x.Writes? && x.slot == j }

  /** Every other slot keeps its bytes. */
  lemma StopData(v: Vol, x: Effect, e: Image, j: nat)
    requires Big(v.d) && |v.gen| == 4 && (x.Writes? ==> InSlot(x.q, x.slot)) && Stops(v, x, e)
    requires j < FILE_SLOTS && !Torn1(x, j)
    ensures |e| == |v.d| && e[SlotAt(j)..SlotAt(j) + MAX_SIZE] == v.d[SlotAt(j)..SlotAt(j) + MAX_SIZE]
  {
    if !x.Quiet? {
      CommitWithin(v.d, MUFS, TablesOf(x.t), v.gen);
      if StopsCommit(v, x.t, e) {
        CrashBelow(v.d, Commit(MUFS, TablesOf(x.t), v.gen), e, DATA_AT);
        TailPart(v.d, e, j);
      } else {
        var d := SyncMeta(x.t, v.d, v.gen);
        SyncMetaDone(x.t, v.d, v.gen);
        TailPart(v.d, d, j);
        SlotsApart(x.q, x.slot, j);
        CutOutside(d, x.q, e, SlotAt(j), MAX_SIZE);
      }
    }
  }

  lemma TailPart(d: Image, e: Image, j: nat)
    requires Big(d) && |e| == |d| && e[DATA_AT..] == d[DATA_AT..] && j < FILE_SLOTS
    ensures e[SlotAt(j)..SlotAt(j) + MAX_SIZE] == d[SlotAt(j)..SlotAt(j) + MAX_SIZE]
  {
    SlotFits(j, 0, MAX_SIZE);
    forall k | SlotAt(j) <= k < SlotAt(j) + MAX_SIZE ensures e[k] == d[k] {
      assert e[k] == e[DATA_AT..][k - DATA_AT];
    }
  }

  lemma SlotsApart(q: Request, i: nat, j: nat)
    requires InSlot(q, i) && j < FILE_SLOTS && i != j
    ensures Apart(q.off, |q.data|, SlotAt(j), MAX_SIZE)
  {
  }

  // ---------------------------------------------------------------- the remount

  /** The remounted file system has the directories of `s` and its file slots 0 to 14. */
  predicate Reads(r: Fs, s: Fs) {
    Shaped(r) && Shaped(s) && r.dirs == s.dirs && forall i | 0 <= i < FILE_SLOTS - 1 :: SameMeta(r.files[i].m, s.files[i].m)
  }

  lemma RemountReads(d: Image, ram: Fs, s: Fs)
    requires Big(d) && Shaped(ram) && FsOk(s) && Names15(Recovered(d, MUFS), s)
    ensures Reads(Remount(d, ram), s)
  {
    var r := Remount(d, ram);
    forall i | 0 <= i < FILE_SLOTS - 1 ensures SameMeta(r.files[i].m, s.files[i].m) {
      assert SlotOk(s.files[i].m);
      LoadedMeta(s.files[i].m, GetFile(FileSlot(Recovered(d, MUFS).meta, i)), Mount(d, MUFS), i, ram.files[i].data);
    }
    forall i | 0 <= i < DIR_SLOTS ensures r.dirs[i] == s.dirs[i] {
      assert s.dirs[i].name[NAME - 1 := 0] == s.dirs[i].name;
    }
  }

  lemma LoadedMeta(m: FileMeta, r: FileMeta, d: Image, i: nat, ram: Body)
    requires Big(d) && i < FILE_SLOTS && SlotOk(m) && SameMeta(r, m)
    ensures SameMeta(Loaded(r, d, i, ram).m, m)
  {
    assert r.name[NAME - 1 := 0] == m.name;
  }

  /** Slot `j` is in use on both sides: it reads back with its size and its bytes. */
  predicate KeptBody(r: Fs, s: Fs, j: nat)
    requires j < |r.files| && j < |s.files|
  {
    r.files[j].m.used != 0 && s.files[j].m.used != 0 ==>
      && r.files[j].m.size == s.files[j].m.size <= MAX_SIZE
      && r.files[j].data[..s.files[j].m.size] == s.files[j].data[..s.files[j].m.size]
  }

  /** The slot whose contents the operation is about. */
  predicate Target(v: Vol, op: Op, now: Word, j: nat)
    requires Ready(v)
  {
    Torn1(EffectOf(v, op, now), j) || (op.OpWriteAt? && op.slot == j)
  }

  /** A slot in use before and after keeps its size, unless its contents are what the operation is about. */
  lemma OtherSlots(v: Vol, op: Op, now: Word, j: nat, t: Fs)
    requires Ready(v) && j < FILE_SLOTS && !Target(v, op, now, j)
    requires t == EffectOf(v, op, now).t && Shaped(t) && v.s.files[j].m.used != 0 && t.files[j].m.used != 0
    ensures t.files[j].m.size == v.s.files[j].m.size
  {
  }

  lemma StepFsOk(v: Vol, op: Op, now: Word)
    requires VolOk(v)
    ensures FsOk(Step(v, op, now).s)
  {
    StepKeepsIff(v, op, now);
    if op.OpWriteAt? && InUse(v.s, op.slot) && op.off < MAX_SIZE {
      WriteAtIff(v, op.slot, op.off, op.data, now);
    }
  }

  lemma KeptLoaded(f: File, d: Image, e: Image, j: nat, m: FileMeta, ram: Body)
    requires Big(d) && |e| == |d| && j < FILE_SLOTS && f.m.used != 0 && f.m.size <= MAX_SIZE && BodyAgrees(f, d, j)
    requires e[SlotAt(j)..SlotAt(j) + MAX_SIZE] == d[SlotAt(j)..SlotAt(j) + MAX_SIZE]
    requires m.used != 0 && Loaded(m, e, j, ram).m.size == f.m.size
    ensures Loaded(m, e, j, ram).data[..f.m.size] == f.data[..f.m.size]
  {
    SlotFits(j, 0, MAX_SIZE);
    var n := f.m.size;
    assert e[SlotAt(j)..SlotAt(j) + n] == e[SlotAt(j)..SlotAt(j) + MAX_SIZE][..n];
    assert d[SlotAt(j)..SlotAt(j) + n] == d[SlotAt(j)..SlotAt(j) + MAX_SIZE][..n];
  }

  /** The disk that is mounted in the end holds the bytes of slot `j` as they were. */
  lemma MountedData(v: Vol, x: Effect, es: seq<Image>, j: nat)
    requires Big(v.d) && |v.gen| == 4 && (x.Writes? ==> InSlot(x.q, x.slot))
    requires Restarts(MUFS, es) && Stops(v, x, es[0]) && j < FILE_SLOTS && !Torn1(x, j)
    ensures var e := es[|es| - 1];
            && |e| == |v.d| && |Mount(e, MUFS)| == |v.d|
            && Mount(e, MUFS)[SlotAt(j)..SlotAt(j) + MAX_SIZE] == v.d[SlotAt(j)..SlotAt(j) + MAX_SIZE]
  {
    StopData(v, x, es[0], j);
    RestartsData(es, |es| - 1);
    TailPart(es[0], es[|es| - 1], j);
    MountData(es[|es| - 1]);
    TailPart(es[|es| - 1], Mount(es[|es| - 1], MUFS), j);
  }

  lemma BodyKept(v: Vol, op: Op, now: Word, es: seq<Image>, ram: Fs, j: nat)
    requires VolOk(v) && Restarts(MUFS, es) && Stops(v, EffectOf(v, op, now), es[0]) && Shaped(ram)
    requires j < FILE_SLOTS - 1 && !Target(v, op, now, j) && |es[|es| - 1]| == |v.d|
    requires Reads(Remount(es[|es| - 1], ram), v.s) || Reads(Remount(es[|es| - 1], ram), EffectOf(v, op, now).t)
    ensures KeptBody(Remount(es[|es| - 1], ram), v.s, j)
  {
    var x, e, f := EffectOf(v, op, now), es[|es| - 1], v.s.files[j];
    var r := Remount(e, ram);
    EffectIs(v, op, now);
    MountedData(v, x, es, j);
    if r.files[j].m.used != 0 && f.m.used != 0 {
      if !Reads(r, v.s) {
        OtherSlots(v, op, now, j, x.t);
      }
      assert BodyAgrees(f, v.d, j);
      KeptLoaded(f, v.d, Mount(e, MUFS), j, GetFile(FileSlot(Recovered(e, MUFS).meta, j)), ram.files[j].data);
    }
  }

  /**
   A crash anywhere inside an operation, then any number of interrupted mounts and one that completes:
   the directories and file slots 0 to 14 are all as before or all as after, and every slot whose contents
   the operation was not about reads back with its bytes.
   */
  lemma CrashThenRemount(v: Vol, op: Op, now: Word, es: seq<Image>, ram: Fs)
    requires VolOk(v) && Shaped(ram) && Restarts(MUFS, es) && Stops(v, EffectOf(v, op, now), es[0])
    ensures Big(es[|es| - 1])
    ensures var r := Remount(es[|es| - 1], ram);
            && (Reads(r, v.s) || Reads(r, Step(v, op, now).s))
            && forall j | 0 <= j < FILE_SLOTS - 1 && !Target(v, op, now, j) :: KeptBody(r, v.s, j)
  {
    var x, e := EffectOf(v, op, now), es[|es| - 1];
    EffectIs(v, op, now);
    StepFsOk(v, op, now);
    StopLength(v, x, es);
    TablesOldOrNew(v, x, es);
    if Names15(Recovered(e, MUFS), v.s) {
      RemountReads(e, ram, v.s);
    } else {
      RemountReads(e, ram, x.t);
    }
    forall j | 0 <= j < FILE_SLOTS - 1 && !Target(v, op, now, j) ensures KeptBody(Remount(e, ram), v.s, j) {
      BodyKept(v, op, now, es, ram, j);
    }
  }

  lemma StopLength(v: Vol, x: Effect, es: seq<Image>)
    requires Big(v.d) && |v.gen| == 4 && (x.Writes? ==> InSlot(x.q, x.slot))
    requires Restarts(MUFS, es) && Stops(v, x, es[0])
    ensures |es[|es| - 1]| == |v.d|
  {
    var j := if x.Writes? && x.slot == 0 then 1 else 0;
    MountedData(v, x, es, j);
  }

  /** The same at any point of any run without stale gaps. */
  lemma RunCrashRemount(vs: seq<Vol>, ops: seq<(Op, Word)>, k: nat, op: Op, now: Word, es: seq<Image>, ram: Fs)
    requires RunOf(vs, ops) && VolOk(vs[0]) && k < |vs| && Shaped(ram)
    requires VolOk(vs[k]) ==> Restarts(MUFS, es) && Stops(vs[k], EffectOf(vs[k], op, now), es[0])
    ensures VolOk(vs[k]) && |es| > 0 && Big(es[|es| - 1])
    ensures var r := Remount(es[|es| - 1], ram);
            && (Reads(r, vs[k].s) || Reads(r, Step(vs[k], op, now).s))
            && forall j | 0 <= j < FILE_SLOTS - 1 && !Target(vs[k], op, now, j) :: KeptBody(r, vs[k].s, j)
  {
    RunKeeps(vs, ops, k);
    EffectIs(vs[k], op, now);
    CrashThenRemount(vs[k], op, now, es, ram);
  }

  // ---------------------------------------------------------------- the slot that may be torn

  lemma FirstDirByte(ds: seq<DirMeta>)
    requires |ds| == DIR_SLOTS
    ensures PutDirs(ds)[..64] == ds[0].name
  {
    PutDirsAt(ds, 0);
    var t := PutDirs(ds);
    assert t[..64] == DirSlot(t, 0)[..64];
    assert PutDir(ds[0])[..64] == ds[0].name;
  }

  /** The end of the file table: the record of an unused slot 15 from its 36th byte on. */
  lemma LastFileByte(fs: seq<FileMeta>)
    requires |fs| == FILE_SLOTS
    ensures PutFiles(fs)[COPY_ROOM] == fs[FILE_SLOTS - 1].name[36]
  {
    PutFilesAt(fs, FILE_SLOTS - 1);
    var t := PutFiles(fs);
    assert t[COPY_ROOM] == FileSlot(t, FILE_SLOTS - 1)[36];
    assert PutFile(fs[FILE_SLOTS - 1])[36] == fs[FILE_SLOTS - 1].name[36];
  }

  /** On a formatted disk, the first mkdir of all: a crash can leave file slot 15 neither old nor new. */
  lemma TornSlot(d: Image, gen: seq<Byte>) returns (v: Vol, t: Fs)
    requires Big(d) && |gen| == 4
    ensures v == Formatted(d, gen) && VolOk(v) && Mkdir(v.s, [97]) == (t, 0) && Shaped(t)
    ensures Step(v, OpMkdir([97]), 0).d == SyncMeta(t, v.d, gen) && AllWithin(v.d, Commit(MUFS, TablesOf(t), gen))
    ensures !Atomic(v.d, MUFS, TablesOf(t), gen)
  {
    v := Formatted(d, gen);
    FormatOk(d, gen);
    t := FirstMkdir();
    CommitWithin(v.d, MUFS, TablesOf(t), gen);
    MufsAtomicIff(v.d, TablesOf(t), gen);
    FirstDirByte(t.dirs);
    LastFileByte(Metas(t.files));
    BlankHome(d, gen);
    var a, b := TablesOf(t).meta[COPY_ROOM..], TablesOf(t).dir[..64];
    assert a[0] == 0 && b[0] == 97;
    assert Home(v.d, MUFS).dir[..64][0] == 0;
  }

  lemma FirstMkdir() returns (t: Fs)
    ensures Mkdir(Blank(), [97]) == (t, 0) && Shaped(t) && t.dirs[0].name[0] == 97
    ensures t.files == Blank().files
  {
    BlankSlots();
    var s := Blank();
    assert Parent([97]) == [];
    t := Mkdir(s, [97]).0;
  }

  lemma BlankHome(d: Image, gen: seq<Byte>)
    requires Big(d) && |gen| == 4
    ensures Home(Formatted(d, gen).d, MUFS) == TablesOf(Blank()) && TablesOf(Blank()).dir[..64] == seq(NAME, _ => 0)
  {
    MufsSound();
    CommitWithin(d, MUFS, TablesOf(Blank()), gen);
    CommitDone(d, MUFS, TablesOf(Blank()), gen);
    FirstDirByte(Blank().dirs);
  }
}
