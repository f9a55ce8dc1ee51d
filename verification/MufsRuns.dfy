/**
 Runs of MuFS operations over a disk: memory and disk stay in agreement, names stay a tree, and a
 remount brings everything back.
 */
module MufsRuns {
  import opened Options
  import opened Sectors
  import opened Journal
  import opened MufsJournal
  import opened Records
  import opened Paths
  import opened Namespace
  import opened Mufs
  import opened MufsTree
  import opened MufsDisk

  /** Memory, disk, and the generation number that goes into the journal header. */
  datatype Vol = Vol(s: Fs, d: Image, gen: seq<Byte>)

  datatype Op =
    | OpCreate(path: Path)
    | OpMkdir(path: Path)
    | OpRmdir(path: Path)
    | OpDelete(path: Path)
    | OpRef(slot: int)
    | OpUnref(slot: int)
    | OpRename(slot: int, path: Path)
    | OpRenameDir(path: Path, to: Path)
    | OpWrite(slot: int, data: seq<Byte>)
    | OpWriteAt(slot: int, off: nat, data: seq<Byte>)
    | OpTruncate(slot: int, len: nat)
    | OpRead(slot: int, off: nat, len: nat)
    | OpAttr(slot: int, meta: FileMeta)

  predicate Ready(v: Vol) { FsOk(v.s) && Big(v.d) && |v.gen| == 4 }

  /** The invariant of a mounted volume. */
  predicate VolOk(v: Vol) { FsOk(v.s) && |v.gen| == 4 && Agrees(v.s, v.d) }

  /** The new memory with its tables written. */
  function WithMeta(v: Vol, t: Fs): (w: Vol)
    requires Shaped(t) && Big(v.d) && |v.gen| == 4
  {
    Vol(t, SyncMeta(t, v.d, v.gen), v.gen)
  }

  /** ... and the body of one slot. */
  function WithBody(v: Vol, t: Fs, i: nat): (w: Vol)
    requires Shaped(t) && Sizes(t) && Big(v.d) && |v.gen| == 4 && i < FILE_SLOTS
  {
    Vol(t, SyncBody(t.files[i], SyncMeta(t, v.d, v.gen), i), v.gen)
  }

  // ---------------------------------------------------------------- single operations

  function StepCreate(v: Vol, path: Path, now: Word): (w: Vol)
    requires Ready(v)
  {
    CreateKeeps(v.s, path, now);
    var (t, r) := Create(v.s, path, now);
    if r < 0 then v else WithBody(v, t, r)
  }

  /** Operations that write the tables when they succeed. */
  function StepMeta(v: Vol, t: Fs, r: int): (w: Vol)
    requires Ready(v) && Shaped(t)
  {
    if r < 0 then v else WithMeta(v, t)
  }

  function StepUnref(v: Vol, i: int): (w: Vol)
    requires Ready(v)
  {
    var t := Mufs.Unref(v.s, i).0;
    if InUse(v.s, i) && !InUse(t, i) then WithMeta(v, t) else v.(s := t)
  }

  function StepWrite(v: Vol, i: int, data: seq<Byte>, now: Word): (w: Vol)
    requires Ready(v)
  {
    var (t, r) := Write(v.s, i, data, now);
    if r < 0 then v else WithBody(v, t, i)
  }

  function StepWriteAt(v: Vol, i: int, off: nat, data: seq<Byte>, now: Word): (w: Vol)
    requires Ready(v)
  {
    var (t, r) := WriteAt(v.s, i, off, data, now);
    if r < 0 then v else Vol(t, SyncRange(t.files[i], SyncMeta(t, v.d, v.gen), i, off, r), v.gen)
  }

  function StepTruncate(v: Vol, i: int, len: nat, now: Word): (w: Vol)
    requires Ready(v)
  {
    var (t, r) := Truncate(v.s, i, len, now);
    if r < 0 then v else WithBody(v, t, i)
  }

  function Step(v: Vol, op: Op, now: Word): (w: Vol)
    requires Ready(v)
  {
    match op
    case OpCreate(p) => StepCreate(v, p, now)
    case OpMkdir(p) => StepMeta(v, Mkdir(v.s, p).0, Mkdir(v.s, p).1)
    case OpRmdir(p) => StepMeta(v, Rmdir(v.s, p).0, Rmdir(v.s, p).1)
    case OpDelete(p) => StepMeta(v, Delete(v.s, p, now).0, Delete(v.s, p, now).1)
    case OpRef(i) => v.(s := Ref(v.s, i).0)
    case OpUnref(i) => StepUnref(v, i)
    case OpRename(i, p) => StepMeta(v, Rename(v.s, i, p, now).0, Rename(v.s, i, p, now).1)
    case OpRenameDir(p, q) => StepMeta(v, RenameDir(v.s, p, q, now).0, RenameDir(v.s, p, q, now).1)
    case OpWrite(i, data) => StepWrite(v, i, data, now)
    case OpWriteAt(i, off, data) => StepWriteAt(v, i, off, data, now)
    case OpTruncate(i, len) => StepTruncate(v, i, len, now)
    case OpRead(i, off, len) => v.(s := ReadAt(v.s, i, off, len, now).0)
    case OpAttr(i, m) => StepMeta(v, SetAttr(v.s, i, m).0, SetAttr(v.s, i, m).1)
  }

  // ---------------------------------------------------------------- each keeps the invariant

  lemma FsSizes(s: Fs)
    requires FsOk(s)
    ensures Sizes(s)
  {
    assert forall i | 0 <= i < FILE_SLOTS :: SlotOk(s.files[i].m);
  }

  lemma MetaKeeps(v: Vol, t: Fs, r: int)
    requires VolOk(v) && FsOk(t) && forall i | 0 <= i < FILE_SLOTS :: Settled(v.s.files[i], t.files[i])
    ensures VolOk(StepMeta(v, t, r))
  {
    FsSizes(t);
    if r >= 0 {
      MetaStep(v.s, t, v.d, v.gen, -1);
    }
  }

  lemma BodyKeeps(v: Vol, t: Fs, i: nat)
    requires VolOk(v) && FsOk(t) && i < FILE_SLOTS
    requires forall j | 0 <= j < FILE_SLOTS && j != i :: Settled(v.s.files[j], t.files[j])
    ensures Sizes(t) && VolOk(WithBody(v, t, i))
  {
    FsSizes(t);
    BodyStep(v.s, t, v.d, v.gen, i);
  }

  /** Memory changes the disk need not hear about. */
  lemma QuietKeeps(v: Vol, t: Fs)
    requires VolOk(v) && FsOk(t) && t.dirs == v.s.dirs
    requires forall i | 0 <= i < FILE_SLOTS :: SameMeta(v.s.files[i].m, t.files[i].m) && t.files[i].data == v.s.files[i].data
    ensures VolOk(v.(s := t))
  {
    FsSizes(t);
    forall i | 0 <= i < FILE_SLOTS
      ensures SameMeta(GetFile(FileSlot(Home(v.d, MUFS).meta, i)), t.files[i].m) && BodyAgrees(t.files[i], v.d, i)
    {
      assert SameMeta(GetFile(FileSlot(Home(v.d, MUFS).meta, i)), v.s.files[i].m);
      assert BodyAgrees(v.s.files[i], v.d, i);
    }
  }

  lemma OneSettled(s: Fs, i: nat, f: File)
    requires Shaped(s) && i < FILE_SLOTS
    ensures forall j | 0 <= j < FILE_SLOTS && j != i :: Settled(s.files[j], SetFile(s, i, f).files[j])
    ensures Settled(s.files[i], f) ==> forall j | 0 <= j < FILE_SLOTS :: Settled(s.files[j], SetFile(s, i, f).files[j])
  {
  }

  lemma CreateOk(v: Vol, path: Path, now: Word)
    requires VolOk(v)
    ensures VolOk(StepCreate(v, path, now))
  {
    CreateKeeps(v.s, path, now);
    var (t, r) := Create(v.s, path, now);
    if r >= 0 {
      OneSettled(v.s, r, t.files[r]);
      BodyKeeps(v, t, r);
    }
  }

  lemma MkdirOk(v: Vol, path: Path)
    requires VolOk(v)
    ensures VolOk(StepMeta(v, Mkdir(v.s, path).0, Mkdir(v.s, path).1))
  {
    MkdirKeeps(v.s, path);
    MetaKeeps(v, Mkdir(v.s, path).0, Mkdir(v.s, path).1);
  }

  lemma RmdirOk(v: Vol, path: Path)
    requires VolOk(v)
    ensures VolOk(StepMeta(v, Rmdir(v.s, path).0, Rmdir(v.s, path).1))
  {
    RmdirKeeps(v.s, path);
    MetaKeeps(v, Rmdir(v.s, path).0, Rmdir(v.s, path).1);
  }

  lemma DeleteOk(v: Vol, path: Path, now: Word)
    requires VolOk(v)
    ensures VolOk(StepMeta(v, Delete(v.s, path, now).0, Delete(v.s, path, now).1))
  {
    DeleteKeeps(v.s, path, now);
    var (t, r) := Delete(v.s, path, now);
    var i := Find(NamesOf(v.s).files, path, 0);
    if i.Some? {
      OneSettled(v.s, i.value, t.files[i.value]);
    }
    MetaKeeps(v, t, r);
  }

  lemma RefOk(v: Vol, i: int)
    requires VolOk(v)
    ensures VolOk(v.(s := Ref(v.s, i).0))
  {
    RefKeeps(v.s, i);
    QuietKeeps(v, Ref(v.s, i).0);
  }

  lemma UnrefOk(v: Vol, i: int)
    requires VolOk(v)
    ensures VolOk(StepUnref(v, i))
  {
    UnrefKeeps(v.s, i);
    var t := Mufs.Unref(v.s, i).0;
    if InUse(v.s, i) && !InUse(t, i) {
      OneSettled(v.s, i, t.files[i]);
      MetaKeeps(v, t, 0);
    } else {
      QuietKeeps(v, t);
    }
  }

  lemma RenameOk(v: Vol, i: int, path: Path, now: Word)
    requires VolOk(v)
    ensures VolOk(StepMeta(v, Rename(v.s, i, path, now).0, Rename(v.s, i, path, now).1))
  {
    RenameKeeps(v.s, i, path, now);
    var (t, r) := Rename(v.s, i, path, now);
    if r >= 0 {
      OneSettled(v.s, i, t.files[i]);
    }
    MetaKeeps(v, t, r);
  }

  lemma RenameDirOk(v: Vol, p: Path, q: Path, now: Word)
    requires VolOk(v)
    ensures VolOk(StepMeta(v, RenameDir(v.s, p, q, now).0, RenameDir(v.s, p, q, now).1))
  {
    RenameDirMeaning(v.s, p, q, now);
    MetaKeeps(v, RenameDir(v.s, p, q, now).0, RenameDir(v.s, p, q, now).1);
  }

  lemma WriteOk(v: Vol, i: int, data: seq<Byte>, now: Word)
    requires VolOk(v)
    ensures VolOk(StepWrite(v, i, data, now))
  {
    var (t, r) := Write(v.s, i, data, now);
    if r >= 0 {
      ContentKeeps(v.s, i, t.files[i]);
      OneSettled(v.s, i, t.files[i]);
      BodyKeeps(v, t, i);
    }
  }

  lemma TruncateOk(v: Vol, i: int, len: nat, now: Word)
    requires VolOk(v)
    ensures VolOk(StepTruncate(v, i, len, now))
  {
    var (t, r) := Truncate(v.s, i, len, now);
    if r >= 0 {
      ContentKeeps(v.s, i, t.files[i]);
      OneSettled(v.s, i, t.files[i]);
      BodyKeeps(v, t, i);
    }
  }

  lemma ReadOk(v: Vol, i: int, off: nat, len: nat, now: Word)
    requires VolOk(v)
    ensures VolOk(v.(s := ReadAt(v.s, i, off, len, now).0))
  {
    var t := ReadAt(v.s, i, off, len, now).0;
    if InUse(v.s, i) {
      ContentKeeps(v.s, i, t.files[i]);
      assert t.files == v.s.files[i := t.files[i]];
    }
    QuietKeeps(v, t);
  }

  lemma AttrOk(v: Vol, i: int, m: FileMeta)
    requires VolOk(v)
    ensures VolOk(StepMeta(v, SetAttr(v.s, i, m).0, SetAttr(v.s, i, m).1))
  {
    var (t, r) := SetAttr(v.s, i, m);
    if r >= 0 {
      ContentKeeps(v.s, i, t.files[i]);
      OneSettled(v.s, i, t.files[i]);
    }
    MetaKeeps(v, t, r);
  }

  /** A write at an offset keeps the agreement exactly when it exposes no stale gap. */
  lemma WriteAtIff(v: Vol, i: int, off: nat, data: seq<Byte>, now: Word)
    requires VolOk(v) && InUse(v.s, i) && off < MAX_SIZE
    ensures FsOk(StepWriteAt(v, i, off, data, now).s)
    ensures VolOk(StepWriteAt(v, i, off, data, now)) <==>
            GapClean(v.s.files[i], v.d, i, off, Min(|data|, MAX_SIZE - off))
  {
    var n := Min(|data|, MAX_SIZE - off);
    var (t, r) := WriteAt(v.s, i, off, data, now);
    FsSizes(v.s);
    var g := Wrote(v.s.files[i], off, data[..n], now);
    assert t == SetFile(v.s, i, g) && t.files[i] == g;
    ContentKeeps(v.s, i, g);
    RangeStep(v.s, v.d, v.gen, i, off, data[..n], now);
  }

  /** A write that starts within the file exposes none. */
  lemma NoGap(f: File, d: Image, i: nat, off: nat, n: nat)
    requires Big(d) && i < FILE_SLOTS && off <= f.m.size <= MAX_SIZE && off + n <= MAX_SIZE
    ensures GapClean(f, d, i, off, n)
  {
  }

  /** A write exposes no stale sectors between the old end of the file and its own first sector. */
  predicate Clean(v: Vol, op: Op)
    requires VolOk(v)
  {
    op.OpWriteAt? && InUse(v.s, op.slot) && op.off < MAX_SIZE ==>
      (FsSizes(v.s); GapClean(v.s.files[op.slot], v.d, op.slot, op.off, Min(|op.data|, MAX_SIZE - op.off)))
  }

  /** Writes that start at or before the end of the file are among these. */
  lemma ContiguousClean(v: Vol, op: Op)
    requires VolOk(v) && op.OpWriteAt? && InUse(v.s, op.slot) && op.off <= v.s.files[op.slot].m.size
    ensures Clean(v, op)
  {
    FsSizes(v.s);
    if op.off < MAX_SIZE {
      NoGap(v.s.files[op.slot], v.d, op.slot, op.off, Min(|op.data|, MAX_SIZE - op.off));
    }
  }

  /** Every operation keeps the volume in order, except a write that exposes a stale gap. */
  lemma StepKeepsIff(v: Vol, op: Op, now: Word)
    requires VolOk(v)
    ensures VolOk(Step(v, op, now)) <==> Clean(v, op)
  {
    match op
    case OpCreate(p) => CreateOk(v, p, now);
    case OpMkdir(p) => MkdirOk(v, p);
    case OpRmdir(p) => RmdirOk(v, p);
    case OpDelete(p) => DeleteOk(v, p, now);
    case OpRef(i) => RefOk(v, i);
    case OpUnref(i) => UnrefOk(v, i);
    case OpRename(i, p) => RenameOk(v, i, p, now);
    case OpRenameDir(p, q) => RenameDirOk(v, p, q, now);
    case OpWrite(i, data) => WriteOk(v, i, data, now);
    case OpWriteAt(i, off, data) =>
      if InUse(v.s, i) && off < MAX_SIZE {
        WriteAtIff(v, i, off, data, now);
      }
    case OpTruncate(i, len) => TruncateOk(v, i, len, now);
    case OpRead(i, off, len) => ReadOk(v, i, off, len, now);
    case OpAttr(i, m) => AttrOk(v, i, m);
  }

  // ---------------------------------------------------------------- runs and remounts

  /** One step of a run; a volume that is not in order may do anything. */
  ghost predicate Goes(v: Vol, op: (Op, Word), w: Vol) {
    VolOk(v) ==> Clean(v, op.0) && w == Step(v, op.0, op.1)
  }

  ghost predicate Took(vs: seq<Vol>, ops: seq<(Op, Word)>, k: nat) {
    k < |ops| && |vs| == |ops| + 1 && Goes(vs[k], ops[k], vs[k + 1])
  }

  ghost predicate RunOf(vs: seq<Vol>, ops: seq<(Op, Word)>) {
    |vs| == |ops| + 1 && forall k | 0 <= k < |ops| :: Took(vs, ops, k)
  }

  /** Along every run without stale gaps the volume stays in order. */
  lemma {:induction false} RunKeeps(vs: seq<Vol>, ops: seq<(Op, Word)>, k: nat)
    requires RunOf(vs, ops) && VolOk(vs[0]) && k < |vs|
    ensures VolOk(vs[k])
  {
    if k > 0 {
      RunKeeps(vs, ops, k - 1);
      assert Took(vs, ops, k - 1);
      StepKeepsIff(vs[k - 1], ops[k - 1].0, ops[k - 1].1);
    }
  }

  /** fs_persist_mount on one record; bytes past the size stay what memory held. */
  function Loaded(r: FileMeta, d: Image, i: nat, ram: Body): (f: File)
    requires Big(d) && i < FILE_SLOTS
  {
    var m := r.(name := r.name[NAME - 1 := 0], size := Min(r.size, MAX_SIZE));
    SlotFits(i, 0, m.size);
    File(m, if m.used != 0 && m.size > 0 then d[SlotAt(i)..SlotAt(i) + m.size] + ram[m.size..] else ram, 0)
  }

  /** fs_persist_mount on a disk with a valid superblock: replay, then load. */
  function Remount(d: Image, ram: Fs): (t: Fs)
    requires Big(d) && Shaped(ram)
    ensures Shaped(t)
  {
    var e := Mount(d, MUFS);
    var h := Home(e, MUFS);
    Fs(seq(FILE_SLOTS, i requires 0 <= i < FILE_SLOTS => Loaded(GetFile(FileSlot(h.meta, i)), e, i, ram.files[i].data)),
       seq(DIR_SLOTS, i requires 0 <= i < DIR_SLOTS =>
             var r := GetDir(DirSlot(h.dir, i)); r.(name := r.name[NAME - 1 := 0])))
  }

  /** The same names, attributes and contents; only access times, open counts and slack bytes may differ. */
  predicate SameFs(s: Fs, t: Fs) {
    && Shaped(s) && Shaped(t) && Sizes(s) && t.dirs == s.dirs
    && forall i | 0 <= i < FILE_SLOTS ::
         SameMeta(t.files[i].m, s.files[i].m) &&
         (s.files[i].m.used != 0 ==> t.files[i].data[..s.files[i].m.size] == s.files[i].data[..s.files[i].m.size])
  }

  lemma LoadedSame(f: File, r: FileMeta, d: Image, i: nat, ram: Body)
    requires Big(d) && i < FILE_SLOTS && SlotOk(f.m) && SameMeta(r, f.m) && BodyAgrees(f, d, i)
    ensures var g := Loaded(r, d, i, ram);
            SameMeta(g.m, f.m) && (f.m.used != 0 ==> g.data[..f.m.size] == f.data[..f.m.size])
  {
    SlotFits(i, 0, f.m.size);
    assert r.name[NAME - 1 := 0] == f.m.name;
  }

  /** A remount of a volume in order reproduces its names, attributes and contents. */
  lemma RemountSame(v: Vol, ram: Fs)
    requires VolOk(v) && Shaped(ram)
    ensures SameFs(v.s, Remount(v.d, ram))
    ensures NamesOf(Remount(v.d, ram)) == NamesOf(v.s)
  {
    var t := Remount(v.d, ram);
    FsSizes(v.s);
    assert Mount(v.d, MUFS) == v.d;
    forall i | 0 <= i < FILE_SLOTS
      ensures SameMeta(t.files[i].m, v.s.files[i].m)
      ensures v.s.files[i].m.used != 0 ==> t.files[i].data[..v.s.files[i].m.size] == v.s.files[i].data[..v.s.files[i].m.size]
    {
      assert SlotOk(v.s.files[i].m) && BodyAgrees(v.s.files[i], v.d, i);
      LoadedSame(v.s.files[i], GetFile(FileSlot(Home(v.d, MUFS).meta, i)), v.d, i, ram.files[i].data);
    }
    forall i | 0 <= i < DIR_SLOTS ensures t.dirs[i] == v.s.dirs[i] {
      assert v.s.dirs[i].name[NAME - 1 := 0] == v.s.dirs[i].name;
    }
    assert t.dirs == v.s.dirs;
    SameNames(v.s, t);
  }

  lemma SameNames(s: Fs, t: Fs)
    requires SameFs(s, t)
    ensures NamesOf(t) == NamesOf(s)
  {
    assert NamesOf(t).files == NamesOf(s).files;
    assert NamesOf(t).dirs == NamesOf(s).dirs;
  }

  /** At any point of any run without stale gaps, a remount reproduces the file system. */
  lemma RunThenRemount(vs: seq<Vol>, ops: seq<(Op, Word)>, k: nat, ram: Fs)
    requires RunOf(vs, ops) && VolOk(vs[0]) && k < |vs| && Shaped(ram)
    ensures VolOk(vs[k]) && SameFs(vs[k].s, Remount(vs[k].d, ram)) && Tree(NamesOf(Remount(vs[k].d, ram)))
  {
    RunKeeps(vs, ops, k);
    RemountSame(vs[k], ram);
  }

  // ---------------------------------------------------------------- formatting

  function NoFile(): (f: File) {
    File(FileMeta(seq(NAME, _ => 0), 0, 0, 0, 0, 0, 0, 0, 0, 0), seq(MAX_SIZE, _ => 0), 0)
  }

  function NoDir(): (f: DirMeta) { DirMeta(seq(NAME, _ => 0), 0, 0, 0, 0) }

  function Blank(): (s: Fs)
    ensures Shaped(s)
  {
    Fs(seq(FILE_SLOTS, _ => NoFile()), seq(DIR_SLOTS, _ => NoDir()))
  }

  /** fs_persist_mount on a disk without a valid image; the data area keeps whatever it held. */
  function Formatted(d: Image, gen: seq<Byte>): (v: Vol)
    requires Big(d) && |gen| == 4
  {
    Vol(Blank(), SyncMeta(Blank(), d, gen), gen)
  }

  lemma BlankSlots()
    ensures forall i | 0 <= i < FILE_SLOTS :: Blank().files[i] == NoFile() && Blank().dirs[i] == NoDir()
    ensures NamesOf(Blank()) == Names(seq(FILE_SLOTS, _ => None), seq(DIR_SLOTS, _ => None))
  {
    var n := NamesOf(Blank());
    assert n.files == seq(FILE_SLOTS, _ => None);
    assert n.dirs == seq(DIR_SLOTS, _ => None);
  }

  lemma BlankOk()
    ensures FsOk(Blank()) && Sizes(Blank()) && Vacant(Blank(), [97])
  {
    BlankSlots();
    assert Parent([97]) == [];
  }

  /** Formatting any disk gives a volume in order. */
  lemma FormatOk(d: Image, gen: seq<Byte>)
    requires Big(d) && |gen| == 4
    ensures VolOk(Formatted(d, gen))
  {
    BlankOk();
    BlankSlots();
    SyncMetaDone(Blank(), d, gen);
    var v := Formatted(d, gen);
    forall i | 0 <= i < FILE_SLOTS ensures BodyAgrees(v.s.files[i], v.d, i) {
    }
  }

  lemma GapBroken(v: Vol, now: Word)
    requires VolOk(v) && InUse(v.s, 0) && v.s.files[0].m.size == 0 && v.s.files[0].data[0] != v.d[DATA_AT]
    ensures !VolOk(StepWriteAt(v, 0, 1024, [1], now))
  {
    WriteAtIff(v, 0, 1024, [1], now);
    NotClean(v.s.files[0], v.d);
  }

  lemma NotClean(f: File, d: Image)
    requires Big(d) && f.m.size == 0 && f.data[0] != d[DATA_AT]
    ensures !GapClean(f, d, 0, 1024, 1)
  {
    assert d[SlotAt(0)..SlotAt(0) + 1024][0] != f.data[0..1024][0];
  }

  lemma FirstCreate(u: Vol, now: Word)
    requires u.s == Blank() && VolOk(u)
    ensures var v := StepCreate(u, [97], now);
            VolOk(v) && InUse(v.s, 0) && v.s.files[0].m.size == 0 && v.s.files[0].data == u.s.files[0].data
            && v.d[DATA_AT..] == u.d[DATA_AT..]
  {
    CreateOk(u, [97], now);
    BlankOk();
    BlankSlots();
    var (t, r) := Create(u.s, [97], now);
    assert r == 0 && t == SetFile(u.s, 0, NewFile([97], now, u.s.files[0].data));
    SyncMetaDone(t, u.d, u.gen);
    var e := SyncMeta(t, u.d, u.gen);
    NothingToSync(t.files[0], e, 0);
  }

  lemma NothingToSync(f: File, d: Image, i: nat)
    requires Big(d) && i < FILE_SLOTS && f.m.size == 0
    ensures SyncBody(f, d, i) == d
  {
  }

  /** On a disk whose data area held sevens: create a file, write one byte at 1024, and disk and memory differ. */
  lemma GapWriteBreaks(now: Word) returns (v: Vol, w: Vol)
    ensures VolOk(v) && InUse(v.s, 0) && w == StepWriteAt(v, 0, 1024, [1], now)
    ensures !VolOk(w)
  {
    var gen := [0, 0, 0, 0];
    var d := seq(DISK_BYTES, _ => 7);
    var u := Formatted(d, gen);
    FormatOk(d, gen);
    FirstCreate(u, now);
    BlankSlots();
    v := StepCreate(u, [97], now);
    SyncMetaDone(u.s, d, gen);
    assert v.d[DATA_AT] == v.d[DATA_AT..][0] && u.d[DATA_AT] == u.d[DATA_AT..][0] && d[DATA_AT] == d[DATA_AT..][0];
    GapBroken(v, now);
    w := StepWriteAt(v, 0, 1024, [1], now);
  }
}
