/**
 The bytes of MuFS files (`src/fs.c`): what a write stores, what a read returns, and that a file keeps
 its bytes until something writes it, across any run and a remount.
 */
module MufsContents {
  import opened Sectors
  import opened Records
  import opened Paths
  import opened Namespace
  import opened Mufs
  import opened MufsTree
  import opened MufsDisk
  import opened MufsJournal
  import opened MufsRuns

  /** The contents of a file, as a reader can see them. */
  function Bytes(f: File): (b: seq<Byte>)
    requires f.m.size <= MAX_SIZE
    ensures |b| == f.m.size
  {
    f.data[..f.m.size]
  }

  /** Only slot `i` differs, and only in contents, size and times. */
  predicate OnlyContents(s: Fs, t: Fs, i: int, now: Word) {
    && 0 <= i < |s.files| && |t.files| == |s.files| && t.dirs == s.dirs && t.files[i].refs == s.files[i].refs
    && (forall j | 0 <= j < |s.files| && j != i :: t.files[j] == s.files[j])
    && t.files[i].m == s.files[i].m.(size := t.files[i].m.size, mtime := now, ctime := now)
  }

  // ---------------------------------------------------------------- single operations

  /** fs_write: the file is the data, cut to the maximum. */
  lemma WriteGives(s: Fs, i: int, data: seq<Byte>, now: Word)
    requires Shaped(s)
    ensures var (t, r) := Write(s, i, data, now);
            if !InUse(s, i) then r == -1 && t == s
            else
              && r == Min(|data|, MAX_SIZE) && OnlyContents(s, t, i, now)
              && t.files[i].m.size == r && Bytes(t.files[i]) == data[..r]
  {
    if InUse(s, i) {
      var n := Min(|data|, MAX_SIZE);
      var t := Write(s, i, data, now).0;
      assert forall k | 0 <= k < n :: t.files[i].data[k] == data[k];
    }
  }

  /**
   fs_write_at: the bytes from `off` on are the data, those of the file outside them stay, and between the
   old end and `off` whatever the slot's buffer held becomes visible.
   */
  lemma WriteAtGives(s: Fs, i: int, off: nat, data: seq<Byte>, now: Word)
    requires Shaped(s) && (InUse(s, i) ==> s.files[i].m.size <= MAX_SIZE)
    ensures var (t, r) := WriteAt(s, i, off, data, now);
            if !InUse(s, i) || off >= MAX_SIZE then r == -1 && t == s
            else
              var f := s.files[i];
              && r == Min(|data|, MAX_SIZE - off) && OnlyContents(s, t, i, now)
              && t.files[i].m.size == (if off + r > f.m.size then off + r else f.m.size)
              && (forall k | off <= k < off + r :: Bytes(t.files[i])[k] == data[k - off])
              && (forall k | 0 <= k < f.m.size && !(off <= k < off + r) :: Bytes(t.files[i])[k] == Bytes(f)[k])
              && (forall k | f.m.size <= k < off :: Bytes(t.files[i])[k] == f.data[k])
  {
  }

  /** fs_truncate: the first bytes stay, and a longer file ends in zeroes. */
  lemma TruncateGives(s: Fs, i: int, len: nat, now: Word)
    requires Shaped(s) && (InUse(s, i) ==> s.files[i].m.size <= MAX_SIZE)
    ensures var (t, r) := Truncate(s, i, len, now);
            if !InUse(s, i) || len > MAX_SIZE then r == -1 && t == s
            else
              var b := Bytes(s.files[i]);
              && r == 0 && OnlyContents(s, t, i, now) && t.files[i].m.size == len
              && Bytes(t.files[i]) == if len <= |b| then b[..len] else b + seq(len - |b|, _ => 0)
  {
    if InUse(s, i) && len <= MAX_SIZE {
      var b, c := Bytes(s.files[i]), Bytes(Truncate(s, i, len, now).0.files[i]);
      forall k | 0 <= k < len ensures c[k] == if k < |b| then b[k] else 0 {
      }
    }
  }

  /** fs_read_at: as many of the file's bytes from `off` on as there are and fit, and nothing but the access time changes. */
  lemma ReadAtGives(s: Fs, i: int, off: nat, len: nat, now: Word)
    requires FsOk(s)
    ensures var (t, r, buf) := ReadAt(s, i, off, len, now);
            if !InUse(s, i) then r == -1 && t == s && buf == []
            else
              s.files[i].m.size <= MAX_SIZE &&
              var b := Bytes(s.files[i]);
              && r == |buf| && (|buf| == len || off + |buf| == |b| || (off > |b| && buf == [])) && |buf| <= len
              && (forall k | 0 <= k < |buf| :: off + k < |b| && buf[k] == b[off + k])
              && |t.files| == |s.files| && t.dirs == s.dirs
              && (forall j | 0 <= j < |s.files| && j != i :: t.files[j] == s.files[j])
              && t.files[i] == s.files[i].(m := s.files[i].m.(atime := t.files[i].m.atime))
  {
    FsSizes(s);
  }

  /** fs_create: a new file is empty, owned by root and not open. */
  lemma CreateGives(s: Fs, path: Path, now: Word)
    requires Shaped(s) && Create(s, path, now).1 >= 0
    ensures var (t, r) := Create(s, path, now);
            && r < FILE_SLOTS && s.files[r].m.used == 0 && (forall j | 0 <= j < r :: s.files[j].m.used != 0)
            && t.dirs == s.dirs && |t.files| == |s.files| && (forall j | 0 <= j < |s.files| && j != r :: t.files[j] == s.files[j])
            && t.files[r].m.size == 0 && t.files[r].refs == 0 && Live(t.files[r].m) && Text(t.files[r].m.name) == path
            && t.files[r].m.uid == t.files[r].m.gid == 0 && t.files[r].m.mode == FILE_MODE
  {
    LowestFree(s.files, 0);
    TextPadded(path);
  }

  /** fs_set_times, fs_chmod_slot and fs_chown_slot: the attributes of one slot, and neither its name nor its bytes. */
  lemma AttrGives(s: Fs, i: int, m: FileMeta)
    requires Shaped(s)
    ensures var (t, r) := SetAttr(s, i, m);
            if !InUse(s, i) then r == -1 && t == s
            else
              && r == 0 && t.dirs == s.dirs && |t.files| == |s.files| && (forall j | 0 <= j < |s.files| && j != i :: t.files[j] == s.files[j])
              && t.files[i].data == s.files[i].data && t.files[i].refs == s.files[i].refs
              && t.files[i].m == m.(name := s.files[i].m.name, size := s.files[i].m.size, used := s.files[i].m.used, deleted := s.files[i].m.deleted)
  {
  }

  lemma {:induction false} LowestFree(fs: seq<File>, from: nat)
    requires from <= |fs|
    ensures var r := FreeFile(fs, from); r.Some? ==> forall i | from <= i < r.value :: fs[i].m.used != 0
    decreases |fs| - from
  {
    if from < |fs| && fs[from].m.used != 0 {
      LowestFree(fs, from + 1);
    }
  }

  // ---------------------------------------------------------------- the bytes a gap shows

  /** What a write leaves visible depends on what was visible, and on nothing else. */
  ghost predicate HidesSlack(s: Fs, i: nat, off: nat, data: seq<Byte>, now: Word)
    requires Shaped(s) && InUse(s, i) && s.files[i].m.size <= MAX_SIZE && off < MAX_SIZE
  {
    forall b: Body {:trigger WithSlack(s, i, b)} | b[..s.files[i].m.size] == Bytes(s.files[i]) ::
      Shown(WithSlack(s, i, b), i, off, data, now) == Shown(s, i, off, data, now)
  }

  /** The same file system with another buffer in slot `i`. */
  function WithSlack(s: Fs, i: nat, b: Body): (t: Fs)
    requires i < |s.files|
  {
    SetFile(s, i, s.files[i].(data := b))
  }

  function Shown(s: Fs, i: nat, off: nat, data: seq<Byte>, now: Word): (b: seq<Byte>)
    requires Shaped(s) && InUse(s, i) && s.files[i].m.size <= MAX_SIZE && off < MAX_SIZE
  {
    WriteAtGives(s, i, off, data, now);
    Bytes(WriteAt(s, i, off, data, now).0.files[i])
  }

  /** Bytes past the end of a file stay hidden exactly when no write starts beyond it. */
  lemma SlackHiddenIff(s: Fs, i: nat, off: nat, data: seq<Byte>, now: Word)
    requires Shaped(s) && InUse(s, i) && s.files[i].m.size <= MAX_SIZE && off < MAX_SIZE
    ensures HidesSlack(s, i, off, data, now) <==> off <= s.files[i].m.size
  {
    var f := s.files[i];
    WriteAtGives(s, i, off, data, now);
    if off <= f.m.size {
      forall b: Body | b[..f.m.size] == Bytes(f) ensures Shown(WithSlack(s, i, b), i, off, data, now) == Shown(s, i, off, data, now) {
        SameShown(s, i, off, data, now, b);
      }
    } else {
      var b: Body := f.data[f.m.size := if f.data[f.m.size] == 0 then 1 else 0];
      assert b[..f.m.size] == Bytes(f);
      WriteAtGives(WithSlack(s, i, b), i, off, data, now);
      assert Shown(WithSlack(s, i, b), i, off, data, now)[f.m.size] == b[f.m.size];
      assert Shown(s, i, off, data, now)[f.m.size] == f.data[f.m.size];
    }
  }

  lemma SameShown(s: Fs, i: nat, off: nat, data: seq<Byte>, now: Word, b: Body)
    requires Shaped(s) && InUse(s, i) && off <= s.files[i].m.size <= MAX_SIZE && off < MAX_SIZE
    requires b[..s.files[i].m.size] == Bytes(s.files[i])
    ensures Shown(WithSlack(s, i, b), i, off, data, now) == Shown(s, i, off, data, now)
  {
    WriteAtGives(s, i, off, data, now);
    WriteAtGives(WithSlack(s, i, b), i, off, data, now);
    var x, y := Shown(WithSlack(s, i, b), i, off, data, now), Shown(s, i, off, data, now);
    assert |x| == |y|;
    forall k | 0 <= k < |x| ensures x[k] == y[k] {
    }
  }

  /**
   Written, cut to nothing, and written again one byte further on: the byte that was cut off is back.
   Buffers are not cleared and readers stop at the size, but a later write can move the size past them.
   */
  lemma CutByteReturns(s: Fs, i: nat, x: Byte, y: Byte, now: Word)
    requires Shaped(s) && InUse(s, i)
    ensures var a := Write(s, i, [x], now).0;
            var b := Truncate(a, i, 0, now).0;
            var c := WriteAt(b, i, 1, [y], now).0;
            b.files[i].m.size == 0 && c.files[i].m.size == 2 && Bytes(c.files[i]) == [x, y]
  {
    WriteGives(s, i, [x], now);
    var a := Write(s, i, [x], now).0;
    TruncateGives(a, i, 0, now);
    var b := Truncate(a, i, 0, now).0;
    assert a.files[i].data[0] == Bytes(a.files[i])[0] == x;
    assert b.files[i].data == a.files[i].data;
    WriteAtGives(b, i, 1, [y], now);
  }

  // ---------------------------------------------------------------- bytes along a run

  /** The operation is about the contents of slot `i`. */
  predicate Changes(op: Op, i: nat) {
    (op.OpWrite? || op.OpWriteAt? || op.OpTruncate?) && op.slot == i
  }

  /** Slot `i` holds the same open file with the same bytes. */
  predicate Kept(s: Fs, t: Fs, i: nat) {
    && Shaped(s) && Shaped(t) && i < FILE_SLOTS && t.files[i].m.size == s.files[i].m.size && t.files[i].data == s.files[i].data
  }

  /** What an operation does to memory, the disk apart. */
  function Memory(s: Fs, op: Op, now: Word): (t: Fs)
    requires FsOk(s)
  {
    match op
    case OpCreate(p) => Create(s, p, now).0
    case OpMkdir(p) => Mkdir(s, p).0
    case OpRmdir(p) => Rmdir(s, p).0
    case OpDelete(p) => Delete(s, p, now).0
    case OpRef(j) => Ref(s, j).0
    case OpUnref(j) => Unref(s, j).0
    case OpRename(j, p) => Rename(s, j, p, now).0
    case OpRenameDir(p, q) => RenameDir(s, p, q, now).0
    case OpWrite(j, data) => Write(s, j, data, now).0
    case OpWriteAt(j, off, data) => WriteAt(s, j, off, data, now).0
    case OpTruncate(j, len) => Truncate(s, j, len, now).0
    case OpRead(j, off, len) => ReadAt(s, j, off, len, now).0
    case OpAttr(j, m) => SetAttr(s, j, m).0
  }

  lemma StepMemory(v: Vol, op: Op, now: Word)
    requires Ready(v)
    ensures Step(v, op, now).s == Memory(v.s, op, now)
  {
  }

  lemma CreateElsewhere(s: Fs, path: Path, now: Word, i: nat)
    requires Shaped(s) && i < FILE_SLOTS && InUse(s, i)
    ensures Kept(s, Create(s, path, now).0, i)
  {
  }

  lemma WritesElsewhere(s: Fs, op: Op, now: Word, i: nat)
    requires FsOk(s) && i < FILE_SLOTS && !Changes(op, i) && (op.OpWrite? || op.OpWriteAt? || op.OpTruncate?)
    ensures Kept(s, Memory(s, op, now), i)
  {
    FsSizes(s);
    match op
    case OpWrite(j, data) => WriteGives(s, j, data, now);
    case OpWriteAt(j, off, data) => WriteAtGives(s, j, off, data, now);
    case OpTruncate(j, len) => TruncateGives(s, j, len, now);
  }

  /** Only the last close or the unlinking of a closed file takes the bytes away, and that ends the slot's use. */
  lemma ReleaseElsewhere(s: Fs, op: Op, now: Word, i: nat)
    requires FsOk(s) && i < FILE_SLOTS && (op.OpDelete? || op.OpUnref?) && InUse(s, i) && InUse(Memory(s, op, now), i)
    ensures Kept(s, Memory(s, op, now), i)
  {
    if op.OpDelete? {
      DeleteKeeps(s, op.path, now);
    }
  }

  /** Every other operation leaves the bytes of a slot that stays in use alone. */
  lemma MemoryKeepsBytes(s: Fs, op: Op, now: Word, i: nat)
    requires FsOk(s) && i < FILE_SLOTS && InUse(s, i) && InUse(Memory(s, op, now), i) && !Changes(op, i)
    ensures Kept(s, Memory(s, op, now), i)
  {
    match op
    case OpCreate(p) => CreateElsewhere(s, p, now, i);
    case OpDelete(_) => ReleaseElsewhere(s, op, now, i);
    case OpUnref(_) => ReleaseElsewhere(s, op, now, i);
    case OpRenameDir(p, q) => RenameDirMeaning(s, p, q, now);
    case OpWrite(_, _) => WritesElsewhere(s, op, now, i);
    case OpWriteAt(_, _, _) => WritesElsewhere(s, op, now, i);
    case OpTruncate(_, _) => WritesElsewhere(s, op, now, i);
    case _ =>
  }

  ghost predicate OpenIn(vs: seq<Vol>, k: nat, i: nat) { k < |vs| && InUse(vs[k].s, i) }

  ghost predicate Leaves(ops: seq<(Op, Word)>, k: nat, i: nat) { k < |ops| && !Changes(ops[k].0, i) }

  /** The slot stays in use from state `a` to state `b`, and no operation in between is about its contents. */
  ghost predicate Quiet(vs: seq<Vol>, ops: seq<(Op, Word)>, a: nat, b: nat, i: nat) {
    && a <= b < |vs| == |ops| + 1 && i < FILE_SLOTS
    && (forall k | a <= k <= b :: OpenIn(vs, k, i)) && (forall k | a <= k < b :: Leaves(ops, k, i))
  }

  lemma StepKeepsBytes(vs: seq<Vol>, ops: seq<(Op, Word)>, k: nat, i: nat)
    requires RunOf(vs, ops) && VolOk(vs[0]) && k < |ops| && i < FILE_SLOTS
    requires OpenIn(vs, k, i) && OpenIn(vs, k + 1, i) && Leaves(ops, k, i)
    ensures Kept(vs[k].s, vs[k + 1].s, i)
  {
    RunKeeps(vs, ops, k);
    StepTakes(vs, ops, k);
    MemoryKeepsBytes(vs[k].s, ops[k].0, ops[k].1, i);
  }

  lemma StepTakes(vs: seq<Vol>, ops: seq<(Op, Word)>, k: nat)
    requires RunOf(vs, ops) && k < |ops| && VolOk(vs[k])
    ensures vs[k + 1].s == Memory(vs[k].s, ops[k].0, ops[k].1)
  {
    assert Took(vs, ops, k);
    StepMemory(vs[k], ops[k].0, ops[k].1);
  }

  /** A file keeps its bytes through everything that is not about them: other files, renames, its own unlinking. */
  lemma {:induction false} BytesLast(vs: seq<Vol>, ops: seq<(Op, Word)>, a: nat, b: nat, i: nat)
    requires RunOf(vs, ops) && VolOk(vs[0]) && Quiet(vs, ops, a, b, i)
    ensures Kept(vs[a].s, vs[b].s, i)
    decreases b
  {
    if a == b {
      RunKeeps(vs, ops, b);
    } else {
      BytesLast(vs, ops, a, b - 1, i);
      assert OpenIn(vs, b - 1, i) && OpenIn(vs, b, i) && Leaves(ops, b - 1, i);
      StepKeepsBytes(vs, ops, b - 1, i);
    }
  }

  /** A remounted volume is one the operations accept. */
  lemma RemountOk(v: Vol, ram: Fs)
    requires VolOk(v) && Shaped(ram)
    ensures FsOk(Remount(v.d, ram))
  {
    RemountSame(v, ram);
    var t := Remount(v.d, ram);
    forall i | 0 <= i < FILE_SLOTS ensures SlotOk(t.files[i].m) {
      assert SlotOk(v.s.files[i].m);
    }
  }

  /** Bytes `b` of slot `i`, read from `off` on. */
  ghost predicate Reads(s: Fs, i: nat, b: seq<Byte>) {
    && FsOk(s) && InUse(s, i) && s.files[i].m.size <= MAX_SIZE && Bytes(s.files[i]) == b
    && forall off: nat, len: nat, now :: off <= |b| ==>
         ReadAt(s, i, off, len, now).2 == b[off..off + Min(len, |b| - off)]
  }

  lemma ReadsBytes(s: Fs, i: nat, b: seq<Byte>)
    requires FsOk(s) && InUse(s, i) && s.files[i].m.size == |b| <= MAX_SIZE && s.files[i].data[..|b|] == b
    ensures Reads(s, i, b)
  {
    forall off: nat, len: nat, now | off <= |b| ensures ReadAt(s, i, off, len, now).2 == b[off..off + Min(len, |b| - off)] {
      ReadAtGives(s, i, off, len, now);
    }
  }

  /** What a slot holds is what a read returns, now and after a remount. */
  lemma ReadsNowAndLater(v: Vol, i: nat, ram: Fs)
    requires VolOk(v) && i < FILE_SLOTS && InUse(v.s, i) && Shaped(ram)
    ensures v.s.files[i].m.size <= MAX_SIZE
    ensures Reads(v.s, i, Bytes(v.s.files[i])) && Reads(Remount(v.d, ram), i, Bytes(v.s.files[i]))
  {
    FsSizes(v.s);
    ReadsBytes(v.s, i, Bytes(v.s.files[i]));
    RemountSame(v, ram);
    RemountOk(v, ram);
    ReadsBytes(Remount(v.d, ram), i, Bytes(v.s.files[i]));
  }

  /** The bytes of slot `i` in state `a` are what is read in state `b`, from memory and after a remount from the disk. */
  lemma LastAndRead(vs: seq<Vol>, ops: seq<(Op, Word)>, a: nat, b: nat, i: nat, ram: Fs)
    requires RunOf(vs, ops) && VolOk(vs[0]) && Quiet(vs, ops, a, b, i) && Shaped(ram)
    ensures |vs[a].s.files| == FILE_SLOTS && vs[a].s.files[i].m.size <= MAX_SIZE && Big(vs[b].d)
    ensures Reads(vs[b].s, i, Bytes(vs[a].s.files[i])) && Reads(Remount(vs[b].d, ram), i, Bytes(vs[a].s.files[i]))
  {
    BytesLast(vs, ops, a, b, i);
    RunKeeps(vs, ops, b);
    assert OpenIn(vs, b, i);
    ReadsNowAndLater(vs[b], i, ram);
  }

  /**
   Read your writes. After a whole-file write and any run that does not write the file again, a read
   returns the data, from memory and, after a remount, from the disk.
   */
  lemma ReadYourWrites(vs: seq<Vol>, ops: seq<(Op, Word)>, a: nat, b: nat, i: nat, data: seq<Byte>, ram: Fs)
    requires RunOf(vs, ops) && VolOk(vs[0]) && Shaped(ram)
    requires a < b < |vs| && ops[a].0 == OpWrite(i, data) && InUse(vs[a].s, i) && Quiet(vs, ops, a + 1, b, i)
    ensures Reads(vs[b].s, i, data[..Min(|data|, MAX_SIZE)]) && Big(vs[b].d)
    ensures Reads(Remount(vs[b].d, ram), i, data[..Min(|data|, MAX_SIZE)])
  {
    RunKeeps(vs, ops, a);
    StepTakes(vs, ops, a);
    WriteGives(vs[a].s, i, data, ops[a].1);
    LastAndRead(vs, ops, a + 1, b, i, ram);
  }

  /** The same of the bytes of a write at an offset: `c` is what is read. */
  lemma ReadYourWritesAt(vs: seq<Vol>, ops: seq<(Op, Word)>, a: nat, b: nat, i: nat, off: nat, data: seq<Byte>, n: nat, ram: Fs)
    returns (c: seq<Byte>)
    requires RunOf(vs, ops) && VolOk(vs[0]) && Shaped(ram)
    requires a < b < |vs| && ops[a].0 == OpWriteAt(i, off, data) && InUse(vs[a].s, i) && Quiet(vs, ops, a + 1, b, i)
    requires off < MAX_SIZE && n == Min(|data|, MAX_SIZE - off)
    ensures off + n <= |c| && c[off..off + n] == data[..n]
    ensures Reads(vs[b].s, i, c) && Big(vs[b].d) && Reads(Remount(vs[b].d, ram), i, c)
  {
    c := StepWritesAt(vs, ops, a, i, off, data, n);
    LastAndRead(vs, ops, a + 1, b, i, ram);
  }

  lemma StepWritesAt(vs: seq<Vol>, ops: seq<(Op, Word)>, a: nat, i: nat, off: nat, data: seq<Byte>, n: nat) returns (c: seq<Byte>)
    requires RunOf(vs, ops) && VolOk(vs[0]) && a < |ops| && ops[a].0 == OpWriteAt(i, off, data) && InUse(vs[a].s, i)
    requires off < MAX_SIZE && n == Min(|data|, MAX_SIZE - off)
    ensures off + n <= |c| && c[off..off + n] == data[..n]
    ensures InUse(vs[a + 1].s, i) && vs[a + 1].s.files[i].m.size <= MAX_SIZE && c == Bytes(vs[a + 1].s.files[i])
  {
    RunKeeps(vs, ops, a);
    FsSizes(vs[a].s);
    StepTakes(vs, ops, a);
    WroteAt(vs[a].s, i, off, data, n, ops[a].1);
    c := Bytes(vs[a + 1].s.files[i]);
  }

  lemma WroteAt(s: Fs, i: nat, off: nat, data: seq<Byte>, n: nat, now: Word)
    requires Shaped(s) && InUse(s, i) && s.files[i].m.size <= MAX_SIZE && off < MAX_SIZE && n == Min(|data|, MAX_SIZE - off)
    ensures var f := WriteAt(s, i, off, data, now).0.files[i];
            f.m.size <= MAX_SIZE && off + n <= |Bytes(f)| && Bytes(f)[off..off + n] == data[..n]
  {
    WriteAtGives(s, i, off, data, now);
    var b := Bytes(WriteAt(s, i, off, data, now).0.files[i]);
    forall k | 0 <= k < n ensures b[off..off + n][k] == data[..n][k] {
      assert b[off + k] == data[off + k - off];
    }
  }
}
