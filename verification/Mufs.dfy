/**
 MuFS in memory (`src/fs.c`): sixteen file slots and sixteen directory slots, keyed by path.
 Each operation is a function on the tables; the clock is a parameter.
 */
module Mufs {
  import opened Options
  import opened Sectors
  import opened MufsJournal
  import opened Records
  import opened Paths
  import opened Namespace

  const MAX_SIZE: nat := 65536
  const FILE_MODE: Half := 420
  const DIR_MODE: Half := 493

  type Body = s: seq<Byte> | |s| == MAX_SIZE witness seq(MAX_SIZE, _ => 0)

  datatype File = File(m: FileMeta, data: Body, refs: nat)
  datatype Fs = Fs(files: seq<File>, dirs: seq<DirMeta>)

  predicate Shaped(s: Fs) { |s.files| == FILE_SLOTS && |s.dirs| == DIR_SLOTS }

  predicate Live(f: FileMeta) { f.used != 0 && f.deleted == 0 }

  function FileName(f: FileMeta): (o: Option<Path>) { if Live(f) then Some(Text(f.name)) else None }
  function DirName(f: DirMeta): (o: Option<Path>) { if f.used != 0 then Some(Text(f.name)) else None }

  function NamesOf(s: Fs): (n: Names)
    ensures |n.files| == |s.files| && |n.dirs| == |s.dirs|
    ensures forall i | 0 <= i < |s.files| :: n.files[i] == FileName(s.files[i].m)
    ensures forall i | 0 <= i < |s.dirs| :: n.dirs[i] == DirName(s.dirs[i])
  {
    Names(seq(|s.files|, i requires 0 <= i < |s.files| => FileName(s.files[i].m)),
          seq(|s.dirs|, i requires 0 <= i < |s.dirs| => DirName(s.dirs[i])))
  }

  /** A slot: size within the body, name terminated, unlinked only while in use. */
  predicate SlotOk(f: FileMeta) {
    f.size <= MAX_SIZE && f.name[NAME - 1] == 0 && (f.deleted != 0 ==> f.used != 0)
  }

  predicate FsOk(s: Fs) {
    && Shaped(s) && Tree(NamesOf(s))
    && (forall i | 0 <= i < FILE_SLOTS :: SlotOk(s.files[i].m))
    && (forall i | 0 <= i < DIR_SLOTS :: s.dirs[i].name[NAME - 1] == 0)
  }

  // ---------------------------------------------------------------- slots

  /** First unused file slot. */
  function FreeFile(fs: seq<File>, from: nat): (r: Option<nat>)
    requires from <= |fs|
    ensures r.Some? ==> from <= r.value < |fs| && fs[r.value].m.used == 0
    ensures r.None? ==> forall i | from <= i < |fs| :: fs[i].m.used != 0
    decreases |fs| - from
  {
    if from == |fs| then None else if fs[from].m.used == 0 then Some(from) else FreeFile(fs, from + 1)
  }

  function FreeDir(ds: seq<DirMeta>, from: nat): (r: Option<nat>)
    requires from <= |ds|
    ensures r.Some? ==> from <= r.value < |ds| && ds[r.value].used == 0
    ensures r.None? ==> forall i | from <= i < |ds| :: ds[i].used != 0
    decreases |ds| - from
  {
    if from == |ds| then None else if ds[from].used == 0 then Some(from) else FreeDir(ds, from + 1)
  }

  function SetFile(s: Fs, i: nat, f: File): (r: Fs)
    requires i < |s.files|
  {
    s.(files := s.files[i := f])
  }

  function SetDir(s: Fs, i: nat, f: DirMeta): (r: Fs)
    requires i < |s.dirs|
  {
    s.(dirs := s.dirs[i := f])
  }

  lemma FileSet(s: Fs, i: nat, f: File)
    requires i < |s.files|
    ensures NamesOf(SetFile(s, i, f)) == NamesOf(s).(files := NamesOf(s).files[i := FileName(f.m)])
  {
    assert NamesOf(SetFile(s, i, f)).files == NamesOf(s).files[i := FileName(f.m)];
    assert NamesOf(SetFile(s, i, f)).dirs == NamesOf(s).dirs;
  }

  lemma DirSet(s: Fs, i: nat, f: DirMeta)
    requires i < |s.dirs|
    ensures NamesOf(SetDir(s, i, f)) == NamesOf(s).(dirs := NamesOf(s).dirs[i := DirName(f)])
  {
    assert NamesOf(SetDir(s, i, f)).dirs == NamesOf(s).dirs[i := DirName(f)];
    assert NamesOf(SetDir(s, i, f)).files == NamesOf(s).files;
  }

  /** The slot is one the fd-oriented calls accept. */
  predicate InUse(s: Fs, i: int) { 0 <= i < |s.files| && s.files[i].m.used != 0 }

  // ---------------------------------------------------------------- names

  /** The name may be given to a new file or directory. */
  predicate Vacant(s: Fs, path: Path) {
    Canonical(path) && IsDir(NamesOf(s), Parent(path)) && !Taken(NamesOf(s), path)
  }

  function NewFile(path: Path, now: Word, data: Body): (f: File)
    requires |path| < NAME
  {
    File(FileMeta(Padded(path), 0, 1, 0, now, now, now, 0, 0, FILE_MODE), data, 0)
  }

  /** fs_create */
  function Create(s: Fs, path: Path, now: Word): (r: (Fs, int))
    requires Shaped(s)
  {
    if !Vacant(s, path) then (s, -1)
    else
      var i := FreeFile(s.files, 0);
      if i.None? then (s, -1) else (SetFile(s, i.value, NewFile(path, now, s.files[i.value].data)), i.value as int)
  }

  /** fs_mkdir */
  function Mkdir(s: Fs, path: Path): (r: (Fs, int))
    requires Shaped(s)
  {
    if !Vacant(s, path) then (s, -1)
    else
      var i := FreeDir(s.dirs, 0);
      if i.None? then (s, -1) else (SetDir(s, i.value, DirMeta(Padded(path), 1, 0, 0, DIR_MODE)), 0)
  }

  /** fs_rmdir */
  function Rmdir(s: Fs, path: Path): (r: (Fs, int))
    requires Shaped(s)
  {
    var i := Find(NamesOf(s).dirs, path, 0);
    if path == [] || i.None? || !Empty(NamesOf(s), path) then (s, -1)
    else (SetDir(s, i.value, s.dirs[i.value].(used := 0, name := s.dirs[i.value].name[0 := 0])), 0)
  }

  /** An unused slot; the body and the rest of the record stay as they are. */
  function Released(f: File): (r: File) {
    f.(m := f.m.(used := 0, size := 0, deleted := 0, atime := 0, mtime := 0, ctime := 0))
  }

  /** fs_delete: the name goes now, the slot when nothing has it open. */
  function Delete(s: Fs, path: Path, now: Word): (r: (Fs, int))
    requires Shaped(s)
  {
    var i := Find(NamesOf(s).files, path, 0);
    if i.None? then (s, -1)
    else
      var f := s.files[i.value];
      var g := f.(m := f.m.(name := f.m.name[0 := 0], deleted := 1, ctime := now));
      (SetFile(s, i.value, if f.refs == 0 then Released(g) else g), 0)
  }

  /** fs_ref */
  function Ref(s: Fs, i: int): (r: (Fs, int))
    requires Shaped(s)
  {
    if !InUse(s, i) then (s, -1) else (SetFile(s, i, s.files[i].(refs := s.files[i].refs + 1)), 0)
  }

  /** fs_unref: the last close of an unlinked file releases its slot. */
  function Unref(s: Fs, i: int): (r: (Fs, int))
    requires Shaped(s)
  {
    if !InUse(s, i) then (s, -1)
    else
      var f := if s.files[i].refs > 0 then s.files[i].(refs := s.files[i].refs - 1) else s.files[i];
      (SetFile(s, i, if f.refs == 0 && f.m.deleted != 0 then Released(f) else f), 0)
  }

  /** fs_rename */
  function Rename(s: Fs, i: int, path: Path, now: Word): (r: (Fs, int))
    requires Shaped(s)
  {
    var n := NamesOf(s);
    if !(0 <= i < |s.files| && Live(s.files[i].m)) || !Canonical(path) || !IsDir(n, Parent(path)) || Has(n.dirs, path)
       || (exists j | 0 <= j < |n.files| :: j != i && n.files[j] == Some(path)) then (s, -1)
    else (SetFile(s, i, s.files[i].(m := s.files[i].m.(name := Padded(path), ctime := now))), 0)
  }

  /** The name buffer after its prefix was replaced: bytes past the terminator are left over. */
  function MovedName(b: Buffer, from: Path, to: Path): (r: Buffer)
    requires Under(Text(b), from) && |to| + |Text(b)| - |from| < NAME
  {
    var q := Moved(Text(b), from, to);
    q + [0] + b[|q| + 1..]
  }

  function MovedDirMeta(f: DirMeta, from: Path, to: Path): (r: DirMeta) {
    if f.used != 0 && Under(Text(f.name), from) && |to| + |Text(f.name)| - |from| < NAME then
      f.(name := MovedName(f.name, from, to))
    else f
  }

  function MovedFile(f: File, from: Path, to: Path, now: Word): (r: File) {
    if Live(f.m) && Under(Text(f.m.name), from) && |to| + |Text(f.m.name)| - |from| < NAME then
      f.(m := f.m.(name := MovedName(f.m.name, from, to), ctime := now))
    else f
  }

  /** fs_rename_dir: all checks first, then every name under `from`. */
  function RenameDir(s: Fs, from: Path, to: Path, now: Word): (r: (Fs, int))
    requires Shaped(s)
  {
    if !CanMove(NamesOf(s), from, to) then (s, -1)
    else
      (Fs(seq(|s.files|, i requires 0 <= i < |s.files| => MovedFile(s.files[i], from, to, now)),
          seq(|s.dirs|, i requires 0 <= i < |s.dirs| => MovedDirMeta(s.dirs[i], from, to))), 0)
  }

  // ---------------------------------------------------------------- contents

  function Min(a: nat, b: nat): nat { if a < b then a else b }

  /** `b` with `data` at `off`. */
  function Patched(b: Body, off: nat, data: seq<Byte>): (r: Body)
    requires off + |data| <= MAX_SIZE
  {
    Splice(b, off, data)
  }

  /** fs_write: replace the contents, cut to the maximum. */
  function Write(s: Fs, i: int, data: seq<Byte>, now: Word): (r: (Fs, int))
    requires Shaped(s)
  {
    if !InUse(s, i) then (s, -1)
    else
      var n := Min(|data|, MAX_SIZE);
      var f := s.files[i];
      (SetFile(s, i, f.(data := Patched(f.data, 0, data[..n]), m := f.m.(size := n, mtime := now, ctime := now))), n as int)
  }

  /** fs_write_at */
  function WriteAt(s: Fs, i: int, off: nat, data: seq<Byte>, now: Word): (r: (Fs, int))
    requires Shaped(s)
  {
    if !InUse(s, i) || off >= MAX_SIZE then (s, -1)
    else
      var n := Min(|data|, MAX_SIZE - off);
      var f := s.files[i];
      var size := if off + n > f.m.size then off + n else f.m.size;
      (SetFile(s, i, f.(data := Patched(f.data, off, data[..n]), m := f.m.(size := size, mtime := now, ctime := now))), n as int)
  }

  /** fs_truncate, and fs_fd_truncate for length 0: growing zero-fills. */
  function Truncate(s: Fs, i: int, len: nat, now: Word): (r: (Fs, int))
    requires Shaped(s)
  {
    if !InUse(s, i) || len > MAX_SIZE then (s, -1)
    else
      var f := s.files[i];
      var data := if len > f.m.size then Patched(f.data, f.m.size, seq(len - f.m.size, _ => 0)) else f.data;
      (SetFile(s, i, f.(data := data, m := f.m.(size := len, mtime := now, ctime := now))), 0)
  }

  /** fs_read_at: the bytes, and an access time the disk does not hear about. */
  function ReadAt(s: Fs, i: int, off: nat, len: nat, now: Word): (r: (Fs, int, seq<Byte>))
    requires FsOk(s)
  {
    if !InUse(s, i) then (s, -1, [])
    else
      var f := s.files[i];
      if off >= f.m.size then (s, 0, [])
      else
        var n := Min(len, f.m.size - off);
        (SetFile(s, i, f.(m := f.m.(atime := now))), n as int, f.data[off..off + n])
  }

  /** Times, owner and mode of a slot: fs_set_times, fs_chmod_slot, fs_chown_slot. */
  function SetAttr(s: Fs, i: int, m: FileMeta): (r: (Fs, int))
    requires Shaped(s)
  {
    if !InUse(s, i) then (s, -1)
    else
      var f := s.files[i].m;
      (SetFile(s, i, s.files[i].(m := f.(atime := m.atime, mtime := m.mtime, ctime := m.ctime, uid := m.uid, gid := m.gid, mode := m.mode))), 0)
  }
}
