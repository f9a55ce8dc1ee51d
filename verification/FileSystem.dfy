/**
 MuFS in the form of `src/fs.c`: slot arrays changed in place by loops, tables and bodies written
 through to the drive.
 */
module FileSystem {
  import opened Options
  import opened Sectors
  import opened Journal
  import opened MufsJournal
  import opened Records
  import opened Paths
  import opened Namespace
  import opened Mufs
  import opened MufsTree
  import opened MufsDisk
  import opened MufsRuns

  lemma ShortDir(s: Fs, i: nat, from: Path, to: Path)
    requires i < |s.dirs| && Short(NamesOf(s).dirs, from, to) && s.dirs[i].used != 0 && Under(Text(s.dirs[i].name), from)
    ensures |to| + |Text(s.dirs[i].name)| - |from| < NAME
  {
    assert NamesOf(s).dirs[i] == Some(Text(s.dirs[i].name));
  }

  lemma ShortFile(s: Fs, i: nat, from: Path, to: Path)
    requires i < |s.files| && Short(NamesOf(s).files, from, to) && Live(s.files[i].m) && Under(Text(s.files[i].m.name), from)
    ensures |to| + |Text(s.files[i].m.name)| - |from| < NAME
  {
    assert NamesOf(s).files[i] == Some(Text(s.files[i].m.name));
  }

  class Store {
    const files: array<File>
    const dirs: array<DirMeta>
    const vol: Volume
    const gen: seq<Byte>
    var active: bool

    ghost predicate Valid() {
      && files.Length == FILE_SLOTS && dirs.Length == DIR_SLOTS && |gen| == 4
      && vol.l == MUFS && vol.Fitted() && DISK_BYTES <= (vol.drive.sectors.Length * SECTOR) % WRAP
      && files as object != vol.drive.sectors && dirs as object != vol.drive.sectors && files as object != dirs
    }

    ghost function State(): (s: Fs)
      requires Valid()
      reads files, dirs
      ensures Shaped(s)
    {
      Fs(files[..], dirs[..])
    }

    ghost function Disk(): (d: Image)
      requires Valid()
      reads vol.drive.sectors
      ensures Big(d)
    {
      vol.drive.Bytes()
    }

    /** Memory and disk together, when write-through is on. */
    ghost function Volume(): (v: Vol)
      requires Valid()
      reads files, dirs, vol.drive.sectors
    {
      Vol(State(), Disk(), gen)
    }

    /** fs_init on a drive. */
    constructor (vol: Volume, gen: seq<Byte>)
      requires vol.l == MUFS && vol.Fitted() && DISK_BYTES <= (vol.drive.sectors.Length * SECTOR) % WRAP && |gen| == 4
      ensures Valid() && this.vol == vol && this.gen == gen && !active && fresh(files) && fresh(dirs)
      ensures State() == Blank()
    {
      this.vol, this.gen := vol, gen;
      files := new File[FILE_SLOTS](_ => NoFile());
      dirs := new DirMeta[DIR_SLOTS](_ => NoDir());
      active := false;
      new;
      assert files[..] == Blank().files && dirs[..] == Blank().dirs;
    }

    // ---------------------------------------------------------------- write-through

    method EncodeFiles() returns (meta: seq<Byte>)
      ensures meta == PutFiles(Metas(files[..]))
    {
      meta := [];
      var i := 0;
      while i < files.Length
        invariant 0 <= i <= files.Length && meta == PutFiles(Metas(files[..i]))
      {
        meta := meta + PutFile(files[i].m);
        i := i + 1;
        assert Metas(files[..i])[..i - 1] == Metas(files[..i - 1]);
      }
      assert files[..i] == files[..];
    }

    method EncodeDirs() returns (dir: seq<Byte>)
      ensures dir == PutDirs(dirs[..])
    {
      dir := [];
      var i := 0;
      while i < dirs.Length
        invariant 0 <= i <= dirs.Length && dir == PutDirs(dirs[..i])
      {
        dir := dir + PutDir(dirs[i]);
        i := i + 1;
        assert dirs[..i][..i - 1] == dirs[..i - 1];
      }
      assert dirs[..i] == dirs[..];
    }

    /** persist_meta */
    method PersistMeta()
      requires Valid()
      modifies vol.drive`history, vol.drive.sectors
      ensures Disk() == if active then SyncMeta(State(), old(Disk()), gen) else old(Disk())
    {
      if !active {
        return;
      }
      var meta := EncodeFiles();
      var dir := EncodeDirs();
      vol.PersistMeta(Tables(meta, dir), gen);
    }

    /** persist_slot */
    method PersistSlot(i: int)
      requires Valid() && Sizes(State())
      modifies vol.drive`history, vol.drive.sectors
      ensures Disk() == if active && 0 <= i < FILE_SLOTS then SyncBody(files[i], old(Disk()), i) else old(Disk())
    {
      if !active || i < 0 || i >= FILE_SLOTS {
        return;
      }
      var n := RoundUp(files[i].m.size);
      SlotFits(i, 0, n);
      if n == 0 {
        assert SyncBody(files[i], Disk(), i) == Disk();
        return;
      }
      var rc := vol.drive.WriteBytes(SlotAt(i), files[i].data[..n]);
    }

    /** persist_slot_range */
    method PersistRange(i: int, off: nat, len: nat)
      requires Valid() && off + len <= MAX_SIZE
      modifies vol.drive`history, vol.drive.sectors
      ensures Disk() == if active && 0 <= i < FILE_SLOTS then SyncRange(files[i], old(Disk()), i, off, len) else old(Disk())
    {
      if !active || i < 0 || i >= FILE_SLOTS || len == 0 {
        return;
      }
      var first, end := RoundDown(off), RoundUp(off + len);
      SlotFits(i, first, end - first);
      WriteSlot(i, first, files[i].data[first..end]);
    }

    method WriteSlot(i: nat, first: nat, data: seq<Byte>)
      requires Valid() && i < FILE_SLOTS && first + |data| <= MAX_SIZE && |data| > 0
      modifies vol.drive`history, vol.drive.sectors
      ensures SlotAt(i) + first + |data| <= |old(Disk())| && Disk() == Splice(old(Disk()), SlotAt(i) + first, data)
    {
      SlotFits(i, first, |data|);
      var rc := vol.drive.WriteBytes(SlotAt(i) + first, data);
    }

    // ---------------------------------------------------------------- lookups

    /** file_exists */
    method FileExists(path: Path) returns (b: bool)
      requires Valid()
      ensures b == (path != [] && Has(NamesOf(State()).files, path))
    {
      if path == [] {
        return false;
      }
      var i := FileSlotOf(path);
      return i >= 0;
    }

    /** fs_open */
    method FileSlotOf(path: Path) returns (slot: int)
      requires Valid()
      ensures slot == (match Find(NamesOf(State()).files, path, 0) case Some(i) => i case None => -1)
    {
      var i := 0;
      ghost var n := NamesOf(State()).files;
      while i < FILE_SLOTS
        invariant 0 <= i <= FILE_SLOTS && Find(n, path, 0) == Find(n, path, i)
      {
        if files[i].m.used != 0 && files[i].m.deleted == 0 && Text(files[i].m.name) == path {
          return i;
        }
        i := i + 1;
      }
      return -1;
    }

    /** dir_slot_of, for a path that is not the root. */
    method DirSlotOf(path: Path) returns (slot: int)
      requires Valid()
      ensures slot == (match Find(NamesOf(State()).dirs, path, 0) case Some(i) => i case None => -1)
    {
      var i := 0;
      ghost var n := NamesOf(State()).dirs;
      while i < DIR_SLOTS
        invariant 0 <= i <= DIR_SLOTS && Find(n, path, 0) == Find(n, path, i)
      {
        if dirs[i].used != 0 && Text(dirs[i].name) == path {
          return i;
        }
        i := i + 1;
      }
      return -1;
    }

    /** dir_exists */
    method DirExists(path: Path) returns (b: bool)
      requires Valid()
      ensures b == IsDir(NamesOf(State()), path)
    {
      if path == [] {
        return true;
      }
      var i := DirSlotOf(path);
      return i >= 0;
    }

    /** fs_dir_is_empty, for a directory that exists. */
    method DirIsEmpty(path: Path) returns (b: bool)
      requires Valid()
      ensures b == Empty(NamesOf(State()), path)
    {
      ghost var n := NamesOf(State());
      var i := 0;
      while i < FILE_SLOTS
        invariant 0 <= i <= FILE_SLOTS
        invariant forall k | 0 <= k < i && n.files[k].Some? :: !Inside(n.files[k].value, path)
      {
        if files[i].m.used != 0 && files[i].m.deleted == 0 && Inside(Text(files[i].m.name), path) {
          assert n.files[i] == Some(Text(files[i].m.name));
          return false;
        }
        i := i + 1;
      }
      i := 0;
      while i < DIR_SLOTS
        invariant 0 <= i <= DIR_SLOTS
        invariant forall k | 0 <= k < i && n.dirs[k].Some? :: !Inside(n.dirs[k].value, path)
      {
        if dirs[i].used != 0 && Inside(Text(dirs[i].name), path) {
          assert n.dirs[i] == Some(Text(dirs[i].name));
          return false;
        }
        i := i + 1;
      }
      return true;
    }

    /** The checks fs_create and fs_mkdir share. */
    method IsVacant(path: Path) returns (b: bool)
      requires Valid()
      ensures b == Vacant(State(), path)
    {
      var ok, parent := SplitParent(path);
      if !ok {
        return false;
      }
      var inDir := DirExists(parent);
      if !inDir {
        return false;
      }
      var file := FileExists(path);
      var dir := DirExists(path);
      return !file && !dir;
    }

    // ---------------------------------------------------------------- names

    method StoreFile(i: nat, f: File)
      requires Valid() && i < FILE_SLOTS
      modifies files
      ensures State() == SetFile(old(State()), i, f)
    {
      files[i] := f;
    }

    /** fs_create */
    method CreateFile(path: Path, now: Word) returns (r: int)
      requires Valid() && FsOk(State())
      modifies files, vol.drive`history, vol.drive.sectors
      ensures (State(), r) == Create(old(State()), path, now)
      ensures active ==> Volume() == StepCreate(old(Volume()), path, now)
      ensures !active ==> Disk() == old(Disk())
    {
      var ok := IsVacant(path);
      if !ok {
        return -1;
      }
      CreateKeeps(State(), path, now);
      var i := 0;
      while i < FILE_SLOTS
        invariant 0 <= i <= FILE_SLOTS && State() == old(State()) && Disk() == old(Disk())
        invariant FreeFile(files[..], 0) == FreeFile(files[..], i)
      {
        if files[i].m.used == 0 {
          StoreFile(i, NewFile(path, now, files[i].data));
          FsSizes(State());
          PersistMeta();
          PersistSlot(i);
          return i;
        }
        i := i + 1;
      }
      return -1;
    }

    /** fs_mkdir */
    method MakeDir(path: Path) returns (r: int)
      requires Valid() && FsOk(State())
      modifies dirs, vol.drive`history, vol.drive.sectors
      ensures (State(), r) == Mkdir(old(State()), path)
      ensures active ==> Volume() == StepMeta(old(Volume()), Mkdir(old(State()), path).0, r)
      ensures !active ==> Disk() == old(Disk())
    {
      var ok := IsVacant(path);
      if !ok {
        return -1;
      }
      var i := 0;
      while i < DIR_SLOTS
        invariant 0 <= i <= DIR_SLOTS && State() == old(State()) && Disk() == old(Disk())
        invariant FreeDir(dirs[..], 0) == FreeDir(dirs[..], i)
      {
        if dirs[i].used == 0 {
          dirs[i] := DirMeta(Padded(path), 1, 0, 0, DIR_MODE);
          assert State() == SetDir(old(State()), i, DirMeta(Padded(path), 1, 0, 0, DIR_MODE));
          PersistMeta();
          return 0;
        }
        i := i + 1;
      }
      return -1;
    }

    /** fs_rmdir */
    method RemoveDir(path: Path) returns (r: int)
      requires Valid() && FsOk(State())
      modifies dirs, vol.drive`history, vol.drive.sectors
      ensures (State(), r) == Rmdir(old(State()), path)
      ensures active ==> Volume() == StepMeta(old(Volume()), Rmdir(old(State()), path).0, r)
      ensures !active ==> Disk() == old(Disk())
    {
      if path == [] {
        return -1;
      }
      var i := DirSlotOf(path);
      if i < 0 {
        return -1;
      }
      var empty := DirIsEmpty(path);
      if !empty {
        return -1;
      }
      dirs[i] := dirs[i].(used := 0, name := dirs[i].name[0 := 0]);
      PersistMeta();
      return 0;
    }

    /** fs_delete */
    method DeleteFile(path: Path, now: Word) returns (r: int)
      requires Valid() && FsOk(State())
      modifies files, vol.drive`history, vol.drive.sectors
      ensures (State(), r) == Delete(old(State()), path, now)
      ensures active ==> Volume() == StepMeta(old(Volume()), Delete(old(State()), path, now).0, r)
      ensures !active ==> Disk() == old(Disk())
    {
      var i := FileSlotOf(path);
      if i < 0 {
        return -1;
      }
      var f := files[i].(m := files[i].m.(name := files[i].m.name[0 := 0], deleted := 1, ctime := now));
      if f.refs == 0 {
        f := Released(f);
      }
      StoreFile(i, f);
      PersistMeta();
      return 0;
    }

    /** fs_unref */
    method UnrefFile(i: int) returns (r: int)
      requires Valid() && FsOk(State())
      modifies files, vol.drive`history, vol.drive.sectors
      ensures (State(), r) == Mufs.Unref(old(State()), i)
      ensures active ==> Volume() == StepUnref(old(Volume()), i)
      ensures !active ==> Disk() == old(Disk())
    {
      if i < 0 || i >= FILE_SLOTS || files[i].m.used == 0 {
        return -1;
      }
      var f := files[i];
      if f.refs > 0 {
        f := f.(refs := f.refs - 1);
      }
      if f.refs == 0 && f.m.deleted != 0 {
        StoreFile(i, Released(f));
        PersistMeta();
      } else {
        StoreFile(i, f);
      }
      return 0;
    }

    /** Another file slot has this path. */
    method OtherFile(i: int, path: Path) returns (b: bool)
      requires Valid()
      ensures b == exists j | 0 <= j < |NamesOf(State()).files| :: j != i && NamesOf(State()).files[j] == Some(path)
    {
      ghost var n := NamesOf(State());
      var j := 0;
      while j < FILE_SLOTS
        invariant 0 <= j <= FILE_SLOTS
        invariant forall k | 0 <= k < j && k != i :: n.files[k] != Some(path)
      {
        if j != i && files[j].m.used != 0 && files[j].m.deleted == 0 && Text(files[j].m.name) == path {
          assert n.files[j] == Some(path);
          return true;
        }
        j := j + 1;
      }
      return false;
    }

    /** fs_rename */
    method RenameFile(i: int, path: Path, now: Word) returns (r: int)
      requires Valid() && FsOk(State())
      modifies files, vol.drive`history, vol.drive.sectors
      ensures (State(), r) == Rename(old(State()), i, path, now)
      ensures active ==> Volume() == StepMeta(old(Volume()), Rename(old(State()), i, path, now).0, r)
      ensures !active ==> Disk() == old(Disk())
    {
      if i < 0 || i >= FILE_SLOTS || files[i].m.used == 0 || files[i].m.deleted != 0 {
        return -1;
      }
      var ok, parent := SplitParent(path);
      if !ok {
        return -1;
      }
      var inDir := DirExists(parent);
      var dir := DirExists(path);
      if !inDir || dir {
        return -1;
      }
      var clash := OtherFile(i, path);
      if clash {
        return -1;
      }
      StoreFile(i, files[i].(m := files[i].m.(name := Padded(path), ctime := now)));
      PersistMeta();
      return 0;
    }

    // ---------------------------------------------------------------- renaming a subtree

    /** The length checks of fs_rename_dir. */
    method FitsMoved(from: Path, to: Path) returns (b: bool)
      requires Valid()
      ensures b == (Short(NamesOf(State()).files, from, to) && Short(NamesOf(State()).dirs, from, to))
    {
      ghost var n := NamesOf(State());
      var i := 0;
      while i < DIR_SLOTS
        invariant 0 <= i <= DIR_SLOTS
        invariant forall k | 0 <= k < i && n.dirs[k].Some? && Under(n.dirs[k].value, from) ::
                    |to| + |n.dirs[k].value| - |from| < NAME
      {
        if dirs[i].used != 0 && Under(Text(dirs[i].name), from) && |to| + |Text(dirs[i].name)| - |from| >= NAME {
          assert n.dirs[i] == Some(Text(dirs[i].name));
          return false;
        }
        i := i + 1;
      }
      i := 0;
      while i < FILE_SLOTS
        invariant 0 <= i <= FILE_SLOTS
        invariant forall k | 0 <= k < i && n.files[k].Some? && Under(n.files[k].value, from) ::
                    |to| + |n.files[k].value| - |from| < NAME
      {
        if files[i].m.used != 0 && files[i].m.deleted == 0 && Under(Text(files[i].m.name), from)
           && |to| + |Text(files[i].m.name)| - |from| >= NAME {
          assert n.files[i] == Some(Text(files[i].m.name));
          return false;
        }
        i := i + 1;
      }
      return true;
    }

    method MoveDirs(from: Path, to: Path)
      requires Valid() && Short(NamesOf(State()).dirs, from, to)
      modifies dirs
      ensures forall k | 0 <= k < DIR_SLOTS :: dirs[k] == MovedDirMeta(old(dirs[..])[k], from, to)
    {
      ghost var was, s := dirs[..], State();
      var i := 0;
      while i < DIR_SLOTS
        invariant 0 <= i <= DIR_SLOTS
        invariant forall k | 0 <= k < i :: dirs[k] == MovedDirMeta(was[k], from, to)
        invariant forall k | i <= k < DIR_SLOTS :: dirs[k] == was[k]
      {
        if dirs[i].used != 0 && Under(Text(dirs[i].name), from) {
          ShortDir(s, i, from, to);
          dirs[i] := dirs[i].(name := MovedName(dirs[i].name, from, to));
        }
        i := i + 1;
      }
    }

    method MoveFiles(from: Path, to: Path, now: Word)
      requires Valid() && Short(NamesOf(State()).files, from, to)
      modifies files
      ensures forall k | 0 <= k < FILE_SLOTS :: files[k] == MovedFile(old(files[..])[k], from, to, now)
    {
      ghost var was, s := files[..], State();
      var i := 0;
      while i < FILE_SLOTS
        invariant 0 <= i <= FILE_SLOTS
        invariant forall k | 0 <= k < i :: files[k] == MovedFile(was[k], from, to, now)
        invariant forall k | i <= k < FILE_SLOTS :: files[k] == was[k]
      {
        if files[i].m.used != 0 && files[i].m.deleted == 0 && Under(Text(files[i].m.name), from) {
          ShortFile(s, i, from, to);
          var f := files[i].m;
          files[i] := files[i].(m := f.(name := MovedName(f.name, from, to), ctime := now));
        }
        assert files[i] == MovedFile(was[i], from, to, now);
        i := i + 1;
      }
    }

    /** All the checks of fs_rename_dir. */
    method CanRename(from: Path, to: Path) returns (b: bool)
      requires Valid() && FsOk(State())
      ensures b == CanMove(NamesOf(State()), from, to)
    {
      if from == [] || to == [] {
        return false;
      }
      var isDir := DirExists(from);
      if !isDir {
        return false;
      }
      DirCanonical(NamesOf(State()), from);
      var ok, parent := SplitParent(to);
      if !ok {
        return false;
      }
      var inDir := DirExists(parent);
      var file := FileExists(to);
      var dir := DirExists(to);
      if !inDir || file || dir || Under(to, from) {
        return false;
      }
      b := FitsMoved(from, to);
    }

    /** fs_rename_dir */
    method RenameTree(from: Path, to: Path, now: Word) returns (r: int)
      requires Valid() && FsOk(State())
      modifies files, dirs, vol.drive`history, vol.drive.sectors
      ensures (State(), r) == RenameDir(old(State()), from, to, now)
      ensures active ==> Volume() == StepMeta(old(Volume()), RenameDir(old(State()), from, to, now).0, r)
      ensures !active ==> Disk() == old(Disk())
    {
      var ok := CanRename(from, to);
      if !ok {
        return -1;
      }
      MoveDirs(from, to);
      MoveFiles(from, to, now);
      assert State().files == RenameDir(old(State()), from, to, now).0.files;
      assert State().dirs == RenameDir(old(State()), from, to, now).0.dirs;
      PersistMeta();
      return 0;
    }

    // ---------------------------------------------------------------- contents

    /** fs_write */
    method WriteFile(i: int, data: seq<Byte>, now: Word) returns (r: int)
      requires Valid() && FsOk(State())
      modifies files, vol.drive`history, vol.drive.sectors
      ensures (State(), r) == Write(old(State()), i, data, now)
      ensures active ==> Volume() == StepWrite(old(Volume()), i, data, now)
      ensures !active ==> Disk() == old(Disk())
    {
      if i < 0 || i >= FILE_SLOTS || files[i].m.used == 0 {
        return -1;
      }
      var n := Min(|data|, MAX_SIZE);
      var f := files[i];
      f := f.(data := Patched(f.data, 0, data[..n]), m := f.m.(size := n, mtime := now, ctime := now));
      ContentKeeps(State(), i, f);
      StoreFile(i, f);
      FsSizes(State());
      PersistMeta();
      PersistSlot(i);
      return n;
    }

    /** fs_write_at */
    method WriteFileAt(i: int, off: nat, data: seq<Byte>, now: Word) returns (r: int)
      requires Valid() && FsOk(State())
      modifies files, vol.drive`history, vol.drive.sectors
      ensures (State(), r) == WriteAt(old(State()), i, off, data, now)
      ensures active ==> Volume() == StepWriteAt(old(Volume()), i, off, data, now)
      ensures !active ==> Disk() == old(Disk())
    {
      if i < 0 || i >= FILE_SLOTS || files[i].m.used == 0 {
        return -1;
      }
      if off >= MAX_SIZE {
        return -1;
      }
      var n := Min(|data|, MAX_SIZE - off);
      var f := files[i];
      var size := if off + n > f.m.size then off + n else f.m.size;
      f := f.(data := Patched(f.data, off, data[..n]), m := f.m.(size := size, mtime := now, ctime := now));
      assert WriteAt(State(), i, off, data, now) == (SetFile(State(), i, f), n);
      StoreFile(i, f);
      PersistMeta();
      PersistRange(i, off, n);
      return n;
    }

    /** fs_truncate */
    method TruncateFile(i: int, len: nat, now: Word) returns (r: int)
      requires Valid() && FsOk(State())
      modifies files, vol.drive`history, vol.drive.sectors
      ensures (State(), r) == Truncate(old(State()), i, len, now)
      ensures active ==> Volume() == StepTruncate(old(Volume()), i, len, now)
      ensures !active ==> Disk() == old(Disk())
    {
      if i < 0 || i >= FILE_SLOTS || files[i].m.used == 0 || len > MAX_SIZE {
        return -1;
      }
      var f := files[i];
      if len > f.m.size {
        f := f.(data := Patched(f.data, f.m.size, seq(len - f.m.size, _ => 0)));
      }
      f := f.(m := f.m.(size := len, mtime := now, ctime := now));
      ContentKeeps(State(), i, f);
      assert Truncate(State(), i, len, now).0.files[i].data == f.data;
      StoreFile(i, f);
      FsSizes(State());
      PersistMeta();
      PersistSlot(i);
      return 0;
    }

    /** fs_read_at */
    method ReadFileAt(i: int, off: nat, len: nat, now: Word) returns (r: int, buf: seq<Byte>)
      requires Valid() && FsOk(State())
      modifies files
      ensures (State(), r, buf) == ReadAt(old(State()), i, off, len, now)
    {
      if i < 0 || i >= FILE_SLOTS || files[i].m.used == 0 {
        return -1, [];
      }
      FsSizes(State());
      var f := files[i];
      if off >= f.m.size {
        return 0, [];
      }
      var n := Min(len, f.m.size - off);
      StoreFile(i, f.(m := f.m.(atime := now)));
      return n, f.data[off..off + n];
    }

    // ---------------------------------------------------------------- mounting

    /** fs_persist_mount on a drive with a valid image. */
    method Load()
      requires Valid()
      modifies this`active, files, dirs, vol.drive`history, vol.drive.sectors
      ensures active && State() == Remount(old(Disk()), old(State())) && Disk() == Mount(old(Disk()), MUFS)
    {
      ghost var was := State();
      MufsSound();
      vol.ReplayJournal();
      ghost var e := Disk();
      vol.FittedHolds();
      var rm, meta := vol.drive.ReadBytes(MUFS.meta, MUFS.metaLen);
      var rd, dir := vol.drive.ReadBytes(MUFS.dir, MUFS.dirLen);
      LoadFiles(meta, was);
      LoadDirs(dir);
      assert State().files == Remount(old(Disk()), was).files;
      assert State().dirs == Remount(old(Disk()), was).dirs;
      active := true;
    }

    method LoadFiles(meta: seq<Byte>, ghost was: Fs)
      requires Valid() && was == State() && |meta| == MUFS.metaLen
      modifies files
      ensures forall i | 0 <= i < FILE_SLOTS :: files[i] == Loaded(GetFile(FileSlot(meta, i)), Disk(), i, was.files[i].data)
    {
      var i := 0;
      while i < FILE_SLOTS
        invariant 0 <= i <= FILE_SLOTS
        invariant forall k | 0 <= k < i :: files[k] == Loaded(GetFile(FileSlot(meta, k)), Disk(), k, was.files[k].data)
        invariant forall k | i <= k < FILE_SLOTS :: files[k] == was.files[k]
      {
        var f := LoadFile(GetFile(FileSlot(meta, i)), i, files[i].data);
        files[i] := f;
        i := i + 1;
      }
    }

    method LoadFile(r: FileMeta, i: nat, ram: Body) returns (f: File)
      requires Valid() && i < FILE_SLOTS
      ensures f == Loaded(r, Disk(), i, ram)
    {
      var m := r.(name := r.name[NAME - 1 := 0], size := Min(r.size, MAX_SIZE));
      SlotFits(i, 0, m.size);
      if m.used != 0 && m.size > 0 {
        var rc, buf := vol.drive.ReadBytes(SlotAt(i), m.size);
        return File(m, buf + ram[m.size..], 0);
      }
      return File(m, ram, 0);
    }

    method LoadDirs(dir: seq<Byte>)
      requires Valid() && |dir| == MUFS.dirLen
      modifies dirs
      ensures forall i | 0 <= i < DIR_SLOTS ::
                dirs[i] == GetDir(DirSlot(dir, i)).(name := GetDir(DirSlot(dir, i)).name[NAME - 1 := 0])
    {
      var i := 0;
      while i < DIR_SLOTS
        invariant 0 <= i <= DIR_SLOTS
        invariant forall k | 0 <= k < i ::
                    dirs[k] == GetDir(DirSlot(dir, k)).(name := GetDir(DirSlot(dir, k)).name[NAME - 1 := 0])
      {
        var r := GetDir(DirSlot(dir, i));
        dirs[i] := r.(name := r.name[NAME - 1 := 0]);
        i := i + 1;
      }
    }
  }
}
