/**
 Every operation of MuFS keeps the names a tree; renaming a directory is prefix substitution.
 */
module MufsTree {
  import opened Options
  import opened MufsJournal
  import opened Records
  import opened Paths
  import opened Namespace
  import opened Mufs

  /** Replacing one file slot by a sound one with the same name, or none, or a vacant one. */
  lemma FileKeeps(s: Fs, i: nat, f: File)
    requires FsOk(s) && i < FILE_SLOTS && SlotOk(f.m) && Tree(NamesOf(s).(files := NamesOf(s).files[i := FileName(f.m)]))
    ensures FsOk(SetFile(s, i, f))
  {
    FileSet(s, i, f);
  }

  lemma SameName(s: Fs, i: nat, f: File)
    requires FsOk(s) && i < FILE_SLOTS && SlotOk(f.m) && FileName(f.m) == FileName(s.files[i].m)
    ensures FsOk(SetFile(s, i, f)) && NamesOf(SetFile(s, i, f)) == NamesOf(s)
  {
    FileSet(s, i, f);
    assert NamesOf(s).files[i := FileName(f.m)] == NamesOf(s).files;
  }

  /** A new file gets its path and nothing else changes name. */
  lemma CreateKeeps(s: Fs, path: Path, now: Word)
    requires FsOk(s)
    ensures FsOk(Create(s, path, now).0)
    ensures var (t, r) := Create(s, path, now);
            if r < 0 then t == s && (!Vacant(s, path) || forall i | 0 <= i < FILE_SLOTS :: s.files[i].m.used != 0)
            else
              && Vacant(s, path) && r < FILE_SLOTS && s.files[r].m.used == 0
              && NamesOf(t) == NamesOf(s).(files := NamesOf(s).files[r := Some(path)])
              && t.files[r].refs == 0 && t.files[r].m.size == 0
  {
    var (t, r) := Create(s, path, now);
    if r >= 0 {
      TextPadded(path);
      NameFile(NamesOf(s), r, path);
      FileKeeps(s, r, NewFile(path, now, s.files[r].data));
      FileSet(s, r, NewFile(path, now, s.files[r].data));
    }
  }

  lemma MkdirKeeps(s: Fs, path: Path)
    requires FsOk(s)
    ensures FsOk(Mkdir(s, path).0)
    ensures var (t, r) := Mkdir(s, path);
            if r < 0 then t == s && (!Vacant(s, path) || forall i | 0 <= i < DIR_SLOTS :: s.dirs[i].used != 0)
            else
              Vacant(s, path) && exists i | 0 <= i < DIR_SLOTS ::
                s.dirs[i].used == 0 && NamesOf(t) == NamesOf(s).(dirs := NamesOf(s).dirs[i := Some(path)])
  {
    var (t, r) := Mkdir(s, path);
    if r >= 0 {
      var i := FreeDir(s.dirs, 0).value;
      TextPadded(path);
      AddDir(NamesOf(s), i, path);
      DirSet(s, i, DirMeta(Padded(path), 1, 0, 0, DIR_MODE));
      assert s.dirs[i].used == 0;
    }
  }

  lemma RmdirKeeps(s: Fs, path: Path)
    requires FsOk(s)
    ensures FsOk(Rmdir(s, path).0)
    ensures var (t, r) := Rmdir(s, path);
            if r < 0 then t == s && (path == [] || !Has(NamesOf(s).dirs, path) || !Empty(NamesOf(s), path))
            else Has(NamesOf(s).dirs, path) && Empty(NamesOf(s), path) && !Taken(NamesOf(t), path)
                 && forall q: Path | q != path :: Taken(NamesOf(t), q) <==> Taken(NamesOf(s), q)
  {
    var n := NamesOf(s);
    var (t, r) := Rmdir(s, path);
    if r >= 0 {
      var i := Find(n.dirs, path, 0).value;
      DropDir(n, i);
      DirSet(s, i, s.dirs[i].(used := 0, name := s.dirs[i].name[0 := 0]));
      var m := NamesOf(t);
      assert m.dirs == n.dirs[i := None] && m.files == n.files;
      forall q: Path | q != path ensures Has(m.dirs, q) <==> Has(n.dirs, q) {
        if Has(n.dirs, q) {
          var j :| 0 <= j < |n.dirs| && n.dirs[j] == Some(q);
          assert m.dirs[j] == Some(q);
        }
      }
      forall j | 0 <= j < |m.dirs| ensures m.dirs[j] != Some(path) {
        assert j != i ==> m.dirs[j] == n.dirs[j];
      }
      forall j | 0 <= j < |m.files| ensures m.files[j] != Some(path) {
        assert n.files[j] != n.dirs[i];
      }
    }
  }

  /** Unlinking frees the path at once; the slot and its bytes survive while anything has it open. */
  lemma DeleteKeeps(s: Fs, path: Path, now: Word)
    requires FsOk(s)
    ensures FsOk(Delete(s, path, now).0)
    ensures var (t, r) := Delete(s, path, now);
            if r < 0 then t == s && !Has(NamesOf(s).files, path)
            else
              var i := Find(NamesOf(s).files, path, 0);
              && i.Some? && NamesOf(t) == NamesOf(s).(files := NamesOf(s).files[i.value := None])
              && !Has(NamesOf(t).files, path)
              && t.files[i.value].data == s.files[i.value].data && t.files[i.value].refs == s.files[i.value].refs
              && (s.files[i.value].refs == 0 <==> t.files[i.value].m.used == 0)
              && (s.files[i.value].refs > 0 ==> t.files[i.value].m.size == s.files[i.value].m.size)
  {
    var n := NamesOf(s);
    var (t, r) := Delete(s, path, now);
    var i := Find(n.files, path, 0);
    if i.Some? {
      var f := t.files[i.value];
      DropFile(n, i.value);
      FileKeeps(s, i.value, f);
      FileSet(s, i.value, f);
      forall j | 0 <= j < |n.files| ensures NamesOf(t).files[j] != Some(path) {
        assert j < i.value ==> n.files[j] != n.files[i.value];
      }
    }
  }

  /** Closing keeps every name; the slot goes exactly with the last close of an unlinked file. */
  lemma UnrefKeeps(s: Fs, i: int)
    requires FsOk(s)
    ensures FsOk(Unref(s, i).0) && NamesOf(Unref(s, i).0) == NamesOf(s)
    ensures InUse(s, i) ==>
              (Unref(s, i).0.files[i].m.used == 0 <==> s.files[i].m.deleted != 0 && s.files[i].refs <= 1)
  {
    if InUse(s, i) {
      SameName(s, i, Unref(s, i).0.files[i]);
    }
  }

  lemma RefKeeps(s: Fs, i: int)
    requires FsOk(s)
    ensures FsOk(Ref(s, i).0) && NamesOf(Ref(s, i).0) == NamesOf(s)
  {
    if InUse(s, i) {
      SameName(s, i, Ref(s, i).0.files[i]);
    }
  }

  lemma RenameKeeps(s: Fs, i: int, path: Path, now: Word)
    requires FsOk(s)
    ensures FsOk(Rename(s, i, path, now).0)
    ensures var (t, r) := Rename(s, i, path, now);
            if r < 0 then t == s
            else 0 <= i < FILE_SLOTS && NamesOf(t) == NamesOf(s).(files := NamesOf(s).files[i := Some(path)])
                 && t.files[i].data == s.files[i].data && t.files[i].m.size == s.files[i].m.size
  {
    var (t, r) := Rename(s, i, path, now);
    if r >= 0 {
      TextPadded(path);
      NameFile(NamesOf(s), i, path);
      FileKeeps(s, i, t.files[i]);
      FileSet(s, i, t.files[i]);
    }
  }

  lemma MovedNameText(b: Buffer, from: Path, to: Path)
    requires Under(Text(b), from) && |to| + |Text(b)| - |from| < NAME && b[NAME - 1] == 0
    ensures Text(MovedName(b, from, to)) == Moved(Text(b), from, to) && MovedName(b, from, to)[NAME - 1] == 0
  {
    var q := Moved(Text(b), from, to);
    MovedUnder(Text(b), from, to);
    var r := MovedName(b, from, to);
    assert r[..|q|] == q && r[|q|] == 0;
    TextOf(r, q);
  }

  /** fs_rename_dir changes nothing, or is prefix substitution on every name and on nothing else. */
  lemma RenameDirMeaning(s: Fs, from: Path, to: Path, now: Word)
    requires FsOk(s)
    ensures FsOk(RenameDir(s, from, to, now).0)
    ensures var (t, r) := RenameDir(s, from, to, now);
            if r < 0 then t == s && !CanMove(NamesOf(s), from, to)
            else
              && CanMove(NamesOf(s), from, to) && NamesOf(t) == MovedNames(NamesOf(s), from, to)
              && forall i | 0 <= i < FILE_SLOTS ::
                   t.files[i].data == s.files[i].data && t.files[i].refs == s.files[i].refs &&
                   t.files[i].m.size == s.files[i].m.size && t.files[i].m.used == s.files[i].m.used
  {
    var n := NamesOf(s);
    var (t, r) := RenameDir(s, from, to, now);
    if r >= 0 {
      forall i | 0 <= i < FILE_SLOTS
        ensures NamesOf(t).files[i] == MovedNames(n, from, to).files[i] && SlotOk(t.files[i].m)
      {
        var f := s.files[i];
        if Live(f.m) && Under(Text(f.m.name), from) {
          assert n.files[i] == Some(Text(f.m.name));
          MovedNameText(f.m.name, from, to);
        }
      }
      forall i | 0 <= i < DIR_SLOTS
        ensures NamesOf(t).dirs[i] == MovedNames(n, from, to).dirs[i] && t.dirs[i].name[NAME - 1] == 0
      {
        var f := s.dirs[i];
        if f.used != 0 && Under(Text(f.name), from) {
          assert n.dirs[i] == Some(Text(f.name));
          MovedNameText(f.name, from, to);
        }
      }
      assert NamesOf(t).files == MovedNames(n, from, to).files;
      assert NamesOf(t).dirs == MovedNames(n, from, to).dirs;
      MoveKeepsTree(n, from, to);
    }
  }

  /** After a rename of a directory, what a path led to its moved path leads to, contents included. */
  lemma RenameDirContents(s: Fs, from: Path, to: Path, now: Word, p: Path)
    requires FsOk(s) && RenameDir(s, from, to, now).1 == 0 && Has(NamesOf(s).files, p)
    ensures var t := RenameDir(s, from, to, now).0;
            var i, j := Find(NamesOf(s).files, p, 0), Find(NamesOf(t).files, Moved(p, from, to), 0);
            i.Some? && j == i && t.files[j.value].data == s.files[i.value].data
            && t.files[j.value].m.size == s.files[i.value].m.size
  {
    RenameDirMeaning(s, from, to, now);
    MoveLookup(NamesOf(s), from, to, p);
  }

  /** Changes to contents and attributes keep all names. */
  lemma ContentKeeps(s: Fs, i: int, f: File)
    requires FsOk(s) && InUse(s, i) && f.m.size <= MAX_SIZE
    requires f.m.name == s.files[i].m.name && f.m.used == s.files[i].m.used && f.m.deleted == s.files[i].m.deleted
    ensures FsOk(SetFile(s, i, f)) && NamesOf(SetFile(s, i, f)) == NamesOf(s)
  {
    SameName(s, i, f);
  }
}
