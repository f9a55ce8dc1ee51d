/**
 Fork, thread creation, exit and reaping of descriptor tables, and runs of everything: counts are
 exact throughout, so a slot that a descriptor names is never given to another file.
 */
module DescriptorRuns {
  import opened Options
  import opened Sectors
  import opened MufsJournal
  import opened Records
  import opened Paths
  import opened Mufs
  import opened MufsTree
  import opened Descriptors
  import opened DescriptorOps

  // ---------------------------------------------------------------- fork

  /** A new table `t` for process `c`, not yet counted. */
  function WithTable(d: State, t: nat, c: nat, entries: Table): (r: State) {
    d.(saved := d.saved[t := entries], shares := d.shares[t := 1], procs := d.procs[c := t])
  }

  /** do_fork: the child saves the live table and retains every entry. */
  function Fork(d: State, t: nat, c: nat): (r: State)
    requires Shape(d) && t !in d.saved && c !in d.procs
  {
    WithTableShape(d, t, c, d.live);
    Retain(WithTable(d, t, c, d.live), d.live, FD_MAX)
  }

  lemma WithTableShape(d: State, t: nat, c: nat, entries: Table)
    requires Shape(d) && t !in d.saved && c !in d.procs
    ensures Shape(WithTable(d, t, c, entries))
  {
    assert WithTable(d, t, c, entries).shares.Keys == WithTable(d, t, c, entries).saved.Keys;
  }

  lemma WithTableEff(d: State, t: nat, c: nat, entries: Table, u: nat)
    requires Shape(d) && t !in d.saved && c !in d.procs && u in WithTable(d, t, c, entries).saved
    ensures Eff(WithTable(d, t, c, entries), u) == if u == t then entries else Eff(d, u)
  {
  }

  lemma WithTableFiles(d: State, t: nat, c: nat, entries: Table, k: nat)
    requires Shape(d) && t !in d.saved && c !in d.procs
    ensures |FileHolders(WithTable(d, t, c, entries), k)| == |FileHolders(d, k)| + FileCount(entries, k, FD_MAX)
  {
    var r := WithTable(d, t, c, entries);
    forall u | u in r.saved ensures Eff(r, u) == if u == t then entries else Eff(d, u) {
      WithTableEff(d, t, c, entries, u);
    }
    assert FileHolders(r, k) == FileHolders(d, k) + FilePart(entries, t, k, FD_MAX);
    assert FileHolders(d, k) !! FilePart(entries, t, k, FD_MAX);
    FilePartSize(entries, t, k, FD_MAX);
  }

  lemma WithTablePipes(d: State, t: nat, c: nat, entries: Table, q: nat)
    requires Shape(d) && t !in d.saved && c !in d.procs
    ensures |PipeHolders(WithTable(d, t, c, entries), q)| == |PipeHolders(d, q)| + PipeCount(entries, q, FD_MAX)
  {
    var r := WithTable(d, t, c, entries);
    forall u | u in r.saved ensures Eff(r, u) == if u == t then entries else Eff(d, u) {
      WithTableEff(d, t, c, entries, u);
    }
    assert PipeHolders(r, q) == PipeHolders(d, q) + PipePart(entries, t, q, FD_MAX);
    assert PipeHolders(d, q) !! PipePart(entries, t, q, FD_MAX);
    PipePartSize(entries, t, q, FD_MAX);
  }

  lemma WithTableShared(d: State, t: nat, c: nat, entries: Table)
    requires Inv(d) && t !in d.saved && c !in d.procs
    ensures Shape(WithTable(d, t, c, entries)) && Shared(WithTable(d, t, c, entries))
  {
    WithTableShape(d, t, c, entries);
    var r := WithTable(d, t, c, entries);
    forall u | u in r.saved ensures r.shares[u] == |Sharers(r, u)| && r.shares[u] > 0 {
      if u == t {
        assert Sharers(r, u) == {c};
      } else {
        assert Sharers(r, u) == Sharers(d, u);
      }
    }
  }

  /** Adding a table and counting its entries keeps every count exact. */
  lemma TableAdded(d: State, t: nat, c: nat, entries: Table, r: State)
    requires Inv(d) && t !in d.saved && c !in d.procs && AllOk(d, entries)
    requires Shape(WithTable(d, t, c, entries)) && Retained(WithTable(d, t, c, entries), entries, FD_MAX, r)
    ensures Inv(r)
  {
    var m := WithTable(d, t, c, entries);
    forall k | 0 <= k < FILE_SLOTS ensures FileRefs(r, k) == |FileHolders(r, k)| {
      WithTableFiles(d, t, c, entries, k);
      TabsHolders(m, r, k);
    }
    forall q | 0 <= q < PIPE_MAX && r.pipes[q].used ensures r.pipes[q].writers == |PipeHolders(r, q)| {
      WithTablePipes(d, t, c, entries, q);
      TabsHolders(m, r, q);
    }
    forall u, i | u in r.saved && 0 <= i < FD_MAX ensures EntryOk(r, Eff(r, u)[i]) {
      WithTableEff(d, t, c, entries, u);
      assert EntryOk(d, if u == t then entries[i] else Eff(d, u)[i]);
    }
    WithTableShared(d, t, c, entries);
    SharedSame(m, r);
  }

  lemma LiveOk(d: State)
    requires Inv(d) && d.cur.Some?
    ensures AllOk(d, d.live)
  {
    forall i | 0 <= i < FD_MAX ensures EntryOk(d, d.live[i]) {
      assert EntryOk(d, Eff(d, CurTable(d))[i]);
    }
  }

  lemma ForkCounts(d: State, t: nat, c: nat)
    requires Inv(d) && d.cur.Some? && t !in d.saved && c !in d.procs
    ensures Shape(WithTable(d, t, c, d.live)) && AllOk(d, d.live)
    ensures Retained(WithTable(d, t, c, d.live), d.live, FD_MAX, Fork(d, t, c))
  {
    LiveOk(d);
    WithTableShape(d, t, c, d.live);
    var m := WithTable(d, t, c, d.live);
    forall i | 0 <= i < FD_MAX ensures EntryOk(m, d.live[i]) {
      assert EntryOk(d, d.live[i]);
    }
    RetainCounts(m, d.live, FD_MAX);
  }

  lemma ForkKeeps(d: State, t: nat, c: nat)
    requires Inv(d) && d.cur.Some? && t !in d.saved && c !in d.procs
    ensures Inv(Fork(d, t, c)) && Fork(d, t, c).saved[t] == d.live
  {
    ForkCounts(d, t, c);
    TableAdded(d, t, c, d.live, Fork(d, t, c));
  }

  /** proc_fdstate_share: CLONE_FILES. */
  function ShareTable(d: State, c: nat): (r: State)
    requires Shape(d) && d.cur.Some? && c !in d.procs
  {
    var t := CurTable(d);
    d.(shares := d.shares[t := d.shares[t] + 1], procs := d.procs[c := t])
  }

  lemma ShareTableKeeps(d: State, c: nat)
    requires Inv(d) && d.cur.Some? && c !in d.procs
    ensures Inv(ShareTable(d, c))
  {
    var r := ShareTable(d, c);
    assert r.shares.Keys == r.saved.Keys;
    forall t | t in d.saved ensures Eff(r, t) == Eff(d, t) {
    }
    forall k: nat ensures FileHolders(r, k) == FileHolders(d, k) && PipeHolders(r, k) == PipeHolders(d, k) {
    }
    forall t, i | t in r.saved && 0 <= i < FD_MAX ensures EntryOk(r, Eff(r, t)[i]) {
      assert EntryOk(d, Eff(d, t)[i]);
    }
    forall t | t in r.saved ensures r.shares[t] == |Sharers(r, t)| && r.shares[t] > 0 {
      assert Sharers(r, t) == Sharers(d, t) + (if t == CurTable(d) then {c} else {});
      assert c !in Sharers(d, t);
    }
  }

  // ---------------------------------------------------------------- launch

  /** user_fds_reset: standard input, output and error. */
  function Stdio(): (t: Table) { [Other(1), Other(2), Other(3)] + seq(FD_MAX - 3, _ => Free) }

  /** user_run_image: a fresh table for process `p`, which starts to run. */
  function Launch(d: State, t: nat, p: nat): (r: State)
    requires Shape(d) && t !in d.saved && p !in d.procs
  {
    WithTable(d, t, p, Stdio()).(live := Stdio(), cur := Some(p))
  }

  lemma {:induction false} StdioCounts(k: nat, n: nat)
    requires n <= FD_MAX
    ensures FileCount(Stdio(), k, n) == 0 && PipeCount(Stdio(), k, n) == 0
    decreases n
  {
    if n > 0 {
      StdioCounts(k, n - 1);
    }
  }

  lemma LaunchKeeps(d: State, t: nat, p: nat)
    requires Inv(d) && d.cur.None? && t !in d.saved && p !in d.procs
    ensures Inv(Launch(d, t, p))
  {
    var m := WithTable(d, t, p, Stdio());
    WithTableShape(d, t, p, Stdio());
    forall k: nat ensures FileCount(Stdio(), k, FD_MAX) == 0 && PipeCount(Stdio(), k, FD_MAX) == 0 {
      StdioCounts(k, FD_MAX);
    }
    assert Retained(m, Stdio(), FD_MAX, m);
    assert AllOk(d, Stdio());
    TableAdded(d, t, p, Stdio(), m);
    var r := Launch(d, t, p);
    assert forall u | u in m.saved :: Eff(r, u) == Eff(m, u);
    EffKeeps(m, r);
  }

  // ---------------------------------------------------------------- reaping

  /** The table of `p` gone, counts untouched. */
  function Without(d: State, p: nat): (r: State)
    requires Shape(d) && p in d.procs
  {
    d.(saved := d.saved - {d.procs[p]}, shares := d.shares - {d.procs[p]}, procs := d.procs - {p})
  }

  /** proc_reap: one holder less; the last one releases every entry. */
  function Reap(d: State, p: nat): (r: State)
    requires Shape(d) && p in d.procs && d.cur != Some(p)
  {
    var t := d.procs[p];
    if d.shares[t] > 1 then d.(shares := d.shares[t := d.shares[t] - 1], procs := d.procs - {p})
    else Without(Release(d, d.saved[t], FD_MAX), p)
  }

  lemma ReapShared(d: State, p: nat)
    requires Inv(d) && p in d.procs && d.cur != Some(p) && d.shares[d.procs[p]] > 1
    ensures Inv(Reap(d, p))
  {
    var r, t0 := Reap(d, p), d.procs[p];
    assert r.shares.Keys == r.saved.Keys;
    forall t | t in d.saved ensures Eff(r, t) == Eff(d, t) {
    }
    forall k: nat ensures FileHolders(r, k) == FileHolders(d, k) && PipeHolders(r, k) == PipeHolders(d, k) {
    }
    forall t, i | t in r.saved && 0 <= i < FD_MAX ensures EntryOk(r, Eff(r, t)[i]) {
      assert EntryOk(d, Eff(d, t)[i]);
    }
    forall t | t in r.saved ensures r.shares[t] == |Sharers(r, t)| && r.shares[t] > 0 {
      assert Sharers(r, t) == Sharers(d, t) - {p};
      assert t == t0 <==> p in Sharers(d, t);
    }
  }

  /** The last holder is not the running process, so the saved table is the true one. */
  lemma LastHolder(d: State, p: nat)
    requires Inv(d) && p in d.procs && d.cur != Some(p) && d.shares[d.procs[p]] <= 1
    ensures Sharers(d, d.procs[p]) == {p} && Eff(d, d.procs[p]) == d.saved[d.procs[p]]
  {
    var t := d.procs[p];
    assert p in Sharers(d, t);
    OnlyOne(Sharers(d, t), p);
    if d.cur.Some? {
      assert d.cur.value !in Sharers(d, t);
    }
  }

  lemma OnlyOne(s: set<nat>, p: nat)
    requires p in s && |s| <= 1
    ensures s == {p}
  {
    assert |s - {p}| == |s| - 1;
  }

  lemma WithoutHolders(d: State, p: nat, k: nat)
    requires Shape(d) && p in d.procs && Sharers(d, d.procs[p]) == {p} && d.cur != Some(p) && Shape(Without(d, p))
    requires Eff(d, d.procs[p]) == d.saved[d.procs[p]]
    ensures var r, t := Without(d, p), d.procs[p];
            && |FileHolders(r, k)| + FileCount(d.saved[t], k, FD_MAX) == |FileHolders(d, k)|
            && |PipeHolders(r, k)| + PipeCount(d.saved[t], k, FD_MAX) == |PipeHolders(d, k)|
  {
    var r, t := Without(d, p), d.procs[p];
    forall u | u in r.saved ensures Eff(r, u) == Eff(d, u) {
      WithoutEff(d, p, u);
    }
    assert FileHolders(d, k) == FileHolders(r, k) + FilePart(d.saved[t], t, k, FD_MAX);
    assert PipeHolders(d, k) == PipeHolders(r, k) + PipePart(d.saved[t], t, k, FD_MAX);
    assert FileHolders(r, k) !! FilePart(d.saved[t], t, k, FD_MAX) && PipeHolders(r, k) !! PipePart(d.saved[t], t, k, FD_MAX);
    FilePartSize(d.saved[t], t, k, FD_MAX);
    PipePartSize(d.saved[t], t, k, FD_MAX);
  }

  lemma WithoutEff(d: State, p: nat, u: nat)
    requires Shape(d) && p in d.procs && d.cur != Some(p) && u in Without(d, p).saved
    ensures Eff(Without(d, p), u) == Eff(d, u)
  {
  }

  lemma WithoutShape(d: State, p: nat)
    requires Shape(d) && p in d.procs && Sharers(d, d.procs[p]) == {p} && d.cur != Some(p)
    ensures Shape(Without(d, p))
  {
    var r, t := Without(d, p), d.procs[p];
    forall q | q in r.procs ensures r.procs[q] in r.saved {
      assert q !in Sharers(d, t);
    }
    assert r.shares.Keys == r.saved.Keys;
  }

  /** What the released table held was covered by the counts. */
  lemma ReapCovers(d: State, p: nat)
    requires Inv(d) && p in d.procs && d.cur != Some(p) && d.shares[d.procs[p]] <= 1
    ensures Shape(Without(d, p)) && Covers(d, d.saved[d.procs[p]]) && AllOk(d, d.saved[d.procs[p]])
  {
    var t := d.procs[p];
    LastHolder(d, p);
    WithoutShape(d, p);
    forall k | 0 <= k < FILE_SLOTS ensures FileCount(d.saved[t], k, FD_MAX) <= FileRefs(d, k) {
      WithoutHolders(d, p, k);
    }
    forall q | 0 <= q < PIPE_MAX && d.pipes[q].used ensures PipeCount(d.saved[t], q, FD_MAX) <= d.pipes[q].writers {
      WithoutHolders(d, p, q);
    }
    forall i | 0 <= i < FD_MAX ensures EntryOk(d, d.saved[t][i]) {
      assert EntryOk(d, Eff(d, t)[i]);
    }
  }

  lemma ReapCounted(d: State, p: nat, m: State)
    requires Inv(d) && p in d.procs && d.cur != Some(p) && Sharers(d, d.procs[p]) == {p}
    requires Eff(d, d.procs[p]) == d.saved[d.procs[p]] && Freed(d, d.saved[d.procs[p]], FD_MAX, m)
    ensures Shape(Without(m, p)) && Counted(Without(m, p))
  {
    assert Sharers(m, m.procs[p]) == Sharers(d, d.procs[p]);
    WithoutShape(m, p);
    WithoutShape(d, p);
    var r, x := Without(m, p), Without(d, p);
    forall k | 0 <= k < FILE_SLOTS ensures FileRefs(r, k) == |FileHolders(r, k)| {
      WithoutHolders(d, p, k);
      TabsHolders(x, r, k);
    }
    forall q | 0 <= q < PIPE_MAX && r.pipes[q].used ensures r.pipes[q].writers == |PipeHolders(r, q)| {
      WithoutHolders(d, p, q);
      TabsHolders(x, r, q);
    }
  }

  lemma ReapTables(d: State, p: nat, m: State)
    requires Inv(d) && p in d.procs && d.cur != Some(p) && Sharers(d, d.procs[p]) == {p}
    requires Freed(d, d.saved[d.procs[p]], FD_MAX, m) && Shape(Without(m, p)) && Counted(Without(m, p))
    ensures TablesOk(Without(m, p))
  {
    var r := Without(m, p);
    forall u, i | u in r.saved && 0 <= i < FD_MAX ensures EntryOk(r, Eff(r, u)[i]) {
      WithoutEff(m, p, u);
      assert Eff(m, u) == Eff(d, u);
      assert EntryOk(d, Eff(d, u)[i]);
      var e := Eff(r, u)[i];
      if e.OnFile? {
        assert (u, i) in FileHolders(r, e.slot);
      }
    }
  }

  lemma WithoutShared(d: State, p: nat)
    requires Shape(d) && Shared(d) && p in d.procs && Shape(Without(d, p)) && Sharers(d, d.procs[p]) == {p}
    ensures Shared(Without(d, p))
  {
    var r := Without(d, p);
    forall t | t in r.saved ensures r.shares[t] == |Sharers(r, t)| && r.shares[t] > 0 {
      assert Sharers(r, t) == Sharers(d, t);
    }
  }

  lemma ReapKeeps(d: State, p: nat)
    requires Inv(d) && p in d.procs && d.cur != Some(p)
    ensures Inv(Reap(d, p))
  {
    if d.shares[d.procs[p]] > 1 {
      ReapShared(d, p);
    } else {
      var t := d.saved[d.procs[p]];
      LastHolder(d, p);
      ReapCovers(d, p);
      ReleaseCounts(d, t, FD_MAX);
      var m := Release(d, t, FD_MAX);
      ReapCounted(d, p, m);
      ReapTables(d, p, m);
      SharedSame(d, m);
      assert Sharers(m, m.procs[p]) == Sharers(d, d.procs[p]);
      WithoutShared(m, p);
    }
  }

  // ---------------------------------------------------------------- the file system underneath

  /** A change to the file system that keeps open counts and every counted slot. */
  lemma FsKeeps(d: State, fs: Fs)
    requires Inv(d) && FsOk(fs)
    requires forall k | 0 <= k < FILE_SLOTS ::
               fs.files[k].refs == d.fs.files[k].refs && (fs.files[k].refs > 0 && d.fs.files[k].m.used != 0 ==> fs.files[k].m.used != 0)
    ensures Inv(d.(fs := fs))
  {
    var r := d.(fs := fs);
    forall k: nat ensures FileHolders(r, k) == FileHolders(d, k) && PipeHolders(r, k) == PipeHolders(d, k) {
      TabsHolders(d, r, k);
    }
    forall t, i | t in r.saved && 0 <= i < FD_MAX ensures EntryOk(r, Eff(r, t)[i]) {
      HolderCounts(d, t, i);
    }
    SharedSame(d, r);
  }

  /** The file system `t` in which slot `c` starts a new life; negative means nothing was created. */
  function Adopt(d: State, t: Fs, c: int): (r: (State, int)) {
    if 0 <= c < |d.born| then (d.(fs := t, born := d.born[c := d.born[c] + 1]), c) else (d, -1)
  }

  /** fs_create */
  function CreateFile(d: State, path: Path, now: Word): (r: (State, int))
    requires Shape(d)
  {
    Adopt(d, Create(d.fs, path, now).0, Create(d.fs, path, now).1)
  }

  /** No descriptor names an unused slot. */
  lemma UnusedUnnamed(d: State, k: nat)
    requires Inv(d) && k < FILE_SLOTS && d.fs.files[k].m.used == 0
    ensures FileHolders(d, k) == {} && d.fs.files[k].refs == 0
  {
    forall t, i | t in d.saved && 0 <= i < FD_MAX ensures !NamesFile(Eff(d, t)[i], k) {
      assert EntryOk(d, Eff(d, t)[i]);
    }
    assert FileHolders(d, k) == {};
  }

  /** A new life of a slot nobody names. */
  lemma BornKeeps(d: State, c: nat)
    requires Inv(d) && c < FILE_SLOTS && FileHolders(d, c) == {}
    ensures Inv(d.(born := d.born[c := d.born[c] + 1]))
  {
    var r := d.(born := d.born[c := d.born[c] + 1]);
    assert forall t | t in d.saved :: Eff(r, t) == Eff(d, t);
    forall k: nat ensures FileHolders(r, k) == FileHolders(d, k) && PipeHolders(r, k) == PipeHolders(d, k) {
    }
    forall t, i | t in r.saved && 0 <= i < FD_MAX ensures EntryOk(r, Eff(r, t)[i]) {
      assert EntryOk(d, Eff(d, t)[i]);
      assert NamesFile(Eff(d, t)[i], c) ==> (t, i) in FileHolders(d, c);
    }
    SharedSame(d, r);
  }

  lemma Reborn(d: State, fs: Fs, c: nat)
    requires Inv(d) && FsOk(fs) && c < FILE_SLOTS && FileHolders(d, c) == {}
    requires forall k | 0 <= k < FILE_SLOTS ::
               fs.files[k].refs == d.fs.files[k].refs && (fs.files[k].refs > 0 && d.fs.files[k].m.used != 0 ==> fs.files[k].m.used != 0)
    ensures Inv(d.(fs := fs, born := d.born[c := d.born[c] + 1]))
  {
    var m := d.(fs := fs);
    FsKeeps(d, fs);
    TabsHolders(d, m, c);
    BornKeeps(m, c);
  }

  /** What fs_create tells its caller, as far as descriptors go. */
  predicate Fresh(s: Fs, t: Fs, c: int) {
    c >= 0 ==> && Shaped(s) && FsOk(t) && c < FILE_SLOTS && s.files[c].m.used == 0 && t.files[c].refs == 0
               && forall k | 0 <= k < FILE_SLOTS && k != c :: t.files[k] == s.files[k]
  }

  lemma AdoptKeeps(d: State, t: Fs, c: int)
    requires Inv(d) && Fresh(d.fs, t, c)
    ensures Inv(Adopt(d, t, c).0) && (c >= 0 ==> FileHolders(d, c) == {})
  {
    if c >= 0 {
      UnusedUnnamed(d, c);
      Reborn(d, t, c);
    }
  }

  lemma CreateFresh(s: Fs, path: Path, now: Word)
    requires FsOk(s)
    ensures Fresh(s, Create(s, path, now).0, Create(s, path, now).1)
  {
    CreateKeeps(s, path, now);
  }

  /** A new file never takes a slot that a descriptor names. */
  lemma CreateFileKeeps(d: State, path: Path, now: Word)
    requires Inv(d)
    ensures Inv(CreateFile(d, path, now).0)
    ensures CreateFile(d, path, now).1 >= 0 ==> FileHolders(d, CreateFile(d, path, now).1) == {}
  {
    CreateFresh(d.fs, path, now);
    AdoptKeeps(d, Create(d.fs, path, now).0, Create(d.fs, path, now).1);
  }

  /** fs_delete */
  function Unlink(d: State, path: Path, now: Word): (r: State)
    requires Shape(d)
  {
    d.(fs := Delete(d.fs, path, now).0)
  }

  lemma UnlinkKeeps(d: State, path: Path, now: Word)
    requires Inv(d)
    ensures Inv(Unlink(d, path, now))
  {
    DeleteKeeps(d.fs, path, now);
    FsKeeps(d, Unlink(d, path, now).fs);
  }

  /** The other operations on names and contents; they are named by path or by slot. */
  datatype Change =
    | MakeDir(path: Path)
    | DropDir(path: Path)
    | RenameFile(slot: int, path: Path)
    | MoveDir(path: Path, to: Path)
    | Rewrite(slot: int, data: seq<Byte>)
    | Patch(slot: int, off: nat, data: seq<Byte>)
    | Cut(slot: int, len: nat)

  function Changed(s: Fs, c: Change, now: Word): (r: Fs)
    requires Shaped(s)
  {
    match c
    case MakeDir(p) => Mkdir(s, p).0
    case DropDir(p) => Rmdir(s, p).0
    case RenameFile(i, p) => Rename(s, i, p, now).0
    case MoveDir(p, q) => RenameDir(s, p, q, now).0
    case Rewrite(i, data) => Write(s, i, data, now).0
    case Patch(i, off, data) => WriteAt(s, i, off, data, now).0
    case Cut(i, len) => Truncate(s, i, len, now).0
  }

  /** No change of names or contents touches an open count or a slot's being used. */
  predicate CountsKept(s: Fs, t: Fs) {
    && Shaped(s) && Shaped(t)
    && forall k | 0 <= k < FILE_SLOTS :: t.files[k].refs == s.files[k].refs && t.files[k].m.used == s.files[k].m.used
  }

  lemma BodyChanged(s: Fs, i: int, f: File)
    requires FsOk(s) && InUse(s, i) && f.m.size <= MAX_SIZE && f.refs == s.files[i].refs
    requires f.m.name == s.files[i].m.name && f.m.used == s.files[i].m.used && f.m.deleted == s.files[i].m.deleted
    ensures FsOk(SetFile(s, i, f)) && CountsKept(s, SetFile(s, i, f))
  {
    ContentKeeps(s, i, f);
  }

  lemma ContentsChanged(s: Fs, c: Change, now: Word)
    requires FsOk(s) && (c.Rewrite? || c.Patch? || c.Cut?)
    ensures FsOk(Changed(s, c, now)) && CountsKept(s, Changed(s, c, now))
  {
    var t := Changed(s, c, now);
    if t != s {
      assert SlotOk(s.files[c.slot].m);
      BodyChanged(s, c.slot, t.files[c.slot]);
    }
  }

  lemma ChangedKeeps(s: Fs, c: Change, now: Word)
    requires FsOk(s)
    ensures FsOk(Changed(s, c, now)) && CountsKept(s, Changed(s, c, now))
  {
    match c {
      case MakeDir(p) => MkdirKeeps(s, p);
      case DropDir(p) => RmdirKeeps(s, p);
      case RenameFile(i, p) => RenameKeeps(s, i, p, now);
      case MoveDir(p, q) => RenameDirMeaning(s, p, q, now);
      case _ => ContentsChanged(s, c, now);
    }
  }

  function Alter(d: State, c: Change, now: Word): (r: State)
    requires Shape(d)
  {
    d.(fs := Changed(d.fs, c, now))
  }

  lemma AlterKeeps(d: State, c: Change, now: Word)
    requires Inv(d)
    ensures Inv(Alter(d, c, now))
  {
    ChangedKeeps(d.fs, c, now);
    FsKeeps(d, Changed(d.fs, c, now));
  }

  // ---------------------------------------------------------------- runs

  /** No process yet, nothing open. */
  function NothingOpen(fs: Fs): (d: State) {
    State(fs, seq(FILE_SLOTS, _ => 0), seq(PIPE_MAX, _ => Pipe(false, 0)), seq(FD_MAX, _ => Free), map[], map[], map[], None)
  }

  /** A mounted file system with nothing open is a good start. */
  lemma StartInv(fs: Fs)
    requires FsOk(fs) && forall k | 0 <= k < FILE_SLOTS :: fs.files[k].refs == 0
    ensures Inv(NothingOpen(fs))
  {
    var d := NothingOpen(fs);
    forall k: nat ensures FileHolders(d, k) == {} && PipeHolders(d, k) == {} {
    }
  }

  datatype Op =
    | OpOpen(path: Path)
    | OpClose(fd: int)
    | OpDup(fd: int)
    | OpDup2(fd: int, onto: int)
    | OpPipe
    | OpFork(table: nat, child: nat)
    | OpThread(child: nat)
    | OpSwitch(next: nat)
    | OpExit
    | OpReap(proc: nat)
    | OpLaunch(table: nat, proc: nat)
    | OpCreate(path: Path)
    | OpUnlink(path: Path)
    | OpChange(change: Change)

  /** The operation can happen: some process runs, names are fresh or live as they must be. */
  predicate Applies(d: State, op: Op) {
    match op
    case OpFork(t, c) => d.cur.Some? && t !in d.saved && c !in d.procs
    case OpThread(c) => d.cur.Some? && c !in d.procs
    case OpSwitch(p) => d.cur.Some? && p in d.procs
    case OpReap(p) => p in d.procs && d.cur != Some(p)
    case OpLaunch(t, p) => d.cur.None? && t !in d.saved && p !in d.procs
    case OpCreate(_) => true
    case OpUnlink(_) => true
    case OpChange(_) => true
    case _ => d.cur.Some?
  }

  function Step(d: State, op: Op, now: Word): (r: State)
    requires Inv(d) && Applies(d, op)
  {
    match op
    case OpOpen(p) => Open(d, p).0
    case OpClose(fd) => Close(d, fd)
    case OpDup(fd) => Dup(d, fd).0
    case OpDup2(a, b) => Dup2(d, a, b).0
    case OpPipe => MakePipe(d).0
    case OpFork(t, c) => Fork(d, t, c)
    case OpThread(c) => ShareTable(d, c)
    case OpSwitch(p) => Switch(d, p)
    case OpExit => Leave(d)
    case OpReap(p) => Reap(d, p)
    case OpLaunch(t, p) => Launch(d, t, p)
    case OpCreate(p) => CreateFile(d, p, now).0
    case OpUnlink(p) => Unlink(d, p, now)
    case OpChange(c) => Alter(d, c, now)
  }

  lemma StepKeeps(d: State, op: Op, now: Word)
    requires Inv(d) && Applies(d, op)
    ensures Inv(Step(d, op, now))
  {
    match op
    case OpOpen(p) => OpenKeeps(d, p);
    case OpClose(fd) => MakePipeClose(d, fd);
    case OpDup(fd) => DupKeeps(d, fd);
    case OpDup2(a, b) => Dup2Keeps(d, a, b);
    case OpPipe => MakePipeKeeps(d);
    case OpFork(t, c) => ForkKeeps(d, t, c);
    case OpThread(c) => ShareTableKeeps(d, c);
    case OpSwitch(p) => SwitchKeeps(d, p);
    case OpExit => LeaveKeeps(d);
    case OpReap(p) => ReapKeeps(d, p);
    case OpLaunch(t, p) => LaunchKeeps(d, t, p);
    case OpCreate(p) => CreateFileKeeps(d, p, now);
    case OpUnlink(p) => UnlinkKeeps(d, p, now);
    case OpChange(c) => AlterKeeps(d, c, now);
  }

  /** One step of a run; tables whose counts are wrong may do anything. */
  ghost predicate Goes(d: State, op: (Op, Word), r: State) {
    Inv(d) ==> Applies(d, op.0) && r == Step(d, op.0, op.1)
  }

  ghost predicate RunOf(ds: seq<State>, ops: seq<(Op, Word)>) {
    |ds| == |ops| + 1 && forall k | 0 <= k < |ops| :: Goes(ds[k], ops[k], ds[k + 1])
  }

  /** Every open descriptor names a file in use, and the one it was opened on. */
  ghost predicate NamesItsFile(r: State) {
    forall t, i | t in r.saved && 0 <= i < FD_MAX && Eff(r, t)[i].OnFile? ::
      var e := Eff(r, t)[i]; e.slot < FILE_SLOTS && InUse(r.fs, e.slot) && e.slot < |r.born| && r.born[e.slot] == e.born
  }

  lemma InvNames(r: State)
    requires Inv(r)
    ensures NamesItsFile(r)
  {
    forall t, i | t in r.saved && 0 <= i < FD_MAX && Eff(r, t)[i].OnFile?
      ensures var e := Eff(r, t)[i]; e.slot < FILE_SLOTS && InUse(r.fs, e.slot) && r.born[e.slot] == e.born
    {
      assert EntryOk(r, Eff(r, t)[i]);
    }
  }

  /** Along every run every count stays exact, and every open descriptor still names the file it was opened on. */
  lemma {:induction false} RunKeeps(ds: seq<State>, ops: seq<(Op, Word)>, k: nat)
    requires RunOf(ds, ops) && Inv(ds[0]) && k < |ds|
    ensures Inv(ds[k]) && NamesItsFile(ds[k])
  {
    if k > 0 {
      RunKeeps(ds, ops, k - 1);
      assert Goes(ds[k - 1], ops[k - 1], ds[k]);
      StepKeeps(ds[k - 1], ops[k - 1].0, ops[k - 1].1);
    }
    InvNames(ds[k]);
  }

  /** From a mounted file system with nothing open, the same. */
  lemma ReachableKeeps(fs: Fs, ds: seq<State>, ops: seq<(Op, Word)>, k: nat)
    requires FsOk(fs) && (forall j | 0 <= j < FILE_SLOTS :: fs.files[j].refs == 0)
    requires RunOf(ds, ops) && ds[0] == NothingOpen(fs) && k < |ds|
    ensures Inv(ds[k]) && NamesItsFile(ds[k])
  {
    StartInv(fs);
    RunKeeps(ds, ops, k);
  }

  /** Fork and then reaping the child gives every count back. */
  lemma ForkReapBalances(d: State, t: nat, c: nat)
    requires Inv(d) && d.cur.Some? && t !in d.saved && c !in d.procs
    ensures Inv(Fork(d, t, c)) && c in Fork(d, t, c).procs && Fork(d, t, c).cur != Some(c)
    ensures forall k | 0 <= k < FILE_SLOTS :: Reap(Fork(d, t, c), c).fs.files[k].refs == d.fs.files[k].refs
    ensures forall q | 0 <= q < PIPE_MAX && d.pipes[q].used :: Reap(Fork(d, t, c), c).pipes[q].writers == d.pipes[q].writers
  {
    ForkKeeps(d, t, c);
    ForkCounts(d, t, c);
    var f := Fork(d, t, c);
    assert f.procs[c] == t && f.saved[t] == d.live && f.shares[t] == 1;
    ReapCovers(f, c);
    ReleaseCounts(f, d.live, FD_MAX);
    BackToStart(WithTable(d, t, c, d.live), d.live, f, Release(f, d.live, FD_MAX));
  }

  lemma BackToStart(m: State, t: Table, f: State, r: State)
    requires Shape(m) && Retained(m, t, FD_MAX, f) && Freed(f, t, FD_MAX, r)
    ensures forall k | 0 <= k < FILE_SLOTS :: FileRefs(r, k) == FileRefs(m, k)
    ensures forall q | 0 <= q < PIPE_MAX && m.pipes[q].used :: r.pipes[q].writers == m.pipes[q].writers
  {
  }
}
