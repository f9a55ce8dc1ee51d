/**
 Descriptor tables (`src/user.c`, `src/proc.c`, `src/syscall.c`): one live table for the running
 process, one saved table per process or thread group, and the reference counts of files and
 pipe writers they must account for.
 */
module Descriptors {
  import opened Options
  import opened MufsJournal
  import opened Mufs
  import opened MufsTree

  const FD_MAX: nat := 11
  const PIPE_MAX: nat := 8

  /** A descriptor; a file descriptor remembers which life of the slot it was opened in. */
  datatype Entry = Free | OnFile(slot: nat, born: nat) | PipeRead(pipe: nat) | PipeWrite(pipe: nat) | Other(kind: nat)

  type Table = t: seq<Entry> | |t| == FD_MAX witness seq(FD_MAX, _ => Free)

  datatype Pipe = Pipe(used: bool, writers: nat)

  /**
   File system, births of its slots, pipes, the live table, the saved tables with their share
   counts, the table of each process, and the running process.
   */
  datatype State = State(fs: Fs, born: seq<nat>, pipes: seq<Pipe>, live: Table, saved: map<nat, Table>,
                         shares: map<nat, nat>, procs: map<nat, nat>, cur: Option<nat>)

  /** The entries of table `t`: the live table stands for that of the running process. */
  function Eff(d: State, t: nat): (r: Table)
    requires t in d.saved
  {
    if d.cur.Some? && d.cur.value in d.procs && d.procs[d.cur.value] == t then d.live else d.saved[t]
  }

  predicate NamesFile(e: Entry, k: nat) { e.OnFile? && e.slot == k }
  predicate NamesPipe(e: Entry, q: nat) { e.PipeWrite? && e.pipe == q }

  /** The (table, descriptor) pairs that have file slot `k` open. */
  ghost function FileHolders(d: State, k: nat): set<(nat, nat)> {
    set t: nat, i: nat | t in d.saved && i < FD_MAX && NamesFile(Eff(d, t)[i], k) :: (t, i)
  }

  /** ... and those that hold the write end of pipe `q`. */
  ghost function PipeHolders(d: State, q: nat): set<(nat, nat)> {
    set t: nat, i: nat | t in d.saved && i < FD_MAX && NamesPipe(Eff(d, t)[i], q) :: (t, i)
  }

  ghost function Sharers(d: State, t: nat): set<nat> { set p | p in d.procs && d.procs[p] == t }

  /** A descriptor names something that is there, in the life it was opened in. */
  predicate EntryOk(d: State, e: Entry) {
    match e
    case OnFile(k, b) => k < FILE_SLOTS && |d.born| == FILE_SLOTS && |d.fs.files| == FILE_SLOTS && d.fs.files[k].m.used != 0 && d.born[k] == b
    case PipeWrite(q) => q < |d.pipes| && d.pipes[q].used
    case _ => true
  }

  predicate TablesOk(d: State) { forall t, i | t in d.saved && 0 <= i < FD_MAX :: EntryOk(d, Eff(d, t)[i]) }

  predicate Shape(d: State) {
    && FsOk(d.fs) && |d.born| == FILE_SLOTS && |d.pipes| == PIPE_MAX
    && (d.cur.Some? ==> d.cur.value in d.procs)
    && (forall p | p in d.procs :: d.procs[p] in d.saved)
    && d.shares.Keys == d.saved.Keys
  }

  ghost predicate Shared(d: State)
    requires Shape(d)
  {
    forall t | t in d.saved :: d.shares[t] == |Sharers(d, t)| && d.shares[t] > 0
  }

  /** Every count is the number of descriptors it stands for. */
  ghost predicate Counted(d: State)
    requires Shape(d)
  {
    && (forall k | 0 <= k < FILE_SLOTS :: d.fs.files[k].refs == |FileHolders(d, k)|)
    && (forall q | 0 <= q < PIPE_MAX && d.pipes[q].used :: d.pipes[q].writers == |PipeHolders(d, q)|)
  }

  ghost predicate Inv(d: State) { Shape(d) && TablesOk(d) && Shared(d) && Counted(d) }

  // ---------------------------------------------------------------- one entry

  /** fd_entry_ref(+1, e) */
  function Grab(d: State, e: Entry): (r: State)
    requires Shape(d)
  {
    match e
    case OnFile(k, _) => d.(fs := Ref(d.fs, k).0)
    case PipeWrite(q) =>
      if q < |d.pipes| && d.pipes[q].used then d.(pipes := d.pipes[q := d.pipes[q].(writers := d.pipes[q].writers + 1)])
      else d
    case _ => d
  }

  /** fd_entry_ref(-1, e) */
  function Drop(d: State, e: Entry): (r: State)
    requires Shape(d)
  {
    match e
    case OnFile(k, _) => d.(fs := Mufs.Unref(d.fs, k).0)
    case PipeWrite(q) =>
      if q < |d.pipes| && d.pipes[q].used && d.pipes[q].writers > 0 then
        d.(pipes := d.pipes[q := d.pipes[q].(writers := d.pipes[q].writers - 1)])
      else d
    case _ => d
  }

  /** Entry `i` of the live table replaced, counts untouched. */
  function SetLive(d: State, i: nat, e: Entry): (r: State)
    requires i < FD_MAX
  {
    d.(live := d.live[i := e])
  }

  /** The table the live one stands for. */
  function CurTable(d: State): (t: nat)
    requires Shape(d) && d.cur.Some?
    ensures t in d.saved
  {
    d.procs[d.cur.value]
  }

  lemma EffLive(d: State, i: nat, e: Entry, t: nat)
    requires Shape(d) && d.cur.Some? && i < FD_MAX && t in d.saved
    ensures Eff(SetLive(d, i, e), t) == if t == CurTable(d) then d.live[i := e] else Eff(d, t)
  {
  }

  lemma LiveHolders(d: State, i: nat, e: Entry, k: nat)
    requires Shape(d) && d.cur.Some? && i < FD_MAX
    ensures var x := (CurTable(d), i);
            var r := SetLive(d, i, e);
            && FileHolders(r, k) == FileHolders(d, k) - {x} + (if NamesFile(e, k) then {x} else {})
            && PipeHolders(r, k) == PipeHolders(d, k) - {x} + (if NamesPipe(e, k) then {x} else {})
            && (x in FileHolders(d, k) <==> NamesFile(d.live[i], k))
            && (x in PipeHolders(d, k) <==> NamesPipe(d.live[i], k))
  {
    forall t | t in d.saved ensures Eff(SetLive(d, i, e), t) == if t == CurTable(d) then d.live[i := e] else Eff(d, t) {
      EffLive(d, i, e, t);
    }
  }

  // ---------------------------------------------------------------- counts alone

  /** `r` has the tables of `d`. */
  predicate SameTabs(d: State, r: State) {
    r.live == d.live && r.saved == d.saved && r.shares == d.shares && r.procs == d.procs && r.cur == d.cur && r.born == d.born
  }

  lemma TabsHolders(d: State, r: State, k: nat)
    requires SameTabs(d, r)
    ensures FileHolders(r, k) == FileHolders(d, k) && PipeHolders(r, k) == PipeHolders(d, k)
  {
    assert forall t | t in d.saved :: Eff(r, t) == Eff(d, t);
  }

  function FileRefs(d: State, k: nat): nat
    requires Shape(d) && k < FILE_SLOTS
  {
    d.fs.files[k].refs
  }

  /** What Grab does to the counts: one more for what the entry names, in use or not as before. */
  lemma GrabCounts(d: State, e: Entry)
    requires Shape(d) && EntryOk(d, e)
    ensures var r := Grab(d, e);
            && Shape(r) && SameTabs(d, r) && NamesOf(r.fs) == NamesOf(d.fs)
            && (forall k | 0 <= k < FILE_SLOTS ::
                  FileRefs(r, k) == FileRefs(d, k) + (if NamesFile(e, k) then 1 else 0) && r.fs.files[k].m == d.fs.files[k].m)
            && (forall q | 0 <= q < PIPE_MAX ::
                  r.pipes[q].used == d.pipes[q].used && r.pipes[q].writers == d.pipes[q].writers + (if NamesPipe(e, q) then 1 else 0))
  {
    if e.OnFile? {
      RefKeeps(d.fs, e.slot);
    }
  }

  /** ... and Drop: one less; a slot falls out of use only when its count reaches zero. */
  lemma DropCounts(d: State, e: Entry)
    requires Shape(d) && EntryOk(d, e) && (e.OnFile? ==> FileRefs(d, e.slot) > 0) && (e.PipeWrite? ==> d.pipes[e.pipe].writers > 0)
    ensures var r := Drop(d, e);
            && Shape(r) && SameTabs(d, r) && NamesOf(r.fs) == NamesOf(d.fs)
            && (forall k | 0 <= k < FILE_SLOTS ::
                  && FileRefs(r, k) + (if NamesFile(e, k) then 1 else 0) == FileRefs(d, k)
                  && (FileRefs(r, k) > 0 ==> r.fs.files[k].m == d.fs.files[k].m)
                  && (!NamesFile(e, k) ==> r.fs.files[k] == d.fs.files[k]))
            && (forall q | 0 <= q < PIPE_MAX ::
                  r.pipes[q].used == d.pipes[q].used && r.pipes[q].writers + (if NamesPipe(e, q) then 1 else 0) == d.pipes[q].writers)
  {
    if e.OnFile? {
      UnrefKeeps(d.fs, e.slot);
    }
  }

  /** A named slot or pipe has a positive count. */
  lemma HolderCounts(d: State, t: nat, i: nat)
    requires Inv(d) && t in d.saved && i < FD_MAX
    ensures var e := Eff(d, t)[i];
            && EntryOk(d, e)
            && (e.OnFile? ==> FileRefs(d, e.slot) > 0) && (e.PipeWrite? ==> e.pipe < PIPE_MAX && d.pipes[e.pipe].writers > 0)
  {
    var e := Eff(d, t)[i];
    assert EntryOk(d, e);
    if e.OnFile? {
      assert (t, i) in FileHolders(d, e.slot);
    }
    if e.PipeWrite? {
      assert (t, i) in PipeHolders(d, e.pipe);
    }
  }

  // ---------------------------------------------------------------- putting and clearing a descriptor

  predicate Uncounted(e: Entry) { !e.OnFile? && !e.PipeWrite? }

  /** Put an entry where nothing counted is, and count it. */
  function Put(d: State, i: nat, e: Entry): (r: State)
    requires Shape(d) && i < FD_MAX
  {
    Grab(SetLive(d, i, e), e)
  }

  /** user_fd_close */
  function Clear(d: State, i: nat): (r: State)
    requires Shape(d) && i < FD_MAX
  {
    SetLive(Drop(d, d.live[i]), i, Free)
  }

  lemma SharedSame(d: State, r: State)
    requires Shape(d) && Shared(d) && Shape(r) && r.saved.Keys == d.saved.Keys && r.shares == d.shares && r.procs == d.procs
    ensures Shared(r)
  {
    forall t | t in r.saved ensures r.shares[t] == |Sharers(r, t)| && r.shares[t] > 0 {
      assert Sharers(r, t) == Sharers(d, t);
    }
  }

  lemma PutTables(d: State, i: nat, e: Entry)
    requires Inv(d) && d.cur.Some? && i < FD_MAX && EntryOk(d, e)
    ensures TablesOk(Put(d, i, e))
  {
    var r := Put(d, i, e);
    GrabCounts(SetLive(d, i, e), e);
    forall t, j | t in r.saved && 0 <= j < FD_MAX ensures EntryOk(r, Eff(r, t)[j]) {
      EffLive(d, i, e, t);
      assert EntryOk(d, Eff(d, t)[j]);
    }
  }

  lemma PutHolders(d: State, i: nat, e: Entry, k: nat)
    requires Shape(d) && d.cur.Some? && i < FD_MAX && Uncounted(d.live[i])
    ensures |FileHolders(SetLive(d, i, e), k)| == |FileHolders(d, k)| + (if NamesFile(e, k) then 1 else 0)
    ensures |PipeHolders(SetLive(d, i, e), k)| == |PipeHolders(d, k)| + (if NamesPipe(e, k) then 1 else 0)
  {
    LiveHolders(d, i, e, k);
    var x := (CurTable(d), i);
    AddSize(FileHolders(d, k), x, NamesFile(e, k));
    AddSize(PipeHolders(d, k), x, NamesPipe(e, k));
  }

  lemma AddSize(s: set<(nat, nat)>, x: (nat, nat), add: bool)
    requires x !in s
    ensures |s - {x} + (if add then {x} else {})| == |s| + (if add then 1 else 0)
  {
    assert s - {x} == s;
  }

  lemma DropSize(s: set<(nat, nat)>, x: (nat, nat))
    ensures |s - {x} + {}| + (if x in s then 1 else 0) == |s|
  {
    if x in s {
      assert s == s - {x} + {x};
    } else {
      assert s - {x} + {} == s;
    }
  }

  lemma PutCounted(d: State, i: nat, e: Entry)
    requires Inv(d) && d.cur.Some? && i < FD_MAX && EntryOk(d, e) && Uncounted(d.live[i])
    ensures Shape(Put(d, i, e)) && Counted(Put(d, i, e))
  {
    var m, r := SetLive(d, i, e), Put(d, i, e);
    GrabCounts(m, e);
    forall k | 0 <= k < FILE_SLOTS ensures FileRefs(r, k) == |FileHolders(r, k)| {
      PutHolders(d, i, e, k);
      TabsHolders(m, r, k);
    }
    forall q | 0 <= q < PIPE_MAX && r.pipes[q].used ensures r.pipes[q].writers == |PipeHolders(r, q)| {
      PutHolders(d, i, e, q);
      TabsHolders(m, r, q);
    }
  }

  lemma PutKeeps(d: State, i: nat, e: Entry)
    requires Inv(d) && d.cur.Some? && i < FD_MAX && EntryOk(d, e) && Uncounted(d.live[i])
    ensures Inv(Put(d, i, e))
  {
    PutTables(d, i, e);
    PutCounted(d, i, e);
    GrabCounts(SetLive(d, i, e), e);
    SharedSame(d, Put(d, i, e));
  }

  lemma ClearHolders(d: State, i: nat, k: nat)
    requires Shape(d) && d.cur.Some? && i < FD_MAX
    ensures |FileHolders(SetLive(d, i, Free), k)| + (if NamesFile(d.live[i], k) then 1 else 0) == |FileHolders(d, k)|
    ensures |PipeHolders(SetLive(d, i, Free), k)| + (if NamesPipe(d.live[i], k) then 1 else 0) == |PipeHolders(d, k)|
  {
    LiveHolders(d, i, Free, k);
    var x := (CurTable(d), i);
    DropSize(FileHolders(d, k), x);
    DropSize(PipeHolders(d, k), x);
  }

  lemma ClearCounted(d: State, i: nat)
    requires Inv(d) && d.cur.Some? && i < FD_MAX
    ensures Shape(Clear(d, i)) && Counted(Clear(d, i))
  {
    var e := d.live[i];
    var m, r := SetLive(d, i, Free), Clear(d, i);
    HolderCounts(d, CurTable(d), i);
    DropCounts(d, e);
    forall k | 0 <= k < FILE_SLOTS ensures FileRefs(r, k) == |FileHolders(r, k)| {
      ClearHolders(d, i, k);
      TabsHolders(m, r, k);
    }
    forall q | 0 <= q < PIPE_MAX && r.pipes[q].used ensures r.pipes[q].writers == |PipeHolders(r, q)| {
      ClearHolders(d, i, q);
      TabsHolders(m, r, q);
    }
  }

  lemma ClearTables(d: State, i: nat)
    requires Inv(d) && d.cur.Some? && i < FD_MAX && Shape(Clear(d, i)) && Counted(Clear(d, i))
    ensures TablesOk(Clear(d, i))
  {
    var e := d.live[i];
    var m, r := Drop(d, e), Clear(d, i);
    HolderCounts(d, CurTable(d), i);
    DropCounts(d, e);
    forall t, j | t in r.saved && 0 <= j < FD_MAX ensures EntryOk(r, Eff(r, t)[j]) {
      EffLive(m, i, Free, t);
      assert EntryOk(d, Eff(d, t)[j]);
      var f := Eff(r, t)[j];
      if f.OnFile? {
        assert (t, j) in FileHolders(r, f.slot);
      }
    }
  }

  lemma ClearKeeps(d: State, i: nat)
    requires Inv(d) && d.cur.Some? && i < FD_MAX
    ensures Inv(Clear(d, i))
  {
    ClearCounted(d, i);
    ClearTables(d, i);
    HolderCounts(d, CurTable(d), i);
    DropCounts(d, d.live[i]);
    SharedSame(d, Clear(d, i));
  }
}
