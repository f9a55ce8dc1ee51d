/**
 The operations on descriptors, one by one: each keeps every count equal to the number of
 descriptors it stands for.
 */
module DescriptorOps {
  import opened Options
  import opened MufsJournal
  import opened Paths
  import opened Namespace
  import opened Mufs
  import opened MufsTree
  import opened Descriptors

  // ---------------------------------------------------------------- open, dup, dup2, pipe

  /** fd_alloc_raw: the first free descriptor from `i` on. */
  function FreeFd(t: Table, i: nat): (r: Option<nat>)
    requires i <= FD_MAX
    ensures r.Some? ==> i <= r.value < FD_MAX && t[r.value] == Free
    ensures r.None? ==> forall j | i <= j < FD_MAX :: t[j] != Free
    decreases FD_MAX - i
  {
    if i == FD_MAX then None else if t[i] == Free then Some(i) else FreeFd(t, i + 1)
  }

  /** Allocate a descriptor from 3 up and count what it names. */
  function Attach(d: State, e: Entry): (r: (State, int))
    requires Shape(d)
  {
    var i := FreeFd(d.live, 3);
    if i.None? then (d, -1) else (Put(d, i.value, e), i.value as int)
  }

  lemma AttachKeeps(d: State, e: Entry)
    requires Inv(d) && d.cur.Some? && EntryOk(d, e)
    ensures Inv(Attach(d, e).0) && Attach(d, e).0.cur == d.cur
  {
    var i := FreeFd(d.live, 3);
    if i.Some? {
      GrabCounts(SetLive(d, i.value, e), e);
      PutKeeps(d, i.value, e);
    }
  }

  /** user_fd_alloc for the file slot a lookup found. */
  function Open(d: State, path: Path): (r: (State, int))
    requires Shape(d)
  {
    var k := Find(NamesOf(d.fs).files, path, 0);
    if k.None? then (d, -1) else Attach(d, OnFile(k.value, d.born[k.value]))
  }

  lemma OpenKeeps(d: State, path: Path)
    requires Inv(d) && d.cur.Some?
    ensures Inv(Open(d, path).0)
  {
    var k := Find(NamesOf(d.fs).files, path, 0);
    if k.Some? {
      AttachKeeps(d, OnFile(k.value, d.born[k.value]));
    }
  }

  /** user_fd_close */
  function Close(d: State, fd: int): (r: State)
    requires Shape(d)
  {
    if 0 <= fd < FD_MAX then Clear(d, fd) else d
  }

  /** user_fd_dup */
  function Dup(d: State, fd: int): (r: (State, int))
    requires Shape(d)
  {
    if !(0 <= fd < FD_MAX) || d.live[fd] == Free then (d, -1) else Attach(d, d.live[fd])
  }

  lemma DupKeeps(d: State, fd: int)
    requires Inv(d) && d.cur.Some?
    ensures Inv(Dup(d, fd).0)
  {
    if 0 <= fd < FD_MAX && d.live[fd] != Free {
      assert EntryOk(d, Eff(d, CurTable(d))[fd]);
      AttachKeeps(d, d.live[fd]);
    }
  }

  /** user_fd_dup2: the replaced descriptor is released before the copy is counted. */
  function Dup2(d: State, a: int, b: int): (r: (State, bool))
    requires Shape(d)
  {
    if !(0 <= a < FD_MAX) || !(0 <= b < FD_MAX) || d.live[a] == Free then (d, false)
    else if a == b then (d, true)
    else
      DropShape(d, d.live[b]);
      (Grab(SetLive(Drop(d, d.live[b]), b, d.live[a]), d.live[a]), true)
  }

  lemma DropShape(d: State, e: Entry)
    requires Shape(d)
    ensures Shape(Drop(d, e)) && SameTabs(d, Drop(d, e))
  {
    if e.OnFile? {
      UnrefKeeps(d.fs, e.slot);
    }
  }

  /** Releasing first is safe: the source descriptor itself keeps a shared file alive. */
  lemma Dup2Keeps(d: State, a: int, b: int)
    requires Inv(d) && d.cur.Some?
    ensures Inv(Dup2(d, a, b).0)
    ensures Dup2(d, a, b).1 ==> 0 <= a < FD_MAX && 0 <= b < FD_MAX && Dup2(d, a, b).0.live[b] == d.live[a]
  {
    if 0 <= a < FD_MAX && 0 <= b < FD_MAX && d.live[a] != Free && a != b {
      var e := d.live[a];
      DropShape(d, d.live[b]);
      ClearKeeps(d, b);
      var m := Clear(d, b);
      assert Eff(m, CurTable(m))[a] == e;
      assert EntryOk(m, Eff(m, CurTable(m))[a]);
      PutKeeps(m, b, e);
      assert SetLive(m, b, e) == SetLive(Drop(d, d.live[b]), b, e);
      GrabCounts(SetLive(m, b, e), e);
    }
  }

  /** First unused pipe. */
  function FreePipe(ps: seq<Pipe>, q: nat): (r: Option<nat>)
    requires q <= |ps|
    ensures r.Some? ==> q <= r.value < |ps| && !ps[r.value].used
    decreases |ps| - q
  {
    if q == |ps| then None else if !ps[q].used then Some(q) else FreePipe(ps, q + 1)
  }

  /** pipe_create */
  function NewPipe(d: State, q: nat): (r: State)
    requires q < |d.pipes|
  {
    d.(pipes := d.pipes[q := Pipe(true, 0)])
  }

  lemma NewPipeKeeps(d: State, q: nat)
    requires Inv(d) && q < PIPE_MAX && !d.pipes[q].used
    ensures Inv(NewPipe(d, q))
  {
    var r := NewPipe(d, q);
    forall k: nat ensures FileHolders(r, k) == FileHolders(d, k) && PipeHolders(r, k) == PipeHolders(d, k) {
      TabsHolders(d, r, k);
    }
    forall t, i | t in r.saved && 0 <= i < FD_MAX ensures EntryOk(r, Eff(r, t)[i]) {
      assert EntryOk(d, Eff(d, t)[i]);
    }
    forall t, i | t in d.saved && 0 <= i < FD_MAX ensures !NamesPipe(Eff(d, t)[i], q) {
      assert EntryOk(d, Eff(d, t)[i]);
    }
    assert PipeHolders(d, q) == {};
    SharedSame(d, r);
  }

  /** do_pipe: both ends, or neither. */
  function MakePipe(d: State): (r: (State, bool))
    requires Inv(d) && d.cur.Some?
  {
    var q := FreePipe(d.pipes, 0);
    if q.None? then (d, false)
    else
      NewPipeKeeps(d, q.value);
      var a := Attach(NewPipe(d, q.value), PipeRead(q.value));
      AttachKeeps(NewPipe(d, q.value), PipeRead(q.value));
      var b := Attach(a.0, PipeWrite(q.value));
      MakePipeShape(d, q.value);
      if a.1 >= 0 && b.1 >= 0 then (b.0, true)
      else
        var c := Close(b.0, a.1);
        MakePipeClose(b.0, a.1);
        (Close(c, b.1), false)
  }

  lemma PipeThere(d: State, q: nat, e: Entry)
    requires Inv(d) && d.cur.Some? && q < PIPE_MAX && d.pipes[q].used && e == PipeRead(q)
    ensures Attach(d, e).0.pipes == d.pipes
  {
  }

  lemma MakePipeShape(d: State, q: nat)
    requires Inv(d) && d.cur.Some? && q < PIPE_MAX && !d.pipes[q].used
    ensures var a := Attach(NewPipe(d, q), PipeRead(q)).0;
            Inv(a) && a.cur.Some? && Inv(Attach(a, PipeWrite(q)).0) && Attach(a, PipeWrite(q)).0.cur.Some?
  {
    NewPipeKeeps(d, q);
    AttachKeeps(NewPipe(d, q), PipeRead(q));
    PipeThere(NewPipe(d, q), q, PipeRead(q));
    AttachKeeps(Attach(NewPipe(d, q), PipeRead(q)).0, PipeWrite(q));
  }

  lemma MakePipeClose(d: State, fd: int)
    requires Inv(d) && d.cur.Some?
    ensures Inv(Close(d, fd)) && Close(d, fd).cur == d.cur
  {
    if 0 <= fd < FD_MAX {
      ClearKeeps(d, fd);
      HolderCounts(d, CurTable(d), fd);
      DropCounts(d, d.live[fd]);
    }
  }

  lemma MakePipeKeeps(d: State)
    requires Inv(d) && d.cur.Some?
    ensures Inv(MakePipe(d).0)
  {
    var q := FreePipe(d.pipes, 0);
    if q.Some? {
      MakePipeShape(d, q.value);
      var a := Attach(NewPipe(d, q.value), PipeRead(q.value));
      var b := Attach(a.0, PipeWrite(q.value));
      MakePipeClose(b.0, a.1);
      MakePipeClose(Close(b.0, a.1), b.1);
    }
  }

  // ---------------------------------------------------------------- switches

  /** Save the live table, load that of `p`. */
  function Switch(d: State, p: nat): (r: State)
    requires Shape(d) && d.cur.Some? && p in d.procs
  {
    var s := d.saved[CurTable(d) := d.live];
    d.(saved := s, live := s[d.procs[p]], cur := Some(p))
  }

  /** proc_exit_current with nothing left to run. */
  function Leave(d: State): (r: State)
    requires Shape(d) && d.cur.Some?
  {
    d.(saved := d.saved[CurTable(d) := d.live], cur := None)
  }

  /** The same tables, as far as anyone can tell. */
  predicate SameEff(d: State, r: State) {
    && r.saved.Keys == d.saved.Keys && r.fs == d.fs && r.pipes == d.pipes && r.born == d.born
    && forall t | t in d.saved :: Eff(r, t) == Eff(d, t)
  }

  lemma EffKeeps(d: State, r: State)
    requires Inv(d) && SameEff(d, r) && Shape(r) && r.shares == d.shares && r.procs == d.procs
    ensures Inv(r)
  {
    forall k: nat ensures FileHolders(r, k) == FileHolders(d, k) && PipeHolders(r, k) == PipeHolders(d, k) {
    }
    forall t, i | t in r.saved && 0 <= i < FD_MAX ensures EntryOk(r, Eff(r, t)[i]) {
      assert EntryOk(d, Eff(d, t)[i]);
    }
    SharedSame(d, r);
  }

  /** A context switch loses no descriptor and invents none. */
  lemma SwitchKeeps(d: State, p: nat)
    requires Inv(d) && d.cur.Some? && p in d.procs
    ensures Inv(Switch(d, p)) && SameEff(d, Switch(d, p))
  {
    EffKeeps(d, Switch(d, p));
  }

  lemma LeaveKeeps(d: State)
    requires Inv(d) && d.cur.Some?
    ensures Inv(Leave(d)) && SameEff(d, Leave(d))
  {
    EffKeeps(d, Leave(d));
  }

  // ---------------------------------------------------------------- whole tables

  /** Entries below `n` that name file slot `k`, and those that write pipe `k`. */
  function FileCount(t: Table, k: nat, n: nat): nat
    requires n <= FD_MAX
  {
    if n == 0 then 0 else FileCount(t, k, n - 1) + (if NamesFile(t[n - 1], k) then 1 else 0)
  }

  function PipeCount(t: Table, q: nat, n: nat): nat
    requires n <= FD_MAX
  {
    if n == 0 then 0 else PipeCount(t, q, n - 1) + (if NamesPipe(t[n - 1], q) then 1 else 0)
  }

  /** The same, as sets of pairs. */
  ghost function FilePart(t: Table, id: nat, k: nat, n: nat): set<(nat, nat)>
    requires n <= FD_MAX
  {
    set i: nat | i < n && NamesFile(t[i], k) :: (id, i)
  }

  ghost function PipePart(t: Table, id: nat, q: nat, n: nat): set<(nat, nat)>
    requires n <= FD_MAX
  {
    set i: nat | i < n && NamesPipe(t[i], q) :: (id, i)
  }

  lemma {:induction false} FilePartSize(t: Table, id: nat, k: nat, n: nat)
    requires n <= FD_MAX
    ensures |FilePart(t, id, k, n)| == FileCount(t, k, n)
    decreases n
  {
    if n == 0 {
      assert FilePart(t, id, k, 0) == {};
    } else {
      FilePartSize(t, id, k, n - 1);
      assert FilePart(t, id, k, n) == FilePart(t, id, k, n - 1) + (if NamesFile(t[n - 1], k) then {(id, n - 1)} else {});
    }
  }

  lemma {:induction false} PipePartSize(t: Table, id: nat, q: nat, n: nat)
    requires n <= FD_MAX
    ensures |PipePart(t, id, q, n)| == PipeCount(t, q, n)
    decreases n
  {
    if n == 0 {
      assert PipePart(t, id, q, 0) == {};
    } else {
      PipePartSize(t, id, q, n - 1);
      assert PipePart(t, id, q, n) == PipePart(t, id, q, n - 1) + (if NamesPipe(t[n - 1], q) then {(id, n - 1)} else {});
    }
  }

  /** user_fd_state_retain over the first `n` entries. */
  function Retain(d: State, t: Table, n: nat): (r: State)
    requires Shape(d) && n <= FD_MAX
    ensures Shape(r) && SameTabs(d, r)
    decreases n
  {
    if n == 0 then d
    else
      GrabShape(Retain(d, t, n - 1), t[n - 1]);
      Grab(Retain(d, t, n - 1), t[n - 1])
  }

  lemma GrabShape(d: State, e: Entry)
    requires Shape(d)
    ensures Shape(Grab(d, e)) && SameTabs(d, Grab(d, e))
  {
    if e.OnFile? {
      RefKeeps(d.fs, e.slot);
    }
  }

  predicate AllOk(d: State, t: Table) { forall i | 0 <= i < FD_MAX :: EntryOk(d, t[i]) }

  /** `r` is `d` with the first `n` entries of `t` counted once more. */
  predicate Retained(d: State, t: Table, n: nat, r: State)
    requires Shape(d) && n <= FD_MAX
  {
    && Shape(r) && SameTabs(d, r) && NamesOf(r.fs) == NamesOf(d.fs)
    && (forall k | 0 <= k < FILE_SLOTS :: FileRefs(r, k) == FileRefs(d, k) + FileCount(t, k, n) && r.fs.files[k].m == d.fs.files[k].m)
    && (forall q | 0 <= q < PIPE_MAX ::
          r.pipes[q].used == d.pipes[q].used && r.pipes[q].writers == d.pipes[q].writers + PipeCount(t, q, n))
  }

  lemma {:induction false} RetainCounts(d: State, t: Table, n: nat)
    requires Shape(d) && AllOk(d, t) && n <= FD_MAX
    ensures Retained(d, t, n, Retain(d, t, n))
    decreases n
  {
    if n > 0 {
      RetainCounts(d, t, n - 1);
      assert EntryOk(d, t[n - 1]);
      RetainStep(d, t, n, Retain(d, t, n - 1));
    }
  }

  lemma RetainStep(d: State, t: Table, n: nat, m: State)
    requires Shape(d) && 0 < n <= FD_MAX && Retained(d, t, n - 1, m) && EntryOk(d, t[n - 1])
    ensures Retained(d, t, n, Grab(m, t[n - 1]))
  {
    GrabCounts(m, t[n - 1]);
  }

  /** user_fd_state_release over the first `n` entries. */
  function Release(d: State, t: Table, n: nat): (r: State)
    requires Shape(d) && n <= FD_MAX
    ensures Shape(r) && SameTabs(d, r)
    decreases n
  {
    if n == 0 then d
    else
      DropShape(Release(d, t, n - 1), t[n - 1]);
      Drop(Release(d, t, n - 1), t[n - 1])
  }

  /** `r` is `d` with the first `n` entries of `t` counted once less; slots still counted are untouched. */
  predicate Freed(d: State, t: Table, n: nat, r: State)
    requires Shape(d) && n <= FD_MAX
  {
    && Shape(r) && SameTabs(d, r) && NamesOf(r.fs) == NamesOf(d.fs)
    && (forall k | 0 <= k < FILE_SLOTS ::
          && FileRefs(r, k) + FileCount(t, k, n) == FileRefs(d, k)
          && (FileRefs(r, k) > 0 ==> r.fs.files[k].m == d.fs.files[k].m)
          && (FileCount(t, k, n) == 0 ==> r.fs.files[k] == d.fs.files[k]))
    && (forall q | 0 <= q < PIPE_MAX && d.pipes[q].used :: r.pipes[q].writers + PipeCount(t, q, n) == d.pipes[q].writers)
    && (forall q | 0 <= q < PIPE_MAX :: r.pipes[q].used == d.pipes[q].used)
  }

  /** Every count covers what the table holds. */
  predicate Covers(d: State, t: Table)
    requires Shape(d)
  {
    && (forall k | 0 <= k < FILE_SLOTS :: FileCount(t, k, FD_MAX) <= FileRefs(d, k))
    && (forall q | 0 <= q < PIPE_MAX && d.pipes[q].used :: PipeCount(t, q, FD_MAX) <= d.pipes[q].writers)
  }

  lemma {:induction false} CountMonotone(t: Table, k: nat, n: nat, m: nat)
    requires n <= m <= FD_MAX
    ensures FileCount(t, k, n) <= FileCount(t, k, m) && PipeCount(t, k, n) <= PipeCount(t, k, m)
    decreases m
  {
    if n < m {
      CountMonotone(t, k, n, m - 1);
    }
  }

  lemma {:induction false} ReleaseCounts(d: State, t: Table, n: nat)
    requires Shape(d) && AllOk(d, t) && Covers(d, t) && n <= FD_MAX
    ensures Freed(d, t, n, Release(d, t, n))
    decreases n
  {
    if n > 0 {
      ReleaseCounts(d, t, n - 1);
      assert EntryOk(d, t[n - 1]);
      FreedStep(d, t, n, Release(d, t, n - 1));
    }
  }

  lemma FreedStep(d: State, t: Table, n: nat, m: State)
    requires Shape(d) && Covers(d, t) && 0 < n <= FD_MAX && Freed(d, t, n - 1, m) && EntryOk(d, t[n - 1])
    ensures Freed(d, t, n, Drop(m, t[n - 1]))
  {
    ReleaseStep(d, t, n, m, t[n - 1]);
    DropCounts(m, t[n - 1]);
  }

  /** The entry about to be dropped is still counted. */
  lemma ReleaseStep(d: State, t: Table, n: nat, m: State, e: Entry)
    requires Shape(d) && Covers(d, t) && 0 < n <= FD_MAX && Freed(d, t, n - 1, m) && e == t[n - 1] && EntryOk(d, e)
    ensures EntryOk(m, e) && (e.OnFile? ==> FileRefs(m, e.slot) > 0) && (e.PipeWrite? ==> m.pipes[e.pipe].writers > 0)
  {
    if e.OnFile? {
      CountMonotone(t, e.slot, n, FD_MAX);
    }
    if e.PipeWrite? {
      CountMonotone(t, e.pipe, n, FD_MAX);
    }
  }
}
