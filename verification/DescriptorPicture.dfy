/**
 Descriptor tables as a program sees them: each table is a plain sequence of entries, a call changes
 one of them or none, and neither the counts nor the live copy of the running table can be told.
 */
module DescriptorPicture {
  import opened Options
  import opened MufsJournal
  import opened Records
  import opened Paths
  import opened Namespace
  import opened Mufs
  import opened MufsTree
  import opened Descriptors
  import opened DescriptorOps
  import opened DescriptorRuns

  /** The entries of every table, the table of every process, and the process that runs. */
  datatype Picture = Picture(tables: map<nat, Table>, procs: map<nat, nat>, cur: Option<nat>)

  function Abs(d: State): (a: Picture) {
    Picture(map t | t in d.saved :: Eff(d, t), d.procs, d.cur)
  }

  /** The table of the running process. */
  function Mine(a: Picture): (t: nat)
    requires a.cur.Some? && a.cur.value in a.procs
  {
    a.procs[a.cur.value]
  }

  predicate Running(a: Picture) { a.cur.Some? && a.cur.value in a.procs && Mine(a) in a.tables }

  /** Entry `i` of the running process's table replaced. */
  function Placed(a: Picture, i: nat, e: Entry): (c: Picture)
    requires Running(a) && i < FD_MAX
  {
    a.(tables := a.tables[Mine(a) := a.tables[Mine(a)][i := e]])
  }

  /** Descriptor `i` is the lowest free one from 3 up. */
  predicate Lowest(t: Table, i: int) {
    3 <= i < FD_MAX && t[i] == Free && forall j | 3 <= j < i :: t[j] != Free
  }

  predicate Full(t: Table) { forall j | 3 <= j < FD_MAX :: t[j] != Free }

  /** One more descriptor for `e`: its number, or -1 and no change when the table is full. */
  predicate Given(a: Picture, e: Entry, r: int, c: Picture)
    requires Running(a)
  {
    if Full(a.tables[Mine(a)]) then r == -1 && c == a else Lowest(a.tables[Mine(a)], r) && c == Placed(a, r, e)
  }

  /** Open descriptor `fd` of the running process. */
  predicate IsOpen(a: Picture, fd: int)
    requires Running(a)
  {
    0 <= fd < FD_MAX && a.tables[Mine(a)][fd] != Free
  }

  /** Two free descriptors, the lowest ones. */
  predicate LowestTwo(t: Table, i: int, j: int) {
    Lowest(t, i) && i < j < FD_MAX && t[j] == Free && forall k | i < k < j :: t[k] != Free
  }

  /** Both ends of an unused pipe, or nothing. */
  ghost predicate Piped(d: State, a: Picture, r: int, c: Picture)
    requires Running(a)
  {
    if exists q, i, j :: LowestTwo(a.tables[Mine(a)], i, j) && 0 <= q < |d.pipes| && !d.pipes[q].used then
      r == 1 && exists q, i, j :: LowestTwo(a.tables[Mine(a)], i, j) && 0 <= q < |d.pipes| && !d.pipes[q].used
                                  && c == Placed(Placed(a, i, PipeRead(q)), j, PipeWrite(q))
    else r == 0 && c == a
  }

  /** What a call returns. */
  function Result(d: State, op: Op): (r: int)
    requires Inv(d) && Applies(d, op)
  {
    match op
    case OpOpen(p) => Open(d, p).1
    case OpDup(fd) => Dup(d, fd).1
    case OpDup2(a, b) => if Dup2(d, a, b).1 then 1 else 0
    case OpPipe => if MakePipe(d).1 then 1 else 0
    case _ => 0
  }

  /** The effect of each operation on the picture; `d` says which files and pipes there are. */
  ghost predicate Next(d: State, a: Picture, op: Op, r: int, c: Picture)
    requires |d.born| == FILE_SLOTS && |d.fs.files| == FILE_SLOTS
  {
    match op
    case OpOpen(p) =>
      Running(a) && if exists k :: LeadsTo(d, p, k) then exists k :: LeadsTo(d, p, k) && Given(a, OnFile(k, d.born[k]), r, c) else r == -1 && c == a
    case OpClose(fd) => Running(a) && c == if 0 <= fd < FD_MAX then Placed(a, fd, Free) else a
    case OpDup(fd) => Running(a) && if IsOpen(a, fd) then Given(a, a.tables[Mine(a)][fd], r, c) else r == -1 && c == a
    case OpDup2(x, y) =>
      Running(a) && if IsOpen(a, x) && 0 <= y < FD_MAX then r == 1 && c == Placed(a, y, a.tables[Mine(a)][x]) else r == 0 && c == a
    case OpPipe => Running(a) && Piped(d, a, r, c)
    case OpFork(t, p) => Running(a) && c == a.(tables := a.tables[t := a.tables[Mine(a)]], procs := a.procs[p := t])
    case OpThread(p) => Running(a) && c == a.(procs := a.procs[p := Mine(a)])
    case OpSwitch(p) => c == a.(cur := Some(p))
    case OpExit => c == a.(cur := None)
    case OpReap(p) => && c.procs == a.procs - {p} && c.cur == a.cur
                      && c.tables == map t | t in a.tables && t in c.procs.Values :: a.tables[t]
    case OpLaunch(t, p) => c == Picture(a.tables[t := Stdio()], a.procs[p := t], Some(p))
    case _ => c == a
  }

  /** Path `p` is the name of file slot `k`. */
  predicate LeadsTo(d: State, p: Path, k: int) { 0 <= k < |d.fs.files| && FileName(d.fs.files[k].m) == Some(p) }

  // ---------------------------------------------------------------- the running table

  lemma AbsRunning(d: State)
    requires Shape(d) && d.cur.Some?
    ensures Running(Abs(d)) && Mine(Abs(d)) == CurTable(d) && Abs(d).tables[Mine(Abs(d))] == d.live
  {
  }

  /** Replacing an entry of the live table, whatever happens to the counts. */
  lemma AbsPlaced(d: State, i: nat, e: Entry, r: State)
    requires Shape(d) && d.cur.Some? && i < FD_MAX && SameTabs(SetLive(d, i, e), r)
    ensures Running(Abs(d)) && Abs(r) == Placed(Abs(d), i, e)
  {
    AbsRunning(d);
    assert Abs(r).tables == Placed(Abs(d), i, e).tables;
  }

  lemma AbsSame(d: State, r: State)
    requires r.live == d.live && r.saved == d.saved && r.procs == d.procs && r.cur == d.cur
    ensures Abs(r) == Abs(d)
  {
    assert Abs(r).tables == Abs(d).tables;
  }

  lemma AbsIs(r: State, tables: map<nat, Table>)
    requires tables.Keys == r.saved.Keys && forall u | u in r.saved :: tables[u] == Eff(r, u)
    ensures Abs(r) == Picture(tables, r.procs, r.cur)
  {
    assert Abs(r).tables == tables;
  }

  lemma {:induction false} FreeIsLowest(t: Table, i: nat)
    requires i <= FD_MAX
    ensures var r := FreeFd(t, i);
            if r.Some? then i <= r.value < FD_MAX && t[r.value] == Free && forall j | i <= j < r.value :: t[j] != Free
            else forall j | i <= j < FD_MAX :: t[j] != Free
    decreases FD_MAX - i
  {
    if i < FD_MAX && t[i] != Free {
      FreeIsLowest(t, i + 1);
    }
  }

  lemma AttachGives(d: State, e: Entry)
    requires Shape(d) && d.cur.Some?
    ensures Running(Abs(d)) && Given(Abs(d), e, Attach(d, e).1, Abs(Attach(d, e).0))
  {
    AbsRunning(d);
    FreeIsLowest(d.live, 3);
    var i := FreeFd(d.live, 3);
    if i.Some? {
      GrabShape(SetLive(d, i.value, e), e);
      AbsPlaced(d, i.value, e, Attach(d, e).0);
    }
  }

  // ---------------------------------------------------------------- each call

  /**
   user_fd_close: the descriptor is free, every other one of every table is as before, and the count of the file
   or pipe it named is one less; a number out of range does nothing.
   */
  lemma CloseMeans(d: State, fd: int)
    requires Inv(d) && d.cur.Some?
    ensures Running(Abs(d)) && Abs(Close(d, fd)) == if 0 <= fd < FD_MAX then Placed(Abs(d), fd, Free) else Abs(d)
    ensures var (r, e) := (Close(d, fd), if 0 <= fd < FD_MAX then d.live[fd] else Free);
            && (forall k | 0 <= k < FILE_SLOTS ::
                  r.fs.files[k].refs == d.fs.files[k].refs - (if NamesFile(e, k) then 1 else 0)
                  && (!NamesFile(e, k) ==> r.fs.files[k] == d.fs.files[k]))
            && (forall q | 0 <= q < PIPE_MAX ::
                  r.pipes[q].used == d.pipes[q].used
                  && r.pipes[q].writers == d.pipes[q].writers - (if NamesPipe(e, q) then 1 else 0))
  {
    AbsRunning(d);
    if 0 <= fd < FD_MAX {
      HolderCounts(d, CurTable(d), fd);
      DropCounts(d, d.live[fd]);
      AbsPlaced(d, fd, Free, Close(d, fd));
    }
  }

  lemma OpenMeans(d: State, p: Path)
    requires Inv(d) && d.cur.Some?
    ensures Next(d, Abs(d), OpOpen(p), Open(d, p).1, Abs(Open(d, p).0))
  {
    AbsRunning(d);
    var k := Find(NamesOf(d.fs).files, p, 0);
    if k.Some? {
      assert LeadsTo(d, p, k.value);
      AttachGives(d, OnFile(k.value, d.born[k.value]));
    } else {
      forall j | 0 <= j < FILE_SLOTS ensures FileName(d.fs.files[j].m) != Some(p) {
        assert NamesOf(d.fs).files[j] == FileName(d.fs.files[j].m);
      }
    }
  }

  lemma DupMeans(d: State, fd: int)
    requires Inv(d) && d.cur.Some?
    ensures Next(d, Abs(d), OpDup(fd), Dup(d, fd).1, Abs(Dup(d, fd).0))
  {
    AbsRunning(d);
    if 0 <= fd < FD_MAX && d.live[fd] != Free {
      AttachGives(d, d.live[fd]);
    }
  }

  lemma Dup2Means(d: State, x: int, y: int)
    requires Inv(d) && d.cur.Some?
    ensures Next(d, Abs(d), OpDup2(x, y), if Dup2(d, x, y).1 then 1 else 0, Abs(Dup2(d, x, y).0))
  {
    AbsRunning(d);
    if 0 <= x < FD_MAX && 0 <= y < FD_MAX && d.live[x] != Free {
      if x == y {
        AbsPlaced(d, y, d.live[x], d);
      } else {
        DropShape(d, d.live[y]);
        var m := SetLive(Drop(d, d.live[y]), y, d.live[x]);
        GrabShape(m, d.live[x]);
        AbsPlaced(d, y, d.live[x], Dup2(d, x, y).0);
      }
    }
  }

  // ---------------------------------------------------------------- pipes

  lemma {:induction false} PipeFound(ps: seq<Pipe>, q: nat)
    requires q <= |ps|
    ensures FreePipe(ps, q).None? ==> forall j | q <= j < |ps| :: ps[j].used
    decreases |ps| - q
  {
    if q < |ps| && ps[q].used {
      PipeFound(ps, q + 1);
    }
  }

  /** The descriptors the two ends of a pipe get, when there are two. */
  lemma SecondLowest(t: Table, i: int, e: Entry)
    requires Lowest(t, i) && e != Free
    ensures forall j :: Lowest(t[i := e], j) ==> LowestTwo(t, i, j)
    ensures Full(t[i := e]) ==> forall x, y :: !LowestTwo(t, x, y)
  {
    var u := t[i := e];
    assert u[i] != Free && forall k | 0 <= k < FD_MAX && k != i :: u[k] == t[k];
  }

  lemma PipeAttached(d: State, q: nat)
    requires Inv(d) && d.cur.Some? && q < PIPE_MAX && !d.pipes[q].used
    ensures var m := NewPipe(d, q);
            var a := Attach(m, PipeRead(q));
            && Inv(m) && m.cur.Some? && Inv(a.0) && a.0.cur.Some? && Running(Abs(d)) && Running(Abs(a.0))
            && Given(Abs(d), PipeRead(q), a.1, Abs(a.0))
            && Given(Abs(a.0), PipeWrite(q), Attach(a.0, PipeWrite(q)).1, Abs(Attach(a.0, PipeWrite(q)).0))
  {
    var m := NewPipe(d, q);
    NewPipeKeeps(d, q);
    AbsSame(d, m);
    MakePipeShape(d, q);
    AttachGives(m, PipeRead(q));
    AttachGives(Attach(m, PipeRead(q)).0, PipeWrite(q));
  }

  lemma CloseAbs(d: State, fd: int)
    requires Inv(d) && d.cur.Some?
    ensures Running(Abs(d)) && Abs(Close(d, fd)) == if 0 <= fd < FD_MAX then Placed(Abs(d), fd, Free) else Abs(d)
  {
    CloseMeans(d, fd);
  }

  /** Placing twice, in either way the two ends of a pipe do. */
  lemma PlacedTwice(a: Picture, i: nat, e: Entry)
    requires Running(a) && i < FD_MAX
    ensures Running(Placed(a, i, e)) && Mine(Placed(a, i, e)) == Mine(a)
    ensures Placed(a, i, e).tables[Mine(a)] == a.tables[Mine(a)][i := e]
    ensures Placed(Placed(a, i, e), i, a.tables[Mine(a)][i]) == a
  {
    assert a.tables[Mine(a)][i := e][i := a.tables[Mine(a)][i]] == a.tables[Mine(a)];
  }

  lemma PipeMeans(d: State)
    requires Inv(d) && d.cur.Some?
    ensures Next(d, Abs(d), OpPipe, if MakePipe(d).1 then 1 else 0, Abs(MakePipe(d).0))
  {
    AbsRunning(d);
    PipeFound(d.pipes, 0);
    var q := FreePipe(d.pipes, 0);
    if q.Some? {
      PipeEnds(d, q.value);
    }
  }

  lemma PipeEnds(d: State, q: nat)
    requires Inv(d) && d.cur.Some? && FreePipe(d.pipes, 0) == Some(q)
    ensures Running(Abs(d)) && Piped(d, Abs(d), if MakePipe(d).1 then 1 else 0, Abs(MakePipe(d).0))
  {
    PipeAttached(d, q);
    MakePipeShape(d, q);
    var x := Attach(NewPipe(d, q), PipeRead(q));
    var y := Attach(x.0, PipeWrite(q));
    if x.1 < 0 || y.1 < 0 {
      NoRoom(d, q, x, y);
      TakenBack(Abs(d), q, x.1, Abs(x.0), y.1, Abs(y.0));
    } else {
      BothPlaced(Abs(d), q, x.1, Abs(x.0), y.1, Abs(y.0));
      assert MakePipe(d) == (y.0, true);
    }
  }

  /** Descriptors for both ends. */
  lemma BothPlaced(a: Picture, q: nat, i: int, b: Picture, j: int, c: Picture)
    requires Running(a) && Given(a, PipeRead(q), i, b) && Running(b) && Given(b, PipeWrite(q), j, c) && i >= 0 && j >= 0
    ensures LowestTwo(a.tables[Mine(a)], i, j) && c == Placed(Placed(a, i, PipeRead(q)), j, PipeWrite(q))
  {
    PlacedTwice(a, i, PipeRead(q));
    SecondLowest(a.tables[Mine(a)], i, PipeRead(q));
  }

  /** A descriptor for one end only, or for none, and that one free again. */
  lemma TakenBack(a: Picture, q: nat, i: int, b: Picture, j: int, c: Picture)
    requires Running(a) && Given(a, PipeRead(q), i, b) && Running(b) && Given(b, PipeWrite(q), j, c) && (i < 0 || j < 0)
    ensures c == b && (forall x, y :: !LowestTwo(a.tables[Mine(a)], x, y))
    ensures a == if i < 0 then c else Placed(c, i, Free)
  {
    if i < 0 {
      NoneLowest(a.tables[Mine(a)]);
    } else {
      PlacedTwice(a, i, PipeRead(q));
      SecondLowest(a.tables[Mine(a)], i, PipeRead(q));
    }
  }

  lemma NoneLowest(t: Table)
    requires Full(t)
    ensures forall x, y :: !LowestTwo(t, x, y)
  {
  }

  /** Without room for both ends, what was placed is taken back. */
  lemma NoRoom(d: State, q: nat, x: (State, int), y: (State, int))
    requires Inv(d) && d.cur.Some? && FreePipe(d.pipes, 0) == Some(q)
    requires x == Attach(NewPipe(d, q), PipeRead(q)) && Shape(x.0) && y == Attach(x.0, PipeWrite(q)) && Inv(y.0) && y.0.cur.Some?
    requires (x.1 < 0 || y.1 < 0) && y.1 == -1
    ensures !MakePipe(d).1 && Running(Abs(y.0)) && Abs(MakePipe(d).0) == if 0 <= x.1 < FD_MAX then Placed(Abs(y.0), x.1, Free) else Abs(y.0)
  {
    MakePipeClose(y.0, x.1);
    CloseAbs(y.0, x.1);
    CloseAbs(Close(y.0, x.1), y.1);
  }

  // ---------------------------------------------------------------- processes

  lemma ForkMeans(d: State, t: nat, p: nat)
    requires Inv(d) && d.cur.Some? && t !in d.saved && p !in d.procs
    ensures Next(d, Abs(d), OpFork(t, p), 0, Abs(Fork(d, t, p)))
  {
    AbsRunning(d);
    var m := WithTable(d, t, p, d.live);
    WithTableShape(d, t, p, d.live);
    AddedTable(d, t, p, d.live);
    AbsSame(m, Retain(m, d.live, FD_MAX));
  }

  lemma AddedTable(d: State, t: nat, p: nat, entries: Table)
    requires Shape(d) && t !in d.saved && p !in d.procs
    ensures Abs(WithTable(d, t, p, entries)) == Picture(Abs(d).tables[t := entries], d.procs[p := t], d.cur)
  {
    var m := WithTable(d, t, p, entries);
    forall u | u in m.saved ensures Abs(d).tables[t := entries][u] == Eff(m, u) {
      WithTableEff(d, t, p, entries, u);
    }
    AbsIs(m, Abs(d).tables[t := entries]);
  }

  lemma LaunchMeans(d: State, t: nat, p: nat)
    requires Inv(d) && d.cur.None? && t !in d.saved && p !in d.procs
    ensures Next(d, Abs(d), OpLaunch(t, p), 0, Abs(Launch(d, t, p)))
  {
    AbsIs(Launch(d, t, p), Abs(d).tables[t := Stdio()]);
  }

  lemma ThreadMeans(d: State, p: nat)
    requires Inv(d) && d.cur.Some? && p !in d.procs
    ensures Next(d, Abs(d), OpThread(p), 0, Abs(ShareTable(d, p)))
  {
    AbsRunning(d);
    AbsIs(ShareTable(d, p), Abs(d).tables);
  }

  lemma SwitchMeans(d: State, p: nat)
    requires Inv(d) && d.cur.Some? && p in d.procs
    ensures Next(d, Abs(d), OpSwitch(p), 0, Abs(Switch(d, p))) && Next(d, Abs(d), OpExit, 0, Abs(Leave(d)))
  {
    SwitchKeeps(d, p);
    LeaveKeeps(d);
    AbsIs(Switch(d, p), Abs(d).tables);
    AbsIs(Leave(d), Abs(d).tables);
  }

  /** A table stays exactly while a process has it. */
  lemma HeldTables(d: State)
    requires Inv(d)
    ensures d.saved.Keys == d.procs.Values
  {
    forall t | t in d.saved ensures t in d.procs.Values {
      assert Sharers(d, t) != {};
      var p :| p in Sharers(d, t);
      assert d.procs[p] == t;
    }
    forall t | t in d.procs.Values ensures t in d.saved {
      var p :| p in d.procs && d.procs[p] == t;
    }
  }

  lemma ReapMeans(d: State, p: nat)
    requires Inv(d) && p in d.procs && d.cur != Some(p)
    ensures Next(d, Abs(d), OpReap(p), 0, Abs(Reap(d, p)))
  {
    ReapKeeps(d, p);
    var r := Reap(d, p);
    HeldTables(r);
    ReapEff(d, p);
    KeptTables(d, r);
  }

  lemma KeptTables(d: State, r: State)
    requires r.saved.Keys == r.procs.Values && forall u | u in r.saved :: u in d.saved && Eff(r, u) == Eff(d, u)
    ensures Abs(r).tables == map u | u in Abs(d).tables && u in r.procs.Values :: Abs(d).tables[u]
  {
    assert forall u :: u in r.procs.Values <==> u in r.saved;
  }

  lemma ReapEff(d: State, p: nat)
    requires Shape(d) && p in d.procs && d.cur != Some(p)
    ensures var r := Reap(d, p);
            r.procs == d.procs - {p} && r.cur == d.cur && forall u | u in r.saved :: u in d.saved && Eff(r, u) == Eff(d, u)
  {
    if d.shares[d.procs[p]] <= 1 {
      LastEff(d, Release(d, d.saved[d.procs[p]], FD_MAX), p);
    }
  }

  /** Taking the last holder's table away leaves the others. */
  lemma LastEff(d: State, m: State, p: nat)
    requires Shape(d) && p in d.procs && d.cur != Some(p) && Shape(m) && SameTabs(d, m)
    ensures forall u | u in Without(m, p).saved :: u in d.saved && Eff(Without(m, p), u) == Eff(d, u)
  {
    forall u | u in Without(m, p).saved ensures u in d.saved && Eff(Without(m, p), u) == Eff(d, u) {
      WithoutEff(m, p, u);
    }
  }

  // ---------------------------------------------------------------- every call, every run

  lemma TablesMean(d: State, op: Op, now: Word)
    requires Inv(d) && Applies(d, op) && (op.OpOpen? || op.OpClose? || op.OpDup? || op.OpDup2? || op.OpPipe?)
    ensures Next(d, Abs(d), op, Result(d, op), Abs(Step(d, op, now)))
  {
    match op
    case OpOpen(p) => OpenMeans(d, p);
    case OpClose(fd) => CloseMeans(d, fd);
    case OpDup(fd) => DupMeans(d, fd);
    case OpDup2(x, y) => Dup2Means(d, x, y);
    case OpPipe => PipeMeans(d);
  }

  lemma FilesMean(d: State, op: Op, now: Word)
    requires Inv(d) && (op.OpCreate? || op.OpUnlink? || op.OpChange?)
    ensures Abs(Step(d, op, now)) == Abs(d)
  {
    AbsSame(d, Step(d, op, now));
  }

  /** Every operation has just its effect on the tables, and returns what it says. */
  lemma StepMeans(d: State, op: Op, now: Word)
    requires Inv(d) && Applies(d, op)
    ensures Next(d, Abs(d), op, Result(d, op), Abs(Step(d, op, now)))
  {
    match op
    case OpFork(t, p) => ForkMeans(d, t, p);
    case OpThread(p) => ThreadMeans(d, p);
    case OpSwitch(p) => SwitchMeans(d, p);
    case OpExit => SwitchMeans(d, d.cur.value);
    case OpReap(p) => ReapMeans(d, p);
    case OpLaunch(t, p) => LaunchMeans(d, t, p);
    case OpCreate(_) => FilesMean(d, op, now);
    case OpUnlink(_) => FilesMean(d, op, now);
    case OpChange(_) => FilesMean(d, op, now);
    case _ => TablesMean(d, op, now);
  }

  /** Along every run the tables change as plain tables would, while the counts stay exact. */
  lemma RunMeans(ds: seq<State>, ops: seq<(Op, Word)>, k: nat)
    requires RunOf(ds, ops) && Inv(ds[0]) && k < |ops|
    ensures Inv(ds[k]) && Applies(ds[k], ops[k].0)
    ensures Next(ds[k], Abs(ds[k]), ops[k].0, Result(ds[k], ops[k].0), Abs(ds[k + 1]))
  {
    RunKeeps(ds, ops, k);
    assert Goes(ds[k], ops[k], ds[k + 1]);
    StepMeans(ds[k], ops[k].0, ops[k].1);
  }
}
