/**
 The eight pipe slots (`src/pipe.c`): creating a pipe takes one, and nothing ever gives one back.
 */
module PipeSlots {
  import opened Options
  import opened Records
  import Mufs
  import Namespace
  import opened Descriptors
  import opened DescriptorOps
  import opened DescriptorRuns
  import opened DescriptorPicture

  /** The same slots are in use. */
  predicate SameSlots(d: State, r: State) {
    |r.pipes| == |d.pipes| && forall q | 0 <= q < |d.pipes| :: r.pipes[q].used == d.pipes[q].used
  }

  lemma GrabSlots(d: State, e: Entry)
    requires Shape(d)
    ensures SameSlots(d, Grab(d, e)) && Shape(Grab(d, e))
  {
    GrabShape(d, e);
  }

  lemma DropSlots(d: State, e: Entry)
    requires Shape(d)
    ensures SameSlots(d, Drop(d, e)) && Shape(Drop(d, e))
  {
    DropShape(d, e);
  }

  lemma AttachSlots(d: State, e: Entry)
    requires Shape(d)
    ensures SameSlots(d, Attach(d, e).0)
  {
    var i := FreeFd(d.live, 3);
    if i.Some? {
      GrabSlots(SetLive(d, i.value, e), e);
    }
  }

  lemma CloseSlots(d: State, fd: int)
    requires Shape(d)
    ensures SameSlots(d, Close(d, fd))
  {
    if 0 <= fd < FD_MAX {
      DropSlots(d, d.live[fd]);
    }
  }

  lemma Dup2Slots(d: State, a: int, b: int)
    requires Shape(d)
    ensures SameSlots(d, Dup2(d, a, b).0)
  {
    if 0 <= a < FD_MAX && 0 <= b < FD_MAX && d.live[a] != Free && a != b {
      DropSlots(d, d.live[b]);
      GrabSlots(SetLive(Drop(d, d.live[b]), b, d.live[a]), d.live[a]);
    }
  }

  lemma {:induction false} RetainSlots(d: State, t: Table, n: nat)
    requires Shape(d) && n <= FD_MAX
    ensures SameSlots(d, Retain(d, t, n))
    decreases n
  {
    if n > 0 {
      RetainSlots(d, t, n - 1);
      GrabSlots(Retain(d, t, n - 1), t[n - 1]);
    }
  }

  lemma {:induction false} ReleaseSlots(d: State, t: Table, n: nat)
    requires Shape(d) && n <= FD_MAX
    ensures SameSlots(d, Release(d, t, n))
    decreases n
  {
    if n > 0 {
      ReleaseSlots(d, t, n - 1);
      DropSlots(Release(d, t, n - 1), t[n - 1]);
    }
  }

  lemma ForkSlots(d: State, t: nat, c: nat)
    requires Shape(d) && t !in d.saved && c !in d.procs
    ensures SameSlots(d, Fork(d, t, c))
  {
    WithTableShape(d, t, c, d.live);
    RetainSlots(WithTable(d, t, c, d.live), d.live, FD_MAX);
  }

  lemma ReapSlots(d: State, p: nat)
    requires Shape(d) && p in d.procs && d.cur != Some(p)
    ensures SameSlots(d, Reap(d, p))
  {
    if d.shares[d.procs[p]] <= 1 {
      ReleaseSlots(d, d.saved[d.procs[p]], FD_MAX);
    }
  }

  /** No other operation touches the use of a slot. */
  lemma StepSlots(d: State, op: Op, now: Word)
    requires Inv(d) && Applies(d, op) && !op.OpPipe?
    ensures SameSlots(d, Step(d, op, now))
  {
    match op
    case OpOpen(p) =>
      if Open(d, p).0 != d {
        var k := Namespace.Find(Mufs.NamesOf(d.fs).files, p, 0).value;
        AttachSlots(d, OnFile(k, d.born[k]));
      }
    case OpClose(fd) => CloseSlots(d, fd);
    case OpDup(fd) =>
      if 0 <= fd < FD_MAX && d.live[fd] != Free {
        AttachSlots(d, d.live[fd]);
      }
    case OpDup2(a, b) => Dup2Slots(d, a, b);
    case OpFork(t, c) => ForkSlots(d, t, c);
    case OpReap(p) => ReapSlots(d, p);
    case _ =>
  }

  // ---------------------------------------------------------------- making pipes

  /** How many of the first `n` slots are in use. */
  function Used(ps: seq<Pipe>, n: nat): (k: nat)
    requires n <= |ps|
    ensures k <= n
  {
    if n == 0 then 0 else Used(ps, n - 1) + if ps[n - 1].used then 1 else 0
  }

  lemma {:induction false} UsedAlike(ps: seq<Pipe>, qs: seq<Pipe>, n: nat)
    requires n <= |ps| == |qs| && forall q | 0 <= q < n :: qs[q].used == ps[q].used
    ensures Used(qs, n) == Used(ps, n)
  {
    if n > 0 {
      UsedAlike(ps, qs, n - 1);
    }
  }

  lemma {:induction false} UsedOneMore(ps: seq<Pipe>, qs: seq<Pipe>, n: nat, q: nat)
    requires q < n <= |ps| == |qs| && !ps[q].used && qs[q].used && forall j | 0 <= j < n && j != q :: qs[j].used == ps[j].used
    ensures Used(qs, n) == Used(ps, n) + 1
  {
    if n - 1 == q {
      UsedAlike(ps, qs, n - 1);
    } else {
      UsedOneMore(ps, qs, n - 1, q);
    }
  }

  lemma {:induction false} AllUsed(ps: seq<Pipe>, n: nat)
    requires n <= |ps|
    ensures Used(ps, n) == n <==> forall q | 0 <= q < n :: ps[q].used
  {
    if n > 0 {
      AllUsed(ps, n - 1);
    }
  }

  lemma {:induction false} FreePipeNone(ps: seq<Pipe>, q: nat)
    requires q <= |ps|
    ensures FreePipe(ps, q).None? <==> forall j | q <= j < |ps| :: ps[j].used
    decreases |ps| - q
  {
    if q < |ps| && ps[q].used {
      FreePipeNone(ps, q + 1);
    }
  }

  lemma MakePipeSlots(d: State, q: nat)
    requires Inv(d) && d.cur.Some? && FreePipe(d.pipes, 0) == Some(q)
    ensures SameSlots(NewPipe(d, q), MakePipe(d).0)
  {
    MakePipeShape(d, q);
    NewPipeKeeps(d, q);
    var n := NewPipe(d, q);
    var a := Attach(n, PipeRead(q)).0;
    var b := Attach(a, PipeWrite(q)).0;
    AttachSlots(n, PipeRead(q));
    AttachSlots(a, PipeWrite(q));
    MakePipeClose(b, Attach(n, PipeRead(q)).1);
    CloseSlots(b, Attach(n, PipeRead(q)).1);
    CloseSlots(Close(b, Attach(n, PipeRead(q)).1), Attach(a, PipeWrite(q)).1);
  }

  /** A pipe call takes one slot while there is one, even when it fails for want of a descriptor. */
  lemma PipeTakes(d: State)
    requires Inv(d) && d.cur.Some?
    ensures |MakePipe(d).0.pipes| == PIPE_MAX
    ensures Used(MakePipe(d).0.pipes, PIPE_MAX) == if Used(d.pipes, PIPE_MAX) < PIPE_MAX then Used(d.pipes, PIPE_MAX) + 1 else PIPE_MAX
    ensures Used(d.pipes, PIPE_MAX) == PIPE_MAX ==> !MakePipe(d).1 && MakePipe(d).0 == d
  {
    AllUsed(d.pipes, PIPE_MAX);
    FreePipeNone(d.pipes, 0);
    var q := FreePipe(d.pipes, 0);
    if q.Some? {
      MakePipeSlots(d, q.value);
      UsedOneMore(d.pipes, MakePipe(d).0.pipes, PIPE_MAX, q.value);
    }
  }

  // ---------------------------------------------------------------- runs

  /** How many of the operations between states `a` and `b` ask for a pipe. */
  function Asked(ops: seq<(Op, Word)>, a: nat, b: nat): (n: nat)
    requires a <= b <= |ops|
    decreases b
  {
    if a == b then 0 else Asked(ops, a, b - 1) + if ops[b - 1].0.OpPipe? then 1 else 0
  }

  function AtMostAll(n: nat): nat { if n < PIPE_MAX then n else PIPE_MAX }

  lemma StepTakes(ds: seq<State>, ops: seq<(Op, Word)>, k: nat)
    requires RunOf(ds, ops) && Inv(ds[0]) && k < |ops|
    ensures |ds[k].pipes| == |ds[k + 1].pipes| == PIPE_MAX
    ensures Used(ds[k + 1].pipes, PIPE_MAX) == AtMostAll(Used(ds[k].pipes, PIPE_MAX) + if ops[k].0.OpPipe? then 1 else 0)
  {
    RunKeeps(ds, ops, k);
    assert Goes(ds[k], ops[k], ds[k + 1]);
    OpTakes(ds[k], ops[k].0, ops[k].1);
  }

  lemma OpTakes(d: State, op: Op, now: Word)
    requires Inv(d) && Applies(d, op)
    ensures |d.pipes| == |Step(d, op, now).pipes| == PIPE_MAX
    ensures Used(Step(d, op, now).pipes, PIPE_MAX) == AtMostAll(Used(d.pipes, PIPE_MAX) + if op.OpPipe? then 1 else 0)
  {
    if op.OpPipe? {
      PipeTakes(d);
    } else {
      StepSlots(d, op, now);
      UsedAlike(d.pipes, Step(d, op, now).pipes, PIPE_MAX);
    }
  }

  /** Over every run the slots in use are those at the start and one more for each pipe call, until all eight are. */
  lemma {:induction false} SlotsOnlyGo(ds: seq<State>, ops: seq<(Op, Word)>, a: nat, b: nat)
    requires RunOf(ds, ops) && Inv(ds[0]) && a <= b < |ds|
    ensures |ds[a].pipes| == |ds[b].pipes| == PIPE_MAX
    ensures Used(ds[b].pipes, PIPE_MAX) == AtMostAll(Used(ds[a].pipes, PIPE_MAX) + Asked(ops, a, b))
    decreases b
  {
    if a < b {
      SlotsOnlyGo(ds, ops, a, b - 1);
      StepTakes(ds, ops, b - 1);
    } else {
      RunKeeps(ds, ops, a);
    }
  }

  /** So after eight pipe calls, whatever was closed and whoever exited since, no process gets a pipe again. */
  lemma PipesRunOut(ds: seq<State>, ops: seq<(Op, Word)>, k: nat)
    requires RunOf(ds, ops) && Inv(ds[0]) && k < |ds| && ds[k].cur.Some? && Asked(ops, 0, k) >= PIPE_MAX
    ensures Inv(ds[k]) && !MakePipe(ds[k]).1 && MakePipe(ds[k]).0 == ds[k]
  {
    SlotsOnlyGo(ds, ops, 0, k);
    RunKeeps(ds, ops, k);
    PipeTakes(ds[k]);
  }

  /** A pipe call works if and only if a slot is unused and two descriptors are free: the slots never come back. */
  lemma PipeWorksIff(d: State)
    requires Inv(d) && d.cur.Some?
    ensures MakePipe(d).1 <==> Used(d.pipes, PIPE_MAX) < PIPE_MAX && exists i, j | 3 <= i < j < FD_MAX :: d.live[i] == Free && d.live[j] == Free
  {
    AllUsed(d.pipes, PIPE_MAX);
    FreePipeNone(d.pipes, 0);
    var q := FreePipe(d.pipes, 0);
    if q.Some? {
      BothEnds(d, q.value);
    }
  }

  lemma BothEnds(d: State, q: nat)
    requires Inv(d) && d.cur.Some? && FreePipe(d.pipes, 0) == Some(q)
    ensures MakePipe(d).1 <==> exists i, j | 3 <= i < j < FD_MAX :: d.live[i] == Free && d.live[j] == Free
  {
    MakePipeShape(d, q);
    var n := NewPipe(d, q);
    var a := Attach(n, PipeRead(q));
    TwoFree(d.live, PipeRead(q));
    var b := Attach(a.0, PipeWrite(q));
    assert a.1 >= 0 ==> a.0.live == d.live[a.1 := PipeRead(q)];
    assert a.1 < 0 ==> a.0.live == d.live;
  }

  lemma TwoFree(t: Table, e: Entry)
    requires e != Free
    ensures var i := FreeFd(t, 3);
            (i.Some? && FreeFd(t[i.value := e], 3).Some?) <==> exists x, y | 3 <= x < y < FD_MAX :: t[x] == Free && t[y] == Free
  {
    var i := FreeFd(t, 3);
    if i.Some? {
      var u := t[i.value := e];
      assert forall k | 0 <= k < FD_MAX && k != i.value :: u[k] == t[k];
      var j := FreeFd(u, 3);
      if j.Some? {
        assert j.value != i.value;
        assert t[j.value] == Free;
      }
    }
  }

  /** The two descriptors a pipe call gives. */
  lemma TwoPlaced(d: State) returns (q: nat, i: nat, j: nat)
    requires Inv(d) && d.cur.Some? && MakePipe(d).1
    ensures q < PIPE_MAX && !d.pipes[q].used && i < j < FD_MAX && d.live[i] == Free && d.live[j] == Free && Running(Abs(d))
    ensures var a := Placed(Abs(d), i, PipeRead(q));
            Running(a) && Abs(MakePipe(d).0) == Placed(a, j, PipeWrite(q))
  {
    q := FreePipe(d.pipes, 0).value;
    PipeAttached(d, q);
    MakePipeShape(d, q);
    AbsRunning(d);
    var x := Attach(NewPipe(d, q), PipeRead(q));
    var y := Attach(x.0, PipeWrite(q));
    i, j := x.1, y.1;
    BothPlaced(Abs(d), q, i, Abs(x.0), j, Abs(y.0));
    PlacedTwice(Abs(d), i, PipeRead(q));
  }

  lemma PlacedBack(a: Picture, i: nat, j: nat, e: Entry, f: Entry)
    requires Running(a) && i < j < FD_MAX && a.tables[Mine(a)][i] == Free && a.tables[Mine(a)][j] == Free
    ensures var b := Placed(a, i, e);
            Running(b) && Running(Placed(b, j, f)) && var c := Placed(Placed(b, j, f), i, Free); Running(c) && Placed(c, j, Free) == a
  {
    var t := a.tables[Mine(a)];
    assert t[i := e][j := f][i := Free][j := Free] == t;
  }

  /** A pipe made and both its ends closed: every descriptor is as before, and one slot is gone for good. */
  lemma PipeLeaks(d: State) returns (i: nat, j: nat)
    requires Inv(d) && d.cur.Some? && MakePipe(d).1
    ensures var m := MakePipe(d).0;
            && Inv(m) && Inv(Close(m, i)) && Inv(Close(Close(m, i), j)) && Abs(Close(Close(m, i), j)) == Abs(d)
            && Used(Close(Close(m, i), j).pipes, PIPE_MAX) == Used(d.pipes, PIPE_MAX) + 1
  {
    var q;
    q, i, j := TwoPlaced(d);
    AbsRunning(d);
    PlacedBack(Abs(d), i, j, PipeRead(q), PipeWrite(q));
    var m := MakePipe(d).0;
    MakePipeKeeps(d);
    assert m.cur == d.cur by {
      assert Abs(m).cur == Abs(d).cur;
    }
    CloseBoth(m, i, j);
    PipeTakes(d);
    UsedAlike(m.pipes, Close(Close(m, i), j).pipes, PIPE_MAX);
  }

  lemma CloseBoth(m: State, i: nat, j: nat)
    requires Inv(m) && m.cur.Some? && i < FD_MAX && j < FD_MAX
    ensures Inv(Close(m, i)) && Inv(Close(Close(m, i), j)) && SameSlots(m, Close(Close(m, i), j)) && Running(Abs(m))
    ensures var c := Placed(Abs(m), i, Free); Running(c) && Abs(Close(Close(m, i), j)) == Placed(c, j, Free)
  {
    MakePipeClose(m, i);
    CloseAbs(m, i);
    CloseSlots(m, i);
    MakePipeClose(Close(m, i), j);
    CloseAbs(Close(m, i), j);
    CloseSlots(Close(m, i), j);
  }
}
