/**
 Descriptor tables in the form of `src/user.c` and `src/proc.c`: the live table is an array that a
 switch copies out and in, and retaining or releasing a table is a loop over its entries.
 */
module FdTables {
  import opened Options
  import opened MufsJournal
  import opened Mufs
  import opened Descriptors
  import opened DescriptorOps
  import opened DescriptorRuns

  class Tables {
    const live: array<Entry>
    const pipes: array<Pipe>
    var fs: Fs
    var born: seq<nat>
    var saved: map<nat, Table>
    var shares: map<nat, nat>
    var procs: map<nat, nat>
    var cur: Option<nat>

    ghost predicate Valid() {
      live.Length == FD_MAX && pipes.Length == PIPE_MAX && live as object != pipes
    }

    ghost function Now(): (d: State)
      requires Valid()
      reads this, live, pipes
    {
      State(fs, born, pipes[..], live[..], saved, shares, procs, cur)
    }

    /** No process, no pipe, an empty live table. */
    constructor (fs: Fs)
      ensures Valid() && fresh(live) && fresh(pipes)
      ensures Now() == State(fs, seq(FILE_SLOTS, _ => 0), seq(PIPE_MAX, _ => Pipe(false, 0)), seq(FD_MAX, _ => Free),
                             map[], map[], map[], None)
    {
      live := new Entry[FD_MAX](_ => Free);
      pipes := new Pipe[PIPE_MAX](_ => Pipe(false, 0));
      this.fs, born := fs, seq(FILE_SLOTS, _ => 0);
      saved, shares, procs, cur := map[], map[], map[], None;
      new;
      assert live[..] == seq(FD_MAX, _ => Free);
      assert pipes[..] == seq(PIPE_MAX, _ => Pipe(false, 0));
    }

    /** fd_entry_ref with a positive delta. */
    method GrabEntry(e: Entry)
      requires Valid() && Shape(Now())
      modifies this`fs, pipes
      ensures Now() == Grab(old(Now()), e)
    {
      match e
      case OnFile(k, _) => fs := Ref(fs, k).0;
      case PipeWrite(q) =>
        if q < PIPE_MAX && pipes[q].used {
          pipes[q] := pipes[q].(writers := pipes[q].writers + 1);
        }
      case _ =>
    }

    /** fd_entry_ref with a negative delta. */
    method DropEntry(e: Entry)
      requires Valid() && Shape(Now())
      modifies this`fs, pipes
      ensures Now() == Drop(old(Now()), e)
    {
      match e
      case OnFile(k, _) => fs := Mufs.Unref(fs, k).0;
      case PipeWrite(q) =>
        if q < PIPE_MAX && pipes[q].used && pipes[q].writers > 0 {
          pipes[q] := pipes[q].(writers := pipes[q].writers - 1);
        }
      case _ =>
    }

    /** fd_alloc_raw: descriptors 0 to 2 are never handed out. */
    method AllocRaw() returns (fd: int)
      requires Valid()
      ensures fd == match FreeFd(live[..], 3) case Some(i) => i case None => -1
    {
      var i := 3;
      while i < FD_MAX
        invariant 3 <= i <= FD_MAX && FreeFd(live[..], 3) == FreeFd(live[..], i)
      {
        if live[i] == Free {
          return i;
        }
        i := i + 1;
      }
      return -1;
    }

    method AttachEntry(e: Entry) returns (fd: int)
      requires Valid() && Shape(Now())
      modifies this`fs, live, pipes
      ensures (Now(), fd) == Attach(old(Now()), e)
    {
      fd := AllocRaw();
      if fd < 0 {
        return;
      }
      live[fd] := e;
      assert live[..] == old(live[..])[fd := e];
      GrabEntry(e);
    }

    /** user_fd_close */
    method CloseFd(fd: int)
      requires Valid() && Shape(Now())
      modifies this`fs, live, pipes
      ensures Now() == Close(old(Now()), fd)
    {
      if fd < 0 || fd >= FD_MAX {
        return;
      }
      DropEntry(live[fd]);
      live[fd] := Free;
      assert live[..] == old(live[..])[fd := Free];
    }

    /** user_fd_dup */
    method DupFd(fd: int) returns (r: int)
      requires Valid() && Shape(Now())
      modifies this`fs, live, pipes
      ensures (Now(), r) == Dup(old(Now()), fd)
    {
      if fd < 0 || fd >= FD_MAX || live[fd] == Free {
        return -1;
      }
      r := AttachEntry(live[fd]);
    }

    /** user_fd_dup2 */
    method Dup2Fd(a: int, b: int) returns (ok: bool)
      requires Valid() && Shape(Now())
      modifies this`fs, live, pipes
      ensures (Now(), ok) == Dup2(old(Now()), a, b)
    {
      if a < 0 || a >= FD_MAX || b < 0 || b >= FD_MAX || live[a] == Free {
        return false;
      }
      if a == b {
        return true;
      }
      DropShape(Now(), live[b]);
      DropEntry(live[b]);
      live[b] := live[a];
      assert live[..] == old(live[..])[b := old(live[..])[a]];
      GrabEntry(live[b]);
      return true;
    }

    /** user_fd_state_retain */
    method RetainTable(t: Table)
      requires Valid() && Shape(Now())
      modifies this`fs, pipes
      ensures Now() == Retain(old(Now()), t, FD_MAX)
    {
      ghost var d := Now();
      var i := 0;
      while i < FD_MAX
        invariant 0 <= i <= FD_MAX && Now() == Retain(d, t, i)
      {
        GrabEntry(t[i]);
        i := i + 1;
      }
    }

    /** user_fd_state_release */
    method ReleaseTable(t: Table)
      requires Valid() && Shape(Now())
      modifies this`fs, pipes
      ensures Now() == Release(old(Now()), t, FD_MAX)
    {
      ghost var d := Now();
      var i := 0;
      while i < FD_MAX
        invariant 0 <= i <= FD_MAX && Now() == Release(d, t, i)
      {
        DropEntry(t[i]);
        i := i + 1;
      }
    }

    /** The table part of do_fork: `t` is the fresh block kmalloc returned. */
    method ForkTable(t: nat, c: nat)
      requires Valid() && Shape(Now()) && t !in saved && c !in procs
      modifies this, pipes
      ensures Now() == Fork(old(Now()), t, c)
    {
      WithTableShape(Now(), t, c, live[..]);
      saved := saved[t := live[..]];
      shares := shares[t := 1];
      procs := procs[c := t];
      RetainTable(live[..]);
    }

    /** proc_save_state, sched_pick_next's choice, sched_load: the descriptor side of a switch. */
    method SwitchTo(p: nat)
      requires Valid() && Shape(Now()) && cur.Some? && p in procs
      modifies this, live
      ensures Now() == Switch(old(Now()), p)
    {
      saved := saved[procs[cur.value] := live[..]];
      LoadTable(saved[procs[p]]);
      cur := Some(p);
    }

    /** user_fd_state_restore */
    method LoadTable(t: Table)
      requires Valid()
      modifies live
      ensures live[..] == t
    {
      var i := 0;
      while i < FD_MAX
        invariant 0 <= i <= FD_MAX && live[..i] == t[..i]
      {
        live[i] := t[i];
        i := i + 1;
      }
    }

    /** proc_fdstate_free for a process that is not running. */
    method ReapTable(p: nat)
      requires Valid() && Shape(Now()) && p in procs && cur != Some(p)
      modifies this, pipes
      ensures Now() == Reap(old(Now()), p)
    {
      var t := procs[p];
      if shares[t] > 1 {
        shares := shares[t := shares[t] - 1];
      } else {
        ReleaseTable(saved[t]);
        saved := saved - {t};
        shares := shares - {t};
      }
      procs := procs - {p};
    }
  }
}
