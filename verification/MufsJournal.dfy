/**
 The journal with the constants of `src/fs.c`, whole lives of a disk, and the code that does it.
 */
module MufsJournal {
  import opened Sectors
  import opened Journal

  const FILE_SLOTS: nat := 16
  const DIR_SLOTS: nat := 16
  /** Packed record sizes. */
  const FILE_RECORD: nat := 100
  const DIR_RECORD: nat := 80

  /** Tables at sectors 2 and 6, header at 9, copies at 10 and 13. */
  const MUFS: Layout :=
    Layout(2 * SECTOR, 6 * SECTOR, 9 * SECTOR, 10 * SECTOR, 13 * SECTOR, FILE_SLOTS * FILE_RECORD, DIR_SLOTS * DIR_RECORD)

  /** Bytes of the file table copy before the directory copy begins. */
  const COPY_ROOM: nat := 3 * SECTOR

  lemma MufsSound()
    ensures Sound(MUFS) && !Disjoint(MUFS) && MUFS.metaLen == COPY_ROOM + 64
  {
  }

  /** The last 64 bytes of the file table copy are the first 64 of the directory table. */
  lemma MufsShadow(t: Tables)
    requires Fits(t, MUFS)
    ensures Shadow(MUFS, t) == Tables(t.meta[..COPY_ROOM] + t.dir[..64], t.dir)
  {
    var a, b := Shadow(MUFS, t).meta, t.meta[..COPY_ROOM] + t.dir[..64];
    assert |a| == |b|;
    forall k | 0 <= k < |a| ensures a[k] == b[k] {
    }
  }

  function FileSlot(meta: seq<Byte>, i: nat): (r: seq<Byte>)
    requires |meta| == FILE_SLOTS * FILE_RECORD && i < FILE_SLOTS
    ensures |r| == FILE_RECORD
  {
    meta[FILE_RECORD * i..FILE_RECORD * i + FILE_RECORD]
  }

  /** Only the last file slot is at stake. */
  lemma MufsShadowSlots(t: Tables, i: nat)
    requires Fits(t, MUFS) && i < FILE_SLOTS - 1
    ensures Shadow(MUFS, t).dir == t.dir && FileSlot(Shadow(MUFS, t).meta, i) == FileSlot(t.meta, i)
  {
    var a, b := FileSlot(Shadow(MUFS, t).meta, i), FileSlot(t.meta, i);
    forall k | 0 <= k < FILE_RECORD ensures a[k] == b[k] {
    }
  }

  /** With the real layout, file slots 0..14 and all directories recover all old or all new. */
  lemma MufsAtomic(d: Image, t: Tables, gen: seq<Byte>, es: seq<Image>)
    requires Holds(d, MUFS) && !Pending(d, MUFS) && Fits(t, MUFS) && |gen| == 4
    requires AllWithin(d, Commit(MUFS, t, gen)) && Restarts(MUFS, es) && Crash(d, Commit(MUFS, t, gen), es[0])
    ensures var r := Recovered(es[|es| - 1], MUFS);
            r == Home(d, MUFS) ||
            (r.dir == t.dir && forall i | 0 <= i < FILE_SLOTS - 1 :: FileSlot(r.meta, i) == FileSlot(t.meta, i))
  {
    MufsSound();
    CommitCrash(d, MUFS, t, gen, es[0]);
    RestartsRecover(MUFS, es, |es| - 1);
    forall i | 0 <= i < FILE_SLOTS - 1 ensures FileSlot(Shadow(MUFS, t).meta, i) == FileSlot(t.meta, i) {
      MufsShadowSlots(t, i);
    }
  }

  /** Slot 15 is safe too exactly when its tail equals the head of the directory table, or nothing changes. */
  lemma MufsAtomicIff(d: Image, t: Tables, gen: seq<Byte>)
    requires Holds(d, MUFS) && !Pending(d, MUFS) && Fits(t, MUFS) && |gen| == 4 && AllWithin(d, Commit(MUFS, t, gen))
    ensures Atomic(d, MUFS, t, gen) <==>
            || t.meta[COPY_ROOM..] == t.dir[..64]
            || (t.dir == Home(d, MUFS).dir && t.meta[..COPY_ROOM] + t.dir[..64] == Home(d, MUFS).meta)
  {
    MufsSound();
    MufsShadow(t);
    AtomicIff(d, MUFS, t, gen);
    assert t.meta == t.meta[..COPY_ROOM] + t.meta[COPY_ROOM..];
    assert (t.meta[..COPY_ROOM] + t.dir[..64])[COPY_ROOM..] == t.dir[..64];
  }

  // ---------------------------------------------------------------- lives of a disk

  /** Commit these tables: to the end, or up to a crash followed by a mount that completes in the end. */
  datatype Event = Completes(t: Tables, gen: seq<Byte>) | Crashes(t: Tables, gen: seq<Byte>)

  predicate Sensible(l: Layout, ev: Event) { Fits(ev.t, l) && |ev.gen| == 4 }

  ghost predicate Happens(l: Layout, d: Image, ev: Event, e: Image)
    requires Holds(d, l) && Sensible(l, ev)
  {
    CommitWithin(d, l, ev.t, ev.gen);
    match ev
    case Completes(t, gen) => e == Run(d, Commit(l, t, gen))
    case Crashes(t, gen) =>
      exists es :: Restarts(l, es) && Crash(d, Commit(l, t, gen), es[0]) && e == Mount(es[|es| - 1], l)
  }

  ghost predicate Life(l: Layout, d: Image, evs: seq<Event>, e: Image)
    requires forall i | 0 <= i < |evs| :: Sensible(l, evs[i])
    decreases |evs|
  {
    Holds(d, l) && if |evs| == 0 then e == d else exists m :: Happens(l, d, evs[0], m) && Life(l, m, evs[1..], e)
  }

  /** What the tables may do across one event. */
  predicate Becomes(l: Layout, s: Tables, ev: Event, u: Tables)
    requires Sensible(l, ev)
  {
    match ev
    case Completes(t, _) => u == t
    case Crashes(t, _) => u == s || u == t || u == Shadow(l, t)
  }

  ghost predicate Story(l: Layout, s: Tables, evs: seq<Event>, u: Tables)
    requires forall i | 0 <= i < |evs| :: Sensible(l, evs[i])
    decreases |evs|
  {
    if |evs| == 0 then u == s else exists m :: Becomes(l, s, evs[0], m) && Story(l, m, evs[1..], u)
  }

  lemma EventBecomes(l: Layout, d: Image, ev: Event, e: Image)
    requires Sound(l) && Holds(d, l) && !Pending(d, l) && Sensible(l, ev) && Happens(l, d, ev, e)
    ensures Holds(e, l) && !Pending(e, l) && Becomes(l, Home(d, l), ev, Home(e, l))
  {
    CommitWithin(d, l, ev.t, ev.gen);
    match ev
    case Completes(t, gen) => CommitDone(d, l, t, gen);
    case Crashes(t, gen) =>
      var es :| Restarts(l, es) && Crash(d, Commit(l, t, gen), es[0]) && e == Mount(es[|es| - 1], l);
      CommitCrash(d, l, t, gen, es[0]);
      RestartsRecover(l, es, |es| - 1);
      RecoveredIs(es[|es| - 1], l);
  }

  /**
   Over any life of the disk, through any crashes, the tables are those of some commit, or the shadow of
   one: the tables as the journal copy holds them. The two differ where the layout's regions overlap.
   */
  lemma {:induction false} LifeStory(l: Layout, d: Image, evs: seq<Event>, e: Image)
    requires Sound(l) && Holds(d, l) && !Pending(d, l) && (forall i | 0 <= i < |evs| :: Sensible(l, evs[i]))
    requires Life(l, d, evs, e)
    ensures Holds(e, l) && !Pending(e, l) && Story(l, Home(d, l), evs, Home(e, l))
    decreases |evs|
  {
    if |evs| > 0 {
      var m :| Happens(l, d, evs[0], m) && Life(l, m, evs[1..], e);
      EventBecomes(l, d, evs[0], m);
      LifeStory(l, m, evs[1..], e);
      assert Becomes(l, Home(d, l), evs[0], Home(m, l));
    }
  }

  // ---------------------------------------------------------------- the code

  class Volume {
    const drive: Drive
    const l: Layout

    constructor (drive: Drive, l: Layout)
      ensures this.drive == drive && this.l == l
    {
      this.drive, this.l := drive, l;
    }

    /** The disk is there, big enough for the layout, and its byte count does not wrap. */
    predicate Reaches(off: nat, n: nat) {
      0 < n && drive.Accepts(off, n)
    }

    predicate Fitted() {
      && Reaches(l.meta, l.metaLen) && Reaches(l.dir, l.dirLen) && Reaches(l.jl, HEADER)
      && Reaches(l.jmeta, l.metaLen) && Reaches(l.jdir, l.dirLen)
    }

    lemma FittedHolds()
      requires Fitted()
      ensures Holds(drive.Bytes(), l)
    {
      drive.AcceptsFits(l.meta, l.metaLen);
      drive.AcceptsFits(l.dir, l.dirLen);
      drive.AcceptsFits(l.jl, HEADER);
      drive.AcceptsFits(l.jmeta, l.metaLen);
      drive.AcceptsFits(l.jdir, l.dirLen);
    }

    /** One request of a plan: every image it shows is a crash image of the plan. */
    method Issue(q: Request, ghost d: Image, ghost p: seq<Request>, ghost j: nat, ghost since: nat)
      requires AllWithin(d, p) && j < |p| && q == p[j] && Reaches(q.off, |q.data|) && drive.Bytes() == After(d, p, j)
      requires since <= |drive.history| && forall i | since <= i < |drive.history| :: Crash(d, p, drive.history[i])
      modifies drive`history, drive.sectors
      ensures drive.Bytes() == After(d, p, j + 1)
      ensures since <= |drive.history| && forall i | since <= i < |drive.history| :: Crash(d, p, drive.history[i])
    {
      ghost var before := |drive.history|;
      var rc := drive.WriteBytes(q.off, q.data);
      forall i | since <= i < |drive.history| ensures Crash(d, p, drive.history[i]) {
        if i >= before {
          assert drive.history[i] == Torn(After(d, p, j), q.off, q.data, i - before + 1);
          assert Cut(After(d, p, j), p[j], drive.history[i]);
          AtCrash(d, p, drive.history[i], j);
        }
      }
    }

    /** persist_meta, once the tables are encoded. */
    method PersistMeta(t: Tables, gen: seq<Byte>)
      requires Fitted() && Sound(l) && Fits(t, l) && |gen| == 4
      modifies drive`history, drive.sectors
      ensures Holds(old(drive.Bytes()), l) && AllWithin(old(drive.Bytes()), Commit(l, t, gen))
      ensures drive.Bytes() == Run(old(drive.Bytes()), Commit(l, t, gen))
      ensures |old(drive.history)| <= |drive.history|
      ensures forall i | |old(drive.history)| <= i < |drive.history| ::
                Crash(old(drive.Bytes()), Commit(l, t, gen), drive.history[i])
    {
      ghost var d, p, since := drive.Bytes(), Commit(l, t, gen), |drive.history|;
      FittedHolds();
      CommitWithin(d, l, t, gen);
      RunAfter(d, p);
      Issue(Request(l.jmeta, t.meta), d, p, 0, since);
      Issue(Request(l.jdir, t.dir), d, p, 1, since);
      Issue(Request(l.jl, Words(MAGIC, gen)), d, p, 2, since);
      Issue(Request(l.meta, t.meta), d, p, 3, since);
      Issue(Request(l.dir, t.dir), d, p, 4, since);
      Issue(Request(l.jl, Words(NO_MAGIC, gen)), d, p, 5, since);
    }

    /** The replay at the head of fs_persist_mount. */
    method ReplayJournal()
      requires Fitted() && Sound(l)
      modifies drive`history, drive.sectors
      ensures Holds(old(drive.Bytes()), l) && drive.Bytes() == Mount(old(drive.Bytes()), l)
      ensures |old(drive.history)| <= |drive.history|
      ensures forall i | |old(drive.history)| <= i < |drive.history| :: Restart(l, old(drive.Bytes()), drive.history[i])
    {
      ghost var d, since := drive.Bytes(), |drive.history|;
      FittedHolds();
      ReplayWithin(d, l);
      RunAfter(d, Replay(d, l));
      var rc, jh := drive.ReadBytes(l.jl, HEADER);
      if rc == HEADER && jh[..4] == MAGIC {
        CopyBack(jh);
      }
    }

    /** The shadow copy is written home and the header marked done. */
    method CopyBack(jh: seq<Byte>)
      requires Fitted() && Sound(l) && Holds(drive.Bytes(), l) && jh == Header(drive.Bytes(), l) && Pending(drive.Bytes(), l)
      requires AllWithin(drive.Bytes(), Replay(drive.Bytes(), l))
      modifies drive`history, drive.sectors
      ensures drive.Bytes() == After(old(drive.Bytes()), Replay(old(drive.Bytes()), l), 3)
      ensures |old(drive.history)| <= |drive.history|
      ensures forall i | |old(drive.history)| <= i < |drive.history| ::
                Crash(old(drive.Bytes()), Replay(old(drive.Bytes()), l), drive.history[i])
    {
      ghost var d, since := drive.Bytes(), |drive.history|;
      ghost var p := Replay(d, l);
      var rm, meta := drive.ReadBytes(l.jmeta, l.metaLen);
      var rd, dir := drive.ReadBytes(l.jdir, l.dirLen);
      Issue(Request(l.meta, meta), d, p, 0, since);
      Issue(Request(l.dir, dir), d, p, 1, since);
      Issue(Request(l.jl, NO_MAGIC + jh[4..]), d, p, 2, since);
    }
  }
}
