/**
 The metadata journal of MuFS (`src/fs.c`): both tables are copied aside, a one-sector header
 declares the copies valid, the tables are rewritten in place, the header is cleared. Mount
 replays the copies when it finds a valid header.
 */
module Journal {
  import opened Sectors

  datatype Tables = Tables(meta: seq<Byte>, dir: seq<Byte>)

  /** Byte offsets of the tables, of their journal copies and of the header. */
  datatype Layout = Layout(meta: nat, dir: nat, jl: nat, jmeta: nat, jdir: nat, metaLen: nat, dirLen: nat)

  const HEADER: nat := 32
  /** 0x4D554C4A, least significant byte first. */
  const MAGIC: seq<Byte> := [0x4A, 0x4C, 0x55, 0x4D]
  const NO_MAGIC: seq<Byte> := [0, 0, 0, 0]

  predicate Apart(a: nat, n: nat, b: nat, m: nat) { a + n <= b || b + m <= a }

  /** The tables, the header and the journal keep out of each other's way; the two copies may overlap. */
  predicate Sound(l: Layout) {
    && Apart(l.meta, l.metaLen, l.dir, l.dirLen)
    && Apart(l.meta, l.metaLen, l.jl, HEADER) && Apart(l.dir, l.dirLen, l.jl, HEADER)
    && Apart(l.jmeta, l.metaLen, l.jl, HEADER) && Apart(l.jdir, l.dirLen, l.jl, HEADER)
    && Apart(l.meta, l.metaLen, l.jmeta, l.metaLen) && Apart(l.meta, l.metaLen, l.jdir, l.dirLen)
    && Apart(l.dir, l.dirLen, l.jmeta, l.metaLen) && Apart(l.dir, l.dirLen, l.jdir, l.dirLen)
    && l.jl % SECTOR + HEADER <= SECTOR
  }

  /** ... and neither do the copies. */
  predicate Disjoint(l: Layout) { Apart(l.jmeta, l.metaLen, l.jdir, l.dirLen) }

  predicate Holds(d: Image, l: Layout) {
    && l.meta + l.metaLen <= |d| && l.dir + l.dirLen <= |d| && l.jl + HEADER <= |d|
    && l.jmeta + l.metaLen <= |d| && l.jdir + l.dirLen <= |d|
  }

  predicate Fits(t: Tables, l: Layout) { |t.meta| == l.metaLen && |t.dir| == l.dirLen }

  function Home(d: Image, l: Layout): (t: Tables)
    requires Holds(d, l)
    ensures Fits(t, l)
  {
    Tables(d[l.meta..l.meta + l.metaLen], d[l.dir..l.dir + l.dirLen])
  }

  function Saved(d: Image, l: Layout): (t: Tables)
    requires Holds(d, l)
    ensures Fits(t, l)
  {
    Tables(d[l.jmeta..l.jmeta + l.metaLen], d[l.jdir..l.jdir + l.dirLen])
  }

  function Header(d: Image, l: Layout): (h: seq<Byte>)
    requires Holds(d, l)
    ensures |h| == HEADER
  {
    d[l.jl..l.jl + HEADER]
  }

  /** A valid header: an interrupted commit is waiting. */
  predicate Pending(d: Image, l: Layout)
    requires Holds(d, l)
  {
    Header(d, l)[..4] == MAGIC
  }

  // ---------------------------------------------------------------- write requests and crashes

  datatype Request = Request(off: nat, data: seq<Byte>)

  predicate Within(d: Image, q: Request) { q.off + |q.data| <= |d| }

  predicate AllWithin(d: Image, plan: seq<Request>) { forall i | 0 <= i < |plan| :: Within(d, plan[i]) }

  function Apply(d: Image, q: Request): (r: Image)
    requires Within(d, q)
    ensures |r| == |d|
  {
    Splice(d, q.off, q.data)
  }

  function Run(d: Image, plan: seq<Request>): (r: Image)
    requires AllWithin(d, plan)
    ensures |r| == |d|
    decreases |plan|
  {
    if |plan| == 0 then d else Run(Apply(d, plan[0]), plan[1..])
  }

  /** `e` is the disk when `q` stopped between two sector writes, or before the first or after the last. */
  ghost predicate Cut(d: Image, q: Request, e: Image) {
    Within(d, q) && exists k | 0 <= k <= Writes(q.off, |q.data|) :: e == Torn(d, q.off, q.data, k)
  }

  /** `e` is the disk when the plan stopped anywhere. */
  ghost predicate Crash(d: Image, plan: seq<Request>, e: Image)
    requires AllWithin(d, plan)
    decreases |plan|
  {
    if |plan| == 0 then e == d
    else Cut(d, plan[0], e) || Crash(Apply(d, plan[0]), plan[1..], e)
  }

  /** Bytes outside the request are as they were. */
  lemma CutOutside(d: Image, q: Request, e: Image, a: nat, n: nat)
    requires Cut(d, q, e) && a + n <= |d| && Apart(q.off, |q.data|, a, n)
    ensures |e| == |d| && e[a..a + n] == d[a..a + n]
  {
    var k :| 0 <= k <= Writes(q.off, |q.data|) && e == Torn(d, q.off, q.data, k);
  }

  lemma ApplyOutside(d: Image, q: Request, a: nat, n: nat)
    requires Within(d, q) && a + n <= |d| && Apart(q.off, |q.data|, a, n)
    ensures Apply(d, q)[a..a + n] == d[a..a + n]
  {
  }

  lemma ApplyInside(d: Image, q: Request)
    requires Within(d, q)
    ensures Apply(d, q)[q.off..q.off + |q.data|] == q.data
  {
  }

  /** A request inside one sector happens or does not. */
  lemma CutOnce(d: Image, q: Request, e: Image)
    requires Cut(d, q, e) && q.off % SECTOR + |q.data| <= SECTOR
    ensures e == d || e == Apply(d, q)
  {
    TornEnds(d, q.off, q.data);
    LandedAll(q.off, |q.data|);
    var k :| 0 <= k <= Writes(q.off, |q.data|) && e == Torn(d, q.off, q.data, k);
    assert k == 0 || k == Writes(q.off, |q.data|);
  }

  // ---------------------------------------------------------------- commit and replay

  /** The header words: the magic, the generation, zeros. */
  function Words(magic: seq<Byte>, gen: seq<Byte>): (h: seq<Byte>)
    requires |magic| == 4 && |gen| == 4
    ensures |h| == HEADER && h[..4] == magic
  {
    magic + gen + seq(HEADER - 8, _ => 0)
  }

  /** persist_meta */
  function Commit(l: Layout, t: Tables, gen: seq<Byte>): (plan: seq<Request>)
    requires |gen| == 4
  {
    [Request(l.jmeta, t.meta), Request(l.jdir, t.dir), Request(l.jl, Words(MAGIC, gen)),
     Request(l.meta, t.meta), Request(l.dir, t.dir), Request(l.jl, Words(NO_MAGIC, gen))]
  }

  /** The replay at the head of fs_persist_mount. */
  function Replay(d: Image, l: Layout): (plan: seq<Request>)
    requires Holds(d, l)
  {
    if Pending(d, l) then
      [Request(l.meta, Saved(d, l).meta), Request(l.dir, Saved(d, l).dir), Request(l.jl, NO_MAGIC + Header(d, l)[4..])]
    else []
  }

  lemma CommitWithin(d: Image, l: Layout, t: Tables, gen: seq<Byte>)
    requires Holds(d, l) && Fits(t, l) && |gen| == 4
    ensures AllWithin(d, Commit(l, t, gen))
  {
  }

  lemma ReplayWithin(d: Image, l: Layout)
    requires Holds(d, l)
    ensures AllWithin(d, Replay(d, l))
  {
  }

  function Mount(d: Image, l: Layout): (r: Image)
    requires Holds(d, l)
    ensures |r| == |d|
  {
    ReplayWithin(d, l);
    Run(d, Replay(d, l))
  }

  /** The tables the next mount will read. */
  function Recovered(d: Image, l: Layout): (t: Tables)
    requires Holds(d, l)
  {
    Home(Mount(d, l), l)
  }

  /** What the copies hold once both are written: the second may lie over the end of the first. */
  function Shadow(l: Layout, t: Tables): (s: Tables)
    requires Fits(t, l)
    ensures Fits(s, l)
  {
    Tables(seq(l.metaLen, k requires 0 <= k < l.metaLen =>
             if l.jdir <= l.jmeta + k < l.jdir + l.dirLen then t.dir[l.jmeta + k - l.jdir] else t.meta[k]),
           t.dir)
  }

  lemma ShadowExact(l: Layout, t: Tables)
    requires Fits(t, l) && Disjoint(l)
    ensures Shadow(l, t) == t
  {
  }

  /** Same tables, header and copies. */
  predicate SameHome(d: Image, e: Image, l: Layout) { Holds(d, l) && Holds(e, l) && Home(e, l) == Home(d, l) }
  predicate SameHeader(d: Image, e: Image, l: Layout) { Holds(d, l) && Holds(e, l) && Header(e, l) == Header(d, l) }
  predicate SameSaved(d: Image, e: Image, l: Layout) { Holds(d, l) && Holds(e, l) && Saved(e, l) == Saved(d, l) }

  lemma CutHome(d: Image, l: Layout, q: Request, e: Image)
    requires Holds(d, l) && Cut(d, q, e)
    requires Apart(q.off, |q.data|, l.meta, l.metaLen) && Apart(q.off, |q.data|, l.dir, l.dirLen)
    ensures SameHome(d, e, l)
  {
    CutOutside(d, q, e, l.meta, l.metaLen);
    CutOutside(d, q, e, l.dir, l.dirLen);
  }

  lemma CutSaved(d: Image, l: Layout, q: Request, e: Image)
    requires Holds(d, l) && Cut(d, q, e)
    requires Apart(q.off, |q.data|, l.jmeta, l.metaLen) && Apart(q.off, |q.data|, l.jdir, l.dirLen)
    ensures SameSaved(d, e, l)
  {
    CutOutside(d, q, e, l.jmeta, l.metaLen);
    CutOutside(d, q, e, l.jdir, l.dirLen);
  }

  lemma CutHeader(d: Image, l: Layout, q: Request, e: Image)
    requires Holds(d, l) && Cut(d, q, e) && Apart(q.off, |q.data|, l.jl, HEADER)
    ensures SameHeader(d, e, l)
  {
    CutOutside(d, q, e, l.jl, HEADER);
  }

  /** A write to the journal copies, torn anywhere. */
  lemma CopyCut(d: Image, l: Layout, q: Request, e: Image)
    requires Sound(l) && Holds(d, l) && Cut(d, q, e)
    requires (q.off == l.jmeta && |q.data| == l.metaLen) || (q.off == l.jdir && |q.data| == l.dirLen)
    ensures SameHome(d, e, l) && SameHeader(d, e, l)
  {
    CutHome(d, l, q, e);
    CutHeader(d, l, q, e);
  }

  /** A write to the tables, torn anywhere. */
  lemma HomeCut(d: Image, l: Layout, q: Request, e: Image)
    requires Sound(l) && Holds(d, l) && Cut(d, q, e)
    requires (q.off == l.meta && |q.data| == l.metaLen) || (q.off == l.dir && |q.data| == l.dirLen)
    ensures SameSaved(d, e, l) && SameHeader(d, e, l)
  {
    CutSaved(d, l, q, e);
    CutHeader(d, l, q, e);
  }

  lemma HeaderCut(d: Image, l: Layout, q: Request, e: Image)
    requires Sound(l) && Holds(d, l) && Cut(d, q, e) && q.off == l.jl && |q.data| == HEADER
    ensures SameHome(d, e, l) && SameSaved(d, e, l) && (e == d || Header(e, l) == q.data)
  {
    CutHome(d, l, q, e);
    CutSaved(d, l, q, e);
    CutOnce(d, q, e);
    ApplyInside(d, q);
  }

  lemma WholeCut(d: Image, q: Request)
    requires Within(d, q)
    ensures Cut(d, q, Apply(d, q))
  {
    TornEnds(d, q.off, q.data);
  }

  lemma RunThree(d: Image, p: seq<Request>)
    requires AllWithin(d, p) && |p| == 3
    ensures Run(d, p) == Apply(Apply(Apply(d, p[0]), p[1]), p[2])
  {
    var d1 := Apply(d, p[0]);
    var d2 := Apply(d1, p[1]);
    assert Run(d, p) == Run(d1, p[1..]);
    assert Run(d1, p[1..]) == Run(d2, p[1..][1..]);
    assert p[1..][1..] == [p[2]];
    assert Run(d2, [p[2]]) == Apply(d2, p[2]);
  }

  /** A mount reads the copies when the header is valid, the tables otherwise, and leaves a clear header. */
  lemma RecoveredIs(d: Image, l: Layout)
    requires Sound(l) && Holds(d, l)
    ensures Recovered(d, l) == if Pending(d, l) then Saved(d, l) else Home(d, l)
    ensures !Pending(Mount(d, l), l)
  {
    if Pending(d, l) {
      var p := Replay(d, l);
      RunThree(d, p);
      ReplayedTables(d, l, p, Apply(d, p[0]), Apply(Apply(d, p[0]), p[1]));
      ReplayedHeader(Apply(Apply(d, p[0]), p[1]), l, p[2]);
    }
  }

  lemma ReplayedTables(d: Image, l: Layout, p: seq<Request>, d1: Image, d2: Image)
    requires Sound(l) && Holds(d, l) && Pending(d, l) && p == Replay(d, l) && d1 == Apply(d, p[0]) && d2 == Apply(d1, p[1])
    ensures Home(Apply(d2, p[2]), l) == Saved(d, l)
  {
    ApplyInside(d, p[0]);
    ApplyOutside(d1, p[1], l.meta, l.metaLen);
    ApplyInside(d1, p[1]);
    ApplyOutside(d2, p[2], l.meta, l.metaLen);
    ApplyOutside(d2, p[2], l.dir, l.dirLen);
  }

  lemma ReplayedHeader(d: Image, l: Layout, q: Request)
    requires Sound(l) && Holds(d, l) && Within(d, q) && q.off == l.jl && |q.data| == HEADER && q.data[..4] == NO_MAGIC
    ensures !Pending(Apply(d, q), l)
  {
    ApplyInside(d, q);
    assert Header(Apply(d, q), l)[..4] == NO_MAGIC;
  }

  // ---------------------------------------------------------------- crash atomicity

  /** The disk after the first `j` requests. */
  function After(d: Image, plan: seq<Request>, j: nat): (r: Image)
    requires AllWithin(d, plan) && j <= |plan|
    ensures |r| == |d|
    decreases j
  {
    if j == 0 then d else Apply(After(d, plan, j - 1), plan[j - 1])
  }

  lemma {:induction false} AfterShift(d: Image, plan: seq<Request>, j: nat)
    requires AllWithin(d, plan) && j < |plan|
    ensures AllWithin(Apply(d, plan[0]), plan[1..])
    ensures After(Apply(d, plan[0]), plan[1..], j) == After(d, plan, j + 1)
    decreases j
  {
    if j > 0 {
      AfterShift(d, plan, j - 1);
    }
  }

  /** A crash is one torn request after some whole ones, and the other way round. */
  lemma {:induction false} CrashAt(d: Image, plan: seq<Request>, e: Image) returns (j: nat)
    requires AllWithin(d, plan) && |plan| > 0 && Crash(d, plan, e)
    ensures j < |plan| && Cut(After(d, plan, j), plan[j], e)
    decreases |plan|
  {
    WholeCut(d, plan[0]);
    if |plan| == 1 || Cut(d, plan[0], e) {
      j := 0;
    } else {
      j := CrashAt(Apply(d, plan[0]), plan[1..], e);
      AfterShift(d, plan, j);
      j := j + 1;
    }
  }

  lemma {:induction false} AtCrash(d: Image, plan: seq<Request>, e: Image, j: nat)
    requires AllWithin(d, plan) && j < |plan| && Cut(After(d, plan, j), plan[j], e)
    ensures Crash(d, plan, e)
    decreases |plan|
  {
    if j > 0 {
      AfterShift(d, plan, j - 1);
      AtCrash(Apply(d, plan[0]), plan[1..], e, j - 1);
    }
  }

  lemma {:induction false} RunAfter(d: Image, plan: seq<Request>)
    requires AllWithin(d, plan)
    ensures Run(d, plan) == After(d, plan, |plan|)
    decreases |plan|
  {
    if |plan| > 0 {
      AfterShift(d, plan, |plan| - 1);
      RunAfter(Apply(d, plan[0]), plan[1..]);
    }
  }

  /** What a mount of `e` would read. */
  function Outcome(e: Image, l: Layout): (t: Tables)
    requires Holds(e, l)
  {
    if Pending(e, l) then Saved(e, l) else Home(e, l)
  }

  // Replaying.

  /** Rewriting the tables, one or both, leaves the copies and the header. */
  lemma TablesWritten(d: Image, l: Layout, t: Tables, d1: Image, d2: Image)
    requires Sound(l) && Holds(d, l) && Fits(t, l)
    requires d1 == Apply(d, Request(l.meta, t.meta)) && d2 == Apply(d1, Request(l.dir, t.dir))
    ensures SameSaved(d, d1, l) && SameHeader(d, d1, l)
    ensures SameSaved(d, d2, l) && SameHeader(d, d2, l) && Home(d2, l) == t
  {
    var q, r := Request(l.meta, t.meta), Request(l.dir, t.dir);
    WholeCut(d, q);
    HomeCut(d, l, q, d1);
    WholeCut(d1, r);
    HomeCut(d1, l, r, d2);
    ApplyInside(d, q);
    ApplyOutside(d1, r, l.meta, l.metaLen);
    ApplyInside(d1, r);
  }

  /** The disk after 0, 1 or 2 requests of a replay still holds the copies and the valid header. */
  lemma ReplayAfter(d: Image, l: Layout, p: seq<Request>, j: nat)
    requires Sound(l) && Holds(d, l) && Pending(d, l) && p == Replay(d, l) && AllWithin(d, p) && j <= 2
    ensures SameSaved(d, After(d, p, j), l) && SameHeader(d, After(d, p, j), l)
    ensures j == 2 ==> Home(After(d, p, j), l) == Saved(d, l)
  {
    var d1, d2 := After(d, p, 1), After(d, p, 2);
    assert d1 == Apply(After(d, p, 0), p[0]) && d2 == Apply(d1, p[1]);
    TablesWritten(d, l, Saved(d, l), d1, d2);
  }

  /** Replaying after a crash of the replay gives what replaying the first time would have. */
  lemma ReplayCrash(d: Image, l: Layout, e: Image)
    requires Sound(l) && Holds(d, l) && AllWithin(d, Replay(d, l)) && Crash(d, Replay(d, l), e)
    ensures Holds(e, l) && Recovered(e, l) == Recovered(d, l)
  {
    RecoveredIs(d, l);
    if Pending(d, l) {
      var p := Replay(d, l);
      var j := CrashAt(d, p, e);
      ReplayAfter(d, l, p, j);
      if j < 2 {
        HomeCut(After(d, p, j), l, p[j], e);
      } else {
        HeaderCut(After(d, p, j), l, p[j], e);
      }
      RecoveredIs(e, l);
    }
  }

  /** Every image is a crash of the replay of the one before. */
  ghost predicate Restarts(l: Layout, es: seq<Image>) {
    && |es| > 0 && (forall i | 0 <= i < |es| :: Holds(es[i], l))
    && forall i | 0 <= i < |es| - 1 :: Restart(l, es[i], es[i + 1])
  }

  ghost predicate Restart(l: Layout, d: Image, e: Image) {
    Holds(d, l) && AllWithin(d, Replay(d, l)) && Crash(d, Replay(d, l), e)
  }

  /** However often the replay is interrupted, the mount that completes reads the same tables. */
  lemma {:induction false} RestartsRecover(l: Layout, es: seq<Image>, i: nat)
    requires Sound(l) && Restarts(l, es) && i < |es|
    ensures Recovered(es[i], l) == Recovered(es[0], l)
    decreases i
  {
    if i > 0 {
      RestartsRecover(l, es, i - 1);
      assert Restart(l, es[i - 1], es[i - 1 + 1]);
      ReplayCrash(es[i - 1], l, es[i]);
    }
  }

  // Committing.

  /** The disk after the first `j` requests of a commit, for j up to 3: tables untouched, copies filling up. */
  lemma CommitCopies(d: Image, l: Layout, t: Tables, gen: seq<Byte>, p: seq<Request>, j: nat)
    requires Sound(l) && Holds(d, l) && Fits(t, l) && |gen| == 4 && p == Commit(l, t, gen) && AllWithin(d, p) && j <= 2
    ensures SameHome(d, After(d, p, j), l) && SameHeader(d, After(d, p, j), l)
    ensures j == 2 ==> Saved(After(d, p, j), l) == Shadow(l, t)
  {
    if j > 0 {
      var d1 := After(d, p, 1);
      assert d1 == Apply(After(d, p, 0), p[0]);
      WholeCut(d, p[0]);
      CopyCut(d, l, p[0], d1);
      if j == 2 {
        assert After(d, p, 2) == Apply(d1, p[1]);
        WholeCut(d1, p[1]);
        CopyCut(d1, l, p[1], Apply(d1, p[1]));
        CopiesMerge(d, l, t);
      }
    }
  }

  lemma CopiesMerge(d: Image, l: Layout, t: Tables)
    requires Holds(d, l) && Fits(t, l)
    ensures var e := Apply(Apply(d, Request(l.jmeta, t.meta)), Request(l.jdir, t.dir)); Saved(e, l) == Shadow(l, t)
  {
  }

  /** ... and for j from 3 to 5: header valid, copies complete. */
  lemma CommitHome(d: Image, l: Layout, t: Tables, gen: seq<Byte>, p: seq<Request>, j: nat)
    requires Sound(l) && Holds(d, l) && Fits(t, l) && |gen| == 4 && p == Commit(l, t, gen) && AllWithin(d, p) && 3 <= j <= 5
    ensures Holds(After(d, p, j), l) && Pending(After(d, p, j), l) && Saved(After(d, p, j), l) == Shadow(l, t)
    ensures j == 5 ==> Home(After(d, p, j), l) == t
  {
    CommitCopies(d, l, t, gen, p, 2);
    var d2, d3 := After(d, p, 2), After(d, p, 3);
    assert d3 == Apply(d2, p[2]);
    WholeCut(d2, p[2]);
    HeaderCut(d2, l, p[2], d3);
    ApplyInside(d2, p[2]);
    var d4, d5 := After(d, p, 4), After(d, p, 5);
    assert d4 == Apply(d3, p[3]) && d5 == Apply(d4, p[4]);
    TablesWritten(d3, l, t, d4, d5);
  }

  /** A completed commit puts the tables in place and leaves a clear header. */
  lemma CommitDone(d: Image, l: Layout, t: Tables, gen: seq<Byte>)
    requires Sound(l) && Holds(d, l) && Fits(t, l) && |gen| == 4 && AllWithin(d, Commit(l, t, gen))
    ensures var e := Run(d, Commit(l, t, gen)); Holds(e, l) && Home(e, l) == t && !Pending(e, l)
  {
    var p := Commit(l, t, gen);
    RunAfter(d, p);
    CommitHome(d, l, t, gen, p, 5);
    var d5 := After(d, p, 5);
    WholeCut(d5, p[5]);
    HeaderCut(d5, l, p[5], Apply(d5, p[5]));
    ApplyInside(d5, p[5]);
  }

  /** Wherever a commit stops, the next mount reads the old tables, the copies, or the new tables. */
  lemma CommitCrash(d: Image, l: Layout, t: Tables, gen: seq<Byte>, e: Image)
    requires Sound(l) && Holds(d, l) && !Pending(d, l) && Fits(t, l) && |gen| == 4
    requires AllWithin(d, Commit(l, t, gen)) && Crash(d, Commit(l, t, gen), e)
    ensures Holds(e, l)
    ensures Recovered(e, l) == Home(d, l) || Recovered(e, l) == Shadow(l, t) || Recovered(e, l) == t
  {
    var p := Commit(l, t, gen);
    var j := CrashAt(d, p, e);
    var x := After(d, p, j);
    if j < 2 {
      CommitCopies(d, l, t, gen, p, j);
      CopyCut(x, l, p[j], e);
    } else if j == 2 {
      CommitCopies(d, l, t, gen, p, j);
      HeaderCut(x, l, p[j], e);
    } else if j < 5 {
      CommitHome(d, l, t, gen, p, j);
      HomeCut(x, l, p[j], e);
    } else {
      CommitHome(d, l, t, gen, p, j);
      HeaderCut(x, l, p[j], e);
    }
    RecoveredIs(e, l);
  }

  /** The copies do come back: a commit stopped just after its header leads the mount to them. */
  lemma ShadowReached(d: Image, l: Layout, t: Tables, gen: seq<Byte>) returns (e: Image)
    requires Sound(l) && Holds(d, l) && Fits(t, l) && |gen| == 4 && AllWithin(d, Commit(l, t, gen))
    ensures Crash(d, Commit(l, t, gen), e) && Holds(e, l) && Recovered(e, l) == Shadow(l, t)
  {
    var p := Commit(l, t, gen);
    e := After(d, p, 3);
    assert e == Apply(After(d, p, 2), p[2]);
    WholeCut(After(d, p, 2), p[2]);
    AtCrash(d, p, e, 2);
    CommitHome(d, l, t, gen, p, 3);
    RecoveredIs(e, l);
  }

  /** The crash guarantee: whatever the crash point, the next mount reads all old or all new. */
  ghost predicate Atomic(d: Image, l: Layout, t: Tables, gen: seq<Byte>)
    requires Holds(d, l) && |gen| == 4 && AllWithin(d, Commit(l, t, gen))
  {
    forall e | Crash(d, Commit(l, t, gen), e) && Holds(e, l) :: Recovered(e, l) == Home(d, l) || Recovered(e, l) == t
  }

  /** A commit is atomic exactly when the copies, as they overlap, read as the new or the old tables. */
  lemma AtomicIff(d: Image, l: Layout, t: Tables, gen: seq<Byte>)
    requires Sound(l) && Holds(d, l) && !Pending(d, l) && Fits(t, l) && |gen| == 4 && AllWithin(d, Commit(l, t, gen))
    ensures Atomic(d, l, t, gen) <==> Shadow(l, t) == t || Shadow(l, t) == Home(d, l)
  {
    if Shadow(l, t) == t || Shadow(l, t) == Home(d, l) {
      forall e | Crash(d, Commit(l, t, gen), e) && Holds(e, l)
        ensures Recovered(e, l) == Home(d, l) || Recovered(e, l) == t
      {
        CommitCrash(d, l, t, gen, e);
      }
    } else {
      var e := ShadowReached(d, l, t, gen);
    }
  }

  /** With copies that do not overlap every commit is atomic, through any number of interrupted replays. */
  lemma DisjointAtomic(d: Image, l: Layout, t: Tables, gen: seq<Byte>, es: seq<Image>)
    requires Sound(l) && Disjoint(l) && Holds(d, l) && !Pending(d, l) && Fits(t, l) && |gen| == 4
    requires AllWithin(d, Commit(l, t, gen)) && Restarts(l, es) && Crash(d, Commit(l, t, gen), es[0])
    ensures var last := es[|es| - 1]; Recovered(last, l) == Home(d, l) || Recovered(last, l) == t
    ensures !Pending(Mount(es[|es| - 1], l), l)
  {
    ShadowExact(l, t);
    CommitCrash(d, l, t, gen, es[0]);
    RestartsRecover(l, es, |es| - 1);
    RecoveredIs(es[|es| - 1], l);
  }
}
