/**
 Runs of kernel operations on address spaces, against the simple picture: every space is its own
 map from pages to contents, fork copies that map, a store changes one byte of one map.
 */
module CowRuns {
  import opened Options
  import opened Paging
  import opened Cow
  import opened CowWrite
  import opened CowSpaces
  import opened CowReap
  import opened CowLaunch

  // ---------------------------------------------------------------- execve

  /** One turn of the loop of mm_user_detach_pages. */
  ghost function DetachOne(m: Mem, s: nat, k: nat): (r: (Mem, bool))
    requires Good(m) && s in m.spaces && k < USER_PAGES
  {
    if Entry(m.phys, s, k).present && !Entry(m.phys, s, k).writable then Writable(m, s, k) else (m, true)
  }

  lemma DetachOneGood(m: Mem, s: nat, k: nat)
    requires Good(m) && s in m.spaces && k < USER_PAGES
    ensures Good(DetachOne(m, s, k).0) && DetachOne(m, s, k).0.spaces == m.spaces
  {
    WritableGood(m, s, k);
  }

  lemma DetachOneKeeps(m: Mem, base: set<nat>, s: nat, k: nat)
    requires Inv(m, base) && s in m.spaces && k < USER_PAGES
    ensures Inv(DetachOne(m, s, k).0, base)
    ensures DetachOne(m, s, k).0.spaces == m.spaces && DetachOne(m, s, k).0.procs == m.procs
  {
    WritableKeeps(m, base, s, k);
  }

  lemma DetachOneViews(m: Mem, base: set<nat>, s: nat, k: nat, p: nat)
    requires Inv(m, base) && s in m.spaces && k < USER_PAGES && p in m.spaces
    ensures Tables(DetachOne(m, s, k).0) && p in DetachOne(m, s, k).0.spaces
    ensures View(DetachOne(m, s, k).0, p) == View(m, p)
  {
    WritableViews(m, base, s, k, p);
  }

  /** mm_user_detach_pages from page `k` on: privatise every protected page, stopping at the first failure. */
  ghost function DetachFrom(m: Mem, s: nat, k: nat): (r: (Mem, bool))
    requires Good(m) && s in m.spaces && k <= USER_PAGES
    decreases USER_PAGES - k
  {
    if k == USER_PAGES then (m, true)
    else
      DetachOneGood(m, s, k);
      var w := DetachOne(m, s, k);
      if w.1 then DetachFrom(w.0, s, k + 1) else w
  }

  ghost function Detach(m: Mem, s: nat): (r: (Mem, bool))
    requires Good(m) && s in m.spaces
  {
    DetachFrom(m, s, 0)
  }

  /** Privatising keeps the invariant and every page of every space, whether or not frames run out. */
  lemma {:induction false} DetachKeeps(m: Mem, base: set<nat>, s: nat, k: nat) returns (n: Mem)
    requires Inv(m, base) && s in m.spaces && k <= USER_PAGES
    ensures n == DetachFrom(m, s, k).0 && Inv(n, base)
    ensures n.spaces == m.spaces && n.procs == m.procs
    ensures forall p | p in m.spaces :: View(n, p) == View(m, p)
    decreases USER_PAGES - k
  {
    if k == USER_PAGES {
      n := m;
    } else {
      DetachOneKeeps(m, base, s, k);
      var w := DetachOne(m, s, k);
      forall p | p in m.spaces ensures View(w.0, p) == View(m, p) {
        DetachOneViews(m, base, s, k, p);
      }
      if w.1 {
        n := DetachKeeps(w.0, base, s, k + 1);
      } else {
        n := w.0;
      }
    }
  }

  lemma DetachFromStep(k: Mem, u: nat, j: nat)
    requires Good(k) && u in k.spaces && j < USER_PAGES
    ensures var w := DetachOne(k, u, j);
            && Good(w.0) && w.0.spaces == k.spaces
            && DetachFrom(k, u, j).0 == if w.1 then DetachFrom(w.0, u, j + 1).0 else w.0
  {
    DetachOneGood(k, u, j);
  }

  /** `P` survives every turn of the detach loop on `u`. */
  ghost predicate Lasting(base: set<nat>, u: nat, P: Mem -> bool) {
    forall x, i | Inv(x, base) && u in x.spaces && 0 <= i < USER_PAGES && P(x) :: P(DetachOne(x, u, i).0)
  }

  lemma DetachTurn(k: Mem, base: set<nat>, u: nat, j: nat, P: Mem -> bool) returns (w: Mem, ok: bool)
    requires Inv(k, base) && u in k.spaces && j < USER_PAGES && P(k) && Lasting(base, u, P)
    ensures Inv(w, base) && w.spaces == k.spaces && P(w)
    ensures DetachFrom(k, u, j).0 == if ok then DetachFrom(w, u, j + 1).0 else w
  {
    DetachOneKeeps(k, base, u, j);
    DetachFromStep(k, u, j);
    w, ok := DetachOne(k, u, j).0, DetachOne(k, u, j).1;
  }

  /** Whatever one turn of the detach loop keeps, the loop keeps. */
  lemma {:induction false} DetachInduct(k: Mem, base: set<nat>, u: nat, j: nat, P: Mem -> bool) returns (n: Mem)
    requires Inv(k, base) && u in k.spaces && j <= USER_PAGES && P(k) && Lasting(base, u, P)
    ensures n == DetachFrom(k, u, j).0 && P(n)
    decreases USER_PAGES - j
  {
    if j == USER_PAGES {
      n := k;
    } else {
      var ok;
      n, ok := DetachTurn(k, base, u, j, P);
      if ok {
        n := DetachInduct(n, base, u, j + 1, P);
      }
    }
  }

  // ---------------------------------------------------------------- operations

  datatype Op =
    | Start(slot: nat)
    | ForkInto(parent: nat, child: nat)
    | Thread(parent: nat, child: nat)
    | Store(slot: nat, page: nat, at: nat, byte: Byte)
    | WakeStore(slot: nat, page: nat, at: nat, byte: Byte)
    | Exec(slot: nat)
    | Exit(slot: nat)

  predicate FreshSlot(m: Mem, c: nat) { c !in m.procs && c < PROC_MAX }

  /** The operation names live processes and free slots. */
  predicate Applies(m: Mem, op: Op) {
    match op
    case Start(p) => FreshSlot(m, p)
    case ForkInto(p, c) => p in m.procs && FreshSlot(m, c)
    case Thread(p, c) => p in m.procs && FreshSlot(m, c)
    case Store(p, i, at, _) => p in m.procs && i < USER_PAGES && at < PAGE_SIZE
    case WakeStore(p, i, at, _) => p in m.procs && i < USER_PAGES && at < PAGE_SIZE
    case Exec(p) => p in m.procs
    case Exit(p) => p in m.procs
  }

  lemma SpaceOf(m: Mem, p: nat)
    requires Good(m) && p in m.procs
    ensures m.procs[p] in m.spaces
  {
  }

  ghost function Step(m: Mem, kernel: seq<Pde>, op: Op): (n: Mem)
    requires Good(m) && |kernel| == 1024 && Applies(m, op)
  {
    match op
    case Start(p) => Launch(m, kernel, p).0
    case ForkInto(p, c) => Fork(m, p, c).0
    case Thread(p, c) => SpaceOf(m, p); Share(m, p, c)
    case Store(p, i, at, b) => SpaceOf(m, p); UserStore(m, m.procs[p], i, at, b).0
    case WakeStore(p, i, at, b) => SpaceOf(m, p); KernelStore(m, m.procs[p], i, at, b).0
    case Exec(p) => SpaceOf(m, p); Detach(m, m.procs[p]).0
    case Exit(p) => SpaceOf(m, p); Reap(m, p)
  }

  /** A protected page whose frame another space maps too. */
  ghost predicate SharedPage(m: Mem, s: nat, i: nat)
    requires Tables(m) && s in m.spaces
  {
    i < USER_PAGES && Entry(m.phys, s, i).present && !Entry(m.phys, s, i).writable && |Mappers(m, Entry(m.phys, s, i).frame)| > 1
  }

  /** How many such pages a space has from page `k` on. */
  ghost function SharedPages(m: Mem, s: nat, k: nat): (n: nat)
    requires Tables(m) && s in m.spaces && k <= USER_PAGES
    decreases USER_PAGES - k
  {
    if k == USER_PAGES then 0 else SharedPages(m, s, k + 1) + if SharedPage(m, s, k) then 1 else 0
  }

  /** The page is mapped, and private or with a frame to copy it to. */
  ghost predicate CanStore(m: Mem, s: nat, i: nat)
    requires Tables(m) && s in m.spaces && i < USER_PAGES
  {
    var e := Entry(m.phys, s, i);
    e.present && (e.writable || e.frame >= |m.phys| || m.pool.refs[e.frame] <= 1 || m.pool.free > 0)
  }

  /**
   The room the two operations that misbehave without it need: a fork outside the window in which its
   clean-up frees live page tables, the kernel's store a page it need not share.
   */
  ghost predicate Roomy(m: Mem, op: Op)
    requires Good(m) && Applies(m, op)
  {
    match op
    case ForkInto(_, _) => m.pool.free < 2 || m.pool.free >= 5
    case WakeStore(p, i, _, _) => SpaceOf(m, p); Entry(m.phys, m.procs[p], i).present ==> CanStore(m, m.procs[p], i)
    case _ => true
  }

  /**
   When an operation takes effect, in terms a caller can look up beforehand. A launch needs its frames,
   a fork five of them, a store a mapped page that is private or can be copied; the kernel's own store
   only needs the page to be mapped; an exec needs a frame for each page it shares.
   */
  ghost predicate Succeeds(m: Mem, op: Op)
    requires Good(m) && Applies(m, op)
  {
    match op
    case Start(_) => RoomToLaunch(m.pool)
    case ForkInto(_, _) => m.pool.free >= 5
    case Store(p, i, _, _) =>
      SpaceOf(m, p);
      CanStore(m, m.procs[p], i)
    case WakeStore(p, i, _, _) => SpaceOf(m, p); Entry(m.phys, m.procs[p], i).present
    case Exec(p) => SpaceOf(m, p); m.pool.free >= SharedPages(m, m.procs[p], 0)
    case _ => true
  }

  // ---------------------------------------------------------------- the simple picture

  type Contents = seq<Option<Page>>

  /** Private contents per space, and the space of each process. */
  datatype Picture = Picture(procs: map<nat, nat>, views: map<nat, Contents>)

  ghost function Abs(m: Mem): Picture
    requires Tables(m)
  {
    Picture(m.procs, map s | s in m.spaces :: View(m, s))
  }

  /** One operation on private page maps: its whole effect, or nothing when it fails; `id` names a new space. */
  ghost predicate Next(a: Picture, op: Op, ok: bool, c: Picture, id: nat) {
    if !ok then c == a
    else
      match op
      case Start(p) =>
        id !in a.views && c == Picture(a.procs[p := id], a.views[id := seq(USER_PAGES, _ => Some(ZeroPage()))])
      case ForkInto(p, k) =>
        && id !in a.views && p in a.procs && a.procs[p] in a.views
        && c == Picture(a.procs[k := id], a.views[id := a.views[a.procs[p]]])
      case Thread(p, k) => p in a.procs && c == a.(procs := a.procs[k := a.procs[p]])
      case Store(p, i, at, b) => Wrote(a, p, i, at, b, c)
      case WakeStore(p, i, at, b) => Wrote(a, p, i, at, b, c)
      case Exec(_) => c == a
      case Exit(p) =>
        && c.procs == a.procs - {p}
        && c.views == (map s | s in a.views && s in c.procs.Values :: a.views[s])
  }

  ghost predicate Wrote(a: Picture, p: nat, i: nat, at: nat, b: Byte, c: Picture) {
    && p in a.procs && a.procs[p] in a.views && i < |a.views[a.procs[p]]| && at < PAGE_SIZE
    && var v := a.views[a.procs[p]];
       c == a.(views := a.views[a.procs[p] := v[i := StoredPage(v[i], at, b)]])
  }

  // ---------------------------------------------------------------- each operation refines the picture

  lemma SameAbs(m: Mem, n: Mem)
    requires Tables(m) && Tables(n) && n.procs == m.procs && n.spaces.Keys == m.spaces.Keys
    requires forall p | p in m.spaces :: View(n, p) == View(m, p)
    ensures Abs(n) == Abs(m)
  {
  }

  /** A space `id` with contents `v` was added. */
  ghost predicate Added(m: Mem, n: Mem, id: nat, v: Contents) {
    && Tables(m) && Tables(n) && id !in m.spaces && n.spaces.Keys == m.spaces.Keys + {id}
    && View(n, id) == v && forall p | p in m.spaces :: View(n, p) == View(m, p)
  }

  lemma AbsAdded(m: Mem, n: Mem, id: nat, v: Contents)
    requires Added(m, n, id, v)
    ensures Abs(n).views == Abs(m).views[id := v] && id !in Abs(m).views
  {
  }

  lemma AbsWrote(m: Mem, n: Mem, s: nat, v: Contents)
    requires Tables(m) && Tables(n) && s in m.spaces && n.spaces.Keys == m.spaces.Keys
    requires View(n, s) == v && forall p | p in m.spaces && p != s :: View(n, p) == View(m, p)
    ensures Abs(n).views == Abs(m).views[s := v]
  {
  }

  lemma AgreeAbs(m: Mem, n: Mem)
    requires Agree(m, n) && Pages(m)
    ensures Tables(n) && Abs(n) == Abs(m)
  {
    AgreeTables(m, n);
    forall q | q in m.spaces ensures View(n, q) == View(m, q) {
      AgreeView(m, n, q);
    }
    SameAbs(m, n);
  }

  lemma LaunchedAdded(m: Mem, kernel: seq<Pde>, p: nat, n: Mem, pd: nat, t: nat, a: nat, b: nat, c: nat, blk: nat)
    requires Launched(m, kernel, p, n, pd, t, a, b, c, blk) && Pages(m)
    ensures Added(m, n, pd, seq(USER_PAGES, _ => Some(ZeroPage())))
  {
    LaunchedViews(m, kernel, p, n, pd, t, a, b, c, blk);
    MapsAdded(m, n, pd, t, blk, seq(USER_PAGES, _ => Some(ZeroPage())));
  }

  lemma MapsAdded(m: Mem, n: Mem, pd: nat, t: nat, blk: nat, v: Contents)
    requires LaunchedMaps(m, n, pd, t, blk) && View(n, pd) == v && forall q | q in m.spaces :: View(n, q) == View(m, q)
    ensures Added(m, n, pd, v)
  {
  }

  lemma StartWorks(m: Mem, base: set<nat>, kernel: seq<Pde>, p: nat) returns (n: Mem, id: nat, more: set<nat>)
    requires Inv(m, base) && |kernel| == 1024 && FreshSlot(m, p) && Launch(m, kernel, p).1
    ensures n == Launch(m, kernel, p).0
    ensures Inv(n, more) && base <= more && n.procs == m.procs[p := id]
    ensures Added(m, n, id, seq(USER_PAGES, _ => Some(ZeroPage())))
  {
    var t, a, b, c, blk;
    n := Launch(m, kernel, p).0;
    id, t, a, b, c, blk := LaunchSucceeds(m, kernel, p);
    more := LaunchedKeeps(m, base, kernel, p, n, id, t, a, b, c, blk);
    LaunchedAdded(m, kernel, p, n, id, t, a, b, c, blk);
  }

  lemma StartRefines(m: Mem, base: set<nat>, kernel: seq<Pde>, p: nat) returns (n: Mem, id: nat, more: set<nat>)
    requires Inv(m, base) && |kernel| == 1024 && FreshSlot(m, p)
    ensures n == Launch(m, kernel, p).0
    ensures Inv(n, more) && base <= more
    ensures Next(Abs(m), Start(p), RoomToLaunch(m.pool), Abs(n), id)
  {
    LaunchWorksIff(m, kernel, p);
    if !Launch(m, kernel, p).1 {
      LaunchRefused(m, base, kernel, p);
      n := Launch(m, kernel, p).0;
      AgreeAbs(m, n);
      id, more := 0, base;
    } else {
      n, id, more := StartWorks(m, base, kernel, p);
      AbsAdded(m, n, id, seq(USER_PAGES, _ => Some(ZeroPage())));
    }
  }

  lemma ForkedAdded(m: Mem, s: nat, child: nat, n: Mem, pd: nat, t: nat, taken: set<nat>)
    requires Forked(m, s, child, n, pd, t, taken)
    ensures Added(m, n, pd, View(m, s))
  {
    ForkedReady(m, s, child, n, pd, t, taken);
    ForkedView(m, s, child, n, pd, t, taken, pd);
    forall q | q in m.spaces ensures View(n, q) == View(m, q) {
      ForkedView(m, s, child, n, pd, t, taken, q);
    }
  }

  lemma ForkRefines(m: Mem, base: set<nat>, p: nat, c: nat) returns (id: nat)
    requires Inv(m, base) && p in m.procs && FreshSlot(m, c) && (m.pool.free < 2 || m.pool.free >= 5)
    ensures Inv(Fork(m, p, c).0, base)
    ensures Next(Abs(m), ForkInto(p, c), m.pool.free >= 5, Abs(Fork(m, p, c).0), id)
  {
    if m.pool.free < 2 {
      ForkRefused(m, base, p, c);
      AgreeAbs(m, Fork(m, p, c).0);
      id := 0;
    } else {
      var t, taken;
      id, t, taken := ForkSucceeds(m, base, p, c);
      ForkedKeeps(m, base, m.procs[p], c, Fork(m, p, c).0, id, t, taken);
      ForkedAdded(m, m.procs[p], c, Fork(m, p, c).0, id, t, taken);
      AbsAdded(m, Fork(m, p, c).0, id, View(m, m.procs[p]));
    }
  }

  lemma StoreAbs(m: Mem, base: set<nat>, s: nat, i: nat, at: nat, b: Byte)
    requires Inv(m, base) && s in m.spaces && i < USER_PAGES && at < PAGE_SIZE && UserStore(m, s, i, at, b).1
    ensures Tables(UserStore(m, s, i, at, b).0)
    ensures Abs(UserStore(m, s, i, at, b).0).views == Abs(m).views[s := View(m, s)[i := StoredPage(View(m, s)[i], at, b)]]
  {
    UserStoreIsolated(m, base, s, i, at, b);
    AbsWrote(m, UserStore(m, s, i, at, b).0, s, View(m, s)[i := StoredPage(View(m, s)[i], at, b)]);
  }

  lemma StoreInv(m: Mem, base: set<nat>, s: nat, i: nat, at: nat, b: Byte)
    requires Inv(m, base) && s in m.spaces && i < USER_PAGES && at < PAGE_SIZE
    ensures Inv(UserStore(m, s, i, at, b).0, base) && UserStore(m, s, i, at, b).0.procs == m.procs
    ensures !UserStore(m, s, i, at, b).1 ==> UserStore(m, s, i, at, b).0 == m
    ensures UserStore(m, s, i, at, b).1 <==> CanStore(m, s, i)
  {
    UserStoreIsolated(m, base, s, i, at, b);
    if Entry(m.phys, s, i).present {
      assert PageOk(m, Entry(m.phys, s, i));
    }
  }

  lemma NextStore(m: Mem, n: Mem, p: nat, i: nat, at: nat, b: Byte)
    requires Tables(m) && Tables(n) && p in m.procs && m.procs[p] in m.spaces && i < USER_PAGES && at < PAGE_SIZE
    requires n.procs == m.procs
    requires var v := View(m, m.procs[p]); Abs(n).views == Abs(m).views[m.procs[p] := v[i := StoredPage(v[i], at, b)]]
    ensures Next(Abs(m), Store(p, i, at, b), true, Abs(n), 0) && Next(Abs(m), WakeStore(p, i, at, b), true, Abs(n), 0)
  {
    assert Wrote(Abs(m), p, i, at, b, Abs(n));
  }

  lemma StoreRefines(m: Mem, base: set<nat>, p: nat, i: nat, at: nat, b: Byte) returns (n: Mem)
    requires Inv(m, base) && p in m.procs && i < USER_PAGES && at < PAGE_SIZE
    ensures n == UserStore(m, m.procs[p], i, at, b).0 && Inv(n, base)
    ensures Next(Abs(m), Store(p, i, at, b), CanStore(m, m.procs[p], i), Abs(n), 0)
    ensures Next(Abs(m), WakeStore(p, i, at, b), CanStore(m, m.procs[p], i), Abs(n), 0)
  {
    StoreInv(m, base, m.procs[p], i, at, b);
    n := UserStore(m, m.procs[p], i, at, b).0;
    if UserStore(m, m.procs[p], i, at, b).1 {
      StoreAbs(m, base, m.procs[p], i, at, b);
      NextStore(m, n, p, i, at, b);
    }
  }

  lemma WakeRefines(m: Mem, base: set<nat>, p: nat, i: nat, at: nat, b: Byte)
    requires Inv(m, base) && p in m.procs && i < USER_PAGES && at < PAGE_SIZE
    requires Entry(m.phys, m.procs[p], i).present ==> CanStore(m, m.procs[p], i)
    ensures Inv(KernelStore(m, m.procs[p], i, at, b).0, base)
    ensures Next(Abs(m), WakeStore(p, i, at, b), Entry(m.phys, m.procs[p], i).present, Abs(KernelStore(m, m.procs[p], i, at, b).0), 0)
  {
    if Entry(m.phys, m.procs[p], i).present {
      assert PageOk(m, Entry(m.phys, m.procs[p], i));
      KernelStoreWhenPrivate(m, base, m.procs[p], i, at, b);
      var n := StoreRefines(m, base, p, i, at, b);
    } else {
      WritableKeeps(m, base, m.procs[p], i);
    }
  }

  lemma ExecRefines(m: Mem, base: set<nat>, p: nat)
    requires Inv(m, base) && p in m.procs
    ensures Inv(Detach(m, m.procs[p]).0, base)
    ensures Abs(Detach(m, m.procs[p]).0) == Abs(m)
  {
    var n := DetachKeeps(m, base, m.procs[p], 0);
    SameAbs(m, n);
  }

  lemma AbsShared(m: Mem, n: Mem)
    requires Tables(m) && Tables(n) && n.spaces.Keys == m.spaces.Keys
    requires forall p | p in m.spaces :: View(n, p) == View(m, p)
    ensures Abs(n).views == Abs(m).views
  {
  }

  lemma ThreadRefines(m: Mem, base: set<nat>, p: nat, c: nat)
    requires Inv(m, base) && p in m.procs && FreshSlot(m, c)
    ensures Inv(Share(m, p, c), base)
    ensures Next(Abs(m), Thread(p, c), true, Abs(Share(m, p, c)), 0)
  {
    ShareKeeps(m, base, p, c);
    var n := Share(m, p, c);
    assert Tables(n) && n.spaces.Keys == m.spaces.Keys && n.procs == m.procs[c := m.procs[p]];
    AbsShared(m, n);
  }

  lemma LiveSpaces(m: Mem)
    requires Procs(m)
    ensures m.spaces.Keys == m.procs.Values
  {
    forall s | s in m.spaces ensures s in m.procs.Values {
      assert |Users(m, s)| > 0;
      var p :| p in Users(m, s);
      assert m.procs[p] == s;
    }
  }

  lemma AbsExited(m: Mem, n: Mem)
    requires Tables(m) && Tables(n) && n.spaces.Keys == n.procs.Values && n.spaces.Keys <= m.spaces.Keys
    requires forall p | p in n.spaces :: View(n, p) == View(m, p)
    ensures Abs(n).views == map s | s in Abs(m).views && s in n.procs.Values :: Abs(m).views[s]
  {
  }

  lemma ExitRefines(m: Mem, base: set<nat>, p: nat)
    requires Inv(m, base) && p in m.procs
    ensures Inv(Reap(m, p), base)
    ensures Next(Abs(m), Exit(p), true, Abs(Reap(m, p)), 0)
  {
    ReapKeeps(m, base, p);
    LiveSpaces(Reap(m, p));
    AbsExited(m, Reap(m, p));
  }

  // ---------------------------------------------------------------- runs

  /**
   One step of a run: the operation applies and has room, and `ok` says whether it takes effect.
   A kernel whose invariant is broken may do anything.
   */
  ghost predicate Goes(m: Mem, kernel: seq<Pde>, op: Op, ok: bool, n: Mem)
    requires |kernel| == 1024
  {
    Good(m) ==> Applies(m, op) && Roomy(m, op) && ok == Succeeds(m, op) && n == Step(m, kernel, op)
  }

  /** The states of a run, its operations and which of them took effect. */
  ghost predicate RunOf(ms: seq<Mem>, kernel: seq<Pde>, ops: seq<Op>, oks: seq<bool>) {
    && |kernel| == 1024 && |ms| == |ops| + 1 && |oks| == |ops|
    && forall k | 0 <= k < |ops| :: Goes(ms[k], kernel, ops[k], oks[k], ms[k + 1])
  }

  /** The same on private page maps: what succeeded has its full effect, what failed has none. */
  ghost predicate Moves(a: Picture, op: Op, ok: bool, c: Picture) { exists id :: Next(a, op, ok, c, id) }

  ghost predicate Refines(m: Mem, op: Op, ok: bool, n: Mem) { Tables(m) && Tables(n) && Moves(Abs(m), op, ok, Abs(n)) }

  lemma StepRefines(m: Mem, base: set<nat>, kernel: seq<Pde>, op: Op) returns (id: nat, more: set<nat>)
    requires Inv(m, base) && |kernel| == 1024 && Applies(m, op) && Roomy(m, op)
    ensures Inv(Step(m, kernel, op), more) && base <= more
    ensures op.Start? || more == base
    ensures Next(Abs(m), op, Succeeds(m, op), Abs(Step(m, kernel, op)), id)
  {
    id, more := 0, base;
    match op
    case Start(p) =>
      var n;
      n, id, more := StartRefines(m, base, kernel, p);
    case ForkInto(p, c) => id := ForkRefines(m, base, p, c);
    case Thread(p, c) => ThreadRefines(m, base, p, c);
    case Store(p, i, at, b) => var n := StoreRefines(m, base, p, i, at, b);
    case WakeStore(p, i, at, b) => WakeRefines(m, base, p, i, at, b);
    case Exec(p) => ExecRefines(m, base, p);
    case Exit(p) => ExitRefines(m, base, p);
  }

  /**
   Copy-on-write refines a full copy: along every run of launches, forks, threads, stores, execs and
   exits each space has the contents it would have with private pages throughout. Every operation that
   succeeds has its whole effect, every one that fails has none, and which of the two happens is decided
   by the room there was. The invariant holds in every state.
   */
  lemma RunRefines(ms: seq<Mem>, base: set<nat>, kernel: seq<Pde>, ops: seq<Op>, oks: seq<bool>, k: nat)
    returns (more: set<nat>)
    requires RunOf(ms, kernel, ops, oks) && Inv(ms[0], base) && k < |ms|
    ensures Inv(ms[k], more) && base <= more
    ensures forall j | 0 <= j < k :: Refines(ms[j], ops[j], oks[j], ms[j + 1])
  {
    more := RunInv(ms, base, kernel, ops, oks, k);
    forall j | 0 <= j < k ensures Refines(ms[j], ops[j], oks[j], ms[j + 1]) {
      RefinesAt(ms, base, kernel, ops, oks, j);
    }
  }

  lemma {:induction false} RunInv(ms: seq<Mem>, base: set<nat>, kernel: seq<Pde>, ops: seq<Op>, oks: seq<bool>, k: nat)
    returns (more: set<nat>)
    requires RunOf(ms, kernel, ops, oks) && Inv(ms[0], base) && k < |ms|
    ensures Inv(ms[k], more) && base <= more
  {
    if k == 0 {
      more := base;
    } else {
      var b := RunInv(ms, base, kernel, ops, oks, k - 1);
      more := LastRefines(ms, b, kernel, ops, oks, k);
    }
  }

  lemma RefinesAt(ms: seq<Mem>, base: set<nat>, kernel: seq<Pde>, ops: seq<Op>, oks: seq<bool>, j: nat)
    requires RunOf(ms, kernel, ops, oks) && Inv(ms[0], base) && j < |ops|
    ensures Refines(ms[j], ops[j], oks[j], ms[j + 1])
  {
    var b := RunInv(ms, base, kernel, ops, oks, j);
    var more := LastRefines(ms, b, kernel, ops, oks, j + 1);
  }

  lemma LastRefines(ms: seq<Mem>, base: set<nat>, kernel: seq<Pde>, ops: seq<Op>, oks: seq<bool>, k: nat) returns (more: set<nat>)
    requires RunOf(ms, kernel, ops, oks) && 0 < k < |ms| && Inv(ms[k - 1], base)
    ensures Inv(ms[k], more) && base <= more && Refines(ms[k - 1], ops[k - 1], oks[k - 1], ms[k])
  {
    var m, op, ok, n := RunGoes(ms, kernel, ops, oks, k);
    more := GoesRefines(m, base, kernel, op, ok, n);
  }

  lemma RunGoes(ms: seq<Mem>, kernel: seq<Pde>, ops: seq<Op>, oks: seq<bool>, k: nat) returns (m: Mem, op: Op, ok: bool, n: Mem)
    requires RunOf(ms, kernel, ops, oks) && 0 < k < |ms|
    ensures m == ms[k - 1] && op == ops[k - 1] && ok == oks[k - 1] && n == ms[k] && Goes(m, kernel, op, ok, n)
  {
    m, op, ok, n := ms[k - 1], ops[k - 1], oks[k - 1], ms[k - 1 + 1];
  }

  lemma GoesRefines(m: Mem, base: set<nat>, kernel: seq<Pde>, op: Op, ok: bool, n: Mem) returns (more: set<nat>)
    requires |kernel| == 1024 && Inv(m, base) && Goes(m, kernel, op, ok, n)
    ensures Inv(n, more) && base <= more && Refines(m, op, ok, n)
  {
    assert Good(m);
    var id;
    id, more := StepRefines(m, base, kernel, op);
  }
}
