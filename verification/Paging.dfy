/**
 Two-level page tables inside physical memory (`src/mm.c`, the user window).

 Physical memory is a sequence of frames. A frame holds user data, a page table or a page
 directory; a page table is reached only through the directory entry that names its frame.
 */
module Paging {

  newtype Byte = b: int | 0 <= b < 256

  const PAGE_SIZE: nat := 4096
  /** USER_BASE >> 12: the page number of the first user page. */
  const USER_FIRST: nat := 0x8048
  /** Pages from USER_BASE up to the trampoline page USER_SIGTRAMP. */
  const USER_PAGES: nat := 2047
  /** Directory slots USER_BASE >> 22 and (USER_END - 1) >> 22. */
  const FIRST_PDE: nat := 32
  const LAST_PDE: nat := 34

  type Page = p: seq<Byte> | |p| == PAGE_SIZE witness seq(PAGE_SIZE, _ => 0)

  datatype Pte = Pte(present: bool, writable: bool, user: bool, frame: nat)
  datatype Pde = Pde(present: bool, user: bool, frame: nat)
  datatype Cell = Data(page: Page) | Table(ptes: seq<Pte>) | Directory(pdes: seq<Pde>)
  type Phys = seq<Cell>

  function PdeOf(i: nat): nat { (USER_FIRST + i) / 1024 }
  function PtiOf(i: nat): nat { (USER_FIRST + i) % 1024 }

  predicate IsTable(phys: Phys, e: Pde) {
    e.present && e.frame < |phys| && phys[e.frame].Table? && |phys[e.frame].ptes| == 1024
  }

  /** `pd` holds a directory whose user slots all name page tables. */
  ghost predicate Shape(phys: Phys, pd: nat) {
    && pd < |phys| && phys[pd].Directory? && |phys[pd].pdes| == 1024
    && forall d | FIRST_PDE <= d <= LAST_PDE :: IsTable(phys, phys[pd].pdes[d])
  }

  ghost function TableFrame(phys: Phys, pd: nat, d: nat): (t: nat)
    requires Shape(phys, pd) && FIRST_PDE <= d <= LAST_PDE
    ensures t < |phys| && phys[t].Table? && |phys[t].ptes| == 1024
  {
    assert IsTable(phys, phys[pd].pdes[d]);
    phys[pd].pdes[d].frame
  }

  /** The entry for user page `i`; page USER_PAGES is the trampoline. */
  ghost function Entry(phys: Phys, pd: nat, i: nat): (e: Pte)
    requires Shape(phys, pd) && i <= USER_PAGES
  {
    phys[TableFrame(phys, pd, PdeOf(i))].ptes[PtiOf(i)]
  }

  ghost function SetEntry(phys: Phys, pd: nat, i: nat, e: Pte): (r: Phys)
    requires Shape(phys, pd) && i <= USER_PAGES
    ensures |r| == |phys|
  {
    var t := TableFrame(phys, pd, PdeOf(i));
    phys[t := Table(phys[t].ptes[PtiOf(i) := e])]
  }

  /** The directories of `ds` are well formed and no two directory slots share a page table. */
  ghost predicate Private(phys: Phys, ds: set<nat>) {
    && (forall p | p in ds :: Shape(phys, p))
    && (forall p, q, c, d {:trigger Clash(phys, p, c, q, d)} |
          p in ds && q in ds && FIRST_PDE <= c <= LAST_PDE && FIRST_PDE <= d <= LAST_PDE :: !Clash(phys, p, c, q, d))
  }

  /** Two different directory slots name the same page table. */
  ghost predicate Clash(phys: Phys, p: nat, c: nat, q: nat, d: nat)
    requires Shape(phys, p) && Shape(phys, q) && FIRST_PDE <= c <= LAST_PDE && FIRST_PDE <= d <= LAST_PDE
  {
    TableFrame(phys, p, c) == TableFrame(phys, q, d) && !(p == q && c == d)
  }

  /** Both memories have the same directories and the same table frames for `ds`. */
  ghost predicate SameTables(phys: Phys, next: Phys, ds: set<nat>) {
    && |next| == |phys|
    && (forall p | p in ds :: Shape(phys, p) && Shape(next, p))
    && (forall p, d | p in ds && FIRST_PDE <= d <= LAST_PDE :: TableFrame(next, p, d) == TableFrame(phys, p, d))
  }

  /** Frames that hold data still hold the same data. */
  ghost predicate SameData(phys: Phys, next: Phys) {
    && |next| == |phys|
    && forall f | 0 <= f < |phys| && phys[f].Data? :: next[f] == phys[f]
  }

  lemma SamePages(i: nat, j: nat)
    requires PdeOf(i) == PdeOf(j) && PtiOf(i) == PtiOf(j)
    ensures i == j
  {
  }

  lemma PrivateSame(phys: Phys, next: Phys, ds: set<nat>)
    requires Private(phys, ds) && SameTables(phys, next, ds)
    ensures Private(next, ds)
  {
    forall p, q, c, d | p in ds && q in ds && FIRST_PDE <= c <= LAST_PDE && FIRST_PDE <= d <= LAST_PDE
      ensures !Clash(next, p, c, q, d)
    {
      assert !Clash(phys, p, c, q, d);
    }
  }

  /** With private tables, writing one entry changes that entry and no other of any directory. */
  lemma SetEntryFrame(phys: Phys, ds: set<nat>, pd: nat, i: nat, e: Pte)
    requires Private(phys, ds) && pd in ds && i <= USER_PAGES
    ensures var next := SetEntry(phys, pd, i, e);
            && Private(next, ds) && SameTables(phys, next, ds) && SameData(phys, next)
            && forall p, j | p in ds && 0 <= j <= USER_PAGES ::
                 Entry(next, p, j) == if p == pd && j == i then e else Entry(phys, p, j)
  {
    var next := SetEntry(phys, pd, i, e);
    var t := TableFrame(phys, pd, PdeOf(i));
    forall p | p in ds ensures Shape(next, p) {
      assert next[p] == phys[p];
      forall d | FIRST_PDE <= d <= LAST_PDE ensures IsTable(next, next[p].pdes[d]) {
        assert IsTable(phys, phys[p].pdes[d]);
      }
    }
    PrivateSame(phys, next, ds);
    forall p, j | p in ds && 0 <= j <= USER_PAGES
      ensures Entry(next, p, j) == if p == pd && j == i then e else Entry(phys, p, j)
    {
      assert TableFrame(next, p, PdeOf(j)) == TableFrame(phys, p, PdeOf(j));
      assert !Clash(phys, p, PdeOf(j), pd, PdeOf(i));
      if TableFrame(phys, p, PdeOf(j)) == t && PtiOf(j) == PtiOf(i) {
        SamePages(i, j);
      }
    }
  }

  /** Frames used by the directories of `ds` for paging. */
  ghost predicate Paged(phys: Phys, ds: set<nat>, f: nat)
    requires forall p | p in ds :: Shape(phys, p)
  {
    f in ds || exists p, d | p in ds && FIRST_PDE <= d <= LAST_PDE :: TableFrame(phys, p, d) == f
  }

  /** Overwriting frames that page nothing leaves every table and entry alone. */
  lemma SameCells(phys: Phys, next: Phys, ds: set<nat>)
    requires Private(phys, ds)
    requires |next| == |phys|
    requires forall f | 0 <= f < |phys| && Paged(phys, ds, f) :: next[f] == phys[f]
    ensures Private(next, ds) && SameTables(phys, next, ds)
    ensures forall p, j | p in ds && 0 <= j <= USER_PAGES :: Entry(next, p, j) == Entry(phys, p, j)
  {
    forall p | p in ds
      ensures Shape(next, p)
      ensures forall d | FIRST_PDE <= d <= LAST_PDE :: TableFrame(next, p, d) == TableFrame(phys, p, d)
      ensures forall d | FIRST_PDE <= d <= LAST_PDE :: next[TableFrame(phys, p, d)] == phys[TableFrame(phys, p, d)]
    {
      assert Paged(phys, ds, p);
      assert next[p] == phys[p];
      forall d | FIRST_PDE <= d <= LAST_PDE
        ensures IsTable(next, next[p].pdes[d])
        ensures next[TableFrame(phys, p, d)] == phys[TableFrame(phys, p, d)]
      {
        assert Paged(phys, ds, TableFrame(phys, p, d));
      }
    }
    PrivateSame(phys, next, ds);
  }

  // ---------------------------------------------------------------- write protection

  /** Clear the writable bit of the present entries of pages 0..k. */
  ghost function Protect(phys: Phys, pd: nat, k: nat): (r: Phys)
    requires Shape(phys, pd) && k <= USER_PAGES
    ensures |r| == |phys|
    ensures Shape(r, pd)
    decreases k
  {
    if k == 0 then phys
    else
      var prev := Protect(phys, pd, k - 1);
      ProtectStep(prev, pd, k - 1);
      ProtectOne(prev, pd, k - 1)
  }

  ghost function ProtectOne(phys: Phys, pd: nat, i: nat): (r: Phys)
    requires Shape(phys, pd) && i <= USER_PAGES
    ensures |r| == |phys|
  {
    var e := Entry(phys, pd, i);
    if e.present then SetEntry(phys, pd, i, e.(writable := false)) else phys
  }

  lemma SetEntryShape(phys: Phys, pd: nat, i: nat, e: Pte)
    requires Shape(phys, pd) && i <= USER_PAGES
    ensures Shape(SetEntry(phys, pd, i, e), pd)
  {
    var next := SetEntry(phys, pd, i, e);
    forall d | FIRST_PDE <= d <= LAST_PDE ensures IsTable(next, next[pd].pdes[d]) {
      assert IsTable(phys, phys[pd].pdes[d]);
    }
  }

  lemma ProtectStep(phys: Phys, pd: nat, i: nat)
    requires Shape(phys, pd) && i <= USER_PAGES
    ensures Shape(ProtectOne(phys, pd, i), pd)
  {
    SetEntryShape(phys, pd, i, Entry(phys, pd, i).(writable := false));
  }

  function Protected(e: Pte): Pte { if e.present then e.(writable := false) else e }

  /** The loop protects exactly the first `k` pages of one directory. */
  lemma ProtectMore(phys: Phys, ds: set<nat>, pd: nat, k: nat, prev: Phys, next: Phys)
    requires Private(prev, ds) && SameTables(phys, prev, ds) && SameData(phys, prev) && pd in ds && 0 < k <= USER_PAGES
    requires forall p, j | p in ds && 0 <= j <= USER_PAGES ::
               Entry(prev, p, j) == if p == pd && j < k - 1 then Protected(Entry(phys, p, j)) else Entry(phys, p, j)
    requires next == ProtectOne(prev, pd, k - 1)
    ensures Private(next, ds) && SameTables(phys, next, ds) && SameData(phys, next)
    ensures forall p, j | p in ds && 0 <= j <= USER_PAGES ::
              Entry(next, p, j) == if p == pd && j < k then Protected(Entry(phys, p, j)) else Entry(phys, p, j)
  {
    OneProtected(prev, ds, pd, k - 1, next);
  }

  lemma OneProtected(prev: Phys, ds: set<nat>, pd: nat, i: nat, next: Phys)
    requires Private(prev, ds) && pd in ds && i < USER_PAGES && next == ProtectOne(prev, pd, i)
    ensures Private(next, ds) && SameTables(prev, next, ds) && SameData(prev, next)
    ensures forall p, j | p in ds && 0 <= j <= USER_PAGES ::
              Entry(next, p, j) == if p == pd && j == i then Protected(Entry(prev, p, j)) else Entry(prev, p, j)
  {
    var e := Entry(prev, pd, i);
    if e.present {
      SetEntryFrame(prev, ds, pd, i, e.(writable := false));
    }
  }

  lemma {:induction false} ProtectMeaning(phys: Phys, ds: set<nat>, pd: nat, k: nat)
    requires Private(phys, ds) && pd in ds && k <= USER_PAGES
    ensures var next := Protect(phys, pd, k);
            && Private(next, ds) && SameTables(phys, next, ds) && SameData(phys, next)
            && forall p, j | p in ds && 0 <= j <= USER_PAGES ::
                 Entry(next, p, j) == if p == pd && j < k then Protected(Entry(phys, p, j)) else Entry(phys, p, j)
    decreases k
  {
    if k > 0 {
      ProtectMeaning(phys, ds, pd, k - 1);
      ProtectMore(phys, ds, pd, k, Protect(phys, pd, k - 1), Protect(phys, pd, k));
    }
  }
}
