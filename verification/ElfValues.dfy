/**
 The words a load leaves behind (`src/elf.c`): every relocated word in terms of the mapped image alone,
 and every other byte as it was mapped.
 */
module ElfValues {
  import opened Sectors
  import opened Records
  import opened Elf
  import opened ElfReloc
  import opened ElfTwoBases
  import opened ElfLoadTwice

  // ---------------------------------------------------------------- what a relocation means

  /** A: the word at the target, as mapped. */
  function Addend(m: seq<Byte>, c: Ctx, r: Rel): (a: Word)
    requires Memory(m) && 0 <= Target(c, r) && c.base + Target(c, r) + 4 <= |m|
  {
    U32(m, c.base + Target(c, r))
  }

  /** S: the value of the symbol, moved with the image unless it is absolute. */
  function SymbolWord(m: seq<Byte>, c: Ctx, r: Rel): (s: Word)
    requires Memory(m) && SymbolAt(c, r) + 16 <= |m|
  {
    var value := U32(m, SymbolAt(c, r) + 4);
    if U16(m, SymbolAt(c, r) + 14) == SHN_ABS then value else (value + c.bias) % W
  }

  /** The word the i386 relocation types ask for, in terms of A, S and the bias. */
  predicate Meant(m: seq<Byte>, c: Ctx, r: Rel, w: Word)
    requires Memory(m)
  {
    && 0 <= Target(c, r) && c.base + Target(c, r) + 4 <= |m| && (UsesSymbol(r) ==> SymbolAt(c, r) + 16 <= |m|)
    && (Kind(r) == R_RELATIVE || UsesSymbol(r))
    && (Kind(r) == R_RELATIVE ==> w == (Addend(m, c, r) + c.bias) % W)
    && (Kind(r) == R_32 ==> w == (SymbolWord(m, c, r) + Addend(m, c, r)) % W)
    && (Kind(r) == R_GLOB_DAT || Kind(r) == R_JMP_SLOT ==> w == SymbolWord(m, c, r))
  }

  /** The symbol table has the symbol, inside the window, and it is defined. */
  predicate Defined(m: seq<Byte>, c: Ctx, r: Rel)
    requires Memory(m)
  {
    && c.symtab != 0 && c.syment >= 16 && r.info / 256 <= 0xF_FFFF && RangeOk(SymbolAt(c, r), 16, c.base, c.limit)
    && SymbolAt(c, r) + 16 <= |m| && U16(m, SymbolAt(c, r) + 14) != 0
  }

  /** A relocation that can be carried out: its word lies in the window, its type is known, and its symbol is defined. */
  predicate Fine(m: seq<Byte>, c: Ctx, r: Rel)
    requires Memory(m)
  {
    && 0 <= Target(c, r) <= c.limit - c.base - 4
    && (Kind(r) == R_NONE || Kind(r) == R_RELATIVE || (UsesSymbol(r) && Defined(m, c, r)))
  }

  lemma StepFine(m: seq<Byte>, c: Ctx, r: Rel)
    requires Memory(m) && Sandbox(c.base, c.limit)
    ensures RelStep(m, c, r).1 == 0 <==> Fine(m, c, r)
  {
  }

  /** The word a relocation that succeeds stores. */
  function StoredValue(m: seq<Byte>, c: Ctx, r: Rel): (w: Word)
    requires Memory(m) && Sandbox(c.base, c.limit) && RelStep(m, c, r).1 == 0
  {
    var at := Address(r.offset, c.bias);
    if Kind(r) == R_RELATIVE then Address(U32(m, at), c.bias)
    else if UsesSymbol(r) then
      var v := SymbolValue(m, c, r).value;
      if Kind(r) == R_32 then Address(U32(m, at), v) else v
    else 0
  }

  lemma ValueMeant(m: seq<Byte>, c: Ctx, r: Rel)
    requires Memory(m) && Sandbox(c.base, c.limit) && RelStep(m, c, r).1 == 0 && Stores(r)
    ensures Meant(m, c, r, StoredValue(m, c, r))
  {
    if UsesSymbol(r) {
      SymbolMeant(m, c, r);
    }
  }

  lemma SymbolMeant(m: seq<Byte>, c: Ctx, r: Rel)
    requires Memory(m) && Sandbox(c.base, c.limit) && SymbolValue(m, c, r).Ok?
    ensures SymbolAt(c, r) + 16 <= |m| && SymbolValue(m, c, r).value == SymbolWord(m, c, r)
  {
  }

  /** One relocation stores what it means, and nothing else. */
  lemma StepMeans(m: seq<Byte>, c: Ctx, r: Rel) returns (w: Word)
    requires Memory(m) && Sandbox(c.base, c.limit) && RelStep(m, c, r).1 == 0
    ensures 0 <= Target(c, r) <= c.limit - c.base - 4
    ensures if Stores(r) then Meant(m, c, r, w) && RelStep(m, c, r).0 == Store32(m, c.base + Target(c, r), w) else RelStep(m, c, r).0 == m
  {
    w := StoredValue(m, c, r);
    if Stores(r) {
      ValueMeant(m, c, r);
    }
  }

  // ---------------------------------------------------------------- the tables so far

  /** Address `x` is in no word that one of the first `k` entries stores. */
  predicate Spared(es: seq<Entry>, c: Ctx, k: nat, x: nat) {
    forall i | 0 <= i < k && i < |es| && Stores(es[i].rel) :: Missed(c, es[i].rel, x)
  }

  predicate Missed(c: Ctx, r: Rel, x: nat) { !(c.base + Target(c, r) <= x < c.base + Target(c, r) + 4) }

  /** Entry `e` is done: its word is what it means in the mapped image `m`. */
  predicate Stored(m: seq<Byte>, n: seq<Byte>, c: Ctx, e: Entry)
    requires Memory(m) && Memory(n)
  {
    Stores(e.rel) ==>
      && 0 <= Target(c, e.rel) <= c.limit - c.base - 4
      && Meant(m, c, e.rel, U32(n, c.base + Target(c, e.rel)))
  }

  /** The first `k` entries are done. */
  predicate AllStored(m: seq<Byte>, n: seq<Byte>, c: Ctx, es: seq<Entry>, k: nat)
    requires Memory(m) && Memory(n) && k <= |es|
  {
    forall i | 0 <= i < k :: Stored(m, n, c, es[i])
  }

  /** Every byte they do not store is as mapped. */
  predicate Rest(m: seq<Byte>, n: seq<Byte>, c: Ctx, es: seq<Entry>, k: nat)
    requires Memory(m) && Memory(n)
  {
    forall x {:trigger Spared(es, c, k, x)} | 0 <= x < |m| && Spared(es, c, k, x) :: n[x] == m[x]
  }

  /** The mapped image and the tables it holds. */
  predicate Mapped(m: seq<Byte>, c: Ctx, es: seq<Entry>) {
    Memory(m) && Sandbox(c.base, c.limit) && Tidy(es, c) && Listed(m, c, es, 0)
  }

  /** After the first `k` entries, memory `n` against the mapped image `m`. */
  predicate Done(m: seq<Byte>, n: seq<Byte>, c: Ctx, es: seq<Entry>, k: nat) {
    Mapped(m, c, es) && Memory(n) && k <= |es| && AllStored(m, n, c, es, k) && Rest(m, n, c, es, k)
  }

  /** The first `k` targets are away from the `n` bytes at offset `o`. */
  predicate AllAway(es: seq<Entry>, c: Ctx, k: nat, o: int, n: nat) {
    forall i | 0 <= i < k && i < |es| && Stores(es[i].rel) :: Away(o, n, Target(c, es[i].rel))
  }

  /** Bytes that every target is away from. */
  lemma AwaySpared(es: seq<Entry>, c: Ctx, k: nat, o: int, n: nat, x: nat)
    requires AllAway(es, c, k, o, n)
    requires c.base + o <= x < c.base + o + n
    ensures Spared(es, c, k, x)
  {
    forall i | 0 <= i < k && i < |es| && Stores(es[i].rel) ensures Missed(c, es[i].rel, x) {
      assert Away(o, n, Target(c, es[i].rel));
    }
  }

  lemma WordSpared(m: seq<Byte>, n: seq<Byte>, es: seq<Entry>, c: Ctx, k: nat, o: int, size: nat, y: nat)
    requires Memory(m) && Memory(n) && Rest(m, n, c, es, k) && AllAway(es, c, k, o, size)
    requires c.base + o <= y && y + 4 <= c.base + o + size && y + 4 <= |m|
    ensures U32(n, y) == U32(m, y) && U16(n, y) == U16(m, y) && U16(n, y + 2) == U16(m, y + 2)
  {
    AwaySpared(es, c, k, o, size, y);
    AwaySpared(es, c, k, o, size, y + 1);
    AwaySpared(es, c, k, o, size, y + 2);
    AwaySpared(es, c, k, o, size, y + 3);
  }

  /** The next entry is clear of the targets before it, and so are its word and its symbol. */
  lemma NextAway(es: seq<Entry>, c: Ctx, k: nat)
    requires Tidy(es, c) && k < |es|
    ensures AllAway(es, c, k, es[k].at, 8)
    ensures Stores(es[k].rel) ==> AllAway(es, c, k, Target(c, es[k].rel), 4)
    ensures UsesSymbol(es[k].rel) ==> AllAway(es, c, k, Symbol(c, es[k].rel), 16)
  {
  }

  lemma EntryAsMapped(m: seq<Byte>, n: seq<Byte>, c: Ctx, es: seq<Entry>, k: nat)
    requires Mapped(m, c, es) && Memory(n) && Rest(m, n, c, es, k) && k < |es|
    ensures c.base + es[k].at + 8 <= c.limit && ReadRel(n, c.base + es[k].at) == es[k].rel
  {
    assert Holds(m, c, es[k]);
    NextAway(es, c, k);
    WordSpared(m, n, es, c, k, es[k].at, 8, c.base + es[k].at);
    WordSpared(m, n, es, c, k, es[k].at, 8, c.base + es[k].at + 4);
  }

  lemma AddendAsMapped(m: seq<Byte>, n: seq<Byte>, c: Ctx, es: seq<Entry>, k: nat)
    requires Mapped(m, c, es) && Memory(n) && Rest(m, n, c, es, k) && k < |es| && Stores(es[k].rel)
    requires 0 <= Target(c, es[k].rel) && c.base + Target(c, es[k].rel) + 4 <= |m|
    ensures Addend(n, c, es[k].rel) == Addend(m, c, es[k].rel)
  {
    NextAway(es, c, k);
    WordSpared(m, n, es, c, k, Target(c, es[k].rel), 4, c.base + Target(c, es[k].rel));
  }

  lemma SymbolAsMapped(m: seq<Byte>, n: seq<Byte>, c: Ctx, es: seq<Entry>, k: nat)
    requires Mapped(m, c, es) && Memory(n) && Rest(m, n, c, es, k) && k < |es| && UsesSymbol(es[k].rel)
    requires SymbolAt(c, es[k].rel) + 16 <= |m|
    ensures SymbolWord(n, c, es[k].rel) == SymbolWord(m, c, es[k].rel) && Defined(n, c, es[k].rel) == Defined(m, c, es[k].rel)
  {
    NextAway(es, c, k);
    var at := SymbolAt(c, es[k].rel);
    WordSpared(m, n, es, c, k, at - c.base, 16, at + 4);
    WordSpared(m, n, es, c, k, at - c.base, 16, at + 12);
  }

  /** What a relocation means depends on its word and its symbol only. */
  lemma MeantAlike(m: seq<Byte>, n: seq<Byte>, c: Ctx, r: Rel, w: Word)
    requires Memory(m) && Memory(n) && Meant(n, c, r, w) && Addend(n, c, r) == Addend(m, c, r)
    requires UsesSymbol(r) ==> SymbolWord(n, c, r) == SymbolWord(m, c, r)
    ensures Meant(m, c, r, w)
  {
  }

  lemma StoredKept(m: seq<Byte>, n: seq<Byte>, c: Ctx, e: Entry, at: nat, w: Word)
    requires Memory(m) && Memory(n) && Stored(m, n, c, e) && c.base <= at && at + 4 <= |n| && c.limit <= |n|
    requires Stores(e.rel) ==> Away(Target(c, e.rel), 4, at - c.base)
    ensures Stored(m, Store32(n, at, w), c, e)
  {
    if Stores(e.rel) {
      OtherWord(n, at, w, c.base + Target(c, e.rel));
    }
  }

  lemma StoredStill(m: seq<Byte>, n: seq<Byte>, c: Ctx, es: seq<Entry>, k: nat, at: nat, w: Word, i: nat)
    requires Memory(m) && Memory(n) && i < k < |es| && AllStored(m, n, c, es, k) && AllAway(es, c, k, at - c.base, 4)
    requires c.base <= at && at + 4 <= |n|
    ensures Stored(m, Store32(n, at, w), c, es[i])
  {
    assert Stored(m, n, c, es[i]);
    assert Stores(es[i].rel) ==> Away(at - c.base, 4, Target(c, es[i].rel));
    StoredKept(m, n, c, es[i], at, w);
  }

  lemma AllStoredStill(m: seq<Byte>, n: seq<Byte>, c: Ctx, es: seq<Entry>, k: nat, at: nat, w: Word, p: seq<Byte>)
    requires Memory(m) && Memory(n) && k < |es| && AllStored(m, n, c, es, k) && AllAway(es, c, k, at - c.base, 4)
    requires c.base <= at && at + 4 <= |n| && p == Store32(n, at, w)
    ensures Memory(p) && AllStored(m, p, c, es, k)
  {
    forall i | 0 <= i < k ensures Stored(m, p, c, es[i]) {
      StoredStill(m, n, c, es, k, at, w, i);
    }
  }

  lemma AllStoredAdd(m: seq<Byte>, p: seq<Byte>, c: Ctx, es: seq<Entry>, k: nat)
    requires Memory(m) && Memory(p) && k < |es| && AllStored(m, p, c, es, k) && Stored(m, p, c, es[k])
    ensures AllStored(m, p, c, es, k + 1)
  {
  }

  lemma AllStoredMore(m: seq<Byte>, n: seq<Byte>, c: Ctx, es: seq<Entry>, k: nat, w: Word)
    requires Memory(m) && Memory(n) && k < |es| && AllStored(m, n, c, es, k) && AllAway(es, c, k, Target(c, es[k].rel), 4)
    requires Stores(es[k].rel) && 0 <= Target(c, es[k].rel) <= c.limit - c.base - 4 && Meant(m, c, es[k].rel, w)
    ensures AllStored(m, Store32(n, c.base + Target(c, es[k].rel), w), c, es, k + 1)
  {
    var at := c.base + Target(c, es[k].rel);
    var p := Store32(n, at, w);
    AllStoredStill(m, n, c, es, k, at, w, p);
    StoredNow(m, n, c, es[k], w);
    AllStoredAdd(m, p, c, es, k);
  }

  lemma StoredNow(m: seq<Byte>, n: seq<Byte>, c: Ctx, e: Entry, w: Word)
    requires Memory(m) && Memory(n) && 0 <= Target(c, e.rel) <= c.limit - c.base - 4 && Meant(m, c, e.rel, w)
    ensures Stored(m, Store32(n, c.base + Target(c, e.rel), w), c, e)
  {
    StoredWord(n, c.base + Target(c, e.rel), w);
  }

  lemma SparedLess(es: seq<Entry>, c: Ctx, k: nat, x: nat)
    requires k < |es| && Spared(es, c, k + 1, x)
    ensures Spared(es, c, k, x) && (Stores(es[k].rel) ==> Missed(c, es[k].rel, x))
  {
  }

  lemma RestMore(m: seq<Byte>, n: seq<Byte>, c: Ctx, es: seq<Entry>, k: nat, w: Word, p: seq<Byte>)
    requires Memory(m) && Memory(n) && Memory(p) && k < |es| && Rest(m, n, c, es, k)
    requires if Stores(es[k].rel) then 0 <= Target(c, es[k].rel) <= c.limit - c.base - 4 && p == Store32(n, c.base + Target(c, es[k].rel), w)
             else p == n
    ensures Rest(m, p, c, es, k + 1)
  {
    forall x | 0 <= x < |m| && Spared(es, c, k + 1, x) ensures p[x] == m[x] {
      SparedLess(es, c, k, x);
      if Stores(es[k].rel) {
        StoreElsewhere(n, c.base + Target(c, es[k].rel), w, x);
      }
    }
  }

  /** One more entry. */
  lemma DoneMore(m: seq<Byte>, n: seq<Byte>, c: Ctx, es: seq<Entry>, k: nat, p: seq<Byte>)
    requires Done(m, n, c, es, k) && k < |es| && RelStep(n, c, es[k].rel) == (p, 0)
    ensures Done(m, p, c, es, k + 1)
  {
    var w := StepMeans(n, c, es[k].rel);
    RestMore(m, n, c, es, k, w, p);
    if Stores(es[k].rel) {
      AddendAsMapped(m, n, c, es, k);
      if UsesSymbol(es[k].rel) {
        SymbolAsMapped(m, n, c, es, k);
      }
      MeantAlike(m, n, c, es[k].rel, w);
      NextAway(es, c, k);
      AllStoredMore(m, n, c, es, k, w);
    }
  }

  // ---------------------------------------------------------------- the loops

  lemma LoopStep(n: seq<Byte>, c: Ctx, at: nat, i: nat, size: nat, r: Rel)
    requires Memory(n) && Sandbox(c.base, c.limit) && i < size && at + 8 * size <= c.limit && ReadRel(n, at + 8 * i) == r
    requires RelFrom(n, c, at, i, size).1 == 0
    ensures RelStep(n, c, r).1 == 0 && RelFrom(n, c, at, i, size) == RelFrom(RelStep(n, c, r).0, c, at, i + 1, size)
  {
  }

  lemma RowDone(m: seq<Byte>, n: seq<Byte>, c: Ctx, es: seq<Entry>, k: nat, at: nat, i: nat, size: nat) returns (next: seq<Byte>)
    requires Done(m, n, c, es, k) && k < |es| && at + 8 * size <= c.limit && i < size && c.base + es[k].at == at + 8 * i
    requires RelFrom(n, c, at, i, size).1 == 0
    ensures Done(m, next, c, es, k + 1) && RelFrom(n, c, at, i, size) == RelFrom(next, c, at, i + 1, size)
  {
    EntryAsMapped(m, n, c, es, k);
    LoopStep(n, c, at, i, size, es[k].rel);
    next := RelStep(n, c, es[k].rel).0;
    DoneMore(m, n, c, es, k, next);
  }

  /** `P` is the state of the load. */
  ghost predicate IsDone(P: (seq<Byte>, nat) -> bool, m: seq<Byte>, c: Ctx, es: seq<Entry>) {
    forall n, k: nat {:trigger Done(m, n, c, es, k)} :: P(n, k) == Done(m, n, c, es, k)
  }

  lemma RowOnce(P: (seq<Byte>, nat) -> bool, R: (seq<Byte>, nat) -> (seq<Byte>, int), m: seq<Byte>, n: seq<Byte>, c: Ctx, es: seq<Entry>, k: nat,
                at: nat, i: nat, size: nat)
    returns (next: seq<Byte>)
    requires Sandbox(c.base, c.limit) && at + 8 * size <= c.limit && IsDone(P, m, c, es) && IsLoop(R, c, at, size)
    requires P(n, k) && k < |es| && i < size && c.base + es[k].at == at + 8 * i && R(n, i).1 == 0
    ensures P(next, k + 1) && R(n, i) == R(next, i + 1)
  {
    assert P(n, k) == Done(m, n, c, es, k);
    assert R(n, i) == RelFrom(n, c, at, i, size);
    next := RowDone(m, n, c, es, k, at, i, size);
    assert P(next, k + 1) == Done(m, next, c, es, k + 1);
    assert R(next, i + 1) == RelFrom(next, c, at, i + 1, size);
  }

  lemma {:induction false} LoopOn(P: (seq<Byte>, nat) -> bool, R: (seq<Byte>, nat) -> (seq<Byte>, int), m: seq<Byte>, n: seq<Byte>, c: Ctx,
                                  es: seq<Entry>, k: nat, at: nat, i: nat, size: nat, end: nat)
    returns (p: seq<Byte>)
    requires Sandbox(c.base, c.limit) && c.base <= at && at + 8 * size <= c.limit && IsDone(P, m, c, es) && IsLoop(R, c, at, size)
    requires P(n, k) && Rows(es, k, at - c.base, i, size) && R(n, i).1 == 0 && end == k + (size - i)
    ensures P(p, end) && R(n, i) == (p, 0)
    decreases size - i
  {
    if i == size {
      p := n;
      assert P(n, k) == Done(m, n, c, es, k);
      LoopEnd(R, n, c, at, size);
    } else {
      RowsMore(es, k, at - c.base, i, size);
      var next := RowOnce(P, R, m, n, c, es, k, at, i, size);
      p := LoopOn(P, R, m, next, c, es, k + 1, at, i + 1, size, end);
    }
  }

  lemma LoopDone(m: seq<Byte>, n: seq<Byte>, c: Ctx, es: seq<Entry>, k: nat, at: nat, size: nat, p: seq<Byte>)
    requires Done(m, n, c, es, k) && c.base <= at && at + 8 * size <= c.limit && Rows(es, k, at - c.base, 0, size)
    requires RelFrom(n, c, at, 0, size) == (p, 0)
    ensures Done(m, p, c, es, k + size)
  {
    var P := SomeDone(m, n, c, es, k);
    var R := SomeLoop(n, c, at, size);
    var q := LoopOn(P, R, m, n, c, es, k, at, 0, size, k + size);
    ThenDone(P, m, q, c, es, k + size);
  }

  lemma SomeDone(m: seq<Byte>, n: seq<Byte>, c: Ctx, es: seq<Entry>, k: nat) returns (P: (seq<Byte>, nat) -> bool)
    requires Done(m, n, c, es, k)
    ensures IsDone(P, m, c, es) && P(n, k)
  {
    P := (x: seq<Byte>, j: nat) => Done(m, x, c, es, j);
  }

  lemma ThenDone(P: (seq<Byte>, nat) -> bool, m: seq<Byte>, n: seq<Byte>, c: Ctx, es: seq<Entry>, k: nat)
    requires IsDone(P, m, c, es) && P(n, k)
    ensures Done(m, n, c, es, k)
  {
    assert P(n, k) == Done(m, n, c, es, k);
  }

  lemma ArrayDone(m: seq<Byte>, n: seq<Byte>, c: Ctx, es: seq<Entry>, k: nat, at: Word, size: Word, p: seq<Byte>)
    requires Done(m, n, c, es, k) && size > 0 && RelArray(n, c, at, size) == (p, 0)
    requires at >= c.base ==> Rows(es, k, at - c.base, 0, size / 8)
    ensures Done(m, p, c, es, k + size / 8)
  {
    ArrayInRange(n, c, at, size);
    LoopDone(m, n, c, es, k, at, size / 8, p);
  }

  /** Both tables. */
  lemma TablesDone(m: seq<Byte>, d: Dyn, c: Ctx, es: seq<Entry>, p: seq<Byte>)
    requires Memory(m) && Sandbox(c.base, c.limit) && c == Context(d, c.bias, c.base, c.limit) && Tables(m, d, c.bias, c.base, c.limit) == (p, 0)
    requires Laid(es, d, c) && Tidy(es, c) && Listed(m, c, es, 0)
    ensures Done(m, p, c, es, |es|)
  {
    assert Done(m, m, c, es, 0);
    var n, k := m, 0;
    if HasRel(d) {
      n, k := RelArray(m, c, Address(d.rel, c.bias), d.relsz).0, d.relsz / 8;
      ArrayDone(m, m, c, es, 0, Address(d.rel, c.bias), d.relsz, n);
    }
    if HasPlt(d) {
      ArrayDone(m, n, c, es, k, Address(d.jmprel, c.bias), d.pltrelsz, p);
    }
  }

  // ---------------------------------------------------------------- which tables are accepted

  /** The next entry can be carried out now exactly if it could be in the mapped image. */
  lemma FineAsMapped(m: seq<Byte>, n: seq<Byte>, c: Ctx, es: seq<Entry>, k: nat)
    requires Done(m, n, c, es, k) && k < |es|
    ensures RelStep(n, c, es[k].rel).1 == 0 <==> Fine(m, c, es[k].rel)
  {
    StepFine(n, c, es[k].rel);
    if UsesSymbol(es[k].rel) && SymbolAt(c, es[k].rel) + 16 <= |m| {
      SymbolAsMapped(m, n, c, es, k);
    }
  }

  lemma StopsAt(n: seq<Byte>, c: Ctx, at: nat, i: nat, size: nat, r: Rel)
    requires Memory(n) && Sandbox(c.base, c.limit) && i < size && at + 8 * size <= c.limit && ReadRel(n, at + 8 * i) == r
    ensures RelStep(n, c, r).1 != 0 ==> RelFrom(n, c, at, i, size).1 != 0
    ensures RelStep(n, c, r).1 == 0 ==> RelFrom(n, c, at, i, size) == RelFrom(RelStep(n, c, r).0, c, at, i + 1, size)
  {
  }

  /** Entries `k` to `end` can be carried out. */
  predicate AllFine(m: seq<Byte>, c: Ctx, es: seq<Entry>, k: nat, end: nat)
    requires Memory(m)
  {
    forall j | k <= j < end && j < |es| :: Fine(m, c, es[j].rel)
  }

  lemma RowFine(m: seq<Byte>, n: seq<Byte>, c: Ctx, es: seq<Entry>, k: nat, at: nat, i: nat, size: nat) returns (next: seq<Byte>)
    requires Done(m, n, c, es, k) && k < |es| && at + 8 * size <= c.limit && i < size && c.base + es[k].at == at + 8 * i
    ensures !Fine(m, c, es[k].rel) ==> RelFrom(n, c, at, i, size).1 != 0
    ensures Fine(m, c, es[k].rel) ==> Done(m, next, c, es, k + 1) && RelFrom(n, c, at, i, size) == RelFrom(next, c, at, i + 1, size)
  {
    EntryAsMapped(m, n, c, es, k);
    FineAsMapped(m, n, c, es, k);
    StopsAt(n, c, at, i, size, es[k].rel);
    next := RelStep(n, c, es[k].rel).0;
    if Fine(m, c, es[k].rel) {
      DoneMore(m, n, c, es, k, next);
    }
  }

  lemma RowOnceFine(P: (seq<Byte>, nat) -> bool, R: (seq<Byte>, nat) -> (seq<Byte>, int), m: seq<Byte>, n: seq<Byte>, c: Ctx, es: seq<Entry>,
                    k: nat, at: nat, i: nat, size: nat)
    returns (next: seq<Byte>)
    requires Memory(m) && Sandbox(c.base, c.limit) && at + 8 * size <= c.limit && IsDone(P, m, c, es) && IsLoop(R, c, at, size)
    requires P(n, k) && k < |es| && i < size && c.base + es[k].at == at + 8 * i
    ensures !Fine(m, c, es[k].rel) ==> R(n, i).1 != 0
    ensures Fine(m, c, es[k].rel) ==> P(next, k + 1) && R(n, i) == R(next, i + 1)
  {
    assert P(n, k) == Done(m, n, c, es, k);
    assert R(n, i) == RelFrom(n, c, at, i, size);
    next := RowFine(m, n, c, es, k, at, i, size);
    assert P(next, k + 1) == Done(m, next, c, es, k + 1);
    if Fine(m, c, es[k].rel) {
      assert R(next, i + 1) == RelFrom(next, c, at, i + 1, size);
    }
  }

  lemma {:induction false} LoopFine(P: (seq<Byte>, nat) -> bool, R: (seq<Byte>, nat) -> (seq<Byte>, int), m: seq<Byte>, n: seq<Byte>, c: Ctx,
                                    es: seq<Entry>, k: nat, at: nat, i: nat, size: nat, end: nat)
    requires Memory(m) && Sandbox(c.base, c.limit) && c.base <= at && at + 8 * size <= c.limit && IsDone(P, m, c, es) && IsLoop(R, c, at, size)
    requires P(n, k) && Rows(es, k, at - c.base, i, size) && end == k + (size - i)
    ensures R(n, i).1 == 0 <==> AllFine(m, c, es, k, end)
    decreases size - i
  {
    if i == size {
      assert P(n, k) == Done(m, n, c, es, k);
      LoopEnd(R, n, c, at, size);
    } else {
      RowsMore(es, k, at - c.base, i, size);
      var next := RowOnceFine(P, R, m, n, c, es, k, at, i, size);
      if Fine(m, c, es[k].rel) {
        LoopFine(P, R, m, next, c, es, k + 1, at, i + 1, size, end);
      }
    }
  }

  lemma ArrayFine(m: seq<Byte>, n: seq<Byte>, c: Ctx, es: seq<Entry>, k: nat, at: Word, size: Word)
    requires Done(m, n, c, es, k) && 0 < size <= REL_MAX && size % 8 == 0 && RangeOk(at, size, c.base, c.limit)
    requires Rows(es, k, at - c.base, 0, size / 8)
    ensures RelArray(n, c, at, size).1 == 0 <==> AllFine(m, c, es, k, k + size / 8)
  {
    var P := SomeDone(m, n, c, es, k);
    var R := SomeLoop(n, c, at, size / 8);
    LoopFine(P, R, m, n, c, es, k, at, 0, size / 8, k + size / 8);
  }

  /** A table of this size at this place is one the loader will work through. */
  predicate Placed(at: Word, size: Word, base: Word, limit: Word) { size <= REL_MAX && size % 8 == 0 && RangeOk(at, size, base, limit) }

  /** The tables lie in the window, and the second one is of the right kind. */
  predicate TablesPlaced(d: Dyn, bias: Word, base: Word, limit: Word) {
    && (HasRel(d) ==> Placed(Address(d.rel, bias), d.relsz, base, limit))
    && (HasPlt(d) ==> d.pltrel == DT_REL && Placed(Address(d.jmprel, bias), d.pltrelsz, base, limit))
  }

  lemma RelFine(m: seq<Byte>, d: Dyn, c: Ctx, es: seq<Entry>, n: nat)
    requires Mapped(m, c, es) && Laid(es, d, c) && HasRel(d) && Placed(Address(d.rel, c.bias), d.relsz, c.base, c.limit) && n == d.relsz / 8
    ensures n <= |es| && (RelArray(m, c, Address(d.rel, c.bias), d.relsz).1 == 0 <==> AllFine(m, c, es, 0, n))
    ensures RelArray(m, c, Address(d.rel, c.bias), d.relsz).1 == 0 ==> Done(m, RelArray(m, c, Address(d.rel, c.bias), d.relsz).0, c, es, n)
  {
    assert Done(m, m, c, es, 0);
    ArrayFine(m, m, c, es, 0, Address(d.rel, c.bias), d.relsz);
    if RelArray(m, c, Address(d.rel, c.bias), d.relsz).1 == 0 {
      ArrayDone(m, m, c, es, 0, Address(d.rel, c.bias), d.relsz, RelArray(m, c, Address(d.rel, c.bias), d.relsz).0);
    }
  }

  /** Relocation succeeds if and only if every entry of the tables can be carried out in the mapped image. */
  lemma TablesFine(m: seq<Byte>, d: Dyn, c: Ctx, es: seq<Entry>)
    requires Mapped(m, c, es) && c == Context(d, c.bias, c.base, c.limit) && Laid(es, d, c) && TablesPlaced(d, c.bias, c.base, c.limit)
    ensures Tables(m, d, c.bias, c.base, c.limit).1 == 0 <==> AllFine(m, c, es, 0, |es|)
  {
    var n, k := m, 0;
    assert Done(m, m, c, es, 0);
    if HasRel(d) {
      k := d.relsz / 8;
      RelFine(m, d, c, es, k);
      n := RelArray(m, c, Address(d.rel, c.bias), d.relsz).0;
    }
    if HasPlt(d) && AllFine(m, c, es, 0, k) {
      ArrayFine(m, n, c, es, k, Address(d.jmprel, c.bias), d.pltrelsz);
    }
  }

  lemma TablesMisplaced(m: seq<Byte>, d: Dyn, c: Ctx)
    requires Memory(m) && Sandbox(c.base, c.limit) && c == Context(d, c.bias, c.base, c.limit) && !TablesPlaced(d, c.bias, c.base, c.limit)
    ensures Tables(m, d, c.bias, c.base, c.limit).1 != 0
  {
  }

  /**
   For tidy tables: the loader accepts them if and only if they lie in the window, the second is of type REL, and
   every entry names a word in the window, a known type and, where it uses one, a defined symbol.
   */
  lemma RelocatesIff(m: seq<Byte>, d: Dyn, c: Ctx)
    requires Memory(m) && Sandbox(c.base, c.limit) && c == Context(d, c.bias, c.base, c.limit)
    requires Tidy(AllRows(m, d, c.bias, c.base, c.limit), c)
    ensures Tables(m, d, c.bias, c.base, c.limit).1 == 0 <==>
            TablesPlaced(d, c.bias, c.base, c.limit) && forall e | e in AllRows(m, d, c.bias, c.base, c.limit) :: Fine(m, c, e.rel)
  {
    var es := AllRows(m, d, c.bias, c.base, c.limit);
    if TablesPlaced(d, c.bias, c.base, c.limit) {
      RowsLaid(m, d, c, es);
      TablesFine(m, d, c, es);
    } else {
      TablesMisplaced(m, d, c);
    }
  }

  // ---------------------------------------------------------------- the dynamic table

  /** The value of the last of the first `n` dynamic entries with tag `tag`, or `none` if there is none. */
  function LastOf(m: seq<Byte>, at: nat, n: nat, tag: Word, none: Word): (v: Word)
    requires Memory(m) && at + 8 * n <= |m|
  {
    if n == 0 then none
    else if U32(m, at + 8 * (n - 1)) == tag then U32(m, at + 8 * (n - 1) + 4)
    else LastOf(m, at, n - 1, tag, none)
  }

  /** `d` is what the first `n` entries say. */
  predicate Says(m: seq<Byte>, at: nat, n: nat, d: Dyn)
    requires Memory(m) && at + 8 * n <= |m|
  {
    && d.rel == LastOf(m, at, n, 17, 0) && d.relsz == LastOf(m, at, n, 18, 0)
    && d.jmprel == LastOf(m, at, n, 23, 0) && d.pltrelsz == LastOf(m, at, n, 2, 0) && d.pltrel == LastOf(m, at, n, 20, DT_REL)
    && d.symtab == LastOf(m, at, n, 6, 0) && d.syment == LastOf(m, at, n, 11, 0)
  }

  lemma SaysMore(m: seq<Byte>, at: nat, n: nat, d: Dyn)
    requires Memory(m) && at + 8 * (n + 1) <= |m| && Says(m, at, n, d)
    ensures Says(m, at, n + 1, Tagged(d, U32(m, at + 8 * n), U32(m, at + 8 * n + 4)))
  {
  }

  lemma {:induction false} DynFromSays(m: seq<Byte>, at: Word, base: Word, limit: Word, i: nat, was: Dyn, d: Dyn) returns (n: nat)
    requires Memory(m) && i <= 256 && at + 8 * i <= |m| && Says(m, at, i, was) && DynFrom(m, at, base, limit, i, was) == Ok(d)
    requires forall j | 0 <= j < i :: U32(m, at + 8 * j) != 0
    ensures n <= 256 && at + 8 * n <= |m| && Says(m, at, n, d)
    ensures (forall j | 0 <= j < n :: U32(m, at + 8 * j) != 0) && (n == 256 || (at + 8 * n + 4 <= |m| && U32(m, at + 8 * n) == 0))
    decreases 256 - i
  {
    if i == 256 || U32(m, at + 8 * i) == 0 {
      n := i;
    } else {
      SaysMore(m, at, i, was);
      n := DynFromSays(m, at, base, limit, i + 1, Tagged(was, U32(m, at + 8 * i), U32(m, at + 8 * i + 4)), d);
    }
  }

  /** The dynamic table up to its terminator, or its first 256 entries: for each tag the last entry counts. */
  lemma DynSays(m: seq<Byte>, at: Word, base: Word, limit: Word, d: Dyn) returns (n: nat)
    requires Memory(m) && DynFrom(m, at, base, limit, 0, NO_DYN) == Ok(d)
    ensures n <= 256 && at + 8 * n <= |m| && Says(m, at, n, d)
    ensures (forall j | 0 <= j < n :: U32(m, at + 8 * j) != 0) && (n == 256 || (at + 8 * n + 4 <= |m| && U32(m, at + 8 * n) == 0))
  {
    n := DynFromSays(m, at, base, limit, 0, NO_DYN, d);
  }

  // ---------------------------------------------------------------- loading

  /** Memory `n` is the mapped image `m` with every relocation of its tables carried out, and nothing else. */
  predicate Carried(m: seq<Byte>, n: seq<Byte>, c: Ctx, es: seq<Entry>) {
    && Memory(m) && Memory(n)
    && (forall i | 0 <= i < |es| && Stores(es[i].rel) ::
          && 0 <= Target(c, es[i].rel) && c.base + Target(c, es[i].rel) + 4 <= |n|
          && Meant(m, c, es[i].rel, U32(n, c.base + Target(c, es[i].rel))))
    && (forall x | 0 <= x < |m| && (forall i | 0 <= i < |es| && Stores(es[i].rel) :: Missed(c, es[i].rel, x)) :: n[x] == m[x])
  }

  lemma DoneCarried(m: seq<Byte>, n: seq<Byte>, c: Ctx, es: seq<Entry>)
    requires Done(m, n, c, es, |es|)
    ensures Carried(m, n, c, es)
  {
    forall i | 0 <= i < |es| && Stores(es[i].rel)
      ensures 0 <= Target(c, es[i].rel) && c.base + Target(c, es[i].rel) + 4 <= |n| && Meant(m, c, es[i].rel, U32(n, c.base + Target(c, es[i].rel)))
    {
      assert Stored(m, n, c, es[i]);
    }
    forall x | 0 <= x < |m| && (forall i | 0 <= i < |es| && Stores(es[i].rel) :: Missed(c, es[i].rel, x)) ensures n[x] == m[x] {
      assert Spared(es, c, |es|, x);
    }
  }

  lemma DynamicCarried(m: seq<Byte>, va: Word, d: Dyn, c: Ctx, n: seq<Byte>)
    requires Memory(m) && Sandbox(c.base, c.limit) && Dynamic(m, va, c.bias, c.base, c.limit) == (n, 0)
    requires d == DynOf(m, va, c.base, c.limit) && c == Context(d, c.bias, c.base, c.limit)
    requires Tidy(AllRows(m, d, c.bias, c.base, c.limit), c)
    ensures Carried(m, n, c, AllRows(m, d, c.bias, c.base, c.limit))
  {
    var es := AllRows(m, d, c.bias, c.base, c.limit);
    DynamicIs(m, va, c.bias, c.base, c.limit, d);
    TablesInRange(m, d, c.bias, c.base, c.limit);
    RowsLaid(m, d, c, es);
    TablesDone(m, d, c, es, n);
    DoneCarried(m, n, c, es);
  }

  /**
   A load that succeeds leaves the mapped image, with each word a relocation names replaced by what its
   type asks for: A + bias, S + A, or S.
   */
  lemma LoadValues(mem: seq<Byte>, image: Elf.Image, base: Word, limit: Word, eh: Ehdr, phs: seq<Phdr>, m: seq<Byte>, l: Loaded, va: Word, d: Dyn)
    returns (n: seq<Byte>)
    requires Memory(mem) && Sandbox(base, limit) && Parse(image) == Ok(eh) && phs == Headers(image, eh)
    requires Map(mem, image, base, limit) == (m, Ok(l)) && Load(mem, image, base, limit).1.Ok?
    requires va == DynamicVa(phs, l.bias, |phs|) && d == DynOf(m, va, base, limit)
    requires va != 0 ==> Tidy(AllRows(m, d, l.bias, base, limit), Context(d, l.bias, base, limit))
    ensures Load(mem, image, base, limit) == (n, Ok(l))
    ensures if va == 0 then n == m else Carried(m, n, Context(d, l.bias, base, limit), AllRows(m, d, l.bias, base, limit))
  {
    LoadIs(mem, image, base, limit, eh, phs, m, l, va);
    n := Load(mem, image, base, limit).0;
    if va != 0 {
      RelocatedOk(m, l, va, l.bias, base, limit);
      DynamicCarried(m, va, d, Context(d, l.bias, base, limit), n);
    }
  }
}
