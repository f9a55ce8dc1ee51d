/**
 One position-independent image loaded at two bases, from the bytes of the file to the relocated
 memory.
 */
module ElfLoadTwice {
  import opened Sectors
  import opened Records
  import opened Elf
  import opened ElfReloc
  import opened ElfTwoBases

  // ---------------------------------------------------------------- mapping

  /** The same bytes at the same place of both windows. */
  lemma SpliceAlike(m1: seq<Byte>, m2: seq<Byte>, t: Two, a1: nat, a2: nat, c: seq<Byte>, n1: seq<Byte>, n2: seq<Byte>)
    requires Alike(m1, m2, t, {}) && t.b1 <= a1 && a1 + |c| <= t.b1 + t.size && a2 == a1 - t.b1 + t.b2
    requires n1 == Splice(m1, a1, c) && n2 == Splice(m2, a2, c)
    ensures Alike(n1, n2, t, {})
  {
    forall x | 0 <= x < t.size && !Marked({}, x) ensures n1[t.b1 + x] == n2[t.b2 + x] {
      if a1 <= t.b1 + x < a1 + |c| {
        assert n1[t.b1 + x] == c[t.b1 + x - a1];
      } else {
        assert m1[t.b1 + x] == m2[t.b2 + x];
      }
    }
  }

  /** A segment that the first window accepts is accepted by the second, at the same place. */
  lemma SegmentMoved(size: nat, ph: Phdr, t: Two)
    requires Good(t) && CheckSegment(size, ph, t.b1 - t.min, t.b1, t.b1 + t.size) == 0
    ensures CheckSegment(size, ph, t.b2 - t.min, t.b2, t.b2 + t.size) == 0
    ensures Address(ph.vaddr, t.b2 - t.min) - t.b2 == Address(ph.vaddr, t.b1 - t.min) - t.b1
  {
    AddressMoved(ph.vaddr, t);
    MovedInside(Address(ph.vaddr, t.b1 - t.min), t);
  }

  /** The two segment loops have found the same, at the distance of the bases. */
  predicate FoundMoved(f1: Found, f2: Found, t: Two) {
    t.b1 <= f1.end <= t.b1 + t.size && f2.end == f1.end - t.b1 + t.b2 && f2.loads == f1.loads
  }

  /** The loop by the segment at header `i`. */
  lemma MapFirst(m: seq<Byte>, image: Elf.Image, phs: seq<Phdr>, bias: Word, base: Word, limit: Word, i: nat, f: Found)
    returns (next: seq<Byte>, g: Found)
    requires Memory(m) && i < |phs| && phs[i].kind == PT_LOAD && CheckSegment(|image|, phs[i], bias, base, limit) == 0
    ensures next == Splice(m, Address(phs[i].vaddr, bias), Content(image, phs[i])) && Memory(next)
    ensures g == Found(Max(Address(phs[i].vaddr, bias) + phs[i].memsz, f.end), f.loads + 1)
    ensures MapFrom(m, image, phs, bias, base, limit, i, f) == MapFrom(next, image, phs, bias, base, limit, i + 1, g)
  {
    next := Splice(m, Address(phs[i].vaddr, bias), Content(image, phs[i]));
    g := Found(Max(Address(phs[i].vaddr, bias) + phs[i].memsz, f.end), f.loads + 1);
  }

  /** One segment in both loops. */
  lemma SegmentAlike(m1: seq<Byte>, m2: seq<Byte>, t: Two, image: Elf.Image, phs: seq<Phdr>, i: nat, f1: Found, f2: Found)
    returns (n1: seq<Byte>, n2: seq<Byte>, g1: Found, g2: Found)
    requires Alike(m1, m2, t, {}) && i < |phs| && phs[i].kind == PT_LOAD && FoundMoved(f1, f2, t)
    requires CheckSegment(|image|, phs[i], t.b1 - t.min, t.b1, t.b1 + t.size) == 0
    ensures Alike(n1, n2, t, {}) && FoundMoved(g1, g2, t)
    ensures MapFrom(m1, image, phs, t.b1 - t.min, t.b1, t.b1 + t.size, i, f1) == MapFrom(n1, image, phs, t.b1 - t.min, t.b1, t.b1 + t.size, i + 1, g1)
    ensures MapFrom(m2, image, phs, t.b2 - t.min, t.b2, t.b2 + t.size, i, f2) == MapFrom(n2, image, phs, t.b2 - t.min, t.b2, t.b2 + t.size, i + 1, g2)
  {
    SegmentMoved(|image|, phs[i], t);
    n1, g1 := MapFirst(m1, image, phs, t.b1 - t.min, t.b1, t.b1 + t.size, i, f1);
    n2, g2 := MapFirst(m2, image, phs, t.b2 - t.min, t.b2, t.b2 + t.size, i, f2);
    SpliceAlike(m1, m2, t, Address(phs[i].vaddr, t.b1 - t.min), Address(phs[i].vaddr, t.b2 - t.min), Content(image, phs[i]), n1, n2);
  }

  lemma {:induction false} MapFromAlike(m1: seq<Byte>, m2: seq<Byte>, t: Two, image: Elf.Image, phs: seq<Phdr>, i: nat, f1: Found, f2: Found,
                                        r1: (seq<Byte>, Result<Found>), r2: (seq<Byte>, Result<Found>))
    requires Alike(m1, m2, t, {}) && i <= |phs| && FoundMoved(f1, f2, t)
    requires r1 == MapFrom(m1, image, phs, t.b1 - t.min, t.b1, t.b1 + t.size, i, f1) && r1.1.Ok?
    requires r2 == MapFrom(m2, image, phs, t.b2 - t.min, t.b2, t.b2 + t.size, i, f2)
    ensures Alike(r1.0, r2.0, t, {}) && r2.1.Ok? && FoundMoved(r1.1.value, r2.1.value, t)
    decreases |phs| - i
  {
    if i < |phs| {
      if phs[i].kind != PT_LOAD {
        MapFromAlike(m1, m2, t, image, phs, i + 1, f1, f2, r1, r2);
      } else {
        var n1, n2, g1, g2 := SegmentAlike(m1, m2, t, image, phs, i, f1, f2);
        MapFromAlike(n1, n2, t, image, phs, i + 1, g1, g2, r1, r2);
      }
    }
  }

  /** A position-independent image, its headers, and two windows above its lowest address. */
  predicate Independent(image: Elf.Image, eh: Ehdr, phs: seq<Phdr>, t: Two) {
    && Parse(image) == Ok(eh) && phs == Headers(image, eh) && eh.kind == ET_DYN && Good(t)
    && t.min == MinVa(phs, |phs|) && t.min != 0xFFFF_FFFF
  }

  /** The result of the second load, given that of the first. */
  predicate LoadedMoved(l1: Loaded, l2: Loaded, t: Two) {
    && t.b1 <= l1.entry && l2.entry == l1.entry - t.b1 + t.b2 && t.b1 <= l1.end && l2.end == l1.end - t.b1 + t.b2
    && l1.bias == t.b1 - t.min && l2.bias == t.b2 - t.min
  }

  lemma FinishMoved(eh: Ehdr, t: Two, r1: Result<Found>, r2: Result<Found>)
    requires Good(t) && r1.Ok? && r2.Ok? && FoundMoved(r1.value, r2.value, t)
    requires Finish(eh, t.b1 - t.min, t.b1, t.b1 + t.size, r1).Ok?
    ensures Finish(eh, t.b2 - t.min, t.b2, t.b2 + t.size, r2).Ok?
    ensures LoadedMoved(Finish(eh, t.b1 - t.min, t.b1, t.b1 + t.size, r1).value, Finish(eh, t.b2 - t.min, t.b2, t.b2 + t.size, r2).value, t)
  {
    AddressMoved(eh.entry, t);
    MovedInside(Address(eh.entry, t.b1 - t.min), t);
  }

  /** Mapping at both bases: the windows are alike, entry and end move. */
  lemma MapAlike(mem1: seq<Byte>, mem2: seq<Byte>, t: Two, image: Elf.Image, eh: Ehdr, phs: seq<Phdr>, m1: seq<Byte>)
    returns (m2: seq<Byte>, l1: Loaded, l2: Loaded)
    requires Independent(image, eh, phs, t) && Alike(mem1, mem2, t, {}) && Map(mem1, image, t.b1, t.b1 + t.size).1.Ok?
    requires m1 == Map(mem1, image, t.b1, t.b1 + t.size).0
    ensures Map(mem1, image, t.b1, t.b1 + t.size) == (m1, Ok(l1)) && Map(mem2, image, t.b2, t.b2 + t.size) == (m2, Ok(l2))
    ensures Alike(m1, m2, t, {}) && LoadedMoved(l1, l2, t)
  {
    var r1 := MapFrom(mem1, image, phs, t.b1 - t.min, t.b1, t.b1 + t.size, 0, Found(t.b1, 0));
    var r2 := MapFrom(mem2, image, phs, t.b2 - t.min, t.b2, t.b2 + t.size, 0, Found(t.b2, 0));
    MapFromAlike(mem1, mem2, t, image, phs, 0, Found(t.b1, 0), Found(t.b2, 0), r1, r2);
    FinishMoved(eh, t, r1.1, r2.1);
    m2, l1, l2 := r2.0, Finish(eh, t.b1 - t.min, t.b1, t.b1 + t.size, r1.1).value, Finish(eh, t.b2 - t.min, t.b2, t.b2 + t.size, r2.1).value;
  }

  // ---------------------------------------------------------------- relocation

  /** The rows of one relocation table, when it lies in the sandbox. */
  function TableRows(m: seq<Byte>, c: Ctx, at: Word, size: Word): (es: seq<Entry>)
    requires Memory(m)
    ensures RangeOk(at, size, c.base, c.limit) ==> |es| == size / 8
  {
    if RangeOk(at, size, c.base, c.limit) then Entries(m, c, at, size / 8) else []
  }

  /** The rows of both tables of a mapped image. */
  function AllRows(m: seq<Byte>, d: Dyn, bias: Word, base: Word, limit: Word): (es: seq<Entry>)
    requires Memory(m)
  {
    var c := Context(d, bias, base, limit);
    (if HasRel(d) then TableRows(m, c, Address(d.rel, bias), d.relsz) else [])
    + (if HasPlt(d) then TableRows(m, c, Address(d.jmprel, bias), d.pltrelsz) else [])
  }

  lemma EntriesListed(m: seq<Byte>, c: Ctx, at: nat, n: nat, i: nat)
    requires Memory(m) && c.base <= at && at + 8 * n <= c.limit && i < n
    ensures var e := Entries(m, c, at, n)[i]; e.at == at - c.base + 8 * i && Holds(m, c, e)
  {
    assert c.base + (at - c.base + 8 * i) == at + 8 * i;
  }

  lemma RowsListed(m: seq<Byte>, c: Ctx, a: nat, n: nat, b: nat, k: nat, es: seq<Entry>)
    requires Memory(m)
    requires (n > 0 ==> c.base <= a && a + 8 * n <= c.limit) && (k > 0 ==> c.base <= b && b + 8 * k <= c.limit)
    requires es == (if n > 0 then Entries(m, c, a, n) else []) + (if k > 0 then Entries(m, c, b, k) else [])
    ensures |es| == n + k && Listed(m, c, es, 0)
    ensures (n > 0 ==> Rows(es, 0, a - c.base, 0, n)) && (k > 0 ==> Rows(es, n, b - c.base, 0, k))
  {
    forall i | 0 <= i < |es|
      ensures Holds(m, c, es[i])
      ensures es[i].at == if i < n then a - c.base + 8 * i else b - c.base + 8 * (i - n)
    {
      if i < n {
        EntriesListed(m, c, a, n, i);
      } else {
        EntriesListed(m, c, b, k, i - n);
      }
    }
  }

  lemma AllRowsAre(m: seq<Byte>, d: Dyn, bias: Word, base: Word, limit: Word, c: Ctx, a: nat, n: nat, b: nat, k: nat)
    requires Memory(m) && c == Context(d, bias, base, limit) && a == Address(d.rel, bias) && b == Address(d.jmprel, bias)
    requires n == (if HasRel(d) then d.relsz / 8 else 0) && k == (if HasPlt(d) then d.pltrelsz / 8 else 0)
    requires HasRel(d) ==> RangeOk(a, d.relsz, base, limit) && n > 0
    requires HasPlt(d) ==> RangeOk(b, d.pltrelsz, base, limit) && k > 0
    ensures AllRows(m, d, bias, base, limit) == (if n > 0 then Entries(m, c, a, n) else []) + (if k > 0 then Entries(m, c, b, k) else [])
  {
  }

  /** When the tables are accepted, their rows are laid out as the loops read them. */
  lemma RowsLaid(m: seq<Byte>, d: Dyn, c: Ctx, es: seq<Entry>)
    requires Memory(m) && c == Context(d, c.bias, c.base, c.limit) && es == AllRows(m, d, c.bias, c.base, c.limit)
    requires HasRel(d) ==> RangeOk(Address(d.rel, c.bias), d.relsz, c.base, c.limit) && d.relsz % 8 == 0
    requires HasPlt(d) ==> RangeOk(Address(d.jmprel, c.bias), d.pltrelsz, c.base, c.limit) && d.pltrelsz % 8 == 0
    ensures Laid(es, d, c) && Listed(m, c, es, 0)
  {
    var a, b := Address(d.rel, c.bias), Address(d.jmprel, c.bias);
    var n, k := if HasRel(d) then d.relsz / 8 else 0, if HasPlt(d) then d.pltrelsz / 8 else 0;
    if HasRel(d) {
      TableFits(a, d.relsz, n, c.base, c.limit);
    }
    if HasPlt(d) {
      TableFits(b, d.pltrelsz, k, c.base, c.limit);
    }
    AllRowsAre(m, d, c.bias, c.base, c.limit, c, a, n, b, k);
    RowsListed(m, c, a, n, b, k, es);
    RowsAreLaid(es, d, c, a, n, b, k);
  }

  lemma TableFits(at: Word, size: Word, n: nat, base: Word, limit: Word)
    requires RangeOk(at, size, base, limit) && size % 8 == 0 && size != 0 && n == size / 8
    ensures n > 0 && base <= at && at + 8 * n <= limit
  {
  }

  lemma RowsAreLaid(es: seq<Entry>, d: Dyn, c: Ctx, a: Word, n: nat, b: Word, k: nat)
    requires n == (if HasRel(d) then d.relsz / 8 else 0) && k == (if HasPlt(d) then d.pltrelsz / 8 else 0) && |es| == n + k
    requires a == Address(d.rel, c.bias) && b == Address(d.jmprel, c.bias)
    requires n > 0 && a >= c.base ==> Rows(es, 0, a - c.base, 0, n)
    requires k > 0 && b >= c.base ==> Rows(es, n, b - c.base, 0, k)
    requires (HasRel(d) ==> n > 0) && (HasPlt(d) ==> k > 0)
    ensures Laid(es, d, c)
  {
  }

  lemma TablesInRange(m: seq<Byte>, d: Dyn, bias: Word, base: Word, limit: Word)
    requires Memory(m) && Sandbox(base, limit) && Tables(m, d, bias, base, limit).1 == 0
    ensures HasRel(d) ==> RangeOk(Address(d.rel, bias), d.relsz, base, limit) && d.relsz % 8 == 0
    ensures HasPlt(d) ==> RangeOk(Address(d.jmprel, bias), d.pltrelsz, base, limit) && d.pltrelsz % 8 == 0
  {
    var c := Context(d, bias, base, limit);
    if HasRel(d) {
      ArrayInRange(m, c, Address(d.rel, bias), d.relsz);
    }
    if HasPlt(d) {
      var first := if HasRel(d) then RelArray(m, c, Address(d.rel, bias), d.relsz) else (m, 0);
      ArrayInRange(first.0, c, Address(d.jmprel, bias), d.pltrelsz);
    }
  }

  lemma ArrayInRange(m: seq<Byte>, c: Ctx, at: Word, size: Word)
    requires Memory(m) && Sandbox(c.base, c.limit) && size > 0
    ensures RelArray(m, c, at, size).1 == 0 ==> RangeOk(at, size, c.base, c.limit) && size % 8 == 0
  {
  }

  const NO_DYN: Dyn := Dyn(0, 0, 0, 0, DT_REL, 0, 0)

  /** The dynamic table of a mapped image. */
  function DynOf(m: seq<Byte>, va: Word, base: Word, limit: Word): (d: Dyn)
    requires Memory(m)
  {
    var r := DynFrom(m, va, base, limit, 0, NO_DYN);
    if r.Ok? then r.value else NO_DYN
  }

  /**
   A caller's condition on the file, read off the mapped image: the symbol table starts in the window
   and no relocation stores into the tables, a symbol in use, or another relocation's word.
   */
  predicate Relocatable(m: seq<Byte>, d: Dyn, bias: Word, base: Word, limit: Word)
    requires Memory(m)
  {
    && (d.symtab != 0 ==> base <= Address(d.symtab, bias) <= limit)
    && Tidy(AllRows(m, d, bias, base, limit), Context(d, bias, base, limit))
  }

  /**
   The marks are the words that relocations of the mapped image move: the targets of every RELATIVE one
   and of every one by a symbol that is not absolute, and no others.
   */
  predicate Named(marks: set<nat>, m: seq<Byte>, d: Dyn, bias: Word, base: Word, limit: Word)
    requires Memory(m)
  {
    FromFirst(marks, AllRows(m, d, bias, base, limit), Context(d, bias, base, limit), |AllRows(m, d, bias, base, limit)|)
  }

  /** Relocation is the work on the tables the dynamic table names. */
  lemma DynamicIs(m: seq<Byte>, va: Word, bias: Word, base: Word, limit: Word, d: Dyn)
    requires Memory(m) && Sandbox(base, limit)
    requires Dynamic(m, va, bias, base, limit).1 == 0 || DynFrom(m, va, base, limit, 0, NO_DYN).Ok?
    requires d == DynOf(m, va, base, limit)
    ensures DynFrom(m, va, base, limit, 0, NO_DYN) == Ok(d) && Dynamic(m, va, bias, base, limit) == Tables(m, d, bias, base, limit)
  {
  }

  lemma RowsAlike(m1: seq<Byte>, m2: seq<Byte>, t: Two, d: Dyn) returns (n1: seq<Byte>, n2: seq<Byte>, marks: set<nat>)
    requires Alike(m1, m2, t, {}) && Tables(m1, d, t.b1 - t.min, t.b1, t.b1 + t.size).1 == 0
    requires Relocatable(m1, d, t.b1 - t.min, t.b1, t.b1 + t.size)
    ensures Tables(m1, d, t.b1 - t.min, t.b1, t.b1 + t.size) == (n1, 0) && Tables(m2, d, t.b2 - t.min, t.b2, t.b2 + t.size) == (n2, 0)
    ensures Alike(n1, n2, t, marks) && Named(marks, m1, d, t.b1 - t.min, t.b1, t.b1 + t.size)
  {
    var es := AllRows(m1, d, t.b1 - t.min, t.b1, t.b1 + t.size);
    TablesInRange(m1, d, t.b1 - t.min, t.b1, t.b1 + t.size);
    RowsLaid(m1, d, Context(d, t.b1 - t.min, t.b1, t.b1 + t.size), es);
    n1, n2, marks := TablesAlike(m1, m2, t, d, es);
  }

  /** Both images have the same dynamic table, at the same place. */
  lemma SameDyn(m1: seq<Byte>, m2: seq<Byte>, t: Two, va: Word, va2: Word, d: Dyn)
    requires Alike(m1, m2, t, {}) && va2 == Moved(va, t) && DynFrom(m1, va, t.b1, t.b1 + t.size, 0, NO_DYN) == Ok(d)
    ensures va2 != 0 && DynFrom(m2, va2, t.b2, t.b2 + t.size, 0, NO_DYN) == Ok(d)
  {
    DynStart(m1, va, t.b1, t.b1 + t.size);
    DynAlike(m1, m2, t, va, 0, NO_DYN);
    MovedInside(va, t);
  }

  /** Relocation at both bases. */
  lemma DynamicAlike(m1: seq<Byte>, m2: seq<Byte>, t: Two, va: Word, va2: Word, d: Dyn)
    returns (n1: seq<Byte>, n2: seq<Byte>, marks: set<nat>)
    requires Alike(m1, m2, t, {}) && va2 == Moved(va, t) && Dynamic(m1, va, t.b1 - t.min, t.b1, t.b1 + t.size).1 == 0
    requires d == DynOf(m1, va, t.b1, t.b1 + t.size) && Relocatable(m1, d, t.b1 - t.min, t.b1, t.b1 + t.size)
    ensures va2 != 0 && Dynamic(m1, va, t.b1 - t.min, t.b1, t.b1 + t.size) == (n1, 0)
    ensures Dynamic(m2, va2, t.b2 - t.min, t.b2, t.b2 + t.size) == (n2, 0)
    ensures Alike(n1, n2, t, marks) && Named(marks, m1, d, t.b1 - t.min, t.b1, t.b1 + t.size)
  {
    DynamicIs(m1, va, t.b1 - t.min, t.b1, t.b1 + t.size, d);
    SameDyn(m1, m2, t, va, va2, d);
    DynamicIs(m2, va2, t.b2 - t.min, t.b2, t.b2 + t.size, d);
    n1, n2, marks := RowsAlike(m1, m2, t, d);
  }

  lemma DynStart(m: seq<Byte>, va: Word, base: Word, limit: Word)
    requires Memory(m) && DynFrom(m, va, base, limit, 0, NO_DYN).Ok?
    ensures base <= va <= limit
  {
  }

  // ---------------------------------------------------------------- loading

  lemma {:induction false} DynamicVaMoved(phs: seq<Phdr>, t: Two, n: nat)
    requires Good(t) && n <= |phs|
    ensures DynamicVa(phs, t.b1 - t.min, n) != 0 ==> DynamicVa(phs, t.b2 - t.min, n) == Moved(DynamicVa(phs, t.b1 - t.min, n), t)
    ensures NoDynamic(phs, n) ==> DynamicVa(phs, t.b1 - t.min, n) == 0 && DynamicVa(phs, t.b2 - t.min, n) == 0
  {
    if n > 0 {
      if phs[n - 1].kind == PT_DYNAMIC && phs[n - 1].memsz >= 8 {
        AddressMoved(phs[n - 1].vaddr, t);
      } else {
        DynamicVaMoved(phs, t, n - 1);
      }
    }
  }

  predicate NoDynamic(phs: seq<Phdr>, n: nat)
    requires n <= |phs|
  {
    forall i | 0 <= i < n :: phs[i].kind != PT_DYNAMIC || phs[i].memsz < 8
  }

  /**
   The same file loaded at two bases into windows that were alike: if the first load succeeds so does
   the second, entry and end move by the distance, and memory differs in just the words that relative
   relocations and symbols that are not absolute name, each by the distance of the bases modulo 2^32.
   */
  lemma LoadTwice(mem1: seq<Byte>, mem2: seq<Byte>, t: Two, image: Elf.Image, eh: Ehdr, phs: seq<Phdr>, m1: seq<Byte>, va: Word, d: Dyn)
    returns (n1: seq<Byte>, n2: seq<Byte>, l1: Loaded, l2: Loaded, marks: set<nat>)
    requires Independent(image, eh, phs, t) && Alike(mem1, mem2, t, {}) && Load(mem1, image, t.b1, t.b1 + t.size).1.Ok?
    requires m1 == Map(mem1, image, t.b1, t.b1 + t.size).0 && va == DynamicVa(phs, t.b1 - t.min, |phs|)
    requires d == DynOf(m1, va, t.b1, t.b1 + t.size)
    requires NoDynamic(phs, |phs|) || (va != 0 && Relocatable(m1, d, t.b1 - t.min, t.b1, t.b1 + t.size))
    ensures Load(mem1, image, t.b1, t.b1 + t.size) == (n1, Ok(l1)) && Load(mem2, image, t.b2, t.b2 + t.size) == (n2, Ok(l2))
    ensures LoadedMoved(l1, l2, t) && Alike(n1, n2, t, marks)
    ensures if NoDynamic(phs, |phs|) then marks == {} else Named(marks, m1, d, t.b1 - t.min, t.b1, t.b1 + t.size)
  {
    var m2, va2;
    m2, l1, l2, va2 := MapBoth(mem1, mem2, t, image, eh, phs, m1, va);
    if NoDynamic(phs, |phs|) {
      n1, n2, marks := m1, m2, {};
    } else {
      RelocatedOk(m1, l1, va, t.b1 - t.min, t.b1, t.b1 + t.size);
      n1, n2, marks := FinishDynamic(m1, m2, t, l1, l2, va, va2, d);
    }
  }

  /** Up to the mapped images. */
  lemma MapBoth(mem1: seq<Byte>, mem2: seq<Byte>, t: Two, image: Elf.Image, eh: Ehdr, phs: seq<Phdr>, m1: seq<Byte>, va: Word)
    returns (m2: seq<Byte>, l1: Loaded, l2: Loaded, va2: Word)
    requires Independent(image, eh, phs, t) && Alike(mem1, mem2, t, {}) && Load(mem1, image, t.b1, t.b1 + t.size).1.Ok?
    requires m1 == Map(mem1, image, t.b1, t.b1 + t.size).0 && va == DynamicVa(phs, t.b1 - t.min, |phs|)
    ensures Alike(m1, m2, t, {}) && LoadedMoved(l1, l2, t)
    ensures Load(mem1, image, t.b1, t.b1 + t.size) == Relocated(m1, l1, va, t.b1, t.b1 + t.size)
    ensures Load(mem2, image, t.b2, t.b2 + t.size) == Relocated(m2, l2, va2, t.b2, t.b2 + t.size)
    ensures (va != 0 ==> va2 == Moved(va, t)) && (NoDynamic(phs, |phs|) ==> va == 0 && va2 == 0)
  {
    LoadMapped(mem1, image, t.b1, t.b1 + t.size);
    m2, l1, l2 := MapAlike(mem1, mem2, t, image, eh, phs, m1);
    DynamicVaMoved(phs, t, |phs|);
    va2 := DynamicVa(phs, t.b2 - t.min, |phs|);
    LoadIs(mem1, image, t.b1, t.b1 + t.size, eh, phs, m1, l1, va);
    LoadIs(mem2, image, t.b2, t.b2 + t.size, eh, phs, m2, l2, va2);
  }

  /** What loading does once the image is mapped. */
  function Relocated(m: seq<Byte>, l: Loaded, va: Word, base: Word, limit: Word): (r: (seq<Byte>, Result<Loaded>))
    requires Memory(m) && Sandbox(base, limit)
  {
    if va == 0 then (m, Ok(l))
    else
      var d := Dynamic(m, va, l.bias, base, limit);
      (d.0, if d.1 == 0 then Ok(l) else Err(d.1))
  }

  /** From the mapped images on, when there is a dynamic table. */
  lemma FinishDynamic(m1: seq<Byte>, m2: seq<Byte>, t: Two, l1: Loaded, l2: Loaded, va1: Word, va2: Word, d: Dyn)
    returns (n1: seq<Byte>, n2: seq<Byte>, marks: set<nat>)
    requires Alike(m1, m2, t, {}) && l1.bias == t.b1 - t.min && l2.bias == t.b2 - t.min && d == DynOf(m1, va1, t.b1, t.b1 + t.size)
    requires va1 != 0 && Dynamic(m1, va1, l1.bias, t.b1, t.b1 + t.size).1 == 0
    requires va2 == Moved(va1, t) && Relocatable(m1, d, t.b1 - t.min, t.b1, t.b1 + t.size)
    ensures Relocated(m1, l1, va1, t.b1, t.b1 + t.size) == (n1, Ok(l1)) && Relocated(m2, l2, va2, t.b2, t.b2 + t.size) == (n2, Ok(l2))
    ensures Alike(n1, n2, t, marks) && Named(marks, m1, d, t.b1 - t.min, t.b1, t.b1 + t.size)
  {
    n1, n2, marks := DynamicAlike(m1, m2, t, va1, va2, d);
    RelocatedIs(m1, l1, va1, l1.bias, t.b1, t.b1 + t.size, n1);
    RelocatedIs(m2, l2, va2, l2.bias, t.b2, t.b2 + t.size, n2);
  }

  lemma RelocatedOk(m: seq<Byte>, l: Loaded, va: Word, bias: Word, base: Word, limit: Word)
    requires Memory(m) && Sandbox(base, limit) && va != 0 && bias == l.bias && Relocated(m, l, va, base, limit).1.Ok?
    ensures Dynamic(m, va, bias, base, limit).1 == 0
  {
  }

  lemma RelocatedIs(m: seq<Byte>, l: Loaded, va: Word, bias: Word, base: Word, limit: Word, n: seq<Byte>)
    requires Memory(m) && Sandbox(base, limit) && va != 0 && bias == l.bias && Dynamic(m, va, bias, base, limit) == (n, 0)
    ensures Relocated(m, l, va, base, limit) == (n, Ok(l))
  {
  }

  lemma LoadMapped(mem: seq<Byte>, image: Elf.Image, base: Word, limit: Word)
    requires Memory(mem) && Sandbox(base, limit) && Load(mem, image, base, limit).1.Ok?
    ensures Map(mem, image, base, limit).1.Ok?
  {
  }

  /** Loading is mapping, then relocating if there is a dynamic table. */
  lemma LoadIs(mem: seq<Byte>, image: Elf.Image, base: Word, limit: Word, eh: Ehdr, phs: seq<Phdr>, m: seq<Byte>, l: Loaded, va: Word)
    requires Memory(mem) && Sandbox(base, limit) && Parse(image) == Ok(eh) && phs == Headers(image, eh)
    requires Map(mem, image, base, limit) == (m, Ok(l)) && va == DynamicVa(phs, l.bias, |phs|)
    ensures Load(mem, image, base, limit) == Relocated(m, l, va, base, limit)
  {
  }
}
