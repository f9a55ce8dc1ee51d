/**
 Relocation of a loaded image (`src/elf.c`): the dynamic table, then its relocation tables in order.
 */
module ElfReloc {
  import opened Sectors
  import opened Records
  import opened Elf

  const R_NONE: nat := 0
  const R_32: nat := 1
  const R_GLOB_DAT: nat := 6
  const R_JMP_SLOT: nat := 7
  const R_RELATIVE: nat := 8
  const SHN_ABS: nat := 0xFFF1
  const DT_REL: nat := 17
  const REL_MAX: nat := 0x4_0000

  datatype Rel = Rel(offset: Word, info: Word)

  /** Where symbols are, the load bias, and the sandbox. */
  datatype Ctx = Ctx(symtab: Word, syment: Word, bias: Word, base: Word, limit: Word)

  function Kind(r: Rel): (k: nat) { r.info % 256 }

  predicate UsesSymbol(r: Rel) { Kind(r) == R_32 || Kind(r) == R_GLOB_DAT || Kind(r) == R_JMP_SLOT }

  function ReadRel(mem: seq<Byte>, at: nat): (r: Rel)
    requires at + 8 <= |mem|
  {
    Rel(U32(mem, at), U32(mem, at + 4))
  }

  function Store32(mem: seq<Byte>, at: nat, w: Word): (r: seq<Byte>)
    requires at + 4 <= |mem|
    ensures |r| == |mem|
  {
    Splice(mem, at, Put32(w))
  }

  function SymbolAt(c: Ctx, r: Rel): (va: Word) { (c.symtab + r.info / 256 * c.syment) % Records.WORD }

  /** The value a symbol relocation uses. */
  function SymbolValue(mem: seq<Byte>, c: Ctx, r: Rel): (v: Result<Word>)
    requires Memory(mem)
  {
    if c.symtab == 0 || c.syment < 16 || r.info / 256 > 0xF_FFFF then Err(RELOC)
    else if !RangeOk(SymbolAt(c, r), 16, c.base, c.limit) then Err(RELOC)
    else
      var shndx, value := U16(mem, SymbolAt(c, r) + 14), U32(mem, SymbolAt(c, r) + 4);
      if shndx == 0 then Err(RELOC) else Ok(if shndx == SHN_ABS then value else Address(value, c.bias))
  }

  /** One relocation: memory and an error code. */
  function RelStep(mem: seq<Byte>, c: Ctx, r: Rel): (n: (seq<Byte>, int))
    requires Memory(mem) && Sandbox(c.base, c.limit)
    ensures Memory(n.0)
  {
    var at := Address(r.offset, c.bias);
    if at < c.base || at > c.limit - 4 then (mem, RANGE)
    else if Kind(r) == R_NONE then (mem, 0)
    else if Kind(r) == R_RELATIVE then (Store32(mem, at, Address(U32(mem, at), c.bias)), 0)
    else if UsesSymbol(r) then
      var v := SymbolValue(mem, c, r);
      if v.Err? then (mem, v.code)
      else (Store32(mem, at, if Kind(r) == R_32 then Address(U32(mem, at), v.value) else v.value), 0)
    else (mem, RELOC)
  }

  /** The loop of elf_apply_rel_array. */
  function RelFrom(mem: seq<Byte>, c: Ctx, at: nat, i: nat, n: nat): (r: (seq<Byte>, int))
    requires Memory(mem) && Sandbox(c.base, c.limit) && i <= n && at + 8 * n <= c.limit
    ensures Memory(r.0)
    decreases n - i
  {
    if i == n then (mem, 0)
    else
      var s := RelStep(mem, c, ReadRel(mem, at + 8 * i));
      if s.1 != 0 then s else RelFrom(s.0, c, at, i + 1, n)
  }

  /** elf_apply_rel_array. */
  function RelArray(mem: seq<Byte>, c: Ctx, at: Word, size: Word): (r: (seq<Byte>, int))
    requires Memory(mem) && Sandbox(c.base, c.limit)
    ensures Memory(r.0)
  {
    if size == 0 then (mem, 0)
    else if size > REL_MAX || size % 8 != 0 then (mem, RELOC)
    else if !RangeOk(at, size, c.base, c.limit) then (mem, RANGE)
    else RelFrom(mem, c, at, 0, size / 8)
  }

  /** The entries of the dynamic table that matter. */
  datatype Dyn = Dyn(rel: Word, relsz: Word, jmprel: Word, pltrelsz: Word, pltrel: Word, symtab: Word, syment: Word)

  function Tagged(d: Dyn, tag: Word, val: Word): (r: Dyn) {
    if tag == 17 then d.(rel := val)
    else if tag == 18 then d.(relsz := val)
    else if tag == 23 then d.(jmprel := val)
    else if tag == 2 then d.(pltrelsz := val)
    else if tag == 20 then d.(pltrel := val)
    else if tag == 6 then d.(symtab := val)
    else if tag == 11 then d.(syment := val)
    else d
  }

  /** The scan of PT_DYNAMIC: at most 256 entries, each inside the sandbox. */
  function DynFrom(mem: seq<Byte>, at: Word, base: Word, limit: Word, i: nat, d: Dyn): (r: Result<Dyn>)
    requires Memory(mem) && i <= 256
    ensures r.Err? ==> r.code == RELOC
    decreases 256 - i, at
  {
    if i == 256 then Ok(d)
    else if at + 8 * i >= Records.WORD || !RangeOk(at + 8 * i, 8, base, limit) then Err(RELOC)
    else
      var tag := U32(mem, at + 8 * i);
      if tag == 0 then Ok(d) else DynFrom(mem, at, base, limit, i + 1, Tagged(d, tag, U32(mem, at + 8 * i + 4)))
  }

  /** Both relocation tables, in order. */
  function Tables(mem: seq<Byte>, d: Dyn, bias: Word, base: Word, limit: Word): (r: (seq<Byte>, int))
    requires Memory(mem) && Sandbox(base, limit)
    ensures Memory(r.0)
  {
    var c := Ctx(if d.symtab == 0 then 0 else Address(d.symtab, bias), d.syment, bias, base, limit);
    var first := if d.rel != 0 && d.relsz != 0 then RelArray(mem, c, Address(d.rel, bias), d.relsz) else (mem, 0);
    if first.1 != 0 || d.jmprel == 0 || d.pltrelsz == 0 then first
    else if d.pltrel != DT_REL then (first.0, RELOC)
    else RelArray(first.0, c, Address(d.jmprel, bias), d.pltrelsz)
  }

  /** elf_apply_dynamic. */
  function Dynamic(mem: seq<Byte>, at: Word, bias: Word, base: Word, limit: Word): (r: (seq<Byte>, int))
    requires Memory(mem) && Sandbox(base, limit)
    ensures Memory(r.0)
  {
    var d := DynFrom(mem, at, base, limit, 0, Dyn(0, 0, 0, 0, DT_REL, 0, 0));
    if d.Err? then (mem, d.code) else Tables(mem, d.value, bias, base, limit)
  }

  // ---------------------------------------------------------------- the sandbox

  lemma StepInside(mem: seq<Byte>, c: Ctx, r: Rel)
    requires Memory(mem) && Sandbox(c.base, c.limit)
    ensures Inside(mem, RelStep(mem, c, r).0, c.base, c.limit)
  {
  }

  lemma InsideTrans(a: seq<Byte>, b: seq<Byte>, c: seq<Byte>, base: Word, limit: Word)
    requires Inside(a, b, base, limit) && Inside(b, c, base, limit)
    ensures Inside(a, c, base, limit)
  {
  }

  /** The loop by its first step. */
  lemma FirstStep(mem: seq<Byte>, c: Ctx, at: nat, i: nat, n: nat, r: (seq<Byte>, int))
    returns (next: seq<Byte>, code: int)
    requires Memory(mem) && Sandbox(c.base, c.limit) && i < n && at + 8 * n <= c.limit && r == RelFrom(mem, c, at, i, n)
    ensures Memory(next) && Inside(mem, next, c.base, c.limit)
    ensures r == if code != 0 then (next, code) else RelFrom(next, c, at, i + 1, n)
  {
    var s := RelStep(mem, c, ReadRel(mem, at + 8 * i));
    StepInside(mem, c, ReadRel(mem, at + 8 * i));
    next, code := s.0, s.1;
  }

  lemma {:induction false} FromInside(mem: seq<Byte>, c: Ctx, at: nat, i: nat, n: nat, r: (seq<Byte>, int))
    requires Memory(mem) && Sandbox(c.base, c.limit) && i <= n && at + 8 * n <= c.limit && r == RelFrom(mem, c, at, i, n)
    ensures Inside(mem, r.0, c.base, c.limit)
    decreases n - i
  {
    if i < n {
      var next, code := FirstStep(mem, c, at, i, n, r);
      if code == 0 {
        FromInside(next, c, at, i + 1, n, r);
        InsideTrans(mem, next, r.0, c.base, c.limit);
      }
    } else {
      RelDone(mem, c, at, n);
    }
  }

  lemma RelDone(mem: seq<Byte>, c: Ctx, at: nat, n: nat)
    requires Memory(mem) && Sandbox(c.base, c.limit) && at + 8 * n <= c.limit
    ensures RelFrom(mem, c, at, n, n) == (mem, 0)
  {
  }

  lemma ArrayInside(mem: seq<Byte>, c: Ctx, at: Word, size: Word)
    requires Memory(mem) && Sandbox(c.base, c.limit)
    ensures Inside(mem, RelArray(mem, c, at, size).0, c.base, c.limit)
  {
    if size <= REL_MAX && size % 8 == 0 && RangeOk(at, size, c.base, c.limit) {
      FromInside(mem, c, at, 0, size / 8, RelFrom(mem, c, at, 0, size / 8));
    }
  }

  /** Every relocation store falls inside [base, limit), whatever the tables say. */
  lemma DynamicInside(mem: seq<Byte>, at: Word, bias: Word, base: Word, limit: Word)
    requires Memory(mem) && Sandbox(base, limit)
    ensures Inside(mem, Dynamic(mem, at, bias, base, limit).0, base, limit)
  {
    var r := DynFrom(mem, at, base, limit, 0, Dyn(0, 0, 0, 0, DT_REL, 0, 0));
    if r.Ok? {
      var d := r.value;
      var c := Ctx(if d.symtab == 0 then 0 else Address(d.symtab, bias), d.syment, bias, base, limit);
      ArrayInside(mem, c, Address(d.rel, bias), d.relsz);
      var first := if d.rel != 0 && d.relsz != 0 then RelArray(mem, c, Address(d.rel, bias), d.relsz) else (mem, 0);
      ArrayInside(first.0, c, Address(d.jmprel, bias), d.pltrelsz);
    }
  }

  // ---------------------------------------------------------------- loading

  /** The address of the last PT_DYNAMIC header, zero without one. */
  function DynamicVa(phs: seq<Phdr>, bias: Word, n: nat): (va: Word)
    requires n <= |phs|
  {
    if n == 0 then 0
    else if phs[n - 1].kind == PT_DYNAMIC && phs[n - 1].memsz >= 8 then Address(phs[n - 1].vaddr, bias)
    else DynamicVa(phs, bias, n - 1)
  }

  /** elf32_load_ex: memory, and the result with its error code. */
  function Load(mem: seq<Byte>, image: Elf.Image, base: Word, limit: Word): (r: (seq<Byte>, Result<Loaded>))
    requires Memory(mem) && Sandbox(base, limit)
    ensures Memory(r.0)
  {
    var m := Map(mem, image, base, limit);
    if m.1.Err? then m
    else
      var va := DynamicVa(Headers(image, Parse(image).value), m.1.value.bias, Parse(image).value.phnum);
      if va == 0 then m
      else
        var d := Dynamic(m.0, va, m.1.value.bias, base, limit);
        (d.0, if d.1 == 0 then m.1 else Err(d.1))
  }

  /** Loading writes nothing outside the sandbox. */
  lemma LoadInside(mem: seq<Byte>, image: Elf.Image, base: Word, limit: Word)
    requires Memory(mem) && Sandbox(base, limit)
    ensures Inside(mem, Load(mem, image, base, limit).0, base, limit)
  {
    MapInside(mem, image, base, limit);
    var m := Map(mem, image, base, limit);
    if m.1.Ok? {
      var va := DynamicVa(Headers(image, Parse(image).value), m.1.value.bias, Parse(image).value.phnum);
      DynamicInside(m.0, va, m.1.value.bias, base, limit);
    }
  }
}
