/**
 The ELF loader in the form of `src/elf.c`: headers read in loops, segments copied and words relocated
 in place.
 */
module ElfLoader {
  import opened Sectors
  import opened Records
  import opened Elf
  import opened ElfReloc

  /** elf_load_bias. */
  method LoadBias(image: Elf.Image, eh: Ehdr, base: Word) returns (bias: Word)
    requires HeaderOk(image, eh)
    ensures bias == Bias(eh, Headers(image, eh), base)
  {
    if eh.kind != ET_DYN {
      return 0;
    }
    ghost var phs := Headers(image, eh);
    var min: Word := 0xFFFF_FFFF;
    for i := 0 to eh.phnum
      invariant min == MinVa(phs, i)
    {
      var ph := ProgramHeader(image, eh, i);
      assert ph == phs[i];
      if ph.kind == PT_LOAD && ph.vaddr < min {
        min := ph.vaddr;
      }
    }
    if min == 0xFFFF_FFFF || min > base {
      return 0;
    }
    return base - min;
  }

  /** The checks elf32_validate makes on one PT_LOAD header. */
  method ScanSegment(size: nat, ph: Phdr, bias: Word, base: Word, limit: Word, end: Word) returns (code: int, maxEnd: Word)
    requires ph.kind == PT_LOAD
    ensures code == if GoodSegment(size, ph, bias, base, limit) then 0 else Fault(size, ph, bias, base, limit)
    ensures code == 0 ==> maxEnd == Max(Address(ph.vaddr, bias) + ph.memsz, end)
  {
    maxEnd := end;
    if ph.filesz > ph.memsz {
      return FORMAT, maxEnd;
    }
    if ph.offset > size || ph.filesz > size - ph.offset {
      return RANGE, maxEnd;
    }
    var va := (ph.vaddr + bias) % Records.WORD;
    if !RangeOk(va, ph.memsz, base, limit) {
      return RANGE, maxEnd;
    }
    if ph.align != 0 && !PowerOfTwo(ph.align) {
      return FORMAT, maxEnd;
    }
    var segEnd := va + ph.memsz;
    if segEnd > maxEnd {
      maxEnd := segEnd;
    }
    return 0, maxEnd;
  }

  /** The segment loop of elf32_validate. */
  method ScanSegments(image: Elf.Image, eh: Ehdr, bias: Word, base: Word, limit: Word) returns (r: Result<Found>)
    requires HeaderOk(image, eh)
    ensures r.Ok? ==> SoFar(|image|, Headers(image, eh), bias, base, limit, eh.phnum, r.value)
    ensures r.Err? ==> Verdict(|image|, eh, Headers(image, eh), bias, base, limit) == Err(r.code)
  {
    ghost var phs := Headers(image, eh);
    var maxEnd: Word, loads: nat := base, 0;
    for i := 0 to eh.phnum
      invariant SoFar(|image|, phs, bias, base, limit, i, Found(maxEnd, loads))
    {
      var ph := ProgramHeader(image, eh, i);
      assert ph == phs[i];
      ghost var f := Found(maxEnd, loads);
      if ph.kind == PT_LOAD {
        var code;
        code, maxEnd := ScanSegment(|image|, ph, bias, base, limit, maxEnd);
        if code != 0 {
          BadVerdict(|image|, eh, phs, bias, base, limit, i);
          return Err(code);
        }
        loads := loads + 1;
      }
      SoFarMore(|image|, phs, bias, base, limit, i, f, Found(maxEnd, loads));
    }
    return Ok(Found(maxEnd, loads));
  }

  /** elf32_validate. */
  method ValidateImage(image: Elf.Image, base: Word, limit: Word) returns (r: Result<Loaded>)
    ensures r == Validate(image, base, limit)
  {
    var p := Parse(image);
    if p.Err? {
      return Err(p.code);
    }
    var eh := p.value;
    var bias := LoadBias(image, eh, base);
    var f := ScanSegments(image, eh, bias, base, limit);
    if f.Err? {
      return Err(f.code);
    }
    GoodVerdict(|image|, eh, Headers(image, eh), bias, base, limit, f.value);
    if f.value.loads == 0 {
      return Err(NOLOAD);
    }
    var entry := (eh.entry + bias) % Records.WORD;
    if entry < base || entry >= limit {
      return Err(RANGE);
    }
    return Ok(Loaded(entry, f.value.end, bias));
  }

  /** The file bytes are in place, then that many zeroes. */
  lemma CopiedMore(was: seq<Byte>, image: Elf.Image, ph: Phdr, va: nat, k: nat, now: seq<Byte>, next: seq<Byte>)
    requires ph.filesz <= ph.memsz && ph.offset + ph.filesz <= |image| && va + ph.memsz <= |was| && k < ph.memsz
    requires now == Splice(was, va, Content(image, ph)[..k]) && next == now[va + k := Content(image, ph)[k]]
    ensures next == Splice(was, va, Content(image, ph)[..k + 1])
  {
    var c := Content(image, ph);
    var y := Splice(was, va, c[..k + 1]);
    forall x | 0 <= x < |was| ensures next[x] == y[x] {
    }
  }

  class Loader {
    const mem: array<Byte>

    ghost predicate Valid() { mem.Length == Records.WORD }

    /** memcpy of the file bytes and memset of the rest. */
    method CopySegment(image: Elf.Image, ph: Phdr, va: nat)
      requires Valid() && ph.filesz <= ph.memsz && ph.offset + ph.filesz <= |image| && va + ph.memsz <= mem.Length
      modifies mem
      ensures mem[..] == Splice(old(mem[..]), va, Content(image, ph))
    {
      ghost var was, c := mem[..], Content(image, ph);
      for k := 0 to ph.filesz
        invariant mem[..] == Splice(was, va, c[..k])
      {
        ghost var now := mem[..];
        mem[va + k] := image[ph.offset + k];
        CopiedMore(was, image, ph, va, k, now, mem[..]);
      }
      for k := ph.filesz to ph.memsz
        invariant mem[..] == Splice(was, va, c[..k])
      {
        ghost var now := mem[..];
        mem[va + k] := 0;
        CopiedMore(was, image, ph, va, k, now, mem[..]);
      }
      assert c[..ph.memsz] == c;
    }

    /** The segment loop of elf_map_segments. */
    method CopySegments(image: Elf.Image, eh: Ehdr, bias: Word, base: Word, limit: Word) returns (r: Result<Found>)
      requires Valid() && HeaderOk(image, eh)
      modifies mem
      ensures (mem[..], r) == MapFrom(old(mem[..]), image, Headers(image, eh), bias, base, limit, 0, Found(base, 0))
    {
      ghost var phs := Headers(image, eh);
      ghost var goal := MapFrom(mem[..], image, phs, bias, base, limit, 0, Found(base, 0));
      var maxEnd: Word, loads: nat := base, 0;
      for i := 0 to eh.phnum
        invariant goal == MapFrom(mem[..], image, phs, bias, base, limit, i, Found(maxEnd, loads))
      {
        var ph := ProgramHeader(image, eh, i);
        assert ph == phs[i];
        if ph.kind == PT_LOAD {
          if ph.filesz > ph.memsz {
            return Err(FORMAT);
          }
          if ph.offset > |image| || ph.filesz > |image| - ph.offset {
            return Err(RANGE);
          }
          var va := (ph.vaddr + bias) % Records.WORD;
          if !RangeOk(va, ph.memsz, base, limit) {
            return Err(RANGE);
          }
          if ph.align != 0 && !PowerOfTwo(ph.align) {
            return Err(FORMAT);
          }
          CopySegment(image, ph, va);
          var segEnd := va + ph.memsz;
          if segEnd > maxEnd {
            maxEnd := segEnd;
          }
          loads := loads + 1;
        }
      }
      return Ok(Found(maxEnd, loads));
    }

    /** elf_map_segments. */
    method MapSegments(image: Elf.Image, base: Word, limit: Word) returns (r: Result<Loaded>)
      requires Valid()
      modifies mem
      ensures (mem[..], r) == Map(old(mem[..]), image, base, limit)
    {
      var p := Parse(image);
      if p.Err? {
        return Err(p.code);
      }
      var bias := LoadBias(image, p.value, base);
      var f := CopySegments(image, p.value, bias, base, limit);
      if f.Err? {
        return Err(f.code);
      }
      if f.value.loads == 0 {
        return Err(NOLOAD);
      }
      var entry := (p.value.entry + bias) % Records.WORD;
      if entry < base || entry >= limit {
        return Err(RANGE);
      }
      return Ok(Loaded(entry, f.value.end, bias));
    }

    method WordAt(a: nat) returns (w: Word)
      requires Valid() && a + 4 <= mem.Length
      ensures w == U32(mem[..], a)
    {
      return mem[a] as nat + 256 * mem[a + 1] as nat + 65536 * mem[a + 2] as nat + 16777216 * mem[a + 3] as nat;
    }

    method PutWord(a: nat, w: Word)
      requires Valid() && a + 4 <= mem.Length
      modifies mem
      ensures mem[..] == Store32(old(mem[..]), a, w)
    {
      var b := Put32(w);
      mem[a], mem[a + 1], mem[a + 2], mem[a + 3] := b[0], b[1], b[2], b[3];
    }

    method LookUp(c: Ctx, r: Rel) returns (v: Result<Word>)
      requires Valid()
      ensures v == SymbolValue(mem[..], c, r)
    {
      if c.symtab == 0 || c.syment < 16 || r.info / 256 > 0xF_FFFF {
        return Err(RELOC);
      }
      var at := SymbolAt(c, r);
      if !RangeOk(at, 16, c.base, c.limit) {
        return Err(RELOC);
      }
      var value := WordAt(at + 4);
      var shndx := mem[at + 14] as nat + 256 * mem[at + 15] as nat;
      if shndx == 0 {
        return Err(RELOC);
      }
      return Ok(if shndx == SHN_ABS then value else Address(value, c.bias));
    }

    /** One entry of elf_apply_rel_array. */
    method ApplyOne(c: Ctx, r: Rel) returns (code: int)
      requires Valid() && Sandbox(c.base, c.limit)
      modifies mem
      ensures (mem[..], code) == RelStep(old(mem[..]), c, r)
    {
      var at := Address(r.offset, c.bias);
      if at < c.base || at > c.limit - 4 {
        return RANGE;
      }
      if Kind(r) == R_NONE {
        return 0;
      }
      var u := WordAt(at);
      if Kind(r) == R_RELATIVE {
        PutWord(at, Address(u, c.bias));
        return 0;
      }
      if !UsesSymbol(r) {
        return RELOC;
      }
      var v := LookUp(c, r);
      if v.Err? {
        return v.code;
      }
      PutWord(at, if Kind(r) == R_32 then Address(u, v.value) else v.value);
      return 0;
    }

    /** elf_apply_rel_array. */
    method ApplyRelArray(c: Ctx, at: Word, size: Word) returns (code: int)
      requires Valid() && Sandbox(c.base, c.limit)
      modifies mem
      ensures (mem[..], code) == RelArray(old(mem[..]), c, at, size)
    {
      if size == 0 {
        return 0;
      }
      if size > REL_MAX || size % 8 != 0 {
        return RELOC;
      }
      if !RangeOk(at, size, c.base, c.limit) {
        return RANGE;
      }
      var n := size / 8;
      ghost var goal := RelFrom(mem[..], c, at, 0, n);
      for i := 0 to n
        invariant goal == RelFrom(mem[..], c, at, i, n)
      {
        var offset := WordAt(at + 8 * i);
        var info := WordAt(at + 8 * i + 4);
        code := ApplyOne(c, Rel(offset, info));
        if code != 0 {
          return code;
        }
      }
      return 0;
    }

    /** The scan of the dynamic table. */
    method ScanDynamic(at: Word, base: Word, limit: Word) returns (r: Result<Dyn>)
      requires Valid()
      ensures r == DynFrom(mem[..], at, base, limit, 0, Dyn(0, 0, 0, 0, DT_REL, 0, 0))
    {
      var d := Dyn(0, 0, 0, 0, DT_REL, 0, 0);
      ghost var goal := DynFrom(mem[..], at, base, limit, 0, d);
      for i := 0 to 256
        invariant goal == DynFrom(mem[..], at, base, limit, i, d)
      {
        if at + 8 * i >= Records.WORD || !RangeOk(at + 8 * i, 8, base, limit) {
          return Err(RELOC);
        }
        var tag := WordAt(at + 8 * i);
        if tag == 0 {
          return Ok(d);
        }
        var val := WordAt(at + 8 * i + 4);
        d := Tagged(d, tag, val);
      }
      return Ok(d);
    }

    /** elf_apply_dynamic. */
    method ApplyDynamic(at: Word, bias: Word, base: Word, limit: Word) returns (code: int)
      requires Valid() && Sandbox(base, limit)
      modifies mem
      ensures (mem[..], code) == Dynamic(old(mem[..]), at, bias, base, limit)
    {
      var r := ScanDynamic(at, base, limit);
      if r.Err? {
        return r.code;
      }
      code := ApplyTables(r.value, bias, base, limit);
    }

    method ApplyTables(d: Dyn, bias: Word, base: Word, limit: Word) returns (code: int)
      requires Valid() && Sandbox(base, limit)
      modifies mem
      ensures (mem[..], code) == Tables(old(mem[..]), d, bias, base, limit)
    {
      var c := Ctx(if d.symtab == 0 then 0 else Address(d.symtab, bias), d.syment, bias, base, limit);
      code := 0;
      if d.rel != 0 && d.relsz != 0 {
        code := ApplyRelArray(c, Address(d.rel, bias), d.relsz);
        if code != 0 {
          return;
        }
      }
      if d.jmprel != 0 && d.pltrelsz != 0 {
        if d.pltrel != DT_REL {
          return RELOC;
        }
        code := ApplyRelArray(c, Address(d.jmprel, bias), d.pltrelsz);
      }
    }

    /** The last PT_DYNAMIC header that counts. */
    method FindDynamic(image: Elf.Image, eh: Ehdr, bias: Word) returns (va: Word)
      requires HeaderOk(image, eh)
      ensures va == DynamicVa(Headers(image, eh), bias, eh.phnum)
    {
      va := 0;
      for i := 0 to eh.phnum
        invariant va == DynamicVa(Headers(image, eh), bias, i)
      {
        var ph := ProgramHeader(image, eh, i);
        assert ph == Headers(image, eh)[i];
        if ph.kind == PT_DYNAMIC && ph.memsz >= 8 {
          va := Address(ph.vaddr, bias);
        }
      }
    }

    /** elf32_load_ex. */
    method LoadEx(image: Elf.Image, base: Word, limit: Word) returns (r: Result<Loaded>)
      requires Valid() && Sandbox(base, limit)
      modifies mem
      ensures (mem[..], r) == Load(old(mem[..]), image, base, limit)
    {
      r := MapSegments(image, base, limit);
      if r.Err? {
        return;
      }
      var va := FindDynamic(image, Parse(image).value, r.value.bias);
      if va != 0 {
        var code := ApplyDynamic(va, r.value.bias, base, limit);
        if code != 0 {
          return Err(code);
        }
      }
    }
  }
}
