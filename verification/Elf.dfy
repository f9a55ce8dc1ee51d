/**
 ELF32 images (`src/elf.c`): parsing, validation and mapping into a sandbox.
 */
module Elf {
  import opened Sectors
  import opened Records

  const HEADER: int := -1
  const FORMAT: int := -2
  const RANGE: int := -3
  const NOLOAD: int := -4
  const RELOC: int := -5

  const EHDR: nat := 52
  const PHDR: nat := 32
  const PT_LOAD: nat := 1
  const PT_DYNAMIC: nat := 2
  const ET_EXEC: nat := 2
  const ET_DYN: nat := 3

  /** A result or an error code. */
  datatype Result<+T> = Ok(value: T) | Err(code: int)

  /** Addresses are 32-bit, and so is the size of an image. */
  type Image = s: seq<Byte> | |s| < Records.WORD

  datatype Ehdr = Ehdr(kind: nat, entry: Word, phoff: Word, phentsize: nat, phnum: nat)
  datatype Phdr = Phdr(kind: Word, offset: Word, vaddr: Word, filesz: Word, memsz: Word, align: Word)

  function U32(s: seq<Byte>, at: nat): (w: Word)
    requires at + 4 <= |s|
  {
    s[at] as nat + 256 * s[at + 1] as nat + 65536 * s[at + 2] as nat + 16777216 * s[at + 3] as nat
  }

  function U16(s: seq<Byte>, at: nat): (h: Half)
    requires at + 2 <= |s|
  {
    s[at] as nat + 256 * s[at + 1] as nat
  }

  /** `v && !(v & (v - 1))`. */
  predicate PowerOfTwo(v: nat) { v > 0 && (v == 1 || (v % 2 == 0 && PowerOfTwo(v / 2))) }

  /** range_ok: `len` bytes at `va` lie in [base, limit). */
  predicate RangeOk(va: Word, len: Word, base: Word, limit: Word) { base <= va <= limit && len <= limit - va }

  predicate Sandbox(base: Word, limit: Word) { base <= limit && 4 <= limit }

  // ---------------------------------------------------------------- headers

  /** elf_parse. */
  function Parse(image: Image): (r: Result<Ehdr>)
    ensures r.Ok? ==> HeaderOk(image, r.value)
  {
    if |image| < EHDR then Err(HEADER)
    else if image[0] != 0x7F || image[1] != 'E' as Byte || image[2] != 'L' as Byte || image[3] != 'F' as Byte then Err(HEADER)
    else if image[4] != 1 || image[5] != 1 || image[6] != 1 then Err(FORMAT)
    else
      var eh := Ehdr(U16(image, 16), U32(image, 24), U32(image, 28), U16(image, 42), U16(image, 44));
      if (eh.kind != ET_EXEC && eh.kind != ET_DYN) || U16(image, 18) != 3 || U16(image, 40) < EHDR then Err(FORMAT)
      else if eh.phentsize < PHDR || eh.phnum == 0 || eh.phnum > 128 then Err(FORMAT)
      else if eh.phoff > |image| || eh.phnum * eh.phentsize > |image| - eh.phoff then Err(FORMAT)
      else Ok(eh)
  }

  predicate HeaderOk(image: Image, eh: Ehdr) {
    && PHDR <= eh.phentsize && 0 < eh.phnum <= 128 && eh.phoff + eh.phnum * eh.phentsize <= |image|
  }

  lemma PhdrInside(image: Image, eh: Ehdr, i: nat)
    requires HeaderOk(image, eh) && i < eh.phnum
    ensures eh.phoff + i * eh.phentsize + PHDR <= |image|
  {
    assert (i + 1) * eh.phentsize <= eh.phnum * eh.phentsize;
    assert (i + 1) * eh.phentsize == i * eh.phentsize + eh.phentsize;
  }

  /** elf_phdr and the copy of it. */
  function ProgramHeader(image: Image, eh: Ehdr, i: nat): (ph: Phdr)
    requires HeaderOk(image, eh) && i < eh.phnum
  {
    PhdrInside(image, eh, i);
    var at := eh.phoff + i * eh.phentsize;
    Phdr(U32(image, at), U32(image, at + 4), U32(image, at + 8), U32(image, at + 16), U32(image, at + 20), U32(image, at + 28))
  }

  /** All program headers, in order. */
  function Headers(image: Image, eh: Ehdr): (phs: seq<Phdr>)
    requires HeaderOk(image, eh)
    ensures |phs| == eh.phnum
  {
    seq(eh.phnum, i requires 0 <= i < eh.phnum => ProgramHeader(image, eh, i))
  }

  // ---------------------------------------------------------------- the bias

  /** The lowest address of a loaded segment among the first `n` headers. */
  function MinVa(phs: seq<Phdr>, n: nat): (v: Word)
    requires n <= |phs|
    ensures forall k | 0 <= k < n && phs[k].kind == PT_LOAD :: v <= phs[k].vaddr
  {
    if n == 0 then 0xFFFF_FFFF
    else
      var v := MinVa(phs, n - 1);
      if phs[n - 1].kind == PT_LOAD && phs[n - 1].vaddr < v then phs[n - 1].vaddr else v
  }

  /** elf_load_bias. */
  function Bias(eh: Ehdr, phs: seq<Phdr>, base: Word): (b: Word) {
    var min := MinVa(phs, |phs|);
    if eh.kind != ET_DYN || min == 0xFFFF_FFFF || min > base then 0 else base - min
  }

  // ---------------------------------------------------------------- segments

  function Address(x: Word, bias: Word): (a: Word) { (x + bias) % Records.WORD }

  /** The checks elf_map_segments makes on one PT_LOAD header, in order. */
  function CheckSegment(size: nat, ph: Phdr, bias: Word, base: Word, limit: Word): (code: int) {
    if ph.filesz > ph.memsz then FORMAT
    else if ph.offset > size || ph.filesz > size - ph.offset then RANGE
    else if !RangeOk(Address(ph.vaddr, bias), ph.memsz, base, limit) then RANGE
    else if ph.align != 0 && !PowerOfTwo(ph.align) then FORMAT
    else 0
  }

  /** What the segment loop has found: the highest end and the number of segments. */
  datatype Found = Found(end: Word, loads: nat)

  function Max(a: Word, b: Word): (m: Word) { if a > b then a else b }

  /** Entry, end and bias of a good image. */
  datatype Loaded = Loaded(entry: Word, end: Word, bias: Word)

  /** The end of elf_map_segments. */
  function Finish(eh: Ehdr, bias: Word, base: Word, limit: Word, r: Result<Found>): (l: Result<Loaded>) {
    if r.Err? then Err(r.code)
    else if r.value.loads == 0 then Err(NOLOAD)
    else
      var entry := Address(eh.entry, bias);
      if entry < base || entry >= limit then Err(RANGE) else Ok(Loaded(entry, r.value.end, bias))
  }

  // ---------------------------------------------------------------- what a good image is

  /** The file part of a segment exists and is no longer than the segment. */
  predicate FileFits(size: nat, ph: Phdr) { ph.filesz <= ph.memsz && ph.offset + ph.filesz <= size }

  /** The segment lies in the sandbox, in unwrapped addresses from its biased start. */
  predicate Placed(ph: Phdr, bias: Word, base: Word, limit: Word) {
    base <= Address(ph.vaddr, bias) && Address(ph.vaddr, bias) + ph.memsz <= limit
  }

  predicate GoodAlign(ph: Phdr) { ph.align == 0 || PowerOfTwo(ph.align) }

  predicate GoodSegment(size: nat, ph: Phdr, bias: Word, base: Word, limit: Word) {
    ph.kind == PT_LOAD ==> FileFits(size, ph) && Placed(ph, bias, base, limit) && GoodAlign(ph)
  }

  /** What is wrong with a segment: a file part too long, then a place, then an alignment. */
  function Fault(size: nat, ph: Phdr, bias: Word, base: Word, limit: Word): (code: int)
    requires !GoodSegment(size, ph, bias, base, limit)
  {
    if ph.filesz <= ph.memsz && !(FileFits(size, ph) && Placed(ph, bias, base, limit)) then RANGE else FORMAT
  }

  /** The first bad header, if any. */
  function FirstBad(size: nat, phs: seq<Phdr>, bias: Word, base: Word, limit: Word, i: nat): (k: nat)
    requires i <= |phs|
    ensures i <= k <= |phs| && (forall j | i <= j < k :: GoodSegment(size, phs[j], bias, base, limit))
    ensures k < |phs| ==> !GoodSegment(size, phs[k], bias, base, limit)
    decreases |phs| - i
  {
    if i == |phs| || !GoodSegment(size, phs[i], bias, base, limit) then i else FirstBad(size, phs, bias, base, limit, i + 1)
  }

  /** The end of the image: the highest segment end among the first `n` headers, at least `base`. */
  function ImageEnd(phs: seq<Phdr>, bias: Word, base: Word, n: nat): (e: nat)
    requires n <= |phs|
    ensures e >= base && forall k | 0 <= k < n && phs[k].kind == PT_LOAD :: Address(phs[k].vaddr, bias) + phs[k].memsz <= e
    ensures e == base || exists k | 0 <= k < n && phs[k].kind == PT_LOAD :: e == Address(phs[k].vaddr, bias) + phs[k].memsz
  {
    if n == 0 then base
    else
      var e := ImageEnd(phs, bias, base, n - 1);
      if phs[n - 1].kind == PT_LOAD && Address(phs[n - 1].vaddr, bias) + phs[n - 1].memsz > e
      then Address(phs[n - 1].vaddr, bias) + phs[n - 1].memsz else e
  }

  predicate HasLoad(phs: seq<Phdr>, n: nat)
    requires n <= |phs|
  {
    exists k | 0 <= k < n :: phs[k].kind == PT_LOAD
  }

  /** The verdict on a parsed image: the first fault, or where it starts and ends. */
  function Verdict(size: nat, eh: Ehdr, phs: seq<Phdr>, bias: Word, base: Word, limit: Word): (r: Result<Loaded>) {
    var k := FirstBad(size, phs, bias, base, limit, 0);
    var entry := Address(eh.entry, bias);
    if k < |phs| then Err(Fault(size, phs[k], bias, base, limit))
    else if !HasLoad(phs, |phs|) then Err(NOLOAD)
    else if !(base <= entry < limit) then Err(RANGE)
    else
      EndInside(size, phs, bias, base, limit, |phs|);
      Ok(Loaded(entry, ImageEnd(phs, bias, base, |phs|), bias))
  }

  lemma EndInside(size: nat, phs: seq<Phdr>, bias: Word, base: Word, limit: Word, n: nat)
    requires n <= |phs| && forall k | 0 <= k < n :: GoodSegment(size, phs[k], bias, base, limit)
    ensures ImageEnd(phs, bias, base, n) < Records.WORD
  {
  }

  /** elf32_validate. */
  function Validate(image: Image, base: Word, limit: Word): (r: Result<Loaded>) {
    var p := Parse(image);
    if p.Err? then Err(p.code)
    else
      var phs := Headers(image, p.value);
      Verdict(|image|, p.value, phs, Bias(p.value, phs, base), base, limit)
  }

  // ---------------------------------------------------------------- mapping

  /** The bytes of a segment: those of the file, then zeroes. */
  function Content(image: Image, ph: Phdr): (c: seq<Byte>)
    requires ph.filesz <= ph.memsz && ph.offset + ph.filesz <= |image|
    ensures |c| == ph.memsz
  {
    seq(ph.memsz, k requires 0 <= k < ph.memsz => if k < ph.filesz then image[ph.offset + k] else 0)
  }

  predicate Memory(mem: seq<Byte>) { |mem| == Records.WORD }

  /** The segment loop of elf_map_segments: memory and result; what was copied before an error stays. */
  function MapFrom(mem: seq<Byte>, image: Image, phs: seq<Phdr>, bias: Word, base: Word, limit: Word, i: nat, f: Found):
    (r: (seq<Byte>, Result<Found>))
    requires Memory(mem) && i <= |phs|
    ensures Memory(r.0)
    decreases |phs| - i
  {
    if i == |phs| then (mem, Ok(f))
    else if phs[i].kind != PT_LOAD then MapFrom(mem, image, phs, bias, base, limit, i + 1, f)
    else
      var code := CheckSegment(|image|, phs[i], bias, base, limit);
      if code != 0 then (mem, Err(code))
      else
        var va := Address(phs[i].vaddr, bias);
        MapFrom(Splice(mem, va, Content(image, phs[i])), image, phs, bias, base, limit, i + 1,
                Found(Max(va + phs[i].memsz, f.end), f.loads + 1))
  }

  /** elf_map_segments. */
  function Map(mem: seq<Byte>, image: Image, base: Word, limit: Word): (r: (seq<Byte>, Result<Loaded>))
    requires Memory(mem)
    ensures Memory(r.0)
  {
    var p := Parse(image);
    if p.Err? then (mem, Err(p.code))
    else
      var phs := Headers(image, p.value);
      var bias := Bias(p.value, phs, base);
      var m := MapFrom(mem, image, phs, bias, base, limit, 0, Found(base, 0));
      (m.0, Finish(p.value, bias, base, limit, m.1))
  }

  /** What the mapping loop has found before header `i`: no bad header, the end and the loads so far. */
  predicate SoFar(size: nat, phs: seq<Phdr>, bias: Word, base: Word, limit: Word, i: nat, f: Found) {
    && i <= |phs| && (forall j | 0 <= j < i :: GoodSegment(size, phs[j], bias, base, limit))
    && f.end == ImageEnd(phs, bias, base, i) && (f.loads > 0 <==> HasLoad(phs, i))
  }

  /** The checks of the loop, one by one with wrapping arithmetic, find exactly the faults. */
  lemma CheckIs(size: nat, ph: Phdr, bias: Word, base: Word, limit: Word)
    requires ph.kind == PT_LOAD
    ensures CheckSegment(size, ph, bias, base, limit) ==
            if GoodSegment(size, ph, bias, base, limit) then 0 else Fault(size, ph, bias, base, limit)
  {
  }

  lemma SoFarMore(size: nat, phs: seq<Phdr>, bias: Word, base: Word, limit: Word, i: nat, f: Found, g: Found)
    requires SoFar(size, phs, bias, base, limit, i, f) && i < |phs| && GoodSegment(size, phs[i], bias, base, limit)
    requires g == if phs[i].kind == PT_LOAD then Found(Max(Address(phs[i].vaddr, bias) + phs[i].memsz, f.end), f.loads + 1) else f
    ensures SoFar(size, phs, bias, base, limit, i + 1, g)
  {
    if HasLoad(phs, i + 1) && phs[i].kind != PT_LOAD {
      var k :| 0 <= k < i + 1 && phs[k].kind == PT_LOAD;
      assert k < i;
    }
  }

  lemma FirstBadAt(size: nat, phs: seq<Phdr>, bias: Word, base: Word, limit: Word, i: nat)
    requires i <= |phs| && forall j | 0 <= j < i :: GoodSegment(size, phs[j], bias, base, limit)
    ensures i < |phs| && !GoodSegment(size, phs[i], bias, base, limit) ==> FirstBad(size, phs, bias, base, limit, 0) == i
    ensures i == |phs| ==> FirstBad(size, phs, bias, base, limit, 0) == i
  {
  }

  lemma GoodVerdict(size: nat, eh: Ehdr, phs: seq<Phdr>, bias: Word, base: Word, limit: Word, f: Found)
    requires SoFar(size, phs, bias, base, limit, |phs|, f)
    ensures Finish(eh, bias, base, limit, Ok(f)) == Verdict(size, eh, phs, bias, base, limit)
  {
    FirstBadAt(size, phs, bias, base, limit, |phs|);
  }

  lemma BadVerdict(size: nat, eh: Ehdr, phs: seq<Phdr>, bias: Word, base: Word, limit: Word, i: nat)
    requires i < |phs| && (forall j | 0 <= j < i :: GoodSegment(size, phs[j], bias, base, limit))
    requires !GoodSegment(size, phs[i], bias, base, limit)
    ensures Verdict(size, eh, phs, bias, base, limit) == Err(Fault(size, phs[i], bias, base, limit))
  {
    FirstBadAt(size, phs, bias, base, limit, i);
  }

  lemma {:induction false} MapFromAgrees(mem: seq<Byte>, image: Image, eh: Ehdr, phs: seq<Phdr>, bias: Word, base: Word, limit: Word,
                                         i: nat, f: Found)
    requires Memory(mem) && SoFar(|image|, phs, bias, base, limit, i, f)
    ensures Finish(eh, bias, base, limit, MapFrom(mem, image, phs, bias, base, limit, i, f).1) ==
            Verdict(|image|, eh, phs, bias, base, limit)
    decreases |phs| - i
  {
    if i == |phs| {
      GoodVerdict(|image|, eh, phs, bias, base, limit, f);
    } else {
      if phs[i].kind != PT_LOAD {
        SoFarMore(|image|, phs, bias, base, limit, i, f, f);
        MapFromAgrees(mem, image, eh, phs, bias, base, limit, i + 1, f);
      } else {
        CheckIs(|image|, phs[i], bias, base, limit);
        if CheckSegment(|image|, phs[i], bias, base, limit) == 0 {
          var va := Address(phs[i].vaddr, bias);
          var g := Found(Max(va + phs[i].memsz, f.end), f.loads + 1);
          SoFarMore(|image|, phs, bias, base, limit, i, f, g);
          MapFromAgrees(Splice(mem, va, Content(image, phs[i])), image, eh, phs, bias, base, limit, i + 1, g);
        } else {
          BadVerdict(|image|, eh, phs, bias, base, limit, i);
        }
      }
    }
  }

  /**
   For every byte string, whatever memory holds, mapping gives the verdict: the code of the first fault,
   or the entry and the highest segment end of an image all of whose segments are good.
   */
  lemma MapAgrees(mem: seq<Byte>, image: Image, base: Word, limit: Word)
    requires Memory(mem)
    ensures Map(mem, image, base, limit).1 == Validate(image, base, limit)
  {
    var p := Parse(image);
    if p.Ok? {
      var phs := Headers(image, p.value);
      MapFromAgrees(mem, image, p.value, phs, Bias(p.value, phs, base), base, limit, 0, Found(base, 0));
    }
  }

  /** Memory outside [base, limit) is as it was. */
  predicate Inside(mem: seq<Byte>, next: seq<Byte>, base: Word, limit: Word) {
    |next| == |mem| && forall x | 0 <= x < |mem| && !(base <= x < limit) :: next[x] == mem[x]
  }

  lemma {:induction false} MapFromInside(mem: seq<Byte>, image: Image, phs: seq<Phdr>, bias: Word, base: Word, limit: Word, i: nat, f: Found)
    requires Memory(mem) && i <= |phs|
    ensures Inside(mem, MapFrom(mem, image, phs, bias, base, limit, i, f).0, base, limit)
    decreases |phs| - i
  {
    if i < |phs| {
      if phs[i].kind != PT_LOAD {
        MapFromInside(mem, image, phs, bias, base, limit, i + 1, f);
      } else if CheckSegment(|image|, phs[i], bias, base, limit) == 0 {
        var va := Address(phs[i].vaddr, bias);
        MapFromInside(Splice(mem, va, Content(image, phs[i])), image, phs, bias, base, limit, i + 1,
                      Found(Max(va + phs[i].memsz, f.end), f.loads + 1));
      }
    }
  }

  /** Nothing outside the sandbox is written, even when loading fails half way. */
  lemma MapInside(mem: seq<Byte>, image: Image, base: Word, limit: Word)
    requires Memory(mem)
    ensures Inside(mem, Map(mem, image, base, limit).0, base, limit)
  {
    var p := Parse(image);
    if p.Ok? {
      var phs := Headers(image, p.value);
      MapFromInside(mem, image, phs, Bias(p.value, phs, base), base, limit, 0, Found(base, 0));
    }
  }

  /** The bytes of segment `k` that no later segment covers. */
  predicate Own(phs: seq<Phdr>, bias: Word, k: nat, x: nat)
    requires k < |phs|
  {
    forall j | k < j < |phs| && phs[j].kind == PT_LOAD :: !(Address(phs[j].vaddr, bias) <= x < Address(phs[j].vaddr, bias) + phs[j].memsz)
  }

  /** Bytes not covered from header `i` on are kept. */
  lemma {:induction false} MapFromKeeps(mem: seq<Byte>, image: Image, phs: seq<Phdr>, bias: Word, base: Word, limit: Word, i: nat, f: Found, x: nat)
    requires Memory(mem) && i <= |phs| && x < |mem|
    requires forall j | i <= j < |phs| && phs[j].kind == PT_LOAD :: !(Address(phs[j].vaddr, bias) <= x < Address(phs[j].vaddr, bias) + phs[j].memsz)
    ensures MapFrom(mem, image, phs, bias, base, limit, i, f).0[x] == mem[x]
    decreases |phs| - i
  {
    if i < |phs| {
      if phs[i].kind != PT_LOAD {
        MapFromKeeps(mem, image, phs, bias, base, limit, i + 1, f, x);
      } else if CheckSegment(|image|, phs[i], bias, base, limit) == 0 {
        var va := Address(phs[i].vaddr, bias);
        MapFromKeeps(Splice(mem, va, Content(image, phs[i])), image, phs, bias, base, limit, i + 1,
                     Found(Max(va + phs[i].memsz, f.end), f.loads + 1), x);
      }
    }
  }

  /** After a successful mapping every segment is in memory: file bytes, then zeroes. */
  lemma {:induction false} MapFromPlaces(mem: seq<Byte>, image: Image, phs: seq<Phdr>, bias: Word, base: Word, limit: Word, i: nat, f: Found, k: nat, x: nat)
    requires Memory(mem) && i <= k < |phs| && phs[k].kind == PT_LOAD
    requires MapFrom(mem, image, phs, bias, base, limit, i, f).1.Ok?
    requires Address(phs[k].vaddr, bias) <= x < Address(phs[k].vaddr, bias) + phs[k].memsz && Own(phs, bias, k, x)
    ensures CheckSegment(|image|, phs[k], bias, base, limit) == 0
    ensures MapFrom(mem, image, phs, bias, base, limit, i, f).0[x] == Content(image, phs[k])[x - Address(phs[k].vaddr, bias)]
    decreases |phs| - i
  {
    if phs[i].kind != PT_LOAD {
      MapFromPlaces(mem, image, phs, bias, base, limit, i + 1, f, k, x);
    } else {
      var va := Address(phs[i].vaddr, bias);
      var next := Splice(mem, va, Content(image, phs[i]));
      var g := Found(Max(va + phs[i].memsz, f.end), f.loads + 1);
      if i == k {
        MapFromKeeps(next, image, phs, bias, base, limit, i + 1, g, x);
      } else {
        MapFromPlaces(next, image, phs, bias, base, limit, i + 1, g, k, x);
      }
    }
  }

  /** Every byte of a loaded segment that no later segment covers is the file's, or zero past its end. */
  lemma MapPlaces(mem: seq<Byte>, image: Image, base: Word, limit: Word, eh: Ehdr, phs: seq<Phdr>, bias: Word, k: nat, x: nat)
    requires Memory(mem) && Map(mem, image, base, limit).1.Ok? && Parse(image) == Ok(eh)
    requires phs == Headers(image, eh) && bias == Bias(eh, phs, base)
    requires k < |phs| && phs[k].kind == PT_LOAD && Own(phs, bias, k, x)
    requires Address(phs[k].vaddr, bias) <= x < Address(phs[k].vaddr, bias) + phs[k].memsz
    ensures CheckSegment(|image|, phs[k], bias, base, limit) == 0 && x < Records.WORD
    ensures Map(mem, image, base, limit).0[x] == Content(image, phs[k])[x - Address(phs[k].vaddr, bias)]
  {
    MapFromPlaces(mem, image, phs, bias, base, limit, 0, Found(base, 0), k, x);
  }
}
