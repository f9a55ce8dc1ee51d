/**
 Images written from their headers, field by field in the order of the ELF32 structures: the parser of
 `src/elf.c` reads back what was written, and the lowest segment lands at the base.
 */
module ElfImage {
  import opened Sectors
  import opened Records
  import opened Elf

  // ---------------------------------------------------------------- words in bytes

  /** Little-endian 32-bit words, one after the other. */
  function Dwords(ws: seq<Word>): (b: seq<Byte>)
    ensures |b| == 4 * |ws|
  {
    seq(4 * |ws|, j requires 0 <= j < 4 * |ws| => Put32(ws[j / 4])[j % 4])
  }

  /** Word `k` of an image that starts with these words, as a whole and in halves. */
  lemma WordAt(image: seq<Byte>, ws: seq<Word>, k: nat)
    requires 4 * |ws| <= |image| && (forall j | 0 <= j < 4 * |ws| :: image[j] == Dwords(ws)[j]) && k < |ws|
    ensures U32(image, 4 * k) == ws[k] && U16(image, 4 * k) == ws[k] % 0x1_0000 && U16(image, 4 * k + 2) == ws[k] / 0x1_0000
  {
    var w := ws[k];
    FourBytes(image, ws, k);
    Halves(w);
    assert w == 0x1_0000 * (w / 0x1_0000) + w % 0x1_0000;
  }

  lemma ByteAt(ws: seq<Word>, k: nat, q: nat)
    requires k < |ws| && q < 4
    ensures Dwords(ws)[4 * k + q] == Put32(ws[k])[q]
  {
    assert (4 * k + q) / 4 == k && (4 * k + q) % 4 == q;
  }

  lemma Halves(w: Word)
    ensures Put32(w)[0] as nat + 256 * Put32(w)[1] as nat == w % 0x1_0000
    ensures Put32(w)[2] as nat + 256 * Put32(w)[3] as nat == w / 0x1_0000
  {
    var b, c, d := w / 256, w / 65536, w / 16777216;
    assert b == 256 * c + b % 256 && c == 256 * d + c % 256;
    Split(w, c, w % 256 + 256 * (b % 256));
  }

  lemma Split(w: nat, q: nat, r: nat)
    requires w == 0x1_0000 * q + r && r < 0x1_0000
    ensures w / 0x1_0000 == q && w % 0x1_0000 == r
  {
  }

  /** Two 16-bit fields, the first one in the low half. */
  function Pair(low: Half, high: Half): (w: Word)
    ensures w % 0x1_0000 == low && w / 0x1_0000 == high
  {
    low + 0x1_0000 * high
  }

  // ---------------------------------------------------------------- the headers

  /** e_ident, e_type and e_machine, e_version, e_entry, e_phoff, e_shoff, e_flags, and the six 16-bit counts. */
  function EhdrWords(kind: Half, entry: Word, phnum: Half): (ws: seq<Word>)
    ensures |ws| == 13
  {
    [0x464C_457F, 0x0001_0101, 0, 0, Pair(kind, 3), 1, entry, EHDR, 0, 0, Pair(EHDR, PHDR), Pair(phnum, 40), 0]
  }

  /** p_type, p_offset, p_vaddr, p_paddr, p_filesz, p_memsz, p_flags, p_align. */
  function PhdrWords(ph: Phdr): (ws: seq<Word>)
    ensures |ws| == 8
  {
    [ph.kind, ph.offset, ph.vaddr, 0, ph.filesz, ph.memsz, 7, ph.align]
  }

  function TableWords(phs: seq<Phdr>): (ws: seq<Word>)
    ensures |ws| == 8 * |phs|
  {
    seq(8 * |phs|, j requires 0 <= j < 8 * |phs| => PhdrWords(phs[j / 8])[j % 8])
  }

  /** The image starts with an ELF header and, right behind it, these program headers. */
  predicate StartsWith(image: Elf.Image, kind: Half, entry: Word, phs: seq<Phdr>) {
    && 0 < |phs| <= 128 && 52 + 32 * |phs| <= |image|
    && forall j | 0 <= j < 52 + 32 * |phs| :: image[j] == Dwords(EhdrWords(kind, entry, |phs|) + TableWords(phs))[j]
  }

  lemma HeaderWord(image: Elf.Image, kind: Half, entry: Word, phs: seq<Phdr>, k: nat)
    requires StartsWith(image, kind, entry, phs) && k < 13
    ensures var w := EhdrWords(kind, entry, |phs|)[k];
            U32(image, 4 * k) == w && U16(image, 4 * k) == w % 0x1_0000 && U16(image, 4 * k + 2) == w / 0x1_0000
  {
    WordAt(image, EhdrWords(kind, entry, |phs|) + TableWords(phs), k);
  }

  lemma TableAt(phs: seq<Phdr>, i: nat, q: nat)
    requires i < |phs| && q < 8
    ensures TableWords(phs)[8 * i + q] == PhdrWords(phs[i])[q]
  {
    assert (8 * i + q) / 8 == i && (8 * i + q) % 8 == q;
  }

  lemma TableWord(image: Elf.Image, kind: Half, entry: Word, phs: seq<Phdr>, i: nat, q: nat, at: nat)
    requires StartsWith(image, kind, entry, phs) && i < |phs| && q < 8 && at == 52 + 32 * i + 4 * q
    ensures at + 4 <= |image| && U32(image, at) == PhdrWords(phs[i])[q]
  {
    var ws, k := EhdrWords(kind, entry, |phs|) + TableWords(phs), 8 * i + q;
    TableAt(phs, i, q);
    assert k < 8 * |phs|;
    assert ws[13 + k] == TableWords(phs)[k];
    ReadAt(image, ws, 13 + k, at, PhdrWords(phs[i])[q]);
  }

  lemma ReadAt(image: seq<Byte>, ws: seq<Word>, k: nat, at: nat, w: Word)
    requires 4 * |ws| <= |image| && (forall j | 0 <= j < 4 * |ws| :: image[j] == Dwords(ws)[j]) && k < |ws| && at == 4 * k && ws[k] == w
    ensures at + 4 <= |image| && U32(image, at) == w
  {
    WordAt(image, ws, k);
  }

  lemma MagicRead(image: Elf.Image, kind: Half, entry: Word, phs: seq<Phdr>)
    requires StartsWith(image, kind, entry, phs)
    ensures image[0] == 0x7F && image[1] == 'E' as Byte && image[2] == 'L' as Byte && image[3] == 'F' as Byte
    ensures image[4] == 1 && image[5] == 1 && image[6] == 1
  {
    FirstBytes(image, EhdrWords(kind, entry, |phs|) + TableWords(phs));
  }

  lemma FirstBytes(image: seq<Byte>, ws: seq<Word>)
    requires |ws| > 1 && ws[0] == 0x464C_457F && ws[1] == 0x0001_0101
    requires 4 * |ws| <= |image| && forall j | 0 <= j < 4 * |ws| :: image[j] == Dwords(ws)[j]
    ensures image[0] == 0x7F && image[1] == 'E' as Byte && image[2] == 'L' as Byte && image[3] == 'F' as Byte
    ensures image[4] == 1 && image[5] == 1 && image[6] == 1
  {
    assert Put32(0x464C_457F) == [0x7F, 0x45, 0x4C, 0x46] && Put32(0x0001_0101) == [1, 1, 1, 0];
    FourBytes(image, ws, 0);
    FourBytes(image, ws, 1);
  }

  lemma FourBytes(image: seq<Byte>, ws: seq<Word>, k: nat)
    requires 4 * |ws| <= |image| && (forall j | 0 <= j < 4 * |ws| :: image[j] == Dwords(ws)[j]) && k < |ws|
    ensures image[4 * k] == Put32(ws[k])[0] && image[4 * k + 1] == Put32(ws[k])[1]
    ensures image[4 * k + 2] == Put32(ws[k])[2] && image[4 * k + 3] == Put32(ws[k])[3]
  {
    ByteAt(ws, k, 0);
    ByteAt(ws, k, 1);
    ByteAt(ws, k, 2);
    ByteAt(ws, k, 3);
  }

  /** elf_parse reads the header that was written. */
  lemma ParseReads(image: Elf.Image, kind: Half, entry: Word, phs: seq<Phdr>)
    requires StartsWith(image, kind, entry, phs) && (kind == ET_EXEC || kind == ET_DYN)
    ensures Parse(image) == Ok(Ehdr(kind, entry, EHDR, PHDR, |phs|))
  {
    MagicRead(image, kind, entry, phs);
    HeaderWord(image, kind, entry, phs, 4);
    HeaderWord(image, kind, entry, phs, 6);
    HeaderWord(image, kind, entry, phs, 7);
    HeaderWord(image, kind, entry, phs, 10);
    HeaderWord(image, kind, entry, phs, 11);
  }

  lemma PhdrReads(image: Elf.Image, kind: Half, entry: Word, phs: seq<Phdr>, i: nat, at: nat)
    requires StartsWith(image, kind, entry, phs) && i < |phs| && at == 52 + 32 * i
    ensures at + 32 <= |image|
    ensures Phdr(U32(image, at), U32(image, at + 4), U32(image, at + 8), U32(image, at + 16), U32(image, at + 20), U32(image, at + 28)) == phs[i]
  {
    TableWord(image, kind, entry, phs, i, 0, at);
    TableWord(image, kind, entry, phs, i, 1, at + 4);
    TableWord(image, kind, entry, phs, i, 2, at + 8);
    TableWord(image, kind, entry, phs, i, 4, at + 16);
    TableWord(image, kind, entry, phs, i, 5, at + 20);
    TableWord(image, kind, entry, phs, i, 7, at + 28);
  }

  lemma HeaderIs(image: Elf.Image, eh: Ehdr, i: nat, at: nat)
    requires HeaderOk(image, eh) && i < eh.phnum && at == eh.phoff + i * eh.phentsize && at + 32 <= |image|
    ensures ProgramHeader(image, eh, i) ==
            Phdr(U32(image, at), U32(image, at + 4), U32(image, at + 8), U32(image, at + 16), U32(image, at + 20), U32(image, at + 28))
  {
  }

  /** Every image written this way is accepted, and gives back its header and all its program headers. */
  lemma ImageRoundTrip(image: Elf.Image, kind: Half, entry: Word, phs: seq<Phdr>)
    requires StartsWith(image, kind, entry, phs) && (kind == ET_EXEC || kind == ET_DYN)
    ensures Parse(image) == Ok(Ehdr(kind, entry, EHDR, PHDR, |phs|))
    ensures Headers(image, Ehdr(kind, entry, EHDR, PHDR, |phs|)) == phs
  {
    ParseReads(image, kind, entry, phs);
    var eh := Ehdr(kind, entry, EHDR, PHDR, |phs|);
    forall i | 0 <= i < |phs| ensures Headers(image, eh)[i] == phs[i] {
      PhdrReads(image, kind, entry, phs, i, 52 + 32 * i);
      HeaderIs(image, eh, i, 52 + 32 * i);
    }
  }

  // ---------------------------------------------------------------- the bias

  lemma {:induction false} MinReached(phs: seq<Phdr>, n: nat) returns (k: nat)
    requires n <= |phs| && MinVa(phs, n) != 0xFFFF_FFFF
    ensures k < n && phs[k].kind == PT_LOAD && phs[k].vaddr == MinVa(phs, n)
  {
    if phs[n - 1].kind == PT_LOAD && phs[n - 1].vaddr < MinVa(phs, n - 1) {
      k := n - 1;
    } else {
      k := MinReached(phs, n - 1);
    }
  }

  /**
   A position-independent image that is linked at or below the base is moved so that its lowest segment
   starts exactly there; any other image stays at its linked addresses.
   */
  lemma LowestAtBase(eh: Ehdr, phs: seq<Phdr>, base: Word) returns (k: nat)
    requires MinVa(phs, |phs|) != 0xFFFF_FFFF
    ensures k < |phs| && phs[k].kind == PT_LOAD && forall j | 0 <= j < |phs| && phs[j].kind == PT_LOAD :: phs[k].vaddr <= phs[j].vaddr
    ensures eh.kind == ET_DYN && phs[k].vaddr <= base ==> Address(phs[k].vaddr, Bias(eh, phs, base)) == base
    ensures eh.kind != ET_DYN || phs[k].vaddr > base ==> Bias(eh, phs, base) == 0
  {
    k := MinReached(phs, |phs|);
  }
}
