/**
 The packed on-disk records of MuFS (`src/fs.c`): 100 bytes per file slot, 80 per directory slot.
 */
module Records {
  import opened Sectors
  import opened MufsJournal

  const NAME: nat := 64
  const WORD: nat := 0x1_0000_0000
  const HALF: nat := 0x1_0000

  type Word = w: nat | w < WORD
  type Half = h: nat | h < HALF
  type Buffer = b: seq<Byte> | |b| == NAME witness seq(NAME, _ => 0)

  datatype FileMeta = FileMeta(name: Buffer, size: Word, used: Word, deleted: Word,
                               atime: Word, mtime: Word, ctime: Word, uid: Word, gid: Word, mode: Half)
  datatype DirMeta = DirMeta(name: Buffer, used: Word, uid: Word, gid: Word, mode: Half)

  // ---------------------------------------------------------------- little-endian words

  function Put32(w: Word): (b: seq<Byte>)
    ensures |b| == 4
  {
    [(w % 256) as Byte, (w / 256 % 256) as Byte, (w / 65536 % 256) as Byte, (w / 16777216) as Byte]
  }

  function Get32(b: seq<Byte>): (w: Word)
    requires |b| == 4
  {
    b[0] as nat + 256 * b[1] as nat + 65536 * b[2] as nat + 16777216 * b[3] as nat
  }

  lemma Word32(w: Word)
    ensures Get32(Put32(w)) == w
  {
  }

  function Put16(h: Half): (b: seq<Byte>)
    ensures |b| == 2
  {
    [(h % 256) as Byte, (h / 256) as Byte]
  }

  function Get16(b: seq<Byte>): (h: Half)
    requires |b| == 2
  {
    b[0] as nat + 256 * b[1] as nat
  }

  lemma Word16(h: Half)
    ensures Get16(Put16(h)) == h
  {
  }

  // ---------------------------------------------------------------- records

  function PutFile(f: FileMeta): (r: seq<Byte>)
    ensures |r| == FILE_RECORD
  {
    f.name + Put32(f.size) + Put32(f.used) + Put32(f.deleted) + Put32(f.atime) + Put32(f.mtime) + Put32(f.ctime)
    + Put32(f.uid) + Put32(f.gid) + Put16(f.mode) + [0, 0]
  }

  function GetFile(r: seq<Byte>): (f: FileMeta)
    requires |r| == FILE_RECORD
  {
    FileMeta(r[..64], Get32(r[64..68]), Get32(r[68..72]), Get32(r[72..76]), Get32(r[76..80]), Get32(r[80..84]),
             Get32(r[84..88]), Get32(r[88..92]), Get32(r[92..96]), Get16(r[96..98]))
  }

  function PutDir(f: DirMeta): (r: seq<Byte>)
    ensures |r| == DIR_RECORD
  {
    f.name + Put32(f.used) + Put32(f.uid) + Put32(f.gid) + Put16(f.mode) + [0, 0]
  }

  function GetDir(r: seq<Byte>): (f: DirMeta)
    requires |r| == DIR_RECORD
  {
    DirMeta(r[..64], Get32(r[64..68]), Get32(r[68..72]), Get32(r[72..76]), Get16(r[76..78]))
  }

  lemma FileRoundTrip(f: FileMeta)
    ensures GetFile(PutFile(f)) == f
  {
    var r := PutFile(f);
    assert r[..64] == f.name;
    assert r[64..68] == Put32(f.size) && r[68..72] == Put32(f.used) && r[72..76] == Put32(f.deleted);
    assert r[76..80] == Put32(f.atime) && r[80..84] == Put32(f.mtime) && r[84..88] == Put32(f.ctime);
    assert r[88..92] == Put32(f.uid) && r[92..96] == Put32(f.gid) && r[96..98] == Put16(f.mode);
    Word32(f.size); Word32(f.used); Word32(f.deleted); Word32(f.atime); Word32(f.mtime); Word32(f.ctime);
    Word32(f.uid); Word32(f.gid); Word16(f.mode);
  }

  lemma DirRoundTrip(f: DirMeta)
    ensures GetDir(PutDir(f)) == f
  {
    var r := PutDir(f);
    assert r[..64] == f.name;
    assert r[64..68] == Put32(f.used) && r[68..72] == Put32(f.uid) && r[72..76] == Put32(f.gid) && r[76..78] == Put16(f.mode);
    Word32(f.used); Word32(f.uid); Word32(f.gid); Word16(f.mode);
  }

  // ---------------------------------------------------------------- tables

  function PutFiles(fs: seq<FileMeta>): (t: seq<Byte>)
    ensures |t| == FILE_RECORD * |fs|
  {
    if |fs| == 0 then [] else PutFiles(fs[..|fs| - 1]) + PutFile(fs[|fs| - 1])
  }

  function PutDirs(fs: seq<DirMeta>): (t: seq<Byte>)
    ensures |t| == DIR_RECORD * |fs|
  {
    if |fs| == 0 then [] else PutDirs(fs[..|fs| - 1]) + PutDir(fs[|fs| - 1])
  }

  function DirSlot(t: seq<Byte>, i: nat): (r: seq<Byte>)
    requires |t| == DIR_SLOTS * DIR_RECORD && i < DIR_SLOTS
    ensures |r| == DIR_RECORD
  {
    t[DIR_RECORD * i..DIR_RECORD * i + DIR_RECORD]
  }

  lemma {:induction false} PutFilesAt(fs: seq<FileMeta>, i: nat)
    requires i < |fs|
    ensures FILE_RECORD * i + FILE_RECORD <= |PutFiles(fs)|
    ensures PutFiles(fs)[FILE_RECORD * i..FILE_RECORD * i + FILE_RECORD] == PutFile(fs[i])
    decreases |fs|
  {
    var n := |fs| - 1;
    if i < n {
      PutFilesAt(fs[..n], i);
      assert PutFiles(fs)[FILE_RECORD * i..FILE_RECORD * i + FILE_RECORD] ==
             PutFiles(fs[..n])[FILE_RECORD * i..FILE_RECORD * i + FILE_RECORD];
    }
  }

  lemma {:induction false} PutDirsAt(fs: seq<DirMeta>, i: nat)
    requires i < |fs|
    ensures DIR_RECORD * i + DIR_RECORD <= |PutDirs(fs)|
    ensures PutDirs(fs)[DIR_RECORD * i..DIR_RECORD * i + DIR_RECORD] == PutDir(fs[i])
    decreases |fs|
  {
    var n := |fs| - 1;
    if i < n {
      PutDirsAt(fs[..n], i);
      assert PutDirs(fs)[DIR_RECORD * i..DIR_RECORD * i + DIR_RECORD] ==
             PutDirs(fs[..n])[DIR_RECORD * i..DIR_RECORD * i + DIR_RECORD];
    }
  }

  /** Every slot of a written table reads back. */
  lemma TableRoundTrip(fs: seq<FileMeta>, ds: seq<DirMeta>, i: nat)
    requires |fs| == FILE_SLOTS && |ds| == DIR_SLOTS && i < 16
    ensures GetFile(FileSlot(PutFiles(fs), i)) == fs[i] && GetDir(DirSlot(PutDirs(ds), i)) == ds[i]
  {
    PutFilesAt(fs, i);
    PutDirsAt(ds, i);
    FileRoundTrip(fs[i]);
    DirRoundTrip(ds[i]);
  }
}
