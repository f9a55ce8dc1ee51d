/**
 The byte view of a disk of 512-byte sectors (`src/ata.c`): a write of any range is a series of
 whole-sector writes, and a crash can fall between any two of them.
 */
module Sectors {
  import Paging

  type Byte = Paging.Byte
  const SECTOR: nat := 512
  const WRAP: nat := 0x1_0000_0000

  type Sector = s: seq<Byte> | |s| == SECTOR witness seq(SECTOR, _ => 0)
  type Image = seq<Byte>

  /** All bytes of the disk, in order. */
  function Flat(disk: seq<Sector>): (d: Image)
    ensures |d| == SECTOR * |disk|
  {
    seq(SECTOR * |disk|, k requires 0 <= k < SECTOR * |disk| => disk[k / SECTOR][k % SECTOR])
  }

  /** `d` with `data` at `off`. */
  function Splice(d: Image, off: nat, data: seq<Byte>): (r: Image)
    requires off + |data| <= |d|
    ensures |r| == |d|
  {
    seq(|d|, k requires 0 <= k < |d| => if off <= k < off + |data| then data[k - off] else d[k])
  }

  lemma SpliceJoin(d: Image, off: nat, data: seq<Byte>, a: nat, b: nat)
    requires off + |data| <= |d| && a <= b <= |data|
    ensures Splice(Splice(d, off, data[..a]), off + a, data[a..b]) == Splice(d, off, data[..b])
  {
  }

  /** Writing part of one sector is the same splice of the whole disk. */
  lemma FlatSplice(disk: seq<Sector>, lba: nat, at: nat, chunk: seq<Byte>)
    requires lba < |disk| && at + |chunk| <= SECTOR
    ensures Flat(disk[lba := Splice(disk[lba], at, chunk)]) == Splice(Flat(disk), SECTOR * lba + at, chunk)
  {
    var x, y := Flat(disk[lba := Splice(disk[lba], at, chunk)]), Splice(Flat(disk), SECTOR * lba + at, chunk);
    forall k | 0 <= k < |x| ensures x[k] == y[k] {
      assert k == SECTOR * (k / SECTOR) + k % SECTOR;
    }
  }

  /** Part of a sector is a slice of the disk. */
  lemma FlatSlice(disk: seq<Sector>, lba: nat, off: nat, n: nat)
    requires lba < |disk| && off + n <= SECTOR
    ensures disk[lba][off..off + n] == Flat(disk)[SECTOR * lba + off..SECTOR * lba + off + n]
  {
    var x, y := disk[lba][off..off + n], Flat(disk)[SECTOR * lba + off..SECTOR * lba + off + n];
    forall k | 0 <= k < n ensures x[k] == y[k] {
      assert (SECTOR * lba + off + k) / SECTOR == lba && (SECTOR * lba + off + k) % SECTOR == off + k;
    }
  }

  lemma SliceJoin(d: Image, a: nat, b: nat, c: nat)
    requires a <= b <= c <= |d|
    ensures d[a..b] + d[b..c] == d[a..c]
  {
  }

  // ---------------------------------------------------------------- sector writes of one request

  /** Sector writes needed for `n` bytes at `off`. */
  function Writes(off: nat, n: nat): (w: nat) {
    if n == 0 then 0 else (off % SECTOR + n + SECTOR - 1) / SECTOR
  }

  /** Bytes on disk after the first `k` of them. */
  function Landed(off: nat, n: nat, k: nat): (m: nat)
    ensures m <= n
  {
    if k == 0 || n == 0 then 0 else if SECTOR * k - off % SECTOR < n then SECTOR * k - off % SECTOR else n
  }

  lemma LandedAll(off: nat, n: nat)
    ensures Landed(off, n, Writes(off, n)) == n
    ensures forall k | 0 <= k < Writes(off, n) :: Landed(off, n, k) < n
    ensures off % SECTOR + n <= SECTOR ==> Writes(off, n) <= 1
  {
  }

  lemma LandedStep(off: nat, n: nat, k: nat)
    requires k < Writes(off, n)
    ensures var done := Landed(off, n, k);
            var at := (off + done) % SECTOR;
            && done < n && (at == 0 || k == 0)
            && Landed(off, n, k + 1) == done + (if SECTOR - at < n - done then SECTOR - at else n - done)
  {
    if k > 0 {
      var done := Landed(off, n, k);
      assert done == SECTOR * k - off % SECTOR;
      assert off + done == SECTOR * (off / SECTOR + k);
    }
  }

  /** The disk when a write request stops after `k` sector writes. */
  function Torn(d: Image, off: nat, data: seq<Byte>, k: nat): (r: Image)
    requires off + |data| <= |d|
    ensures |r| == |d|
  {
    Splice(d, off, data[..Landed(off, |data|, k)])
  }

  lemma TornEnds(d: Image, off: nat, data: seq<Byte>)
    requires off + |data| <= |d|
    ensures Torn(d, off, data, 0) == d
    ensures Torn(d, off, data, Writes(off, |data|)) == Splice(d, off, data)
  {
    LandedAll(off, |data|);
    assert data[..|data|] == data;
  }

  /** The images a request leaves behind, one per sector write. */
  function Trail(d: Image, off: nat, data: seq<Byte>, n: nat): (t: seq<Image>)
    requires off + |data| <= |d|
    ensures |t| == n && forall k | 0 <= k < n :: t[k] == Torn(d, off, data, k + 1)
  {
    seq(n, k requires 0 <= k < n => Torn(d, off, data, k + 1))
  }

  lemma TrailStep(d: Image, off: nat, data: seq<Byte>, n: nat)
    requires off + |data| <= |d|
    ensures Trail(d, off, data, n + 1) == Trail(d, off, data, n) + [Torn(d, off, data, n + 1)]
  {
  }

  /** One more sector write: where it starts, how far it gets, what it leaves. */
  lemma ChunkStep(d: Image, off: nat, data: seq<Byte>, k: nat, done: nat, next: nat)
    requires off + |data| <= |d| && k < Writes(off, |data|)
    requires done == Landed(off, |data|, k) && next == Landed(off, |data|, k + 1)
    ensures var at := (off + done) % SECTOR;
            done < |data| && next == done + (if SECTOR - at < |data| - done then SECTOR - at else |data| - done)
    ensures Torn(d, off, data, k + 1) == Splice(Torn(d, off, data, k), off + done, data[done..next])
    ensures Trail(d, off, data, k + 1) == Trail(d, off, data, k) + [Torn(d, off, data, k + 1)]
  {
    LandedStep(off, |data|, k);
    SpliceJoin(d, off, data, done, next);
    TrailStep(d, off, data, k);
  }

  // ---------------------------------------------------------------- the drive

  const ENODEV: int := -19
  const EINVAL: int := -22

  class Drive {
    const present: bool
    const sectors: array<Sector>
    /** Every image the disk has shown, oldest first. */
    ghost var history: seq<Image>

    constructor (present: bool, contents: seq<Sector>)
      ensures this.present == present && fresh(sectors) && Bytes() == Flat(contents) && history == []
    {
      this.present := present;
      sectors := new Sector[|contents|](i requires 0 <= i < |contents| => contents[i]);
      history := [];
      new;
      assert sectors[..] == contents;
    }

    ghost function Bytes(): (d: Image)
      reads sectors
      ensures |d| == SECTOR * sectors.Length
    {
      Flat(sectors[..])
    }

    /** The request is accepted: a device, no 32-bit overflow, inside the (wrapping) byte limit. */
    predicate Accepts(offset: nat, count: nat) {
      && present && 0 < count && offset < WRAP && count <= WRAP - 1 - offset
      && offset + count <= (sectors.Length * SECTOR) % WRAP
    }

    lemma AcceptsFits(offset: nat, count: nat)
      requires Accepts(offset, count)
      ensures offset + count <= SECTOR * sectors.Length
    {
      assert (sectors.Length * SECTOR) % WRAP <= sectors.Length * SECTOR;
    }

    method ReadSector(lba: nat) returns (rc: int, sec: Sector)
      ensures rc == (if lba < sectors.Length then 0 else EINVAL)
      ensures rc == 0 ==> sec == sectors[lba]
    {
      if lba >= sectors.Length {
        return EINVAL, seq(SECTOR, _ => 0);
      }
      return 0, sectors[lba];
    }

    method WriteSector(lba: nat, sec: Sector) returns (rc: int)
      modifies this`history, sectors
      ensures rc == (if lba < sectors.Length then 0 else EINVAL)
      ensures rc == 0 ==> sectors[..] == old(sectors[..])[lba := sec] && history == old(history) + [Bytes()]
      ensures rc != 0 ==> sectors[..] == old(sectors[..]) && history == old(history)
    {
      if lba >= sectors.Length {
        return EINVAL;
      }
      sectors[lba] := sec;
      history := history + [Bytes()];
      return 0;
    }

    /** The loop of ata_read_bytes. */
    method ReadRange(offset: nat, count: nat) returns (buf: seq<Byte>)
      requires offset + count <= SECTOR * sectors.Length
      ensures buf == Bytes()[offset..offset + count]
    {
      var done := 0;
      buf := [];
      while done < count
        invariant 0 <= done <= count && buf == Bytes()[offset..offset + done]
      {
        var pos := offset + done;
        var lba, off := pos / SECTOR, pos % SECTOR;
        var n := SECTOR - off;
        if n > count - done {
          n := count - done;
        }
        var rc, sec := ReadSector(lba);
        FlatSlice(sectors[..], lba, off, n);
        SliceJoin(Bytes(), offset, offset + done, offset + done + n);
        buf := buf + sec[off..off + n];
        done := done + n;
      }
    }

    /** ata_read_bytes */
    method ReadBytes(offset: nat, count: nat) returns (rc: int, buf: seq<Byte>)
      ensures rc == if !present then ENODEV else if count == 0 then 0 else if Accepts(offset, count) then count else EINVAL
      ensures Accepts(offset, count) ==> offset + count <= |Bytes()| && buf == Bytes()[offset..offset + count]
    {
      if !present {
        return ENODEV, [];
      }
      if count == 0 {
        return 0, [];
      }
      if offset >= WRAP || count > WRAP - 1 - offset || offset + count > (sectors.Length * SECTOR) % WRAP {
        return EINVAL, [];
      }
      AcceptsFits(offset, count);
      buf := ReadRange(offset, count);
      return count, buf;
    }

    /** One turn of the write loop: read-modify-write unless the whole sector is replaced. */
    method WriteChunk(lba: nat, off: nat, chunk: seq<Byte>) returns (rc: int)
      requires lba < sectors.Length && off + |chunk| <= SECTOR
      modifies this`history, sectors
      ensures rc == 0 && SECTOR * lba + off + |chunk| <= |old(Bytes())|
      ensures Bytes() == Splice(old(Bytes()), SECTOR * lba + off, chunk) && history == old(history) + [Bytes()]
    {
      var sec: Sector;
      if |chunk| != SECTOR {
        rc, sec := ReadSector(lba);
      } else {
        sec := seq(SECTOR, _ => 0);
      }
      var next := sec[..off] + chunk + sec[off + |chunk|..];
      assert next == Splice(sectors[lba], off, chunk);
      FlatSplice(sectors[..], lba, off, chunk);
      rc := WriteSector(lba, next);
    }

    /** One turn of the loop of ata_write_bytes. */
    method WriteNext(offset: nat, data: seq<Byte>, done: nat, ghost d: Image, ghost was: seq<Image>, ghost k: nat) returns (n: nat)
      requires offset + |data| <= |d| == SECTOR * sectors.Length && k < Writes(offset, |data|) && done == Landed(offset, |data|, k)
      requires Bytes() == Torn(d, offset, data, k) && history == was + Trail(d, offset, data, k)
      modifies this`history, sectors
      ensures n > 0 && done + n == Landed(offset, |data|, k + 1)
      ensures Bytes() == Torn(d, offset, data, k + 1) && history == was + Trail(d, offset, data, k + 1)
    {
      ChunkStep(d, offset, data, k, done, Landed(offset, |data|, k + 1));
      var pos := offset + done;
      var lba, off := pos / SECTOR, pos % SECTOR;
      n := SECTOR - off;
      if n > |data| - done {
        n := |data| - done;
      }
      var rc := WriteChunk(lba, off, data[done..done + n]);
    }

    /** The loop of ata_write_bytes. */
    method WriteRange(offset: nat, data: seq<Byte>)
      requires offset + |data| <= SECTOR * sectors.Length
      modifies this`history, sectors
      ensures Bytes() == Splice(old(Bytes()), offset, data)
      ensures history == old(history) + Trail(old(Bytes()), offset, data, Writes(offset, |data|))
    {
      var count := |data|;
      ghost var d := Bytes();
      ghost var k := 0;
      var done := 0;
      TornEnds(d, offset, data);
      LandedAll(offset, count);
      while done < count
        invariant 0 <= done <= count && 0 <= k <= Writes(offset, count) && done == Landed(offset, count, k)
        invariant Bytes() == Torn(d, offset, data, k)
        invariant history == old(history) + Trail(d, offset, data, k)
        decreases count - done
      {
        var n := WriteNext(offset, data, done, d, old(history), k);
        done := done + n;
        k := k + 1;
      }
    }

    /** ata_write_bytes */
    method WriteBytes(offset: nat, data: seq<Byte>) returns (rc: int)
      modifies this`history, sectors
      ensures rc == if !present then ENODEV else if |data| == 0 then 0 else if Accepts(offset, |data|) then |data| else EINVAL
      ensures Accepts(offset, |data|) ==>
                && offset + |data| <= |old(Bytes())| && Bytes() == Splice(old(Bytes()), offset, data)
                && history == old(history) + Trail(old(Bytes()), offset, data, Writes(offset, |data|))
      ensures !Accepts(offset, |data|) ==> sectors[..] == old(sectors[..]) && history == old(history)
    {
      if !present {
        return ENODEV;
      }
      if |data| == 0 {
        return 0;
      }
      if offset >= WRAP || |data| > WRAP - 1 - offset || offset + |data| > (sectors.Length * SECTOR) % WRAP {
        return EINVAL;
      }
      AcceptsFits(offset, |data|);
      WriteRange(offset, data);
      return |data|;
    }
  }
}
