/**
 The ring buffer of a pipe (`src/pipe.c`): bytes come out in the order they went in.
 */
module Pipes {
  import opened Sectors

  const PIPE_BUF: nat := 4096

  /** The `n` bytes from `pos` on, wrapping. */
  function Ring(buf: seq<Byte>, pos: nat, n: nat): (s: seq<Byte>)
    requires |buf| == PIPE_BUF
    ensures |s| == n
  {
    seq(n, k requires 0 <= k < n => buf[(pos + k) % PIPE_BUF])
  }

  /** A byte stored just past `n` stored bytes is appended, as long as there is room. */
  lemma RingPut(buf: seq<Byte>, pos: nat, n: nat, b: Byte)
    requires |buf| == PIPE_BUF && n < PIPE_BUF
    ensures Ring(buf[(pos + n) % PIPE_BUF := b], pos, n + 1) == Ring(buf, pos, n) + [b]
  {
    var x, y := Ring(buf[(pos + n) % PIPE_BUF := b], pos, n + 1), Ring(buf, pos, n) + [b];
    forall k | 0 <= k < n + 1 ensures x[k] == y[k] {
      if k < n {
        ModDistinct(pos, k, n);
      }
    }
  }

  lemma RingDrop(buf: seq<Byte>, pos: nat, n: nat, m: nat)
    requires |buf| == PIPE_BUF && m <= n
    ensures Ring(buf, pos, n)[..m] == Ring(buf, pos, m)
    ensures Ring(buf, pos, n)[m..] == Ring(buf, (pos + m) % PIPE_BUF, n - m)
  {
    var x, y := Ring(buf, pos, n)[m..], Ring(buf, (pos + m) % PIPE_BUF, n - m);
    forall k | 0 <= k < n - m ensures x[k] == y[k] {
      ModAdd(pos + m, k);
    }
  }

  lemma ModAdd(a: nat, k: nat)
    ensures (a % PIPE_BUF + k) % PIPE_BUF == (a + k) % PIPE_BUF
  {
    assert a == PIPE_BUF * (a / PIPE_BUF) + a % PIPE_BUF;
    assert a + k == PIPE_BUF * (a / PIPE_BUF) + (a % PIPE_BUF + k);
  }

  /** Two offsets less than a buffer apart land on different cells. */
  lemma ModDistinct(a: nat, i: nat, j: nat)
    requires i < j < PIPE_BUF
    ensures (a + i) % PIPE_BUF != (a + j) % PIPE_BUF
  {
  }

  class PipeBuffer {
    const buf: array<Byte>
    var readPos: nat
    var writePos: nat
    var count: nat

    ghost predicate Valid()
      reads this
    {
      && buf.Length == PIPE_BUF && readPos < PIPE_BUF && count <= PIPE_BUF
      && writePos == (readPos + count) % PIPE_BUF
    }

    /** The bytes written and not yet read. */
    ghost function Contents(): (s: seq<Byte>)
      requires Valid()
      reads this, buf
      ensures |s| == count
    {
      Ring(buf[..], readPos, count)
    }

    constructor ()
      ensures Valid() && fresh(buf) && Contents() == []
    {
      buf := new Byte[PIPE_BUF](_ => 0);
      readPos, writePos, count := 0, 0, 0;
    }

    /** pipe_read: the oldest bytes, as many as there are. */
    method Read(len: nat) returns (out: seq<Byte>)
      requires Valid()
      modifies this
      ensures Valid()
      ensures var n := if len < |old(Contents())| then len else |old(Contents())|;
              out == old(Contents())[..n] && Contents() == old(Contents())[n..]
    {
      var n := if len > count then count else len;
      RingDrop(buf[..], readPos, count, n);
      out := [];
      var i := 0;
      while i < n
        invariant 0 <= i <= n && out == Ring(buf[..], readPos, i) && Valid()
      {
        out := out + [buf[(readPos + i) % PIPE_BUF]];
        i := i + 1;
      }
      ReadEnd(readPos, count, n);
      readPos := (readPos + n) % PIPE_BUF;
      count := count - n;
    }

    static lemma ReadEnd(pos: nat, count: nat, n: nat)
      requires n <= count
      ensures (pos + count) % PIPE_BUF == ((pos + n) % PIPE_BUF + (count - n)) % PIPE_BUF
    {
      ModAdd(pos + n, count - n);
    }

    /** pipe_write: appends as much as fits. */
    method Write(data: seq<Byte>) returns (n: nat)
      requires Valid()
      modifies this, buf
      ensures Valid()
      ensures n == if |data| <= PIPE_BUF - |old(Contents())| then |data| else PIPE_BUF - |old(Contents())|
      ensures Contents() == old(Contents()) + data[..n]
    {
      n := if |data| > PIPE_BUF - count then PIPE_BUF - count else |data|;
      ghost var was := Contents();
      var i := 0;
      while i < n
        invariant 0 <= i <= n && Valid() && count == |was|
        invariant Ring(buf[..], readPos, count + i) == was + data[..i]
      {
        ModAdd(readPos + count, i);
        RingPut(buf[..], readPos, count + i, data[i]);
        buf[(writePos + i) % PIPE_BUF] := data[i];
        i := i + 1;
      }
      ModAdd(readPos + count, n);
      writePos := (writePos + n) % PIPE_BUF;
      count := count + n;
    }
  }
}
