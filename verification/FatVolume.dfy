/**
 The write and read paths of `src/fat.c`: FAT copies and clusters changed in place.
 */
module FatVolume {
  import opened Options
  import opened Sectors
  import opened Fat

  /** `data` is stored along `cs`, which filled up one cluster at a time; nothing else changed. */
  predicate Written(was: Fat, before: Clusters, f: Fat, d: Clusters, cs: seq<nat>, data: seq<Byte>, bytes: nat) {
    && Grown(was, f, cs) && |d| == |before| == |f| && Whole(d, bytes)
    && data <= Joined(d, cs) && (|cs| > 0 ==> |Joined(d, cs[..|cs| - 1])| < |data|)
    && forall c | 0 <= c < |d| && c !in cs :: d[c] == before[c]
  }

  /** A cluster whose head is replaced. */
  function Patched(c: seq<Byte>, chunk: seq<Byte>): (r: seq<Byte>)
    requires |chunk| <= |c|
    ensures |r| == |c|
  {
    chunk + c[|chunk|..]
  }

  lemma WrittenEmpty(f: Fat, d: Clusters, bytes: nat)
    requires |d| == |f| && Whole(d, bytes)
    ensures Written(f, d, f, d, [], [], bytes)
  {
  }

  lemma StoredMore(d: Clusters, cs: seq<nat>, data: seq<Byte>, bytes: nat, c: nat, chunk: seq<Byte>)
    requires Whole(d, bytes) && (forall i | 0 <= i < |cs| :: cs[i] < |d|) && data == Joined(d, cs)
    requires c < |d| && c !in cs && 0 < |chunk| <= bytes
    ensures var e, ds := d[c := Patched(d[c], chunk)], cs + [c];
            && data + chunk <= Joined(e, ds) && |Joined(e, ds[..|ds| - 1])| < |data + chunk|
            && (|chunk| == bytes ==> data + chunk == Joined(e, ds))
  {
    var e, ds := d[c := Patched(d[c], chunk)], cs + [c];
    assert ds[..|ds| - 1] == cs;
    JoinedSame(d, e, cs);
  }

  lemma TakeMore(s: seq<Byte>, a: nat, n: nat)
    requires a + n <= |s|
    ensures s[..a] + s[a..a + n] == s[..a + n]
  {
  }

  lemma Regroup(a: seq<Byte>, b: seq<Byte>, c: seq<Byte>)
    ensures a + (b + c) == (a + b) + c
  {
  }

  /** One turn of the reading walk. */
  lemma WalkTurn(f: Fat, d: Clusters, c: nat, left: nat, guard: nat, n: nat)
    requires |d| == |f| && 2 <= c < EOC && c < |f| && left > 0 && guard > 0 && n == if left < |d[c]| then left else |d[c]|
    ensures Walk(f, d, c, left, guard) == d[c][..n] + Walk(f, d, Next(f, c), left - n, guard - 1)
  {
  }

  /** `out` is read; the walk from `c` reads the rest of `total`. */
  ghost predicate Left(f: Fat, d: Clusters, c: nat, left: nat, guard: nat, out: seq<Byte>, total: seq<Byte>) {
    |d| == |f| && total == out + Walk(f, d, c, left, guard)
  }

  lemma LeftTurn(f: Fat, d: Clusters, c: nat, left: nat, guard: nat, n: nat, out: seq<Byte>, total: seq<Byte>)
    requires Left(f, d, c, left, guard, out, total)
    requires 2 <= c < EOC && c < |f| && left > 0 && guard > 0 && n == if left < |d[c]| then left else |d[c]|
    ensures Left(f, d, Next(f, c), left - n, guard - 1, out + d[c][..n], total)
  {
    WalkTurn(f, d, c, left, guard, n);
    Regroup(out, d[c][..n], Walk(f, d, Next(f, c), left - n, guard - 1));
  }

  lemma WrittenMore(was: Fat, before: Clusters, f: Fat, d: Clusters, cs: seq<nat>, data: seq<Byte>, bytes: nat, c: nat, chunk: seq<Byte>)
    requires Sized(was) && Written(was, before, f, d, cs, data, bytes) && data == Joined(d, cs) && Free(f, c)
    requires 0 < |chunk| <= bytes
    ensures var e := d[c := Patched(d[c], chunk)];
            && Written(was, before, Linked(f, cs, c), e, cs + [c], data + chunk, bytes)
            && (|chunk| == bytes ==> data + chunk == Joined(e, cs + [c]))
  {
    LinkGrows(was, f, cs, c);
    StoredMore(d, cs, data, bytes, c, chunk);
    var e, ds := d[c := Patched(d[c], chunk)], cs + [c];
    forall x | 0 <= x < |e| && x !in ds ensures e[x] == before[x] {
      assert c in ds && x !in cs;
    }
  }

  /** The number of clusters is the length divided by the cluster size, rounded up. */
  lemma ClusterCount(was: Fat, before: Clusters, f: Fat, d: Clusters, cs: seq<nat>, data: seq<Byte>, bytes: nat)
    requires Written(was, before, f, d, cs, data, bytes)
    ensures |cs| > 0 ==> bytes * (|cs| - 1) < |data| <= bytes * |cs|
    ensures |cs| == 0 <==> |data| == 0
  {
    if |cs| > 0 {
      JoinedSize(d, cs, bytes);
      JoinedSize(d, cs[..|cs| - 1], bytes);
    }
  }

  /** Every cluster that was free has been used. */
  predicate Full(was: Fat, cs: seq<nat>) { forall c | 2 <= c < |was| && Free(was, c) :: c in cs }

  lemma NothingLeft(was: Fat, f: Fat, cs: seq<nat>)
    requires Grown(was, f, cs) && forall c | 2 <= c < |f| :: !Free(f, c)
    ensures Full(was, cs)
  {
    forall c | 2 <= c < |was| && Free(was, c) ensures c in cs {
      assert !Free(f, c);
    }
  }

  /** Reading the file just written gives its bytes back, if it has at most 4096 clusters. */
  lemma ReadBack(was: Fat, before: Clusters, f: Fat, d: Clusters, cs: seq<nat>, data: seq<Byte>, bytes: nat)
    requires Sized(was) && Written(was, before, f, d, cs, data, bytes) && |cs| > 0
    ensures Walk(f, d, cs[0], |data|, GUARD) == Prefix(Joined(d, cs[..Min(|cs|, GUARD)]), |data|)
    ensures |cs| <= GUARD ==> Walk(f, d, cs[0], |data|, GUARD) == data
  {
    WalkMeaning(f, d, cs, |data|, GUARD);
    assert |cs| <= GUARD ==> cs[..|cs|] == cs;
  }

  /** Files stored before keep their chain and their bytes. */
  lemma OtherFiles(was: Fat, before: Clusters, f: Fat, d: Clusters, cs: seq<nat>, data: seq<Byte>, bytes: nat, ds: seq<nat>)
    requires Written(was, before, f, d, cs, data, bytes) && Chain(was, ds)
    ensures Chain(f, ds) && Joined(d, ds) == Joined(before, ds)
  {
    OtherChain(was, f, cs, ds);
    JoinedSame(before, d, ds);
  }

  /** First and last cluster; zero for no chain. */
  function Head(cs: seq<nat>): nat { if |cs| == 0 then 0 else cs[0] }
  function End(cs: seq<nat>): nat { if |cs| == 0 then 0 else cs[|cs| - 1] }

  /** `written` bytes of `content` are stored, in whole clusters unless that is all of it. */
  ghost predicate Progress(was: Fat, before: Clusters, f: Fat, d: Clusters, cs: seq<nat>, content: seq<Byte>, written: nat, bytes: nat) {
    && written <= |content| && Written(was, before, f, d, cs, content[..written], bytes)
    && (written < |content| ==> content[..written] == Joined(d, cs))
  }

  class Volume {
    const nfats: nat
    const bytes: nat
    const fat: array<nat>
    const copy: array<nat>
    const data: array<seq<Byte>>
    var hint: nat

    /** One or two FATs, equal where there are two; whole clusters; a hint that can be scanned from. */
    ghost predicate Valid()
      reads this, fat, copy, data
    {
      && 1 <= nfats <= 2 && bytes > 0 && Sized(fat[..]) && copy.Length == data.Length == fat.Length
      && fat != copy && fat as object != data && copy as object != data
      && (nfats == 2 ==> copy[..] == fat[..])
      && Whole(data[..], bytes) && 2 <= hint <= fat.Length
    }

    constructor (nfats: nat, bytes: nat, fat: array<nat>, copy: array<nat>, data: array<seq<Byte>>)
      requires 1 <= nfats <= 2 && bytes > 0 && Sized(fat[..]) && copy.Length == data.Length == fat.Length
      requires fat != copy && fat as object != data && copy as object != data
      requires (nfats == 2 ==> copy[..] == fat[..]) && Whole(data[..], bytes)
      ensures Valid() && this.fat == fat && this.copy == copy && this.data == data
    {
      this.nfats, this.bytes, this.fat, this.copy, this.data := nfats, bytes, fat, copy, data;
      hint := 2;
    }

    /** set_fat: the entry in every copy of the FAT. */
    method SetFat(c: nat, v: nat)
      requires Valid() && c < fat.Length
      modifies fat, copy
      ensures Valid() && fat[..] == old(fat[..])[c := v]
    {
      var f := 0;
      while f < nfats
        invariant 0 <= f <= nfats
        invariant fat[..] == if f == 0 then old(fat[..]) else old(fat[..])[c := v]
        invariant copy[..] == if f < 2 then old(copy[..]) else old(copy[..])[c := v]
      {
        if f == 0 {
          fat[c] := v;
        } else {
          copy[c] := v;
        }
        f := f + 1;
      }
    }

    method ScanFrom(start: nat, stop: nat) returns (r: Option<nat>)
      requires Valid() && 2 <= start && stop <= fat.Length
      ensures r == Scan(fat[..], start, stop)
    {
      var c := start;
      while c < stop
        invariant start <= c && Scan(fat[..], start, stop) == Scan(fat[..], c, stop)
      {
        if fat[c] % MASK == 0 {
          return Some(c);
        }
        c := c + 1;
      }
      return None;
    }

    /** alloc_cluster */
    method AllocCluster() returns (r: Option<nat>)
      requires Valid()
      modifies this`hint, fat, copy
      ensures Valid() && r == Pick(old(fat[..]), old(hint))
      ensures r.Some? ==> r.value < |old(fat[..])| && fat[..] == old(fat[..])[r.value := LAST]
      ensures r.None? ==> fat[..] == old(fat[..])
    {
      r := ScanFrom(hint, fat.Length);
      if r.None? {
        r := ScanFrom(2, hint);
      }
      if r.Some? {
        SetFat(r.value, LAST);
        hint := if r.value + 1 >= fat.Length then 2 else r.value + 1;
      }
    }

    /** free_chain */
    method FreeChain(first: nat)
      requires Valid()
      modifies fat, copy
      ensures Valid() && fat[..] == FreeFrom(old(fat[..]), first, GUARD)
    {
      var c: nat, guard: nat := first, GUARD;
      while 2 <= c < EOC && c < fat.Length && guard > 0
        invariant Valid() && FreeFrom(fat[..], c, guard) == FreeFrom(old(fat[..]), first, GUARD)
        decreases guard
      {
        var next := fat[c] % MASK;
        SetFat(c, 0);
        c, guard := next, guard - 1;
      }
    }

    /** One turn of the data loop: allocate, link, store. */
    method AppendCluster(prev: nat, chunk: seq<Byte>, ghost was: Fat, ghost before: Clusters, ghost cs: seq<nat>, ghost stored: seq<Byte>)
        returns (r: Option<nat>)
      requires Valid() && Sized(was) && Written(was, before, fat[..], data[..], cs, stored, bytes) && stored == Joined(data[..], cs)
      requires 0 < |chunk| <= bytes && prev == End(cs)
      modifies this`hint, fat, copy, data
      ensures Valid()
      ensures r.Some? ==> r.value >= 2 && Written(was, before, fat[..], data[..], cs + [r.value], stored + chunk, bytes)
      ensures r.Some? && |chunk| == bytes ==> stored + chunk == Joined(data[..], cs + [r.value])
      ensures r.None? ==> fat[..] == old(fat[..]) && data[..] == old(data[..]) && Full(was, cs)
    {
      ghost var f, d := fat[..], data[..];
      PickMeaning(fat[..], hint);
      r := AllocCluster();
      if r.None? {
        NothingLeft(was, f, cs);
        return;
      }
      LinkFresh(was, f, cs, r.value);
      if prev != 0 {
        SetFat(prev, r.value);
      }
      assert fat[..] == Linked(f, cs, r.value);
      WriteCluster(r.value, chunk);
      WrittenMore(was, before, f, d, cs, stored, bytes, r.value, chunk);
    }

    method AppendChunk(prev: nat, content: seq<Byte>, written: nat, ghost was: Fat, ghost before: Clusters, ghost cs: seq<nat>)
        returns (r: Option<nat>, chunk: nat)
      requires Valid() && Sized(was) && written < |content|
      requires Progress(was, before, fat[..], data[..], cs, content, written, bytes) && prev == End(cs)
      modifies this`hint, fat, copy, data
      ensures Valid() && 0 < chunk <= |content| - written
      ensures r.Some? ==> r.value >= 2 && Progress(was, before, fat[..], data[..], cs + [r.value], content, written + chunk, bytes)
      ensures r.None? ==> Grown(was, fat[..], cs) && Full(was, cs) && bytes * |cs| < |content|
    {
      chunk := if |content| - written > bytes then bytes else |content| - written;
      r := AppendCluster(prev, content[written..written + chunk], was, before, cs, content[..written]);
      TakeMore(content, written, chunk);
      JoinedSize(old(data[..]), cs, bytes);
    }

    /** The data loop of fat_write_file: a chain holding `content`, or, when clusters run out, the links as they were. */
    method WriteChain(content: seq<Byte>) returns (ok: bool, first: nat, ghost cs: seq<nat>)
      requires Valid()
      modifies this`hint, fat, copy, data
      ensures Valid()
      ensures ok ==> Written(old(fat[..]), old(data[..]), fat[..], data[..], cs, content, bytes)
      ensures ok ==> first == Head(cs)
      ensures !ok ==> Full(old(fat[..]), cs) && bytes * |cs| < |content|
      ensures !ok && |cs| <= GUARD ==> SameLinks(old(fat[..]), fat[..])
    {
      ghost var was, d0 := fat[..], data[..];
      cs := [];
      WrittenEmpty(was, d0, bytes);
      first := 0;
      var prev: nat, written: nat := 0, 0;
      assert content[..0] == [];
      while written < |content|
        invariant 0 <= written <= |content| && Valid() && Sized(was)
        invariant Progress(was, d0, fat[..], data[..], cs, content, written, bytes)
        invariant first == Head(cs) && prev == End(cs) && (first == 0 <==> cs == [])
        decreases |content| - written
      {
        var c, chunk := AppendChunk(prev, content, written, was, d0, cs);
        if c.None? {
          RollBack(first, was, cs);
          return false, first, cs;
        }
        if first == 0 {
          first := c.value;
        }
        cs := cs + [c.value];
        written := written + chunk;
        prev := c.value;
      }
      assert content[..written] == content;
      return true, first, cs;
    }

    /** The failure exit: give back what was allocated. */
    method RollBack(first: nat, ghost was: Fat, ghost cs: seq<nat>)
      requires Valid() && Sized(was) && Grown(was, fat[..], cs) && first == Head(cs) && (first == 0 <==> cs == [])
      modifies fat, copy
      ensures Valid() && (|cs| <= GUARD ==> SameLinks(was, fat[..]))
    {
      if first != 0 {
        RollbackIff(was, fat[..], cs);
        FreeChain(first);
      }
    }

    method WriteCluster(c: nat, chunk: seq<Byte>)
      requires Valid() && c < data.Length && |chunk| <= bytes
      modifies data
      ensures Valid() && data[..] == old(data[..])[c := Patched(old(data[..])[c], chunk)]
    {
      data[c] := Patched(data[c], chunk);
    }

    /** fat_read_file */
    method ReadFile(first: nat, size: nat, cap: nat) returns (out: seq<Byte>)
      requires Valid()
      ensures out == Walk(fat[..], data[..], first, if size > cap then cap else size, GUARD)
    {
      var want := if size > cap then cap else size;
      ghost var total := Walk(fat[..], data[..], first, want, GUARD);
      out := [];
      var c: nat, left: nat, guard: nat := first, want, GUARD;
      while 2 <= c < EOC && c < fat.Length && left > 0 && guard > 0
        invariant Left(fat[..], data[..], c, left, guard, out, total)
        decreases guard
      {
        var n := if left < |data[c]| then left else |data[c]|;
        LeftTurn(fat[..], data[..], c, left, guard, n, out, total);
        out := out + data[c][..n];
        c, left, guard := fat[c] % MASK, left - n, guard - 1;
      }
    }
  }
}
