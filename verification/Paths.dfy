/**
 Path names of MuFS (`src/fs.c`): relative to the root, components separated by single slashes,
 at most 63 bytes, kept in 64-byte buffers with a terminating zero.
 */
module Paths {
  import opened Sectors
  import opened Records

  const SLASH: Byte := 47

  /** The bytes of a C string, without its terminator. */
  type Path = s: seq<Byte> | NoZero(s) witness []

  predicate NoZero(s: seq<Byte>) { forall k | 0 <= k < |s| :: s[k] != 0 }

  // ---------------------------------------------------------------- names in buffers

  function ZeroAt(b: seq<Byte>, from: nat): (k: nat)
    requires from <= |b|
    ensures from <= k <= |b|
    ensures forall j | from <= j < k :: b[j] != 0
    ensures k < |b| ==> b[k] == 0
    decreases |b| - from
  {
    if from == |b| || b[from] == 0 then from else ZeroAt(b, from + 1)
  }

  /** The string in a buffer. */
  function Text(b: seq<Byte>): (p: Path) { b[..ZeroAt(b, 0)] }

  /** strncpy into a fresh name: the string, then zeros. */
  function Padded(p: Path): (b: Buffer)
    requires |p| < NAME
  {
    p + seq(NAME - |p|, _ => 0)
  }

  lemma TextOf(b: seq<Byte>, p: Path)
    requires |p| < |b| && b[..|p|] == p && b[|p|] == 0
    ensures Text(b) == p
  {
    var k := ZeroAt(b, 0);
    assert k <= |p|;
    assert forall j | 0 <= j < |p| :: b[j] == b[..|p|][j];
  }

  lemma TextPadded(p: Path)
    requires |p| < NAME
    ensures Text(Padded(p)) == p
  {
    var b := Padded(p);
    assert b[..|p|] == p;
    TextOf(b, p);
  }

  // ---------------------------------------------------------------- canonical paths and parents

  /** What split_parent accepts. */
  predicate Canonical(p: Path) {
    && 0 < |p| < NAME && p[0] != SLASH && p[|p| - 1] != SLASH
    && forall k | 0 <= k < |p| - 1 :: p[k] == SLASH ==> p[k + 1] != SLASH
  }

  /** Index of the last slash before `n`, or -1. */
  function LastSlash(p: Path, n: nat): (k: int)
    requires n <= |p|
    ensures -1 <= k < n
    ensures k >= 0 ==> p[k] == SLASH
    ensures forall j | k < j < n :: p[j] != SLASH
  {
    if n == 0 then -1 else if p[n - 1] == SLASH then n - 1 else LastSlash(p, n - 1)
  }

  /** The directory a path is in; the root is the empty path. */
  function Parent(p: Path): (d: Path)
    ensures |p| > 0 ==> |d| < |p|
  {
    var k := LastSlash(p, |p|);
    if k < 0 then [] else p[..k]
  }

  lemma ParentCanonical(p: Path)
    requires Canonical(p)
    ensures Parent(p) == [] || Canonical(Parent(p))
  {
    var k := LastSlash(p, |p|);
    if k >= 0 {
      var d := p[..k];
      assert k > 0;
      assert d[|d| - 1] == p[k - 1];
      forall j | 0 <= j < |d| - 1 && d[j] == SLASH ensures d[j + 1] != SLASH {
        assert p[j] == SLASH && p[j + 1] != SLASH;
      }
    }
  }

  /** split_parent: the scan refuses what is not canonical and cuts at the last slash. */
  method SplitParent(path: Path) returns (ok: bool, parent: Path)
    ensures ok <==> Canonical(path)
    ensures ok ==> parent == Parent(path)
  {
    parent := [];
    if |path| == 0 || path[0] == SLASH || |path| >= NAME {
      return false, parent;
    }
    var slash := -1;
    var i := 0;
    while i < |path|
      invariant 0 <= i <= |path|
      invariant forall k | 0 <= k < i :: path[k] == SLASH ==> k > 0 && k + 1 < |path| && path[k + 1] != SLASH
      invariant slash == LastSlash(path, i)
    {
      if path[i] == SLASH {
        if i == 0 || i + 1 == |path| || path[i + 1] == SLASH {
          return false, parent;
        }
        slash := i;
      }
      i := i + 1;
    }
    if slash >= 0 {
      parent := path[..slash];
    }
    return true, parent;
  }

  // ---------------------------------------------------------------- subtrees

  /** `p` lies strictly below directory `d`. */
  predicate Inside(p: Path, d: Path) {
    |d| < |p| && p[..|d|] == d && p[|d|] == SLASH
  }

  /** name_under: `p` is `d` or lies below it. */
  predicate Under(p: Path, d: Path) { p == d || Inside(p, d) }

  /** Below a directory means: the parent is that directory or is below it. */
  lemma InsideParent(p: Path, d: Path)
    requires Canonical(p) && Canonical(d) && Inside(p, d)
    ensures Under(Parent(p), d) && Canonical(Parent(p))
  {
    ParentCanonical(p);
    var k := LastSlash(p, |p|);
    assert k >= |d|;
    assert Parent(p) == p[..k];
    if k > |d| {
      assert p[..k][..|d|] == d;
    } else {
      assert p[..k] == d;
    }
  }

  lemma ParentInside(p: Path)
    requires Canonical(p) && Parent(p) != []
    ensures Inside(p, Parent(p))
  {
  }

  lemma UnderTrans(p: Path, d: Path, e: Path)
    requires Under(p, d) && Under(d, e)
    ensures Under(p, e)
  {
    if p != d && d != e {
      assert p[..|e|] == p[..|d|][..|e|];
      assert p[|e|] == p[..|d|][|e|];
    }
  }

  // ---------------------------------------------------------------- prefix substitution

  /** `p` moved from below `from` to below `to`. */
  function Moved(p: Path, from: Path, to: Path): (q: Path) {
    if Under(p, from) then to + p[|from|..] else p
  }

  lemma MovedUnder(p: Path, from: Path, to: Path)
    requires Under(p, from)
    ensures Under(Moved(p, from, to), to) && |Moved(p, from, to)| == |p| - |from| + |to|
    ensures Moved(p, from, to) == to <==> p == from
  {
    var q := to + p[|from|..];
    assert q[..|to|] == to;
    if p == from {
      assert q == to;
    } else {
      assert q[|to|] == p[|from|];
    }
  }

  lemma MovedOnce(p: Path, q: Path, from: Path, to: Path)
    requires Under(p, from) && Under(q, from) && Moved(p, from, to) == Moved(q, from, to)
    ensures p == q
  {
    var x, y := to + p[|from|..], to + q[|from|..];
    assert x[|to|..] == p[|from|..] && y[|to|..] == q[|from|..];
    assert p == from + p[|from|..] && q == from + q[|from|..];
  }

  lemma MovedCanonical(p: Path, from: Path, to: Path)
    requires Canonical(p) && Canonical(from) && Canonical(to) && Under(p, from) && |p| - |from| + |to| < NAME
    ensures Canonical(Moved(p, from, to))
  {
    var q := Moved(p, from, to);
    MovedUnder(p, from, to);
    if p != from {
      var n := |to|;
      assert forall k | n <= k < |q| :: q[k] == p[k - n + |from|];
      forall k | 0 <= k < |q| - 1 && q[k] == SLASH ensures q[k + 1] != SLASH {
        if k < n - 1 {
          assert to[k] == SLASH && to[k + 1] != SLASH;
        } else if k >= n {
          assert p[k - n + |from|] == SLASH;
          assert p[k - n + |from| + 1] != SLASH;
        }
      }
    }
  }

  /** The parent of a moved path is the moved parent. */
  lemma MovedParent(p: Path, from: Path, to: Path)
    requires Canonical(p) && Canonical(from) && Canonical(to) && Inside(p, from)
    ensures Under(Parent(p), from) && Parent(Moved(p, from, to)) == Moved(Parent(p), from, to)
  {
    InsideParent(p, from);
    var q := Moved(p, from, to);
    var k := LastSlash(p, |p|);
    var j := k - |from| + |to|;
    assert forall i | |to| <= i < |q| :: q[i] == p[i - |to| + |from|];
    assert q[j] == SLASH && forall i | j < i < |q| :: q[i] != SLASH;
    assert LastSlash(q, |q|) == j;
    assert q[..j] == to + p[..k][|from|..];
  }
}
