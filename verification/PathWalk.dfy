/**
 Path normalisation against the working directory (`src/syscall.c`): components pushed and popped in
 one character buffer.
 */
module PathWalk {
  import opened Options

  const BUF: nat := 64

  // ---------------------------------------------------------------- components

  predicate Clean(c: string) { |c| > 0 && '/' !in c }

  predicate Plain(c: string) { Clean(c) && c != "." && c != ".." }

  /** How many characters come before the first slash or the end. */
  function PartLen(s: string): (k: nat)
    ensures k <= |s| && (forall j | 0 <= j < k :: s[j] != '/') && (k < |s| ==> s[k] == '/')
  {
    if s == "" || s[0] == '/' then 0 else 1 + PartLen(s[1..])
  }

  /** The components of `s`: its longest stretches without a slash. */
  function Parts(s: string): (ps: seq<string>)
    decreases |s|
  {
    if s == "" then [] else if s[0] == '/' then Parts(s[1..]) else [s[..PartLen(s)]] + Parts(s[PartLen(s)..])
  }

  lemma {:induction false} PartsClean(s: string)
    ensures forall k | 0 <= k < |Parts(s)| :: Clean(Parts(s)[k])
    decreases |s|
  {
    if s != "" {
      if s[0] == '/' {
        PartsClean(s[1..]);
      } else {
        assert '/' !in s[..PartLen(s)];
        PartsClean(s[PartLen(s)..]);
      }
    }
  }

  // ---------------------------------------------------------------- the meaning

  /** The directory stack after one more component; the root has no parent. */
  function Step(stack: seq<string>, c: string): (r: seq<string>) {
    if c == "." then stack else if c == ".." then (if stack == [] then [] else stack[..|stack| - 1]) else stack + [c]
  }

  function Meaning(stack: seq<string>, parts: seq<string>): (r: seq<string>)
    decreases |parts|
  {
    if parts == [] then stack else Meaning(Step(stack, parts[0]), parts[1..])
  }

  /** A stack as an absolute path; the root is empty here. */
  function Text(stack: seq<string>): (t: string)
    ensures |t| >= |stack|
  {
    if stack == [] then "" else Text(stack[..|stack| - 1]) + "/" + stack[|stack| - 1]
  }

  function Absolute(stack: seq<string>): (t: string) { if stack == [] then "/" else Text(stack) }

  predicate PlainStack(stack: seq<string>) { forall k | 0 <= k < |stack| :: Plain(stack[k]) }

  /** A canonical absolute path. */
  ghost predicate Canonical(p: string) { exists stack :: PlainStack(stack) && p == Absolute(stack) && |p| <= BUF - 2 }

  // ---------------------------------------------------------------- the limited walk

  predicate Pushes(c: string) { c != "." && c != ".." }

  /** The walk of vfs_normalize: it stops when a component does not fit the buffer. */
  function Walk(stack: seq<string>, parts: seq<string>): (r: Option<seq<string>>)
    decreases |parts|
  {
    if parts == [] then Some(stack)
    else if Pushes(parts[0]) && |Text(stack)| + |parts[0]| + 2 >= BUF then None
    else Walk(Step(stack, parts[0]), parts[1..])
  }

  /** Every stack along the way fits the buffer where a component was pushed. */
  ghost predicate Fits(stack: seq<string>, parts: seq<string>) {
    forall k | 0 <= k < |parts| && Pushes(parts[k]) :: |Text(Meaning(stack, parts[..k + 1]))| <= BUF - 2
  }

  lemma TextPush(stack: seq<string>, c: string)
    ensures Text(stack + [c]) == Text(stack) + "/" + c
  {
    assert (stack + [c])[..|stack|] == stack;
  }

  lemma MeaningOne(stack: seq<string>, parts: seq<string>, k: nat)
    requires 0 < k <= |parts|
    ensures Meaning(stack, parts[..k]) == Meaning(Step(stack, parts[0]), parts[1..][..k - 1])
  {
    assert parts[..k][0] == parts[0] && parts[..k][1..] == parts[1..][..k - 1];
  }

  lemma FitsOne(stack: seq<string>, parts: seq<string>)
    requires parts != []
    ensures Fits(stack, parts)
            <==> Fits(Step(stack, parts[0]), parts[1..]) && (Pushes(parts[0]) ==> |Text(Step(stack, parts[0]))| <= BUF - 2)
  {
    var next, rest := Step(stack, parts[0]), parts[1..];
    MeaningOne(stack, parts, 1);
    assert parts[1..][..0] == [];
    assert Meaning(stack, parts[..0 + 1]) == next;
    if Fits(stack, parts) {
      forall k | 0 <= k < |rest| && Pushes(rest[k]) ensures |Text(Meaning(next, rest[..k + 1]))| <= BUF - 2 {
        MeaningOne(stack, parts, k + 2);
        assert parts[..(k + 1) + 1] == parts[..k + 2] && Pushes(parts[k + 1]);
      }
    }
    if Fits(next, rest) && (Pushes(parts[0]) ==> |Text(next)| <= BUF - 2) {
      forall k | 0 <= k < |parts| && Pushes(parts[k]) ensures |Text(Meaning(stack, parts[..k + 1]))| <= BUF - 2 {
        MeaningOne(stack, parts, k + 1);
        if k > 0 {
          assert rest[k - 1] == parts[k] && rest[..(k - 1) + 1] == rest[..k];
        }
      }
    }
  }

  /** The walk succeeds exactly when every pushed stack fits, and then it is the meaning. */
  lemma {:induction false} WalkIs(stack: seq<string>, parts: seq<string>)
    ensures Walk(stack, parts) == if Fits(stack, parts) then Some(Meaning(stack, parts)) else None
    decreases |parts|
  {
    if parts != [] {
      FitsOne(stack, parts);
      TextPush(stack, parts[0]);
      WalkIs(Step(stack, parts[0]), parts[1..]);
    }
  }

  lemma {:induction false} MeaningPlain(stack: seq<string>, parts: seq<string>)
    requires PlainStack(stack) && forall k | 0 <= k < |parts| :: Clean(parts[k])
    ensures PlainStack(Meaning(stack, parts))
    decreases |parts|
  {
    if parts != [] {
      assert Clean(parts[0]);
      MeaningPlain(Step(stack, parts[0]), parts[1..]);
    }
  }

  /** A stack that fits still fits after any walk. */
  lemma {:induction false} WalkShort(stack: seq<string>, parts: seq<string>)
    requires |Text(stack)| <= BUF - 2 && Walk(stack, parts).Some?
    ensures |Text(Walk(stack, parts).value)| <= BUF - 2
    decreases |parts|
  {
    if parts != [] {
      TextPush(stack, parts[0]);
      TextPop(stack);
      WalkShort(Step(stack, parts[0]), parts[1..]);
    }
  }

  lemma TextPop(stack: seq<string>)
    ensures stack != [] ==> |Text(stack[..|stack| - 1])| < |Text(stack)|
  {
  }

  // ---------------------------------------------------------------- round trip

  lemma PartLenIs(s: string, k: nat)
    requires k <= |s| && (forall j | 0 <= j < k :: s[j] != '/') && (k < |s| ==> s[k] == '/')
    ensures PartLen(s) == k
  {
  }

  /** One leading component. */
  lemma PartsFront(c: string, tail: string, s: string)
    requires Clean(c) && (tail == "" || tail[0] == '/') && s == "/" + c + tail
    ensures Parts(s) == [c] + Parts(tail)
  {
    var t := c + tail;
    assert s[1..] == t;
    forall j | 0 <= j < |c| ensures t[j] != '/' {
      assert t[j] == c[j];
    }
    PartLenIs(t, |c|);
    assert t[..|c|] == c && t[|c|..] == tail;
  }

  /** The components of an absolute path are its stack. */
  lemma {:induction false} PartsOfText(stack: seq<string>, tail: string, s: string)
    requires PlainStack(stack) && (tail == "" || tail[0] == '/') && s == Text(stack) + tail
    ensures Parts(s) == stack + Parts(tail)
    decreases |stack|
  {
    if stack == [] {
      assert s == tail;
    } else {
      var n := |stack| - 1;
      var c := stack[n];
      var rest := "/" + c + tail;
      assert s == Text(stack[..n]) + rest;
      PartsOfText(stack[..n], rest, s);
      PartsFront(c, tail, rest);
      assert stack[..n] + ([c] + Parts(tail)) == stack + Parts(tail);
    }
  }

  /** A canonical path has exactly one stack. */
  lemma PartsOfAbsolute(stack: seq<string>)
    requires PlainStack(stack)
    ensures Parts(Absolute(stack)) == stack
  {
    if stack == [] {
      assert "/"[1..] == "";
    } else {
      PartsOfText(stack, "", Text(stack));
    }
  }

  // ---------------------------------------------------------------- normalisation

  /** vfs_normalize with a 64-byte result buffer. */
  function Normalize(cwd: string, path: string): (r: Option<string>) {
    var base := if |path| > 0 && path[0] == '/' then [] else Parts(cwd);
    var w := Walk(base, Parts(path));
    if w.Some? then Some(Absolute(w.value)) else None
  }

  /** Every result is the stack meaning of cwd and path, is canonical and has at most 62 characters. */
  lemma NormalizeMeans(cwd: string, path: string)
    requires Canonical(cwd)
    ensures var base := if |path| > 0 && path[0] == '/' then [] else Parts(cwd);
            && PlainStack(base) && Normalize(cwd, path).Some? == Fits(base, Parts(path))
            && (Normalize(cwd, path).Some? ==>
                  Normalize(cwd, path).value == Absolute(Meaning(base, Parts(path))) && Canonical(Normalize(cwd, path).value))
  {
    var stack :| PlainStack(stack) && cwd == Absolute(stack) && |cwd| <= BUF - 2;
    PartsOfAbsolute(stack);
    var base := if |path| > 0 && path[0] == '/' then [] else Parts(cwd);
    var parts := Parts(path);
    WalkIs(base, parts);
    PartsClean(path);
    MeaningPlain(base, parts);
    if Fits(base, parts) {
      WalkShort(base, parts);
      var r := Meaning(base, parts);
      assert PlainStack(r) && Absolute(r) == Normalize(cwd, path).value;
    }
  }

  lemma {:induction false} WalkPlain(stack: seq<string>, parts: seq<string>)
    requires PlainStack(parts) && |Text(stack + parts)| <= BUF - 2
    ensures Walk(stack, parts) == Some(stack + parts)
    decreases |parts|
  {
    if parts == [] {
      assert stack + parts == stack;
    } else {
      var next := stack + [parts[0]];
      assert next + parts[1..] == stack + parts;
      TextPush(stack, parts[0]);
      TextLonger(next, parts[1..]);
      WalkPlain(next, parts[1..]);
    }
  }

  lemma {:induction false} TextLonger(stack: seq<string>, more: seq<string>)
    ensures |Text(stack)| <= |Text(stack + more)|
    decreases |more|
  {
    if more == [] {
      assert stack + more == stack;
    } else {
      var n := |more| - 1;
      TextLonger(stack, more[..n]);
      assert stack + more == (stack + more[..n]) + [more[n]];
      TextPush(stack + more[..n], more[n]);
    }
  }

  /** A canonical path normalises to itself from any directory. */
  lemma NormalizeTwice(cwd: string, p: string)
    requires Canonical(p)
    ensures Normalize(cwd, p) == Some(p)
  {
    var stack :| PlainStack(stack) && p == Absolute(stack) && |p| <= BUF - 2;
    PartsOfAbsolute(stack);
    AbsoluteSlash(stack);
    assert [] + stack == stack;
    WalkPlain([], stack);
  }

  lemma AbsoluteSlash(stack: seq<string>)
    ensures |Absolute(stack)| > 0 && Absolute(stack)[0] == '/'
  {
    if stack != [] {
      TextSlash(stack);
    }
  }

  lemma {:induction false} TextSlash(stack: seq<string>)
    requires stack != []
    ensures |Text(stack)| > 0 && Text(stack)[0] == '/'
    decreases |stack|
  {
    if |stack| == 1 {
      assert stack[..0] == [];
    } else {
      TextSlash(stack[..|stack| - 1]);
    }
  }

  /** Components that never lead down. */
  predicate Upward(parts: seq<string>) { forall k | 0 <= k < |parts| :: !Pushes(parts[k]) }

  /** The root is its own parent: from any directory, dots and parents alone, however many, lead from `/` to `/`. */
  lemma RootParent(cwd: string, path: string)
    requires |path| > 0 && path[0] == '/' && Upward(Parts(path))
    ensures Normalize(cwd, path) == Some("/")
  {
    WalkUpward(Parts(path));
  }

  lemma {:induction false} WalkUpward(parts: seq<string>)
    requires Upward(parts)
    ensures Walk([], parts) == Some([])
    decreases |parts|
  {
    if parts != [] {
      WalkUpward(parts[1..]);
    }
  }

  /** More parents than there are components lead to the root, wherever the walk begins. */
  lemma {:induction false} ParentsEnough(stack: seq<string>, parts: seq<string>)
    requires |parts| >= |stack| && forall k | 0 <= k < |parts| :: parts[k] == ".."
    ensures Walk(stack, parts) == Some([])
    decreases |parts|
  {
    if parts != [] {
      ParentsEnough(Step(stack, ".."), parts[1..]);
    }
  }

  // ---------------------------------------------------------------- working directories

  /** do_chdir: a directory that exists and whose path fits becomes the working directory. */
  function Chdir(cwd: string, path: string, isDir: string -> bool): (r: string) {
    var n := Normalize(cwd, path);
    if n.Some? && isDir(n.value) && |n.value| < BUF then n.value else cwd
  }

  function Walked(cwd: string, paths: seq<string>, isDir: string -> bool): (r: string)
    decreases |paths|
  {
    if paths == [] then cwd else Walked(Chdir(cwd, paths[0], isDir), paths[1..], isDir)
  }

  /** The working directory stays canonical, whatever is asked for. */
  lemma {:induction false} CwdCanonical(cwd: string, paths: seq<string>, isDir: string -> bool)
    requires Canonical(cwd)
    ensures Canonical(Walked(cwd, paths, isDir))
    decreases |paths|
  {
    if paths != [] {
      NormalizeMeans(cwd, paths[0]);
      CwdCanonical(Chdir(cwd, paths[0], isDir), paths[1..], isDir);
    }
  }

  // ---------------------------------------------------------------- the buffer

  /** Dropping the last component is cutting at the last slash. */
  lemma CutAt(stack: seq<string>, i: nat)
    requires PlainStack(stack) && stack != [] && i <= |Text(stack)| && (i == 0 || Text(stack)[i - 1] == '/')
    requires forall j | i <= j < |Text(stack)| :: Text(stack)[j] != '/'
    ensures i == |Text(stack[..|stack| - 1])| + 1
  {
    var t, c := Text(stack[..|stack| - 1]), stack[|stack| - 1];
    assert Text(stack) == t + "/" + c;
    assert Text(stack)[|t|] == '/';
    forall j | |t| < j < |Text(stack)| ensures Text(stack)[j] != '/' {
      assert Text(stack)[j] == c[j - 1 - |t|];
    }
  }

  class Normalizer {
    const tmp: array<char>
    var n: nat

    ghost predicate Holds(stack: seq<string>)
      reads this, tmp
    {
      tmp.Length == BUF && n < BUF && PlainStack(stack) && tmp[..n] == Text(stack)
    }

    constructor ()
      ensures fresh(tmp) && tmp.Length == BUF && n == 0
    {
      tmp := new char[BUF](_ => '\0');
      n := 0;
    }

    /** Start from the working directory, unless the path is absolute. */
    method Begin(cwd: string, path: string, ghost stack: seq<string>)
      requires tmp.Length == BUF && PlainStack(stack) && cwd == Absolute(stack) && |cwd| <= BUF - 2
      modifies this`n, tmp
      ensures Holds(if |path| > 0 && path[0] == '/' then [] else stack)
    {
      n := 0;
      if |path| == 0 || path[0] != '/' {
        AbsoluteLong(stack);
        if |cwd| > 1 {
          for i := 0 to |cwd|
            invariant tmp[..i] == cwd[..i]
          {
            tmp[i] := cwd[i];
          }
          n := |cwd|;
        }
      }
    }

    /** One component: skipped, popped or pushed; false when it does not fit. */
    method Push(c: string, ghost stack: seq<string>) returns (ok: bool)
      requires Clean(c) && Holds(stack)
      modifies this`n, tmp
      ensures ok == !(Pushes(c) && |Text(stack)| + |c| + 2 >= BUF)
      ensures ok ==> Holds(Step(stack, c))
    {
      if c == "." {
        return true;
      }
      if c == ".." {
        Pop(stack);
        return true;
      }
      if n + |c| + 2 >= BUF {
        return false;
      }
      TextPush(stack, c);
      Append(c);
      return true;
    }

    method Append(c: string)
      requires tmp.Length == BUF && n + |c| + 2 < BUF
      modifies this`n, tmp
      ensures n == old(n) + 1 + |c| && tmp[..n] == old(tmp[..n]) + "/" + c
    {
      ghost var was := tmp[..n];
      tmp[n] := '/';
      n := n + 1;
      for i := 0 to |c|
        invariant n == old(n) + 1 && tmp[..n + i] == was + "/" + c[..i]
      {
        tmp[n + i] := c[i];
      }
      n := n + |c|;
    }

    method Pop(ghost stack: seq<string>)
      requires Holds(stack)
      modifies this`n
      ensures Holds(Step(stack, ".."))
    {
      if n == 0 {
        return;
      }
      var i: int := n;
      while i > 0 && tmp[i - 1] != '/'
        invariant 0 <= i <= n && forall j | i <= j < n :: tmp[j] != '/'
      {
        i := i - 1;
      }
      ghost var t := Text(stack);
      assert forall j | 0 <= j < n :: tmp[j] == t[j];
      CutAt(stack, i);
      ghost var m := |stack| - 1;
      assert t[..i - 1] == Text(stack[..m]);
      if i > 0 {
        i := i - 1;
      }
      n := i;
    }

    /** vfs_normalize. */
    method Run(cwd: string, path: string, ghost stack: seq<string>) returns (r: Option<string>)
      requires tmp.Length == BUF && PlainStack(stack) && cwd == Absolute(stack) && |cwd| <= BUF - 2
      modifies this`n, tmp
      ensures r == Normalize(cwd, path)
    {
      Begin(cwd, path, stack);
      PartsOfAbsolute(stack);
      ghost var cur := if |path| > 0 && path[0] == '/' then [] else stack;
      ghost var goal := Walk(cur, Parts(path));
      var p := 0;
      assert path[0..] == path;
      while p < |path|
        invariant 0 <= p <= |path| && Holds(cur) && goal == Walk(cur, Parts(path[p..]))
        decreases |path| - p
      {
        if path[p] == '/' {
          assert path[p..][1..] == path[p + 1..];
          p := p + 1;
        } else {
          var b := FindEnd(path, p);
          NextPart(path, p, b);
          var c := path[p..b];
          var ok := Push(c, cur);
          if !ok {
            return None;
          }
          cur := Step(cur, c);
          p := b;
        }
      }
      return Some(if n == 0 then "/" else tmp[..n]);
    }

    /** The end of the component that starts at `i`. */
    static method FindEnd(s: string, i: nat) returns (k: nat)
      requires i <= |s|
      ensures i <= k <= |s| && (forall j | i <= j < k :: s[j] != '/') && (k < |s| ==> s[k] == '/')
    {
      k := i;
      while k < |s| && s[k] != '/'
        invariant i <= k <= |s| && forall j | i <= j < k :: s[j] != '/'
      {
        k := k + 1;
      }
    }
  }

  lemma NextPart(s: string, p: nat, b: nat)
    requires p < b <= |s| && (forall j | p <= j < b :: s[j] != '/') && (b < |s| ==> s[b] == '/')
    ensures Clean(s[p..b]) && Parts(s[p..]) == [s[p..b]] + Parts(s[b..]) && Parts(s[p..])[1..] == Parts(s[b..])
  {
    var t := s[p..];
    PartLenIs(t, b - p);
    assert t[..b - p] == s[p..b] && t[b - p..] == s[b..];
  }

  lemma AbsoluteLong(stack: seq<string>)
    requires PlainStack(stack)
    ensures stack != [] ==> |Absolute(stack)| > 1
  {
    if stack != [] {
      assert Plain(stack[|stack| - 1]);
    }
  }
}
