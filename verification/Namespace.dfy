/**
 The names of MuFS as a tree (`src/fs.c`): which path each file slot and each directory slot
 carries, and what the naming operations do to them.
 */
module Namespace {
  import opened Options
  import opened Paths
  import opened Records

  type Slots = seq<Option<Path>>

  /** The path of every live file slot and every used directory slot. */
  datatype Names = Names(files: Slots, dirs: Slots)

  predicate Has(s: Slots, p: Path) { exists i | 0 <= i < |s| :: s[i] == Some(p) }

  predicate IsDir(n: Names, p: Path) { p == [] || Has(n.dirs, p) }

  predicate Taken(n: Names, p: Path) { Has(n.files, p) || Has(n.dirs, p) }

  predicate Distinct(s: Slots) {
    forall i, j | 0 <= i < j < |s| && s[i].Some? :: s[i] != s[j]
  }

  predicate Rooted(n: Names, s: Slots) {
    && (forall i | 0 <= i < |s| && s[i].Some? :: Canonical(s[i].value))
    && (forall i {:trigger Parent(s[i].value)} | 0 <= i < |s| && s[i].Some? :: IsDir(n, Parent(s[i].value)))
  }

  /** Names are canonical and unique across files and directories, and every parent is a directory. */
  predicate Tree(n: Names) {
    && Rooted(n, n.files) && Rooted(n, n.dirs) && Distinct(n.files) && Distinct(n.dirs)
    && forall i, j | 0 <= i < |n.files| && 0 <= j < |n.dirs| && n.files[i].Some? :: n.files[i] != n.dirs[j]
  }

  // ---------------------------------------------------------------- ancestors

  /** Parent closure reaches every ancestor: a path below `d` makes `d` a directory. */
  lemma {:induction false} AncestorExists(n: Names, p: Path, d: Path)
    requires Tree(n) && Taken(n, p) && Canonical(d) && Inside(p, d)
    ensures Has(n.dirs, d)
    decreases |p|
  {
    assert Canonical(p) && IsDir(n, Parent(p)) by {
      if Has(n.files, p) {
        var i :| 0 <= i < |n.files| && n.files[i] == Some(p);
        assert Canonical(n.files[i].value);
      } else {
        var i :| 0 <= i < |n.dirs| && n.dirs[i] == Some(p);
        assert Canonical(n.dirs[i].value);
      }
    }
    InsideParent(p, d);
    if Parent(p) != d {
      AncestorExists(n, Parent(p), d);
    }
  }

  // ---------------------------------------------------------------- adding and removing names

  lemma AddDir(n: Names, i: nat, p: Path)
    requires Tree(n) && i < |n.dirs| && n.dirs[i].None? && Canonical(p) && IsDir(n, Parent(p)) && !Taken(n, p)
    ensures Tree(n.(dirs := n.dirs[i := Some(p)]))
  {
    var m := n.(dirs := n.dirs[i := Some(p)]);
    DirsStay(n, m);
  }

  /** Growing the set of directories keeps what was rooted. */
  lemma DirsStay(n: Names, m: Names)
    requires Rooted(n, n.files) && Rooted(n, n.dirs)
    requires |m.dirs| == |n.dirs| && forall j | 0 <= j < |n.dirs| && n.dirs[j].Some? :: m.dirs[j] == n.dirs[j]
    ensures Rooted(m, n.files) && Rooted(m, n.dirs)
    ensures forall p: Path | IsDir(n, p) :: IsDir(m, p)
  {
    forall p: Path | Has(n.dirs, p) ensures Has(m.dirs, p) {
      var j :| 0 <= j < |n.dirs| && n.dirs[j] == Some(p);
      assert m.dirs[j] == Some(p);
    }
  }

  /** A file slot takes the free path `p`, whatever it carried before. */
  lemma NameFile(n: Names, i: nat, p: Path)
    requires Tree(n) && i < |n.files| && Canonical(p) && IsDir(n, Parent(p))
    requires !Has(n.dirs, p) && forall j | 0 <= j < |n.files| && j != i :: n.files[j] != Some(p)
    ensures Tree(n.(files := n.files[i := Some(p)]))
  {
    var m := n.(files := n.files[i := Some(p)]);
    forall j | 0 <= j < |m.dirs| ensures m.dirs[j] != Some(p) {
    }
    assert forall q: Path :: IsDir(n, q) == IsDir(m, q);
  }

  lemma DropFile(n: Names, i: nat)
    requires Tree(n) && i < |n.files|
    ensures Tree(n.(files := n.files[i := None]))
  {
    var m := n.(files := n.files[i := None]);
    assert forall q: Path :: IsDir(n, q) == IsDir(m, q);
  }

  predicate Empty(n: Names, d: Path) {
    && (forall i | 0 <= i < |n.files| && n.files[i].Some? :: !Inside(n.files[i].value, d))
    && (forall i | 0 <= i < |n.dirs| && n.dirs[i].Some? :: !Inside(n.dirs[i].value, d))
  }

  lemma DropDir(n: Names, i: nat)
    requires Tree(n) && i < |n.dirs| && n.dirs[i].Some? && Empty(n, n.dirs[i].value)
    ensures Tree(n.(dirs := n.dirs[i := None]))
  {
    var m := n.(dirs := n.dirs[i := None]);
    var d := n.dirs[i].value;
    forall q: Path | IsDir(n, q) && q != d ensures IsDir(m, q) {
      if q != [] {
        var j :| 0 <= j < |n.dirs| && n.dirs[j] == Some(q);
        assert m.dirs[j] == Some(q);
      }
    }
    forall j | 0 <= j < |m.files| && m.files[j].Some? ensures IsDir(m, Parent(m.files[j].value)) {
      ParentNot(n.files[j].value, d);
    }
    forall j | 0 <= j < |m.dirs| && m.dirs[j].Some? ensures IsDir(m, Parent(m.dirs[j].value)) {
      assert m.dirs[j] == n.dirs[j];
      ParentNot(n.dirs[j].value, d);
    }
  }

  lemma ParentNot(p: Path, d: Path)
    requires Canonical(p) && Canonical(d) && !Inside(p, d)
    ensures Parent(p) != d
  {
    if Parent(p) != [] {
      ParentInside(p);
    }
  }

  // ---------------------------------------------------------------- renaming a subtree

  function MovedSlot(o: Option<Path>, from: Path, to: Path): (r: Option<Path>) {
    if o.Some? then Some(Moved(o.value, from, to)) else None
  }

  function MovedSlots(s: Slots, from: Path, to: Path): (r: Slots)
    ensures |r| == |s| && forall i | 0 <= i < |s| :: r[i] == MovedSlot(s[i], from, to)
  {
    seq(|s|, i requires 0 <= i < |s| => MovedSlot(s[i], from, to))
  }

  /** Every name below `from` moved below `to`. */
  function MovedNames(n: Names, from: Path, to: Path): (m: Names) {
    Names(MovedSlots(n.files, from, to), MovedSlots(n.dirs, from, to))
  }

  predicate Short(s: Slots, from: Path, to: Path) {
    forall i | 0 <= i < |s| && s[i].Some? && Under(s[i].value, from) :: |to| + |s[i].value| - |from| < NAME
  }

  /** The checks fs_rename_dir makes before it changes anything. */
  predicate CanMove(n: Names, from: Path, to: Path) {
    && from != [] && Has(n.dirs, from) && Canonical(to) && IsDir(n, Parent(to)) && !Taken(n, to) && !Under(to, from)
    && Short(n.files, from, to) && Short(n.dirs, from, to)
  }

  lemma DirCanonical(n: Names, p: Path)
    requires Tree(n) && Has(n.dirs, p)
    ensures Canonical(p)
  {
    var i :| 0 <= i < |n.dirs| && n.dirs[i] == Some(p);
    assert Canonical(n.dirs[i].value);
  }

  /** No name is already where a moved name goes: it would need `to` as an ancestor. */
  lemma NoCollision(n: Names, from: Path, to: Path, p: Path, q: Path)
    requires Tree(n) && CanMove(n, from, to) && Taken(n, p) && Taken(n, q)
    requires Moved(p, from, to) == Moved(q, from, to)
    ensures p == q
  {
    if Under(p, from) && Under(q, from) {
      MovedOnce(p, q, from, to);
    } else if Under(p, from) {
      MovedUnder(p, from, to);
      if Inside(q, to) {
        AncestorExists(n, q, to);
      }
    } else if Under(q, from) {
      MovedUnder(q, from, to);
      if Inside(p, to) {
        AncestorExists(n, p, to);
      }
    }
  }

  lemma SlotTaken(n: Names, i: nat, file: bool)
    requires if file then i < |n.files| && n.files[i].Some? else i < |n.dirs| && n.dirs[i].Some?
    ensures Taken(n, (if file then n.files[i] else n.dirs[i]).value)
  {
    assert file ==> n.files[i] == Some(n.files[i].value);
    assert !file ==> n.dirs[i] == Some(n.dirs[i].value);
  }

  lemma MovedDistinct(n: Names, from: Path, to: Path)
    requires Tree(n) && CanMove(n, from, to)
    ensures var m := MovedNames(n, from, to);
            && Distinct(m.files) && Distinct(m.dirs)
            && forall i, j | 0 <= i < |m.files| && 0 <= j < |m.dirs| && m.files[i].Some? :: m.files[i] != m.dirs[j]
  {
    var m := MovedNames(n, from, to);
    forall i, j | 0 <= i < j < |m.files| && m.files[i].Some? ensures m.files[i] != m.files[j] {
      if m.files[i] == m.files[j] {
        SlotTaken(n, i, true);
        SlotTaken(n, j, true);
        NoCollision(n, from, to, n.files[i].value, n.files[j].value);
      }
    }
    forall i, j | 0 <= i < j < |m.dirs| && m.dirs[i].Some? ensures m.dirs[i] != m.dirs[j] {
      if m.dirs[i] == m.dirs[j] {
        SlotTaken(n, i, false);
        SlotTaken(n, j, false);
        NoCollision(n, from, to, n.dirs[i].value, n.dirs[j].value);
      }
    }
    forall i, j | 0 <= i < |m.files| && 0 <= j < |m.dirs| && m.files[i].Some? ensures m.files[i] != m.dirs[j] {
      if m.files[i] == m.dirs[j] {
        SlotTaken(n, i, true);
        SlotTaken(n, j, false);
        NoCollision(n, from, to, n.files[i].value, n.dirs[j].value);
      }
    }
  }

  lemma MovedDir(n: Names, from: Path, to: Path, p: Path)
    requires Has(n.dirs, p)
    ensures Has(MovedNames(n, from, to).dirs, Moved(p, from, to))
  {
    var j :| 0 <= j < |n.dirs| && n.dirs[j] == Some(p);
    assert MovedNames(n, from, to).dirs[j] == Some(Moved(p, from, to));
  }

  /** The parent of a moved name is a directory afterwards. */
  lemma MovedRooted(n: Names, from: Path, to: Path, p: Path)
    requires Tree(n) && CanMove(n, from, to) && Canonical(p) && IsDir(n, Parent(p))
    requires Under(p, from) ==> |to| + |p| - |from| < NAME
    ensures Canonical(Moved(p, from, to)) && IsDir(MovedNames(n, from, to), Parent(Moved(p, from, to)))
  {
    DirCanonical(n, from);
    if p == from {
      MovedUnder(p, from, to);
      var up := Parent(to);
      if up != [] {
        if Under(up, from) {
          ParentInside(to);
          UnderTrans(to, up, from);
        }
        MovedDir(n, from, to, up);
      }
    } else if Inside(p, from) {
      MovedCanonical(p, from, to);
      MovedParent(p, from, to);
      MovedDir(n, from, to, Parent(p));
    } else {
      var up := Parent(p);
      if up != [] {
        ParentInside(p);
        if Under(up, from) {
          UnderTrans(p, up, from);
        }
        MovedDir(n, from, to, up);
      }
    }
  }

  /** Renaming a subtree keeps the tree. */
  lemma MoveKeepsTree(n: Names, from: Path, to: Path)
    requires Tree(n) && CanMove(n, from, to)
    ensures Tree(MovedNames(n, from, to))
  {
    var m := MovedNames(n, from, to);
    MovedDistinct(n, from, to);
    forall i | 0 <= i < |m.files| && m.files[i].Some?
      ensures Canonical(m.files[i].value) && IsDir(m, Parent(m.files[i].value))
    {
      MovedRooted(n, from, to, n.files[i].value);
    }
    forall i | 0 <= i < |m.dirs| && m.dirs[i].Some?
      ensures Canonical(m.dirs[i].value) && IsDir(m, Parent(m.dirs[i].value))
    {
      MovedRooted(n, from, to, n.dirs[i].value);
    }
  }

  // ---------------------------------------------------------------- looking paths up

  /** fs_open: the first slot with this path. */
  function Find(s: Slots, p: Path, from: nat): (r: Option<nat>)
    requires from <= |s|
    ensures r.Some? ==> from <= r.value < |s| && s[r.value] == Some(p)
    ensures r.None? ==> forall i | from <= i < |s| :: s[i] != Some(p)
    decreases |s| - from
  {
    if from == |s| then None else if s[from] == Some(p) then Some(from) else Find(s, p, from + 1)
  }

  /** After a rename every path that named a file slot names it under its moved name, and nothing else does. */
  lemma MoveLookup(n: Names, from: Path, to: Path, p: Path)
    requires Tree(n) && CanMove(n, from, to) && Taken(n, p)
    ensures Find(MovedNames(n, from, to).files, Moved(p, from, to), 0) == Find(n.files, p, 0)
    ensures Find(MovedNames(n, from, to).dirs, Moved(p, from, to), 0) == Find(n.dirs, p, 0)
  {
    var m := MovedNames(n, from, to);
    var q := Moved(p, from, to);
    forall i | 0 <= i < |n.files| ensures m.files[i] == Some(q) <==> n.files[i] == Some(p) {
      if m.files[i] == Some(q) {
        SlotTaken(n, i, true);
        NoCollision(n, from, to, n.files[i].value, p);
      }
    }
    forall i | 0 <= i < |n.dirs| ensures m.dirs[i] == Some(q) <==> n.dirs[i] == Some(p) {
      if m.dirs[i] == Some(q) {
        SlotTaken(n, i, false);
        NoCollision(n, from, to, n.dirs[i].value, p);
      }
    }
    FindSame(n.files, m.files, p, q, 0);
    FindSame(n.dirs, m.dirs, p, q, 0);
  }

  lemma {:induction false} FindSame(s: Slots, r: Slots, p: Path, q: Path, from: nat)
    requires |r| == |s| && from <= |s| && forall i | 0 <= i < |s| :: r[i] == Some(q) <==> s[i] == Some(p)
    ensures Find(r, q, from) == Find(s, p, from)
    decreases |s| - from
  {
    if from < |s| {
      FindSame(s, r, p, q, from + 1);
    }
  }

  /** ... and a path that is no moved name names nothing. */
  lemma MoveNothingElse(n: Names, from: Path, to: Path, q: Path)
    requires Tree(n) && CanMove(n, from, to) && Taken(MovedNames(n, from, to), q)
    ensures exists p: Path :: Taken(n, p) && q == Moved(p, from, to)
  {
    var m := MovedNames(n, from, to);
    if Has(m.files, q) {
      var i :| 0 <= i < |m.files| && m.files[i] == Some(q);
      SlotTaken(n, i, true);
      assert Taken(n, n.files[i].value) && q == Moved(n.files[i].value, from, to);
    } else {
      var i :| 0 <= i < |m.dirs| && m.dirs[i] == Some(q);
      SlotTaken(n, i, false);
      assert Taken(n, n.dirs[i].value) && q == Moved(n.dirs[i].value, from, to);
    }
  }
}
