/**
 Position independence: the same image loaded at two bases differs only in relocated words, each by
 the distance between the bases.
 */
module ElfTwoBases {
  import opened Sectors
  import opened Records
  import opened Elf
  import opened ElfReloc

  const W: nat := 0x1_0000_0000

  /** Two windows of the same size, and the lowest linked address. */
  datatype Two = Two(b1: Word, b2: Word, size: nat, min: Word)

  predicate Good(t: Two) {
    && t.b1 > 0 && t.b2 > 0 && t.min <= t.b1 && t.min <= t.b2 && 4 <= t.size && t.b1 + t.size < W && t.b2 + t.size < W
  }

  /** A word moved by the distance between the bases. */
  function Moved(w: Word, t: Two): (r: Word) { (w + t.b2 - t.b1) % W }

  function MovedIf(moves: bool, w: Word, t: Two): (r: Word) { if moves then Moved(w, t) else w }

  lemma Wrap(a: int, k: int)
    ensures (a % W + k) % W == (a + k) % W
  {
    var q := a / W;
    assert a + k == (a % W + k) + W * q;
    WrapTimes(a % W + k, q);
  }

  lemma WrapTimes(a: int, q: int)
    ensures (a + W * q) % W == a % W
  {
    var p, r := a / W, a % W;
    assert a + W * q == W * (p + q) + r;
  }

  /** A linked address ends up the distance further. */
  lemma AddressMoved(x: Word, t: Two)
    requires Good(t)
    ensures Address(x, t.b2 - t.min) == Moved(Address(x, t.b1 - t.min), t)
  {
    Wrap(x + (t.b1 - t.min), t.b2 - t.b1);
  }

  /** Adding a moved value is moving the sum. */
  lemma SumMoved(u: Word, v: Word, t: Two)
    ensures Address(u, Moved(v, t)) == Moved(Address(u, v), t)
  {
    Wrap(v + t.b2 - t.b1, u);
    Wrap(u + v, t.b2 - t.b1);
  }

  /** An address inside the first window lands at the same place in the second. */
  lemma MovedInside(a: Word, t: Two)
    requires Good(t) && t.b1 <= a <= t.b1 + t.size
    ensures Moved(a, t) == a - t.b1 + t.b2
  {
  }

  // ---------------------------------------------------------------- equal but for moved words

  predicate Far(x: nat, n: nat, y: nat, m: nat) { x + n <= y || y + m <= x }

  predicate FarFrom(marks: set<nat>, x: nat, n: nat) { forall o | o in marks :: Far(o, 4, x, n) }

  predicate Marked(marks: set<nat>, x: nat) { exists o | o in marks :: o <= x < o + 4 }

  /** The windows agree, except that the marked words differ by the distance. */
  predicate Alike(m1: seq<Byte>, m2: seq<Byte>, t: Two, marks: set<nat>) {
    && Memory(m1) && Memory(m2) && Good(t)
    && (forall x | 0 <= x < t.size && !Marked(marks, x) :: m1[t.b1 + x] == m2[t.b2 + x])
    && (forall o | o in marks :: o + 4 <= t.size && U32(m2, t.b2 + o) == Moved(U32(m1, t.b1 + o), t))
  }

  lemma ByteAlike(m1: seq<Byte>, m2: seq<Byte>, t: Two, marks: set<nat>, x: nat, n: nat, a1: nat, a2: nat)
    requires Alike(m1, m2, t, marks) && FarFrom(marks, x, n) && x + n <= t.size && t.b1 + x <= a1 < t.b1 + x + n && a2 == a1 - t.b1 + t.b2
    ensures m1[a1] == m2[a2]
  {
    assert !Marked(marks, a1 - t.b1);
  }

  lemma WordAlike(m1: seq<Byte>, m2: seq<Byte>, t: Two, marks: set<nat>, x: nat, a1: nat, a2: nat)
    requires Alike(m1, m2, t, marks) && FarFrom(marks, x, 4) && x + 4 <= t.size && a1 == t.b1 + x && a2 == t.b2 + x
    ensures U32(m1, a1) == U32(m2, a2)
  {
    ByteAlike(m1, m2, t, marks, x, 4, a1, a2);
    ByteAlike(m1, m2, t, marks, x, 4, a1 + 1, a2 + 1);
    ByteAlike(m1, m2, t, marks, x, 4, a1 + 2, a2 + 2);
    ByteAlike(m1, m2, t, marks, x, 4, a1 + 3, a2 + 3);
  }

  lemma RelAlike(m1: seq<Byte>, m2: seq<Byte>, t: Two, marks: set<nat>, x: nat)
    requires Alike(m1, m2, t, marks) && FarFrom(marks, x, 8) && x + 8 <= t.size
    ensures ReadRel(m1, t.b1 + x) == ReadRel(m2, t.b2 + x)
  {
    WordAlike(m1, m2, t, marks, x, t.b1 + x, t.b2 + x);
    WordAlike(m1, m2, t, marks, x + 4, t.b1 + x + 4, t.b2 + x + 4);
  }

  lemma StoredWord(m: seq<Byte>, at: nat, w: Word)
    requires at + 4 <= |m|
    ensures U32(Store32(m, at, w), at) == w
  {
    Word32(w);
  }

  lemma OtherWord(m: seq<Byte>, at: nat, w: Word, x: nat)
    requires at + 4 <= |m| && x + 4 <= |m| && Far(at, 4, x, 4)
    ensures U32(Store32(m, at, w), x) == U32(m, x)
  {
  }

  /** The bytes outside the stored word. */
  lemma StoreElsewhere(m: seq<Byte>, at: nat, w: Word, x: nat)
    requires at + 4 <= |m| && x < |m| && !(at <= x < at + 4)
    ensures Store32(m, at, w)[x] == m[x]
  {
  }

  lemma StoreWithin(m: seq<Byte>, at: nat, w: Word, x: nat)
    requires at + 4 <= |m| && at <= x < at + 4
    ensures Store32(m, at, w)[x] == Put32(w)[x - at]
  {
  }

  /** The marked words survive a store elsewhere. */
  lemma MarkKept(m1: seq<Byte>, m2: seq<Byte>, t: Two, marks: set<nat>, o: nat, w1: Word, w2: Word, n1: seq<Byte>, n2: seq<Byte>, k: nat)
    requires Alike(m1, m2, t, marks) && k in marks && Far(k, 4, o, 4) && o + 4 <= t.size
    requires n1 == Store32(m1, t.b1 + o, w1) && n2 == Store32(m2, t.b2 + o, w2)
    ensures k + 4 <= t.size && U32(n2, t.b2 + k) == Moved(U32(n1, t.b1 + k), t)
  {
    OtherWord(m1, t.b1 + o, w1, t.b1 + k);
    OtherWord(m2, t.b2 + o, w2, t.b2 + k);
  }

  lemma MarksKept(m1: seq<Byte>, m2: seq<Byte>, t: Two, marks: set<nat>, o: nat, w1: Word, w2: Word, n1: seq<Byte>, n2: seq<Byte>)
    requires Alike(m1, m2, t, marks) && FarFrom(marks, o, 4) && o + 4 <= t.size
    requires n1 == Store32(m1, t.b1 + o, w1) && n2 == Store32(m2, t.b2 + o, w2)
    ensures forall k | k in marks :: k + 4 <= t.size && U32(n2, t.b2 + k) == Moved(U32(n1, t.b1 + k), t)
  {
    forall k | k in marks ensures k + 4 <= t.size && U32(n2, t.b2 + k) == Moved(U32(n1, t.b1 + k), t) {
      assert Far(k, 4, o, 4);
      MarkKept(m1, m2, t, marks, o, w1, w2, n1, n2, k);
    }
  }

  /** The same word stored at the same place. */
  lemma StoreSame(m1: seq<Byte>, m2: seq<Byte>, t: Two, marks: set<nat>, o: nat, w: Word)
    requires Alike(m1, m2, t, marks) && FarFrom(marks, o, 4) && o + 4 <= t.size
    ensures Alike(Store32(m1, t.b1 + o, w), Store32(m2, t.b2 + o, w), t, marks)
  {
    var n1, n2 := Store32(m1, t.b1 + o, w), Store32(m2, t.b2 + o, w);
    MarksKept(m1, m2, t, marks, o, w, w, n1, n2);
    forall x | 0 <= x < t.size && !Marked(marks, x) ensures n1[t.b1 + x] == n2[t.b2 + x] {
      if o <= x < o + 4 {
        StoreWithin(m1, t.b1 + o, w, t.b1 + x);
        StoreWithin(m2, t.b2 + o, w, t.b2 + x);
      } else {
        StoreElsewhere(m1, t.b1 + o, w, t.b1 + x);
        StoreElsewhere(m2, t.b2 + o, w, t.b2 + x);
      }
    }
  }

  lemma MarkedMore(marks: set<nat>, o: nat, x: nat)
    ensures Marked(marks, x) || o <= x < o + 4 ==> Marked(marks + {o}, x)
  {
    assert forall k | k in marks :: k in marks + {o};
    assert o in marks + {o};
  }

  /** A word and the moved word stored at the same place. */
  lemma StoreMoved(m1: seq<Byte>, m2: seq<Byte>, t: Two, marks: set<nat>, o: nat, w: Word)
    requires Alike(m1, m2, t, marks) && FarFrom(marks, o, 4) && o + 4 <= t.size
    ensures Alike(Store32(m1, t.b1 + o, w), Store32(m2, t.b2 + o, Moved(w, t)), t, marks + {o})
  {
    var v := Moved(w, t);
    StoredWord(m1, t.b1 + o, w);
    StoredWord(m2, t.b2 + o, v);
    var n1, n2 := Store32(m1, t.b1 + o, w), Store32(m2, t.b2 + o, v);
    MarksKept(m1, m2, t, marks, o, w, v, n1, n2);
    forall x | 0 <= x < t.size && !Marked(marks + {o}, x) ensures n1[t.b1 + x] == n2[t.b2 + x] {
      MarkedMore(marks, o, x);
      StoreElsewhere(m1, t.b1 + o, w, t.b1 + x);
      StoreElsewhere(m2, t.b2 + o, v, t.b2 + x);
    }
  }

  // ---------------------------------------------------------------- one relocation

  /** The two contexts are the same but for where the window lies. */
  predicate Pair(c1: Ctx, c2: Ctx, t: Two) {
    && Good(t) && c1.base == t.b1 && c2.base == t.b2 && c1.limit == t.b1 + t.size && c2.limit == t.b2 + t.size
    && c1.bias == t.b1 - t.min && c2.bias == t.b2 - t.min && c1.syment == c2.syment
    && (c1.symtab == 0 <==> c2.symtab == 0) && (c1.symtab != 0 ==> c2.symtab == Moved(c1.symtab, t))
  }

  predicate Stores(r: Rel) { Kind(r) != R_NONE }

  /** Where a relocation stores and where its symbol is, as offsets in the first window. */
  function Target(c: Ctx, r: Rel): (o: int) { Address(r.offset, c.bias) - c.base }

  function Symbol(c: Ctx, r: Rel): (o: int) { SymbolAt(c, r) - c.base }

  lemma SymbolMoved(c1: Ctx, c2: Ctx, t: Two, r: Rel)
    requires Pair(c1, c2, t) && c1.symtab != 0
    ensures SymbolAt(c2, r) == Moved(SymbolAt(c1, r), t)
  {
    var k := r.info / 256 * c1.syment;
    Wrap(c1.symtab + t.b2 - t.b1, k);
    Wrap(c1.symtab + k, t.b2 - t.b1);
  }

  lemma FieldsAlike(m1: seq<Byte>, m2: seq<Byte>, t: Two, marks: set<nat>, s: nat, a1: nat, a2: nat)
    requires Alike(m1, m2, t, marks) && FarFrom(marks, s, 16) && s + 16 <= t.size && a1 == t.b1 + s && a2 == t.b2 + s
    ensures U16(m1, a1 + 14) == U16(m2, a2 + 14) && U32(m1, a1 + 4) == U32(m2, a2 + 4)
  {
    ByteAlike(m1, m2, t, marks, s, 16, a1 + 14, a2 + 14);
    ByteAlike(m1, m2, t, marks, s, 16, a1 + 15, a2 + 15);
    WordAlike(m1, m2, t, marks, s + 4, a1 + 4, a2 + 4);
  }

  /** The word a relocation stores moves with the image: it adds the bias, or takes a symbol that is not absolute. */
  predicate Moves(m: seq<Byte>, c: Ctx, r: Rel)
    requires Memory(m)
  {
    Kind(r) == R_RELATIVE || (UsesSymbol(r) && SymbolAt(c, r) + 16 <= |m| && U16(m, SymbolAt(c, r) + 14) != SHN_ABS)
  }

  /** A symbol's value is the same when it is absolute, and moved otherwise. */
  lemma SymbolAlike(m1: seq<Byte>, m2: seq<Byte>, t: Two, marks: set<nat>, c1: Ctx, c2: Ctx, r: Rel)
    requires Alike(m1, m2, t, marks) && Pair(c1, c2, t) && SymbolValue(m1, c1, r).Ok? && FarFrom(marks, Symbol(c1, r), 16)
    requires UsesSymbol(r)
    ensures SymbolValue(m2, c2, r).Ok?
    ensures SymbolValue(m2, c2, r).value == MovedIf(Moves(m1, c1, r), SymbolValue(m1, c1, r).value, t)
  {
    SymbolMoved(c1, c2, t, r);
    MovedInside(SymbolAt(c1, r), t);
    FieldsAlike(m1, m2, t, marks, Symbol(c1, r), SymbolAt(c1, r), SymbolAt(c2, r));
    AddressMoved(U32(m1, SymbolAt(c1, r) + 4), t);
  }

  /** A word at the target, the same in both windows so far. */
  lemma TargetAlike(m1: seq<Byte>, m2: seq<Byte>, t: Two, marks: set<nat>, c1: Ctx, c2: Ctx, r: Rel)
    requires Alike(m1, m2, t, marks) && Pair(c1, c2, t) && 0 <= Target(c1, r) <= t.size - 4
    ensures Address(r.offset, c2.bias) == t.b2 + Target(c1, r) && Address(r.offset, c1.bias) == t.b1 + Target(c1, r)
    ensures FarFrom(marks, Target(c1, r), 4) ==> U32(m1, t.b1 + Target(c1, r)) == U32(m2, t.b2 + Target(c1, r))
  {
    AddressMoved(r.offset, t);
    MovedInside(Address(r.offset, c1.bias), t);
    if FarFrom(marks, Target(c1, r), 4) {
      WordAlike(m1, m2, t, marks, Target(c1, r), t.b1 + Target(c1, r), t.b2 + Target(c1, r));
    }
  }

  /** The store of a relocation, equal or moved. */
  lemma StoreAlike(m1: seq<Byte>, m2: seq<Byte>, t: Two, marks: set<nat>, o: nat, w1: Word, w2: Word, n1: seq<Byte>, n2: seq<Byte>,
                   moves: bool)
    returns (after: set<nat>)
    requires Alike(m1, m2, t, marks) && FarFrom(marks, o, 4) && o + 4 <= t.size && w2 == MovedIf(moves, w1, t)
    requires n1 == Store32(m1, t.b1 + o, w1) && n2 == Store32(m2, t.b2 + o, w2)
    ensures Alike(n1, n2, t, after) && after == if moves then marks + {o} else marks
  {
    if moves {
      StoreMoved(m1, m2, t, marks, o, w1);
      after := marks + {o};
    } else {
      StoreSame(m1, m2, t, marks, o, w1);
      after := marks;
    }
  }

  /** The words the two loads store for one relocation. */
  lemma StepWords(m1: seq<Byte>, m2: seq<Byte>, t: Two, marks: set<nat>, c1: Ctx, c2: Ctx, r: Rel) returns (w1: Word, w2: Word)
    requires Alike(m1, m2, t, marks) && Pair(c1, c2, t) && Sandbox(c1.base, c1.limit) && Sandbox(c2.base, c2.limit)
    requires RelStep(m1, c1, r).1 == 0 && Stores(r) && FarFrom(marks, Target(c1, r), 4)
    requires UsesSymbol(r) ==> FarFrom(marks, Symbol(c1, r), 16)
    ensures 0 <= Target(c1, r) <= t.size - 4 && w2 == MovedIf(Moves(m1, c1, r), w1, t)
    ensures RelStep(m1, c1, r) == (Store32(m1, t.b1 + Target(c1, r), w1), 0)
    ensures RelStep(m2, c2, r) == (Store32(m2, t.b2 + Target(c1, r), w2), 0)
  {
    TargetAlike(m1, m2, t, marks, c1, c2, r);
    var u := U32(m1, t.b1 + Target(c1, r));
    if Kind(r) == R_RELATIVE {
      AddressMoved(u, t);
      w1, w2 := Address(u, c1.bias), Address(u, c2.bias);
    } else {
      SymbolAlike(m1, m2, t, marks, c1, c2, r);
      var v1, v2 := SymbolValue(m1, c1, r).value, SymbolValue(m2, c2, r).value;
      SumMoved(u, v1, t);
      w1, w2 := if Kind(r) == R_32 then Address(u, v1) else v1, if Kind(r) == R_32 then Address(u, v2) else v2;
    }
  }

  lemma StepNone(m1: seq<Byte>, m2: seq<Byte>, t: Two, marks: set<nat>, c1: Ctx, c2: Ctx, r: Rel)
    requires Alike(m1, m2, t, marks) && Pair(c1, c2, t) && Sandbox(c1.base, c1.limit) && Sandbox(c2.base, c2.limit)
    requires RelStep(m1, c1, r).1 == 0 && !Stores(r)
    ensures RelStep(m1, c1, r) == (m1, 0) && RelStep(m2, c2, r) == (m2, 0)
  {
    TargetAlike(m1, m2, t, marks, c1, c2, r);
  }

  /** One relocation that the first load carries out is carried out by the second, and they stay alike. */
  lemma StepAlike(m1: seq<Byte>, m2: seq<Byte>, t: Two, marks: set<nat>, c1: Ctx, c2: Ctx, r: Rel)
    returns (n1: seq<Byte>, n2: seq<Byte>, after: set<nat>, w1: Word)
    requires Alike(m1, m2, t, marks) && Pair(c1, c2, t) && Sandbox(c1.base, c1.limit) && Sandbox(c2.base, c2.limit)
    requires RelStep(m1, c1, r).1 == 0
    requires Stores(r) ==> FarFrom(marks, Target(c1, r), 4)
    requires UsesSymbol(r) ==> FarFrom(marks, Symbol(c1, r), 16)
    ensures RelStep(m1, c1, r) == (n1, 0) && RelStep(m2, c2, r) == (n2, 0) && Alike(n1, n2, t, after)
    ensures 0 <= Target(c1, r) && after == if Moves(m1, c1, r) then marks + {Target(c1, r)} else marks
    ensures if Stores(r) then Target(c1, r) <= t.size - 4 && n1 == Store32(m1, t.b1 + Target(c1, r), w1) else n1 == m1
  {
    if Stores(r) {
      var w2;
      w1, w2 := StepWords(m1, m2, t, marks, c1, c2, r);
      n1, n2 := RelStep(m1, c1, r).0, RelStep(m2, c2, r).0;
      after := StoreAlike(m1, m2, t, marks, Target(c1, r), w1, w2, n1, n2, Moves(m1, c1, r));
    } else {
      StepNone(m1, m2, t, marks, c1, c2, r);
      n1, n2, after, w1 := m1, m2, marks, 0;
    }
  }

  // ---------------------------------------------------------------- the tables

  /** A relocation, its place in the window, and whether the word it stores moves. */
  datatype Entry = Entry(at: nat, rel: Rel, moves: bool)

  /** Memory still holds entry `e` as it was listed. */
  predicate Holds(m: seq<Byte>, c: Ctx, e: Entry)
    requires Memory(m)
  {
    && c.base + e.at + 8 <= c.limit && ReadRel(m, c.base + e.at) == e.rel && e.moves == Moves(m, c, e.rel)
  }

  predicate Listed(m: seq<Byte>, c: Ctx, es: seq<Entry>, k: nat)
    requires Memory(m)
  {
    forall i | k <= i < |es| :: Holds(m, c, es[i])
  }

  /** No relocation stores into a relocation table, into a symbol in use, or where another one stores. */
  predicate Tidy(es: seq<Entry>, c: Ctx) {
    && (forall i, j {:trigger Away(es[i].at, 8, Target(c, es[j].rel))} | 0 <= i < |es| && 0 <= j < |es| && Stores(es[j].rel) ::
          Away(es[i].at, 8, Target(c, es[j].rel)))
    && (forall i, j {:trigger Away(Symbol(c, es[i].rel), 16, Target(c, es[j].rel))}
          | 0 <= i < |es| && 0 <= j < |es| && UsesSymbol(es[i].rel) && Stores(es[j].rel) ::
          Away(Symbol(c, es[i].rel), 16, Target(c, es[j].rel)))
    && (forall i, j {:trigger Away(Target(c, es[i].rel), 4, Target(c, es[j].rel))}
          | 0 <= i < |es| && 0 <= j < |es| && i != j && Stores(es[i].rel) && Stores(es[j].rel) ::
          Away(Target(c, es[i].rel), 4, Target(c, es[j].rel)))
  }

  /** `n` bytes at `x` miss the word at `o`. */
  predicate Away(x: int, n: int, o: int) { o + 4 <= x || x + n <= o }

  /** The marks are the targets of those of the first `k` entries whose words move. */
  predicate FromFirst(marks: set<nat>, es: seq<Entry>, c: Ctx, k: nat) {
    && (forall o | o in marks :: exists i | 0 <= i < k && i < |es| :: es[i].moves && Stores(es[i].rel) && Target(c, es[i].rel) == o)
    && (forall i | 0 <= i < k && i < |es| && es[i].moves :: Target(c, es[i].rel) in marks)
  }

  /** What the next entry reads and writes is clear of the marks. */
  lemma NextClear(es: seq<Entry>, c: Ctx, marks: set<nat>, k: nat)
    requires Tidy(es, c) && FromFirst(marks, es, c, k) && k < |es|
    ensures FarFrom(marks, es[k].at, 8)
    ensures Stores(es[k].rel) && Target(c, es[k].rel) >= 0 ==> FarFrom(marks, Target(c, es[k].rel), 4)
    ensures UsesSymbol(es[k].rel) && Symbol(c, es[k].rel) >= 0 ==> FarFrom(marks, Symbol(c, es[k].rel), 16)
  {
    forall o | o in marks
      ensures Far(o, 4, es[k].at, 8)
      ensures Stores(es[k].rel) && Target(c, es[k].rel) >= 0 ==> Far(o, 4, Target(c, es[k].rel), 4)
      ensures UsesSymbol(es[k].rel) && Symbol(c, es[k].rel) >= 0 ==> Far(o, 4, Symbol(c, es[k].rel), 16)
    {
      var i :| 0 <= i < k && i < |es| && es[i].moves && Stores(es[i].rel) && Target(c, es[i].rel) == o;
      assert Away(es[k].at, 8, Target(c, es[i].rel));
      assert Stores(es[k].rel) ==> Away(Target(c, es[k].rel), 4, Target(c, es[i].rel));
      assert UsesSymbol(es[k].rel) ==> Away(Symbol(c, es[k].rel), 16, Target(c, es[i].rel));
    }
  }

  lemma FirstMore(marks: set<nat>, after: set<nat>, es: seq<Entry>, c: Ctx, k: nat)
    requires FromFirst(marks, es, c, k) && k < |es|
    requires 0 <= Target(c, es[k].rel) && (es[k].moves ==> Stores(es[k].rel))
    requires after == if es[k].moves then marks + {Target(c, es[k].rel)} else marks
    ensures FromFirst(after, es, c, k + 1)
  {
    forall o | o in after
      ensures exists i | 0 <= i < k + 1 && i < |es| :: es[i].moves && Stores(es[i].rel) && Target(c, es[i].rel) == o
    {
      if o in marks {
        var i :| 0 <= i < k && i < |es| && es[i].moves && Stores(es[i].rel) && Target(c, es[i].rel) == o;
        assert es[i].moves && Stores(es[i].rel) && Target(c, es[i].rel) == o;
      } else {
        assert es[k].moves && Stores(es[k].rel) && Target(c, es[k].rel) == o;
      }
    }
  }

  lemma RelKept(m: seq<Byte>, at: nat, w: Word, x: nat)
    requires at + 4 <= |m| && x + 8 <= |m| && Away(x, 8, at)
    ensures ReadRel(Store32(m, at, w), x) == ReadRel(m, x)
  {
    OtherWord(m, at, w, x);
    OtherWord(m, at, w, x + 4);
  }

  /** A symbol clear of a store still has its section. */
  lemma MovesKept(m: seq<Byte>, c: Ctx, r: Rel, at: nat, w: Word)
    requires Memory(m) && at + 4 <= |m| && Memory(Store32(m, at, w)) && (UsesSymbol(r) ==> Away(SymbolAt(c, r), 16, at))
    ensures Moves(Store32(m, at, w), c, r) == Moves(m, c, r)
  {
    if UsesSymbol(r) && SymbolAt(c, r) + 16 <= |m| {
      StoreElsewhere(m, at, w, SymbolAt(c, r) + 14);
      StoreElsewhere(m, at, w, SymbolAt(c, r) + 15);
    }
  }

  /** The entries still to come are not disturbed. */
  lemma ListedMore(m: seq<Byte>, n: seq<Byte>, es: seq<Entry>, c: Ctx, k: nat, w: Word)
    requires Memory(m) && Memory(n) && Listed(m, c, es, k) && Tidy(es, c) && k < |es|
    requires if Stores(es[k].rel) then 0 <= Target(c, es[k].rel) <= c.limit - c.base - 4 && n == Store32(m, c.base + Target(c, es[k].rel), w)
             else n == m
    ensures Listed(n, c, es, k + 1)
  {
    forall i | k + 1 <= i < |es| ensures Holds(n, c, es[i]) {
      assert Holds(m, c, es[i]);
      if Stores(es[k].rel) {
        assert Away(es[i].at, 8, Target(c, es[k].rel));
        assert UsesSymbol(es[i].rel) ==> Away(Symbol(c, es[i].rel), 16, Target(c, es[k].rel));
        RelKept(m, c.base + Target(c, es[k].rel), w, c.base + es[i].at);
        MovesKept(m, c, es[i].rel, c.base + Target(c, es[k].rel), w);
      }
    }
  }

  /** Everything known while the tables are worked through: entry `k` is next. */
  predicate Going(m1: seq<Byte>, m2: seq<Byte>, t: Two, c1: Ctx, c2: Ctx, es: seq<Entry>, k: nat, marks: set<nat>) {
    && Alike(m1, m2, t, marks) && Pair(c1, c2, t) && Sandbox(c1.base, c1.limit) && Sandbox(c2.base, c2.limit)
    && k <= |es| && Listed(m1, c1, es, k) && Tidy(es, c1) && FromFirst(marks, es, c1, k)
  }

  lemma StepSymbol(m: seq<Byte>, c: Ctx, r: Rel)
    requires Memory(m) && Sandbox(c.base, c.limit) && RelStep(m, c, r).1 == 0
    ensures Target(c, r) >= 0 && (UsesSymbol(r) ==> Symbol(c, r) >= 0)
  {
  }

  /** One entry in both loads. */
  lemma GoOn(m1: seq<Byte>, m2: seq<Byte>, t: Two, c1: Ctx, c2: Ctx, es: seq<Entry>, k: nat, marks: set<nat>)
    returns (n1: seq<Byte>, n2: seq<Byte>, after: set<nat>)
    requires Going(m1, m2, t, c1, c2, es, k, marks) && k < |es| && RelStep(m1, c1, es[k].rel).1 == 0
    ensures RelStep(m1, c1, es[k].rel) == (n1, 0) && RelStep(m2, c2, es[k].rel) == (n2, 0)
    ensures Going(n1, n2, t, c1, c2, es, k + 1, after)
    ensures ReadRel(m1, t.b1 + es[k].at) == es[k].rel && ReadRel(m2, t.b2 + es[k].at) == es[k].rel
  {
    NextClear(es, c1, marks, k);
    assert Holds(m1, c1, es[k]);
    StepSymbol(m1, c1, es[k].rel);
    RelAlike(m1, m2, t, marks, es[k].at);
    var w;
    n1, n2, after, w := StepAlike(m1, m2, t, marks, c1, c2, es[k].rel);
    FirstMore(marks, after, es, c1, k);
    ListedMore(m1, n1, es, c1, k, w);
  }

  /** `R` is the relocation loop over the table at `at`. */
  ghost predicate IsLoop(R: (seq<Byte>, nat) -> (seq<Byte>, int), c: Ctx, at: nat, n: nat)
    requires Sandbox(c.base, c.limit) && at + 8 * n <= c.limit
  {
    forall m: seq<Byte>, i: nat {:trigger RelFrom(m, c, at, i, n)} | Memory(m) && i <= n :: R(m, i) == RelFrom(m, c, at, i, n)
  }

  lemma LoopEnd(R: (seq<Byte>, nat) -> (seq<Byte>, int), m: seq<Byte>, c: Ctx, at: nat, n: nat)
    requires Memory(m) && Sandbox(c.base, c.limit) && at + 8 * n <= c.limit && IsLoop(R, c, at, n)
    ensures R(m, n) == (m, 0)
  {
    assert RelFrom(m, c, at, n, n) == (m, 0);
  }

  /** A loop that succeeds starts with a step that succeeds. */
  lemma LoopStarts(R: (seq<Byte>, nat) -> (seq<Byte>, int), m: seq<Byte>, c: Ctx, at: nat, i: nat, n: nat, r: Rel)
    requires Memory(m) && Sandbox(c.base, c.limit) && i < n && at + 8 * n <= c.limit && ReadRel(m, at + 8 * i) == r && IsLoop(R, c, at, n)
    requires R(m, i).1 == 0
    ensures RelStep(m, c, r).1 == 0
  {
    assert R(m, i) == RelFrom(m, c, at, i, n);
  }

  lemma LoopNext(R: (seq<Byte>, nat) -> (seq<Byte>, int), m: seq<Byte>, c: Ctx, at: nat, i: nat, n: nat, r: Rel, next: seq<Byte>)
    requires Memory(m) && Sandbox(c.base, c.limit) && i < n && at + 8 * n <= c.limit && ReadRel(m, at + 8 * i) == r && IsLoop(R, c, at, n)
    requires RelStep(m, c, r) == (next, 0)
    ensures R(m, i) == R(next, i + 1)
  {
    assert RelFrom(m, c, at, i, n) == RelFrom(next, c, at, i + 1, n);
  }

  /** Entries `k` on are those of a table at offset `a`, from its row `i` on. */
  predicate Rows(es: seq<Entry>, k: nat, a: nat, i: nat, n: nat) {
    i <= n && k + (n - i) <= |es| && forall j | k <= j < k + (n - i) :: es[j].at == a + 8 * (i + j - k)
  }

  lemma RowsMore(es: seq<Entry>, k: nat, a: nat, i: nat, n: nat)
    requires Rows(es, k, a, i, n) && i < n
    ensures es[k].at == a + 8 * i && Rows(es, k + 1, a, i + 1, n)
  {
  }

  /** `G` is the state of the two loads. */
  ghost predicate IsGoing(G: (seq<Byte>, seq<Byte>, nat, set<nat>) -> bool, t: Two, c1: Ctx, c2: Ctx, es: seq<Entry>) {
    forall a, b, k, q {:trigger Going(a, b, t, c1, c2, es, k, q)} :: G(a, b, k, q) == Going(a, b, t, c1, c2, es, k, q)
  }

  /** Two loops over the same table, at the two bases. */
  datatype Loops = Loops(t: Two, c1: Ctx, c2: Ctx, es: seq<Entry>, a: nat, n: nat)

  predicate LoopsOk(l: Loops) {
    && Pair(l.c1, l.c2, l.t) && Sandbox(l.c1.base, l.c1.limit) && Sandbox(l.c2.base, l.c2.limit) && l.a + 8 * l.n <= l.t.size
  }

  /** One row of a table in both loops. */
  lemma RowOn(l: Loops, G: (seq<Byte>, seq<Byte>, nat, set<nat>) -> bool, R1: (seq<Byte>, nat) -> (seq<Byte>, int),
              R2: (seq<Byte>, nat) -> (seq<Byte>, int), m1: seq<Byte>, m2: seq<Byte>, k: nat, marks: set<nat>, i: nat)
    returns (p1: seq<Byte>, p2: seq<Byte>, next: set<nat>)
    requires LoopsOk(l) && IsGoing(G, l.t, l.c1, l.c2, l.es) && IsLoop(R1, l.c1, l.t.b1 + l.a, l.n) && IsLoop(R2, l.c2, l.t.b2 + l.a, l.n)
    requires G(m1, m2, k, marks) && k < |l.es| && i < l.n && l.es[k].at == l.a + 8 * i && R1(m1, i).1 == 0
    ensures G(p1, p2, k + 1, next) && R1(m1, i) == R1(p1, i + 1) && R2(m2, i) == R2(p2, i + 1)
  {
    assert G(m1, m2, k, marks) == Going(m1, m2, l.t, l.c1, l.c2, l.es, k, marks);
    p1, p2, next := GoOnRow(l, R1, R2, m1, m2, k, marks, i, l.t.b1 + l.a, l.t.b2 + l.a);
    assert G(p1, p2, k + 1, next) == Going(p1, p2, l.t, l.c1, l.c2, l.es, k + 1, next);
  }

  lemma GoOnRow(l: Loops, R1: (seq<Byte>, nat) -> (seq<Byte>, int), R2: (seq<Byte>, nat) -> (seq<Byte>, int),
                m1: seq<Byte>, m2: seq<Byte>, k: nat, marks: set<nat>, i: nat, at1: nat, at2: nat)
    returns (p1: seq<Byte>, p2: seq<Byte>, next: set<nat>)
    requires LoopsOk(l) && at1 == l.t.b1 + l.a && at2 == l.t.b2 + l.a && IsLoop(R1, l.c1, at1, l.n) && IsLoop(R2, l.c2, at2, l.n)
    requires Going(m1, m2, l.t, l.c1, l.c2, l.es, k, marks) && k < |l.es| && i < l.n && l.es[k].at == l.a + 8 * i && R1(m1, i).1 == 0
    ensures Going(p1, p2, l.t, l.c1, l.c2, l.es, k + 1, next) && R1(m1, i) == R1(p1, i + 1) && R2(m2, i) == R2(p2, i + 1)
  {
    var r := l.es[k].rel;
    RowReads(m1, m2, l.t, l.c1, l.c2, l.es, k, marks, at1 + 8 * i, at2 + 8 * i);
    LoopStarts(R1, m1, l.c1, at1, i, l.n, r);
    p1, p2, next := GoOn(m1, m2, l.t, l.c1, l.c2, l.es, k, marks);
    BothNext(R1, R2, m1, m2, l.c1, l.c2, at1, at2, i, l.n, r, p1, p2);
  }

  lemma BothNext(R1: (seq<Byte>, nat) -> (seq<Byte>, int), R2: (seq<Byte>, nat) -> (seq<Byte>, int), m1: seq<Byte>, m2: seq<Byte>,
                 c1: Ctx, c2: Ctx, at1: nat, at2: nat, i: nat, n: nat, r: Rel, p1: seq<Byte>, p2: seq<Byte>)
    requires Memory(m1) && Memory(m2) && Sandbox(c1.base, c1.limit) && Sandbox(c2.base, c2.limit) && i < n
    requires at1 + 8 * n <= c1.limit && at2 + 8 * n <= c2.limit && IsLoop(R1, c1, at1, n) && IsLoop(R2, c2, at2, n)
    requires ReadRel(m1, at1 + 8 * i) == r && ReadRel(m2, at2 + 8 * i) == r
    requires RelStep(m1, c1, r) == (p1, 0) && RelStep(m2, c2, r) == (p2, 0)
    ensures R1(m1, i) == R1(p1, i + 1) && R2(m2, i) == R2(p2, i + 1)
  {
    LoopNext(R1, m1, c1, at1, i, n, r, p1);
    LoopNext(R2, m2, c2, at2, i, n, r, p2);
  }

  lemma RowReads(m1: seq<Byte>, m2: seq<Byte>, t: Two, c1: Ctx, c2: Ctx, es: seq<Entry>, k: nat, marks: set<nat>, a1: nat, a2: nat)
    requires Going(m1, m2, t, c1, c2, es, k, marks) && k < |es| && a1 == t.b1 + es[k].at && a2 == t.b2 + es[k].at
    ensures Memory(m1) && Memory(m2) && es[k].at + 8 <= t.size
    ensures ReadRel(m1, a1) == es[k].rel && ReadRel(m2, a2) == es[k].rel
  {
    NextClear(es, c1, marks, k);
    assert Holds(m1, c1, es[k]);
    RelAlike(m1, m2, t, marks, es[k].at);
  }

  lemma {:induction false} LoopAlike(l: Loops, G: (seq<Byte>, seq<Byte>, nat, set<nat>) -> bool, R1: (seq<Byte>, nat) -> (seq<Byte>, int),
                                     R2: (seq<Byte>, nat) -> (seq<Byte>, int), m1: seq<Byte>, m2: seq<Byte>, k: nat, marks: set<nat>, i: nat,
                                     end: nat)
    returns (n1: seq<Byte>, n2: seq<Byte>, after: set<nat>)
    requires LoopsOk(l) && IsGoing(G, l.t, l.c1, l.c2, l.es) && IsLoop(R1, l.c1, l.t.b1 + l.a, l.n) && IsLoop(R2, l.c2, l.t.b2 + l.a, l.n)
    requires G(m1, m2, k, marks) && Rows(l.es, k, l.a, i, l.n) && R1(m1, i).1 == 0 && end == k + (l.n - i)
    ensures R1(m1, i) == (n1, 0) && R2(m2, i) == (n2, 0) && G(n1, n2, end, after)
    decreases l.n - i
  {
    if i == l.n {
      n1, n2, after := m1, m2, marks;
      assert Going(m1, m2, l.t, l.c1, l.c2, l.es, k, marks);
      LoopEnd(R1, m1, l.c1, l.t.b1 + l.a, l.n);
      LoopEnd(R2, m2, l.c2, l.t.b2 + l.a, l.n);
    } else {
      RowsMore(l.es, k, l.a, i, l.n);
      var p1, p2, next := RowOn(l, G, R1, R2, m1, m2, k, marks, i);
      n1, n2, after := LoopAlike(l, G, R1, R2, p1, p2, k + 1, next, i + 1, end);
    }
  }

  lemma LoopPair(l: Loops, m1: seq<Byte>, m2: seq<Byte>, k: nat, marks: set<nat>, at1: nat, at2: nat, end: nat)
    returns (n1: seq<Byte>, n2: seq<Byte>, after: set<nat>)
    requires LoopsOk(l) && Going(m1, m2, l.t, l.c1, l.c2, l.es, k, marks) && Rows(l.es, k, l.a, 0, l.n) && end == k + l.n
    requires at1 == l.t.b1 + l.a && at2 == l.t.b2 + l.a && RelFrom(m1, l.c1, at1, 0, l.n).1 == 0
    ensures RelFrom(m1, l.c1, at1, 0, l.n) == (n1, 0) && RelFrom(m2, l.c2, at2, 0, l.n) == (n2, 0)
    ensures Going(n1, n2, l.t, l.c1, l.c2, l.es, end, after)
  {
    var G := SomeGoing(m1, m2, l.t, l.c1, l.c2, l.es, k, marks);
    var R1 := SomeLoop(m1, l.c1, at1, l.n);
    var R2 := SomeLoop(m2, l.c2, at2, l.n);
    n1, n2, after := LoopAlike(l, G, R1, R2, m1, m2, k, marks, 0, end);
    ThenGoing(G, n1, n2, l.t, l.c1, l.c2, l.es, end, after);
  }

  lemma ThenGoing(G: (seq<Byte>, seq<Byte>, nat, set<nat>) -> bool, m1: seq<Byte>, m2: seq<Byte>, t: Two, c1: Ctx, c2: Ctx, es: seq<Entry>,
                  k: nat, marks: set<nat>)
    requires IsGoing(G, t, c1, c2, es) && G(m1, m2, k, marks)
    ensures Going(m1, m2, t, c1, c2, es, k, marks)
  {
    assert G(m1, m2, k, marks) == Going(m1, m2, t, c1, c2, es, k, marks);
  }

  lemma SomeGoing(m1: seq<Byte>, m2: seq<Byte>, t: Two, c1: Ctx, c2: Ctx, es: seq<Entry>, k: nat, marks: set<nat>)
    returns (G: (seq<Byte>, seq<Byte>, nat, set<nat>) -> bool)
    requires Going(m1, m2, t, c1, c2, es, k, marks)
    ensures IsGoing(G, t, c1, c2, es) && G(m1, m2, k, marks)
  {
    G := (x, y, j: nat, q) => Going(x, y, t, c1, c2, es, j, q);
  }

  lemma SomeLoop(m: seq<Byte>, c: Ctx, at: nat, n: nat) returns (R: (seq<Byte>, nat) -> (seq<Byte>, int))
    requires Memory(m) && Sandbox(c.base, c.limit) && at + 8 * n <= c.limit
    ensures IsLoop(R, c, at, n) && R(m, 0) == RelFrom(m, c, at, 0, n)
  {
    R := (x: seq<Byte>, i: nat) => if Memory(x) && i <= n then RelFrom(x, c, at, i, n) else (x, 0);
  }

  /** One relocation table in both loads. */
  lemma ArrayAlike(m1: seq<Byte>, m2: seq<Byte>, t: Two, c1: Ctx, c2: Ctx, es: seq<Entry>, k: nat, marks: set<nat>, at: Word, size: Word)
    returns (n1: seq<Byte>, n2: seq<Byte>, after: set<nat>)
    requires Going(m1, m2, t, c1, c2, es, k, marks) && size > 0 && RelArray(m1, c1, at, size).1 == 0
    requires at >= t.b1 ==> Rows(es, k, at - t.b1, 0, size / 8)
    ensures RelArray(m1, c1, at, size) == (n1, 0) && RelArray(m2, c2, Moved(at, t), size) == (n2, 0)
    ensures at >= t.b1 && Going(n1, n2, t, c1, c2, es, k + size / 8, after)
  {
    MovedInside(at, t);
    n1, n2, after := LoopPair(Loops(t, c1, c2, es, at - t.b1, size / 8), m1, m2, k, marks, at, Moved(at, t), k + size / 8);
  }

  // ---------------------------------------------------------------- the dynamic table

  lemma {:induction false} DynAlike(m1: seq<Byte>, m2: seq<Byte>, t: Two, at: Word, i: nat, d: Dyn)
    requires Alike(m1, m2, t, {}) && t.b1 <= at <= t.b1 + t.size && i <= 256
    requires DynFrom(m1, at, t.b1, t.b1 + t.size, i, d).Ok?
    ensures DynFrom(m2, Moved(at, t), t.b2, t.b2 + t.size, i, d) == DynFrom(m1, at, t.b1, t.b1 + t.size, i, d)
    decreases 256 - i, at
  {
    MovedInside(at, t);
    if i < 256 {
      var x := at - t.b1 + 8 * i;
      RowAlike(m1, m2, t, x, at + 8 * i, Moved(at, t) + 8 * i);
      var tag, val := U32(m1, at + 8 * i), U32(m1, at + 8 * i + 4);
      if tag != 0 {
        DynAlike(m1, m2, t, at, i + 1, Tagged(d, tag, val));
      }
    }
  }

  lemma RowAlike(m1: seq<Byte>, m2: seq<Byte>, t: Two, x: nat, a1: nat, a2: nat)
    requires Alike(m1, m2, t, {}) && x + 8 <= t.size && a1 == t.b1 + x && a2 == t.b2 + x
    ensures U32(m1, a1) == U32(m2, a2) && U32(m1, a1 + 4) == U32(m2, a2 + 4)
  {
    RelAlike(m1, m2, t, {}, x);
    assert ReadRel(m1, a1) == ReadRel(m2, a2);
  }

  /** The entries of a table, as the mapped image has them. */
  function Entries(m: seq<Byte>, c: Ctx, at: nat, n: nat): (es: seq<Entry>)
    requires Memory(m) && c.base <= at && at + 8 * n <= |m|
    ensures |es| == n
  {
    seq(n, i requires 0 <= i < n => Entry(at - c.base + 8 * i, ReadRel(m, at + 8 * i), Moves(m, c, ReadRel(m, at + 8 * i))))
  }

  /** The context of a load. */
  function Context(d: Dyn, bias: Word, base: Word, limit: Word): (c: Ctx) {
    Ctx(if d.symtab == 0 then 0 else Address(d.symtab, bias), d.syment, bias, base, limit)
  }

  predicate HasRel(d: Dyn) { d.rel != 0 && d.relsz != 0 }

  predicate HasPlt(d: Dyn) { d.jmprel != 0 && d.pltrelsz != 0 }

  /** Rows of the two tables, one after the other. */
  predicate Laid(es: seq<Entry>, d: Dyn, c: Ctx) {
    var n := if HasRel(d) then d.relsz / 8 else 0;
    var m := if HasPlt(d) then d.pltrelsz / 8 else 0;
    && |es| == n + m
    && (HasRel(d) && Address(d.rel, c.bias) >= c.base ==> Rows(es, 0, Address(d.rel, c.bias) - c.base, 0, n))
    && (HasPlt(d) && Address(d.jmprel, c.bias) >= c.base ==> Rows(es, n, Address(d.jmprel, c.bias) - c.base, 0, m))
  }

  /** The symbol table starts inside the window. */
  lemma ContextPair(d: Dyn, t: Two)
    requires Good(t) && (d.symtab != 0 ==> t.b1 <= Address(d.symtab, t.b1 - t.min) <= t.b1 + t.size)
    ensures Pair(Context(d, t.b1 - t.min, t.b1, t.b1 + t.size), Context(d, t.b2 - t.min, t.b2, t.b2 + t.size), t)
  {
    if d.symtab != 0 {
      AddressMoved(d.symtab, t);
      MovedInside(Address(d.symtab, t.b1 - t.min), t);
    }
  }

  /** Both tables in both loads: the results differ in the words that move, and only there. */
  lemma TablesAlike(m1: seq<Byte>, m2: seq<Byte>, t: Two, d: Dyn, es: seq<Entry>) returns (n1: seq<Byte>, n2: seq<Byte>, marks: set<nat>)
    requires Alike(m1, m2, t, {}) && Tables(m1, d, t.b1 - t.min, t.b1, t.b1 + t.size).1 == 0
    requires d.symtab != 0 ==> t.b1 <= Address(d.symtab, t.b1 - t.min) <= t.b1 + t.size
    requires var c := Context(d, t.b1 - t.min, t.b1, t.b1 + t.size); Laid(es, d, c) && Tidy(es, c) && Listed(m1, c, es, 0)
    ensures Tables(m1, d, t.b1 - t.min, t.b1, t.b1 + t.size) == (n1, 0) && Tables(m2, d, t.b2 - t.min, t.b2, t.b2 + t.size) == (n2, 0)
    ensures Alike(n1, n2, t, marks) && FromFirst(marks, es, Context(d, t.b1 - t.min, t.b1, t.b1 + t.size), |es|)
  {
    var c1, c2 := Context(d, t.b1 - t.min, t.b1, t.b1 + t.size), Context(d, t.b2 - t.min, t.b2, t.b2 + t.size);
    ContextPair(d, t);
    var p1, p2, k := m1, m2, 0;
    marks := {};
    assert Going(m1, m2, t, c1, c2, es, 0, {});
    if HasRel(d) {
      AddressMoved(d.rel, t);
      p1, p2, marks := ArrayAlike(m1, m2, t, c1, c2, es, 0, {}, Address(d.rel, c1.bias), d.relsz);
      k := d.relsz / 8;
    }
    n1, n2 := p1, p2;
    if HasPlt(d) {
      AddressMoved(d.jmprel, t);
      n1, n2, marks := ArrayAlike(p1, p2, t, c1, c2, es, k, marks, Address(d.jmprel, c1.bias), d.pltrelsz);
    }
  }
}
