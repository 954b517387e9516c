/** Differences of any size in which every cell that is read tells the truth although some subset of the difference
    would not: a generator that gives every symbol a cell of its own besides cell 0 (riblt/decoder.go). */
module Spreading {
  import opened Words
  import opened Lists
  import opened Symbols
  import opened Mappings
  import opened Peeling
  import opened Readings

  function SpreadNext(m: Mapping): Mapping {
    Mapping(m.prng, if m.lastIdx == 0 && m.prng > 0 then m.prng else m.lastIdx + WORD_SIZE)
  }

  /** Symbols are their own hashes, and go into cell 0, the cell of their hash, and cells far away. */
  function Spread(): Scheme {
    Scheme(w => w, SpreadNext)
  }

  lemma SpreadAdvances()
    ensures Advancing(Spread())
  {
  }

  lemma SpreadHits(s: Sym, i: nat)
    requires s.hash > 0 && i < WORD_SIZE
    ensures Hits(Spread(), Start(s), i) <==> i == 0 || i == s.hash
  {
    if i > 0 {
      var m := SpreadNext(Start(s));
      assert m == Mapping(s.hash, s.hash);
      assert Hits(Spread(), Start(s), i) == Hits(Spread(), m, i);
      if i > s.hash {
        var far := SpreadNext(m);
        assert Hits(Spread(), m, i) == Hits(Spread(), far, i);
      }
    }
  }

  /** The cells of the symbols in D. */
  ghost function Cells(D: set<Sym>): set<nat> {
    set s | s in D :: s.hash
  }

  /** Cell i > 0 holds the one symbol with hash i, if it is in D. */
  lemma OwnCell(D: set<Sym>, i: nat)
    requires AllUsable(Spread(), D) && 0 < i < WORD_SIZE
    ensures At(Spread(), D, i) == if i in Cells(D) then {Sym(i, i)} else {}
  {
    forall s | s in D
      ensures Hits(Spread(), Start(s), i) <==> s == Sym(i, i)
    {
      SpreadHits(s, i);
    }
  }

  /** The queue lists the cells of the symbols that are left, and after them perhaps cell 0. */
  ghost predicate Lined(D: set<Sym>, queue: seq<nat>, own: seq<nat>) {
    NoDuplicates(own) && Elements(own) == Cells(D) && (queue == own || queue == own + [0])
  }

  /** Whatever is left, the cells that are read tell the truth, and everything is recovered. */
  lemma {:induction false} SpreadTells(n: nat, D: set<Sym>, plus: set<Sym>, queue: seq<nat>, own: seq<nat>)
    requires AllUsable(Spread(), D) && n <= WORD_SIZE && (forall s | s in D :: s.hash < n)
    requires Lined(D, queue, own)
    ensures TellsAll(Spread(), n, D, plus, queue) && WorkedOff(Spread(), n, D, plus, queue) == {}
    decreases |own|
  {
    if own != [] {
      var i := own[0];
      assert i in Elements(own) && queue[0] == i;
      var x := Sym(i, i);
      OwnHead(D, plus, i);
      FirstOut(D, own, x);
      ReopenedIsZero(n, D - {x}, plus, x, queue, n);
      SpreadTells(n, D - {x}, plus, NextQueue(Spread(), n, D, plus, queue), own[1..]);
    } else {
      NothingIsLeft(D, own);
      if queue != [] {
        assert At(Spread(), {}, 0) == {};
        assert queue[1..] == [];
      }
    }
  }

  lemma NothingIsLeft(D: set<Sym>, own: seq<nat>)
    requires Elements(own) == Cells(D) && own == []
    ensures D == {}
  {
    assert forall s | s in D :: s.hash in Cells(D);
    assert Cells(D) == {};
  }

  lemma OwnHead(D: set<Sym>, plus: set<Sym>, i: nat)
    requires AllUsable(Spread(), D) && i in Cells(D)
    ensures i > 0 && At(Spread(), D, i) == {Sym(i, i)} && Sym(i, i) in D && Tells(Spread(), D, plus, i)
    ensures Pick(At(Spread(), D, i)) == Sym(i, i)
  {
    OwnCell(D, i);
    assert Sym(i, i) in At(Spread(), D, i);
    FoldOfOne(Sym(i, i), plus);
  }

  lemma FirstOut(D: set<Sym>, own: seq<nat>, x: Sym)
    requires AllUsable(Spread(), D) && NoDuplicates(own) && Elements(own) == Cells(D)
    requires own != [] && x in D && x.hash == own[0]
    ensures NoDuplicates(own[1..]) && Elements(own[1..]) == Cells(D - {x})
  {
    assert own == [own[0]] + own[1..];
    forall k
      ensures k in own[1..] <==> k in Cells(D - {x})
    {
      assert k in own <==> k in Elements(own);
    }
  }

  /** Only cell 0 can be queued anew. */
  lemma {:induction false} ReopenedIsZero(n: nat, E: set<Sym>, plus: set<Sym>, x: Sym, queue: seq<nat>, k: nat)
    requires k <= n <= WORD_SIZE && 0 < x.hash && x.hash in queue
    ensures var r := ReopenedBy(Spread(), E, plus, x, queue, k); r == [] || (r == [0] && 0 !in queue)
    ensures k == 0 ==> ReopenedBy(Spread(), E, plus, x, queue, k) == []
  {
    if k > 0 {
      ReopenedIsZero(n, E, plus, x, queue, k - 1);
      SpreadHits(x, k - 1);
    }
  }

  /** More symbols are on one side than on the other, by two or more. */
  ghost predicate Lopsided(D: set<Sym>, plus: set<Sym>) {
    |D * plus| >= |D - plus| + 2
  }

  ghost function CellsBelow(D: set<Sym>, n: nat): set<nat> {
    set c | c in Cells(D) && c < n
  }

  lemma {:induction false} FilledIsLined(D: set<Sym>, plus: set<Sym>, n: nat)
    requires AllUsable(Spread(), D) && Lopsided(D, plus) && n <= WORD_SIZE
    ensures forall i: nat | i < n :: TellsEmpty(Spread(), D, plus, i)
    ensures NoDuplicates(Filled(Spread(), D, plus, n)) && Elements(Filled(Spread(), D, plus, n)) == CellsBelow(D, n)
  {
    hide Fold, At, Cells, TellsEmpty;
    if n > 0 {
      var q := Filled(Spread(), D, plus, n - 1);
      FilledIsLined(D, plus, n - 1);
      CellFills(D, plus, n - 1);
      if n - 1 in Cells(D) {
        assert n - 1 !in CellsBelow(D, n - 1) && n - 1 !in Elements(q);
        assert NoDuplicates(q + [n - 1]) && Elements(q + [n - 1]) == Elements(q) + {n - 1};
        assert CellsBelow(D, n) == CellsBelow(D, n - 1) + {n - 1};
      } else {
        assert CellsBelow(D, n) == CellsBelow(D, n - 1);
      }
    }
  }

  /** What cell i looks like when it is received. */
  lemma CellFills(D: set<Sym>, plus: set<Sym>, i: nat)
    requires AllUsable(Spread(), D) && Lopsided(D, plus) && i < WORD_SIZE
    ensures var c := Fold(At(Spread(), D, i), plus);
      TellsEmpty(Spread(), D, plus, i) && (!LooksEmpty(c) && Peelable(c) <==> i in Cells(D))
  {
    if i == 0 {
      CellZeroHoldsAll(Spread(), D);
      FoldCounts(D, plus);
    } else {
      OwnCell(D, i);
      if i in Cells(D) {
        FoldOfOne(Sym(i, i), plus);
      }
    }
  }

  /** Any lopsided difference, however large and whatever subsets of it would lie: every cell that is read tells the
      truth, and everything is recovered. */
  lemma LopsidedTells(D: set<Sym>, plus: set<Sym>, n: nat)
    requires AllUsable(Spread(), D) && Lopsided(D, plus) && n <= WORD_SIZE && forall s | s in D :: s.hash < n
    ensures Advancing(Spread()) && BatchTells(Spread(), D, plus, n)
    ensures WorkedOff(Spread(), n, D, plus, Filled(Spread(), D, plus, n)) == {}
  {
    hide Advancing, Fold, At, Tells, TellsAll, TellsEmpty, WorkedOff, Filled, Lopsided, AllUsable, NoDuplicates;
    SpreadAdvances();
    FilledIsLined(D, plus, n);
    assert (set c | c in Cells(D) && c < n) == Cells(D);
    SpreadTells(n, D, plus, Filled(Spread(), D, plus, n), Filled(Spread(), D, plus, n));
  }

  /** Two symbols on each side whose hashes cancel look like nothing, if they are ever alone in a cell. */
  lemma FourLookEmpty(a: Sym, b: Sym, c: Sym, d: Sym, plus: set<Sym>, D: set<Sym>)
    requires a in plus && b in plus && c !in plus && d !in plus && a != b && c != d && {a, b, c, d} <= D
    requires Xor(Xor(Xor(a.hash, b.hash), c.hash), d.hash) == 0
    ensures !NoCollision(Spread(), D, plus)
  {
    FoldOfFour(a, b, c, d, plus);
    assert !Telling(Spread(), {a, b, c, d}, Fold({a, b, c, d}, plus));
  }

  lemma FoldOfFour(a: Sym, b: Sym, c: Sym, d: Sym, plus: set<Sym>)
    requires a in plus && b in plus && c !in plus && d !in plus && a != b && c != d
    ensures Fold({a, b, c, d}, plus).count == 0
    ensures Fold({a, b, c, d}, plus).checksum == Xor(Xor(Xor(a.hash, b.hash), c.hash), d.hash)
  {
    hide Fold, Xor;
    FoldOfOne(a, plus);
    FoldRemove({a, b}, plus, b);
    FoldRemove({a, b, c}, plus, c);
    FoldRemove({a, b, c, d}, plus, d);
    assert {a, b} - {b} == {a} && {a, b, c} - {c} == {a, b} && {a, b, c, d} - {d} == {a, b, c};
  }

  function Own(h: Word): Sym {
    Sym(h, h)
  }

  lemma Cancels()
    ensures Xor(Xor(Xor(1, 2), 4), 7) == 0
  {
    assert Xor(1, 2) == 3;
    assert Xor(3, 4) == 7;
    assert Xor(7, 7) == 0;
  }

  function OneSide(): set<Sym> {
    {Own(1), Own(2), Own(8), Own(16)}
  }

  function OtherSide(): set<Sym> {
    {Own(4), Own(7)}
  }

  lemma SidesAreLopsided()
    ensures AllUsable(Spread(), OneSide() + OtherSide()) && Lopsided(OneSide() + OtherSide(), OneSide())
    ensures forall s | s in OneSide() + OtherSide() :: s.hash < 17
  {
    assert (OneSide() + OtherSide()) * OneSide() == OneSide();
    assert (OneSide() + OtherSide()) - OneSide() == OtherSide();
  }

  /** A difference in which every cell that is read tells the truth and everything is recovered, although some subset of
      it would lie: the hypothesis about the cells that are read is weaker than that about all subsets. */
  lemma TrueWithCollision()
    ensures var plus, D := OneSide(), OneSide() + OtherSide();
      Advancing(Spread()) && AllUsable(Spread(), D) && !NoCollision(Spread(), D, plus) &&
      BatchTells(Spread(), D, plus, 17) && WorkedOff(Spread(), 17, D, plus, Filled(Spread(), D, plus, 17)) == {}
  {
    SidesAreLopsided();
    Cancels();
    FourLookEmpty(Own(1), Own(2), Own(4), Own(7), OneSide(), OneSide() + OtherSide());
    hide OneSide, OtherSide, Own;
    LopsidedTells(OneSide() + OtherSide(), OneSide(), 17);
  }
}
