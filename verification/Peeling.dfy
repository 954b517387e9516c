/** What peeling can and cannot recover, independent of the order in which it is done (riblt/decoder.go). */
module Peeling {
  import opened Words
  import opened Lists
  import opened Symbols
  import opened Mappings
  import opened Windows

  /** No accident in the checksums of the difference: only the empty subset looks empty, and only a single symbol
      looks like a single symbol. The symbols in plus are counted up, the others down. */
  ghost predicate NoCollision(sch: Scheme, Delta: set<Sym>, plus: set<Sym>) {
    forall D | D <= Delta :: Telling(sch, D, Fold(D, plus))
  }

  ghost predicate Telling(sch: Scheme, D: set<Sym>, c: Cell) {
    && (LooksEmpty(c) ==> D == {})
    && (LooksPure(sch, c) ==> |D| == 1)
  }

  predicate LooksEmpty(c: Cell) {
    c.count == 0 && c.checksum == 0
  }

  predicate LooksPure(sch: Scheme, c: Cell) {
    (c.count == 1 || c.count == -1) && sch.hash(c.sum) == c.checksum
  }

  /** D has no pure cell among the first n: peeling the first n cells cannot make progress on D. */
  ghost predicate Stopping(sch: Scheme, D: set<Sym>, n: nat) {
    forall i | 0 <= i < n :: |At(sch, D, i)| != 1
  }

  /** D keeps every part of Delta that peeling the first n cells can never take away. */
  ghost predicate KeepsStopping(sch: Scheme, Delta: set<Sym>, n: nat, D: set<Sym>) {
    forall E | E <= Delta && Stopping(sch, E, n) :: E <= D
  }

  /** D is the greatest part of Delta that has no pure cell among the first n. */
  ghost predicate IsCore(sch: Scheme, Delta: set<Sym>, n: nat, D: set<Sym>) {
    D <= Delta && Stopping(sch, D, n) && KeepsStopping(sch, Delta, n, D)
  }

  /** Whatever order the cells were peeled in, the symbols left over are the same. */
  lemma CoreIsUnique(sch: Scheme, Delta: set<Sym>, n: nat, D: set<Sym>, E: set<Sym>)
    requires IsCore(sch, Delta, n, D) && IsCore(sch, Delta, n, E)
    ensures D == E
  {
    assert D <= E && E <= D;
  }

  lemma StoppingNeedsFewerCells(sch: Scheme, Delta: set<Sym>, n: nat, D: set<Sym>)
    requires KeepsStopping(sch, Delta, n, D)
    ensures KeepsStopping(sch, Delta, n + 1, D)
  {
    forall E | E <= Delta && Stopping(sch, E, n + 1)
      ensures E <= D
    {
      assert Stopping(sch, E, n);
    }
  }

  lemma SingletonOf<T>(S: set<T>, x: T)
    requires |S| == 1 && x in S
    ensures S == {x}
  {
    assert |S - {x}| == 0;
  }

  /** Peeling the symbol of a pure cell never breaks into a stopping part. */
  lemma PeelKeepsStopping(sch: Scheme, Delta: set<Sym>, n: nat, D: set<Sym>, i: nat, x: Sym)
    requires KeepsStopping(sch, Delta, n, D) && i < n && At(sch, D, i) == {x}
    ensures KeepsStopping(sch, Delta, n, D - {x})
  {
    forall E | E <= Delta && Stopping(sch, E, n)
      ensures E <= D - {x}
    {
      assert At(sch, E, i) <= At(sch, D, i);
      assert x in E ==> At(sch, E, i) == {x};
    }
  }

  /** Every symbol goes into cell 0, so an empty cell 0 means that nothing is left. */
  lemma CellZeroHoldsAll(sch: Scheme, D: set<Sym>)
    ensures At(sch, D, 0) == D
  {
  }

  /** The content of a cell that holds one symbol. */
  lemma FoldOfOne(x: Sym, plus: set<Sym>)
    ensures Fold({x}, plus) == Single(x, Sign(x, plus))
  {
    calc {
      Fold({x}, plus);
      { FoldRemove({x}, plus, x); assert {x} - {x} == {}; }
      Apply(ZERO, x, Sign(x, plus));
      Plus(ZERO, Single(x, Sign(x, plus)));
      { PlusLaws(Single(x, Sign(x, plus)), ZERO, ZERO); }
      Single(x, Sign(x, plus));
    }
  }

  /** The count of a cell is the number of its symbols on one side less the number on the other. */
  lemma {:induction false} FoldCounts(D: set<Sym>, plus: set<Sym>)
    ensures Fold(D, plus).count == |D * plus| - |D - plus|
  {
    if D != {} {
      var x := Pick(D);
      FoldCounts(D - {x}, plus);
      if x in plus {
        assert D * plus == (D - {x}) * plus + {x} && D - plus == D - {x} - plus;
      } else {
        assert D - plus == (D - {x} - plus) + {x} && D * plus == (D - {x}) * plus;
      }
    }
  }

  /** NoCollision is not empty: it holds of every difference of at most two symbols with different hashes. */
  lemma NoCollisionForTwo(sch: Scheme, x: Sym, y: Sym, plus: set<Sym>)
    requires x.hash != y.hash
    ensures NoCollision(sch, {x, y}, plus)
  {
    hide Fold, Telling;
    forall D | D <= {x, y}
      ensures Telling(sch, D, Fold(D, plus))
    {
      assert D == {} || D == {x} || D == {y} || D == {x, y};
      TellsOfOne(sch, x, plus);
      TellsOfOne(sch, y, plus);
      TellsOfTwo(sch, x, y, plus);
      TellsOfNone(sch, plus);
    }
  }

  lemma TellsOfNone(sch: Scheme, plus: set<Sym>)
    ensures Telling(sch, {}, Fold({}, plus))
  {
  }

  lemma TellsOfOne(sch: Scheme, x: Sym, plus: set<Sym>)
    ensures Telling(sch, {x}, Fold({x}, plus))
  {
    hide Fold;
    FoldOfOne(x, plus);
  }

  lemma TellsOfTwo(sch: Scheme, x: Sym, y: Sym, plus: set<Sym>)
    requires x.hash != y.hash
    ensures Telling(sch, {x, y}, Fold({x, y}, plus))
  {
    hide Fold, Xor;
    FoldOfOne(y, plus);
    FoldRemove({x, y}, plus, x);
    assert {x, y} - {x} == {y};
    XorLaws(y.hash, x.hash, x.hash);
    XorLaws(x.hash, x.hash, 0);
    XorLaws(x.hash, 0, 0);
  }

  /** It holds of every difference of any size whose symbols are all on one side. */
  lemma NoCollisionOneSided(sch: Scheme, Delta: set<Sym>, plus: set<Sym>)
    requires Delta <= plus || Delta !! plus
    ensures NoCollision(sch, Delta, plus)
  {
    forall D | D <= Delta
      ensures Telling(sch, D, Fold(D, plus))
    {
      FoldCounts(D, plus);
      assert if Delta <= plus then D * plus == D && D - plus == {} else D - plus == D && D * plus == {};
    }
  }

  /** Without it the verdict can be wrong: two different symbols with one hash, one on each side, look like nothing. */
  lemma CollisionLooksEmpty(x: Sym, y: Sym)
    requires x != y && x.hash == y.hash
    ensures LooksEmpty(Fold({x, y}, {x}))
  {
    FoldOfOne(y, {x});
    FoldRemove({x, y}, {x}, x);
    assert {x, y} - {x} == {y};
    XorLaws(x.hash, y.hash, 0);
  }
}
