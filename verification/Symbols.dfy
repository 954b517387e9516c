/** Source symbols, coded symbols, and the algebra of folding one into the other (riblt/symbol.go). */
module Symbols {
  import opened Words

  const ADD := 1
  const REMOVE := -1

  /** A source symbol together with its hash. */
  datatype Sym = Sym(data: Word, hash: Word)

  /** A coded symbol: the XOR of data, a signed count, and the XOR of hashes. */
  datatype Cell = Cell(sum: Word, count: int, checksum: Word)

  const ZERO := Cell(0, 0, 0)

  function Apply(c: Cell, s: Sym, direction: int): Cell {
    Cell(Xor(c.sum, s.data), c.count + direction, Xor(c.checksum, s.hash))
  }

  function Plus(c: Cell, d: Cell): Cell {
    Cell(Xor(c.sum, d.sum), c.count + d.count, Xor(c.checksum, d.checksum))
  }

  function Single(s: Sym, direction: int): Cell {
    Cell(s.data, direction, s.hash)
  }

  function Sign(s: Sym, plus: set<Sym>): int {
    if s in plus then ADD else REMOVE
  }

  ghost function Pick(D: set<Sym>): Sym
    requires D != {}
  {
    var x :| x in D; x
  }

  /** The content of a cell holding the symbols D, those in plus counted up and the others down. */
  ghost function Fold(D: set<Sym>, plus: set<Sym>): Cell {
    if D == {} then ZERO
    else var x := Pick(D); Apply(Fold(D - {x}, plus), x, Sign(x, plus))
  }

  lemma PlusLaws(a: Cell, b: Cell, c: Cell)
    ensures Plus(Plus(a, b), c) == Plus(a, Plus(b, c))
    ensures Plus(a, b) == Plus(b, a)
    ensures Plus(a, ZERO) == a == Plus(ZERO, a)
  {
    XorLaws(a.sum, b.sum, c.sum);
    XorLaws(0, a.sum, 0);
    XorLaws(0, a.checksum, 0);
    XorLaws(a.checksum, b.checksum, c.checksum);
  }

  lemma ApplySwap(c: Cell, x: Sym, dx: int, y: Sym, dy: int)
    ensures Apply(Apply(c, x, dx), y, dy) == Apply(Apply(c, y, dy), x, dx)
  {
    PlusLaws(c, Single(x, dx), Single(y, dy));
    PlusLaws(c, Single(y, dy), Single(x, dx));
    PlusLaws(Single(x, dx), Single(y, dy), c);
  }

  lemma ApplyPlus(a: Cell, b: Cell, x: Sym, dx: int)
    ensures Apply(Plus(a, b), x, dx) == Plus(a, Apply(b, x, dx))
  {
    PlusLaws(a, b, Single(x, dx));
  }

  /** Applying a symbol twice in opposite directions changes nothing. */
  lemma ApplyCancels(c: Cell, x: Sym, dx: int)
    ensures Apply(Apply(c, x, dx), x, -dx) == c
  {
    PlusLaws(c, Single(x, dx), Single(x, -dx));
    XorLaws(x.data, x.data, 0);
    XorLaws(x.hash, x.hash, 0);
    PlusLaws(c, ZERO, ZERO);
  }

  /** A fold may start from any of its symbols: the order in which a cell was filled does not show. */
  lemma {:induction false} FoldRemove(D: set<Sym>, plus: set<Sym>, x: Sym)
    requires x in D
    ensures Fold(D, plus) == Apply(Fold(D - {x}, plus), x, Sign(x, plus))
  {
    var y := Pick(D);
    if x != y {
      FoldRemove(D - {y}, plus, x);
      FoldRemove(D - {x}, plus, y);
      assert D - {y} - {x} == D - {x} - {y};
      ApplySwap(Fold(D - {x} - {y}, plus), x, Sign(x, plus), y, Sign(y, plus));
    }
  }

  lemma {:induction false} FoldUnion(X: set<Sym>, Y: set<Sym>, plus: set<Sym>)
    requires X !! Y
    ensures Fold(X + Y, plus) == Plus(Fold(X, plus), Fold(Y, plus))
  {
    if Y == {} {
      assert X + Y == X;
      PlusLaws(Fold(X, plus), ZERO, ZERO);
    } else {
      var y := Pick(Y);
      var fx, fy := Fold(X, plus), Fold(Y - {y}, plus);
      calc {
        Fold(X + Y, plus);
        { FoldRemove(X + Y, plus, y); assert X + Y - {y} == X + (Y - {y}); }
        Apply(Fold(X + (Y - {y}), plus), y, Sign(y, plus));
        { FoldUnion(X, Y - {y}, plus); }
        Apply(Plus(fx, fy), y, Sign(y, plus));
        { ApplyPlus(fx, fy, y, Sign(y, plus)); }
        Plus(fx, Fold(Y, plus));
      }
    }
  }

  lemma {:induction false} FoldAgrees(X: set<Sym>, p: set<Sym>, q: set<Sym>)
    requires forall x | x in X :: x in p <==> x in q
    ensures Fold(X, p) == Fold(X, q)
  {
    if X != {} {
      FoldAgrees(X - {Pick(X)}, p, q);
    }
  }

  lemma {:induction false} FoldCancels(X: set<Sym>, p: set<Sym>, q: set<Sym>)
    requires forall x | x in X :: x in p <==> x !in q
    ensures Plus(Fold(X, p), Fold(X, q)) == ZERO
  {
    if X == {} {
      PlusLaws(ZERO, ZERO, ZERO);
    } else {
      var x := Pick(X);
      var fp, fq, d := Fold(X - {x}, p), Fold(X - {x}, q), Sign(x, p);
      calc {
        Plus(Apply(fp, x, d), Apply(fq, x, -d));
        { ApplyPlus(Apply(fp, x, d), fq, x, -d); }
        Apply(Plus(Apply(fp, x, d), fq), x, -d);
        { PlusLaws(Apply(fp, x, d), fq, ZERO); ApplyPlus(fq, fp, x, d); PlusLaws(fq, fp, ZERO); }
        Apply(Apply(Plus(fp, fq), x, d), x, -d);
        { ApplyCancels(Plus(fp, fq), x, d); }
        Plus(fp, fq);
        { FoldCancels(X - {x}, p, q); }
        ZERO;
      }
    }
  }

  /** Taking the symbols of B out of a cell that holds A leaves exactly the symmetric difference, A \ B
      counted up and B \ A counted down. */
  lemma FoldDifference(A: set<Sym>, B: set<Sym>)
    ensures Plus(Fold(A, A), Fold(B, {})) == Fold((A - B) + (B - A), A)
  {
    var I := A * B;
    var a, b, i, j := Fold(A - B, A), Fold(B - A, A), Fold(I, A), Fold(I, {});
    calc {
      Plus(Fold(A, A), Fold(B, {}));
      { FoldUnion(A - B, I, A); assert (A - B) + I == A; }
      Plus(Plus(a, i), Fold(B, {}));
      { FoldUnion(I, B - A, {}); assert I + (B - A) == B; FoldAgrees(B - A, {}, A); }
      Plus(Plus(a, i), Plus(j, b));
      { PlusLaws(a, i, Plus(j, b)); PlusLaws(i, j, b); }
      Plus(a, Plus(Plus(i, j), b));
      { FoldCancels(I, A, {}); PlusLaws(b, ZERO, ZERO); PlusLaws(ZERO, b, ZERO); }
      Plus(a, b);
      { FoldUnion(A - B, B - A, A); }
      Fold((A - B) + (B - A), A);
    }
  }
}
