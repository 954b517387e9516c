/** Sketches: the direct form of encoding, and decoding in one go (riblt/sketch.go). */
module Sketches {
  import opened Words
  import opened Lists
  import opened Symbols
  import opened Mappings
  import opened Windows
  import opened Peeling
  import opened Readings
  import opened Bookkeeping
  import opened Decoders

  /** The first n cells for the symbols S, those in plus counted up and the others down. */
  ghost function CellsOf(sch: Scheme, n: nat, S: set<Sym>, plus: set<Sym>): seq<Cell> {
    seq(n, i requires 0 <= i => Fold(At(sch, S, i), plus))
  }

  /** The sketch of length n that holds the set S. */
  ghost function SketchOf(sch: Scheme, n: nat, S: set<Sym>): seq<Cell> {
    CellsOf(sch, n, S, S)
  }

  function Minus(c: Cell, d: Cell): Cell {
    Cell(Xor(c.sum, d.sum), c.count - d.count, Xor(c.checksum, d.checksum))
  }

  function Negate(c: Cell): Cell {
    Cell(c.sum, -c.count, c.checksum)
  }

  lemma MinusIsPlus(c: Cell, d: Cell)
    ensures Minus(c, d) == Plus(c, Negate(d))
  {
  }

  lemma {:induction false} FoldNegates(X: set<Sym>, p: set<Sym>, q: set<Sym>)
    requires forall x | x in X :: x in p <==> x !in q
    ensures Fold(X, q) == Negate(Fold(X, p))
  {
    if X != {} {
      FoldNegates(X - {Pick(X)}, p, q);
    }
  }

  /** Cell by cell, the sketch of A less the sketch of B holds exactly their symmetric difference. */
  lemma SketchesSubtract(sch: Scheme, n: nat, A: set<Sym>, B: set<Sym>, i: nat)
    requires i < n
    ensures Minus(SketchOf(sch, n, A)[i], SketchOf(sch, n, B)[i]) == CellsOf(sch, n, (A - B) + (B - A), A)[i]
  {
    var a, b := Fold(At(sch, A, i), A), At(sch, B, i);
    calc {
      Minus(a, Fold(b, B));
      { MinusIsPlus(a, Fold(b, B)); }
      Plus(a, Negate(Fold(b, B)));
      { FoldNegates(b, B, {}); }
      Plus(a, Due(sch, B, i, REMOVE));
      { StreamedCell(sch, A, B, i); }
      Fold(At(sch, (A - B) + (B - A), i), A);
    }
  }

  /** Cell i after the symbol t was put into the sketch. */
  function WithSymbol(sch: Scheme, c: Cell, i: nat, t: Sym): Cell {
    if Hits(sch, Start(t), i) then Apply(c, t, ADD) else c
  }

  lemma SketchGrows(sch: Scheme, n: nat, S: set<Sym>, t: Sym, i: nat)
    requires t !in S && i < n
    ensures WithSymbol(sch, SketchOf(sch, n, S)[i], i, t) == SketchOf(sch, n, S + {t})[i]
  {
    var s, s' := At(sch, S, i), At(sch, S + {t}, i);
    FoldAgrees(s, S, S + {t});
    if Hits(sch, Start(t), i) {
      assert s' - {t} == s;
      FoldRemove(s', S + {t}, t);
    } else {
      assert s' == s;
    }
  }

  method AddHashedSymbol(sch: Scheme, s: array<Cell>, t: Sym, ghost S: set<Sym>)
    requires Advancing(sch) && t.hash != 0
    modifies s
    ensures forall i | 0 <= i < s.Length :: s[i] == WithSymbol(sch, old(s[i]), i, t)
    ensures old(s[..]) == SketchOf(sch, s.Length, S) && t !in S ==> s[..] == SketchOf(sch, s.Length, S + {t})
  {
    var m := Start(t);
    TracksFromStart(sch, t);
    ghost var done: nat := 0;
    while m.lastIdx < s.Length
      invariant done <= s.Length && Tracks(sch, t, m, done)
      invariant forall i | 0 <= i < done :: s[i] == WithSymbol(sch, old(s[i]), i, t)
      invariant forall i | done <= i < s.Length :: s[i] == old(s[i])
      decreases s.Length - done
    {
      var idx := m.lastIdx;
      TracksStep(sch, t, m);
      assert forall i | done <= i < idx :: !Hits(sch, m, i);
      s[idx] := Apply(s[idx], t, ADD);
      m := sch.next(m);
      done := idx + 1;
    }
    assert forall i | done <= i < s.Length :: !Hits(sch, m, i);
    if old(s[..]) == SketchOf(sch, s.Length, S) && t !in S {
      forall i | 0 <= i < s.Length
        ensures s[i] == SketchOf(sch, s.Length, S + {t})[i]
      {
        assert old(s[..])[i] == old(s[i]);
        SketchGrows(sch, s.Length, S, t, i);
      }
    }
  }

  /** Subtract s2 from s in place; sketches of different lengths are refused and nothing changes. */
  method Subtract(s: array<Cell>, s2: array<Cell>, ghost sch: Scheme, ghost A: set<Sym>, ghost B: set<Sym>)
      returns (ok: bool)
    modifies s
    ensures ok == (s.Length == s2.Length)
    ensures !ok ==> s[..] == old(s[..])
    ensures ok ==> forall i | 0 <= i < s.Length :: s[i] == Minus(old(s[i]), old(s2[i]))
    ensures ok && old(s[..]) == SketchOf(sch, s.Length, A) && old(s2[..]) == SketchOf(sch, s.Length, B) ==>
      s[..] == CellsOf(sch, s.Length, (A - B) + (B - A), A)
  {
    if s.Length != s2.Length {
      return false;
    }
    for i := 0 to s.Length
      invariant forall k | 0 <= k < i :: s[k] == Minus(old(s[k]), old(s2[k]))
      invariant forall k | i <= k < s.Length :: s[k] == old(s[k]) && s2[k] == old(s2[k])
    {
      s[i] := Minus(s[i], s2[i]);
    }
    if old(s[..]) == SketchOf(sch, s.Length, A) && old(s2[..]) == SketchOf(sch, s.Length, B) {
      forall i | 0 <= i < s.Length
        ensures s[i] == CellsOf(sch, s.Length, (A - B) + (B - A), A)[i]
      {
        assert old(s[..])[i] == old(s[i]) && old(s2[..])[i] == old(s2[i]);
        SketchesSubtract(sch, s.Length, A, B, i);
      }
    }
    ok := true;
  }

  /** Decode a sketch that holds the difference Delta: what is found is all that any order of peeling can find. */
  method Decode(sch: Scheme, s: array<Cell>, ghost Delta: set<Sym>, ghost plus: set<Sym>)
      returns (remote: seq<Sym>, local: seq<Sym>, ok: bool)
    requires Advancing(sch) && AllUsable(sch, Delta) && BatchTells(sch, Delta, plus, s.Length)
    requires s[..] == CellsOf(sch, s.Length, Delta, plus)
    ensures Elements(remote) <= Delta * plus && Elements(local) <= Delta - plus
    ensures NoDuplicates(remote) && NoDuplicates(local)
    ensures IsCore(sch, Delta, s.Length, Left(Delta, remote, local))
    ensures ok <==> s.Length == 0 || Left(Delta, remote, local) == {}
  {
    var dec := new Decoder(sch);
    dec.ReadyIsValid(Delta, plus);
    for i := 0 to s.Length
      invariant fresh(dec) && fresh(dec.local) && fresh(dec.window) && fresh(dec.remote)
      invariant dec.sch == sch && dec.Valid(Delta, plus) && |dec.cs| == i && dec.window.symbols == []
      invariant dec.Remaining(Delta) == Delta && dec.dirty == Filled(sch, Delta, plus, i)
    {
      assert s[..][i] == s[i];
      assert At(sch, Elements([]), i) == {};
      PlusLaws(s[i], ZERO, ZERO);
      dec.AddCodedSymbol(s[i], Delta, plus);
    }
    dec.TryDecode(Delta, plus);
    dec.DecodedIsComplete(Delta, plus);
    EmptyIsEmpty(sch, s.Length);
    remote, local, ok := dec.remote.symbols, dec.local.symbols, dec.Decoded();
  }
}
