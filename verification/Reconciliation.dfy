/** Two sets reconciled end to end, by streaming coded symbols and in one batch: both recover exactly the two sides of
    the difference, or exactly the same part of them (riblt/codec_test.go, benchmark/main.go). */
module Reconciliation {
  import opened Words
  import opened Lists
  import opened Symbols
  import opened Mappings
  import opened Windows
  import opened Peeling
  import opened Readings
  import opened Bookkeeping
  import opened Decoders
  import opened Sketches

  ghost function Difference(a: seq<Sym>, b: seq<Sym>): set<Sym> {
    (Elements(a) - Elements(b)) + (Elements(b) - Elements(a))
  }

  /** Two lists of distinct usable symbols. */
  ghost predicate Reconcilable(sch: Scheme, a: seq<Sym>, b: seq<Sym>) {
    && Advancing(sch) && NoDuplicates(a) && NoDuplicates(b)
    && AllUsable(sch, Elements(a)) && AllUsable(sch, Elements(b))
  }

  /** The lists are parts of the two sides of the difference, and what they leave out is the part that no order of
      peeling the first n cells can recover. */
  ghost predicate RecoversAll(sch: Scheme, a: seq<Sym>, b: seq<Sym>, n: nat, remote: seq<Sym>, local: seq<Sym>) {
    && Elements(remote) <= Elements(a) - Elements(b) && Elements(local) <= Elements(b) - Elements(a)
    && IsCore(sch, Difference(a, b), n, Left(Difference(a, b), remote, local))
  }

  /** The two lists are exactly the two sides of the difference, each symbol once. */
  ghost predicate Exact(a: seq<Sym>, b: seq<Sym>, remote: seq<Sym>, local: seq<Sym>) {
    && Elements(remote) == Elements(a) - Elements(b) && NoDuplicates(remote)
    && Elements(local) == Elements(b) - Elements(a) && NoDuplicates(local)
  }

  method Load(sch: Scheme, w: CodingWindow, a: seq<Sym>)
    requires w.Valid() && w.sch == sch && w.symbols == [] && w.nextIdx == 0
    requires NoDuplicates(a) && AllUsable(sch, Elements(a))
    modifies w
    ensures w.Valid() && w.symbols == a && w.nextIdx == 0
  {
    for i := 0 to |a|
      invariant w.Valid() && w.symbols == a[..i] && w.nextIdx == 0
    {
      assert a[i] in Elements(a);
      w.AddHashedSymbol(a[i]);
    }
  }

  ghost predicate Linked(enc: CodingWindow, dec: Decoder, a: seq<Sym>, b: seq<Sym>, n: nat)
    reads enc, dec, dec.local, dec.window, dec.remote
  {
    && enc != dec.local && enc != dec.window && enc != dec.remote && enc.sch == dec.sch
    && enc.Valid() && enc.symbols == a && enc.nextIdx == n
    && dec.Valid(Difference(a, b), Elements(a)) && dec.window.symbols == b && |dec.cs| == n
  }

  /** One more coded symbol from the encoder to the decoder, which then tries to decode if tries[i] says so. */
  method StreamOne(enc: CodingWindow, dec: Decoder, ghost a: seq<Sym>, ghost b: seq<Sym>, tries: seq<bool>, i: nat)
    requires i < |tries| && Linked(enc, dec, a, b, i)
    requires StreamTells(dec.sch, i, dec.Remaining(Difference(a, b)), Elements(a), dec.dirty, tries[i..])
    modifies enc, dec, dec.local, dec.window, dec.remote
    ensures Linked(enc, dec, a, b, i + 1)
    ensures StreamTells(dec.sch, i + 1, dec.Remaining(Difference(a, b)), Elements(a), dec.dirty, tries[i + 1..])
    ensures tries[i] ==> IsCore(dec.sch, Difference(a, b), i + 1, dec.Remaining(Difference(a, b)))
  {
    hide Agrees, Fold, At, IsCore;
    assert tries[i..][0] == tries[i] && tries[i..][1..] == tries[i + 1..];
    var c := enc.ProduceNextCodedSymbol();
    StreamedCell(dec.sch, Elements(a), Elements(b), i);
    dec.AddCodedSymbol(c, Difference(a, b), Elements(a));
    if tries[i] {
      dec.TryDecode(Difference(a, b), Elements(a));
    }
  }

  /** Stream |tries| coded symbols of the set a to a decoder that has the set b, trying to decode after the i-th one if
      tries[i] says so, when every cell that the decoder reads tells the truth. */
  method Stream(sch: Scheme, a: seq<Sym>, b: seq<Sym>, tries: seq<bool>)
      returns (remote: seq<Sym>, local: seq<Sym>, decoded: bool)
    requires Reconcilable(sch, a, b) && StreamTells(sch, 0, Difference(a, b), Elements(a), [], tries)
    ensures |tries| > 0 ==> (decoded <==> Exact(a, b, remote, local))
    ensures |tries| > 0 && tries[|tries| - 1] ==> RecoversAll(sch, a, b, |tries|, remote, local)
  {
    hide Reconcilable, Linked, StreamTells, IsCore, Exact, Difference, Elements;
    ghost var Delta, A := Difference(a, b), Elements(a);
    var enc, dec := Connect(sch, a, b);
    assert tries[0..] == tries;
    for i := 0 to |tries|
      invariant fresh(enc) && fresh(dec) && fresh(dec.local) && fresh(dec.window) && fresh(dec.remote)
      invariant dec.sch == sch && Linked(enc, dec, a, b, i)
      invariant StreamTells(sch, i, dec.Remaining(Delta), A, dec.dirty, tries[i..])
      invariant i > 0 && tries[i - 1] ==> IsCore(sch, Delta, i, dec.Remaining(Delta))
    {
      StreamOne(enc, dec, a, b, tries, i);
    }
    remote, local, decoded := dec.remote.symbols, dec.local.symbols, dec.Decoded();
    if |tries| > 0 {
      LinkedIsValid(enc, dec, a, b, |tries|);
      Verdict(dec, a, b, remote, local);
    }
  }

  /** An encoder that holds a, and a decoder that holds b. */
  method Connect(sch: Scheme, a: seq<Sym>, b: seq<Sym>) returns (enc: CodingWindow, dec: Decoder)
    requires Reconcilable(sch, a, b)
    ensures fresh(enc) && fresh(dec) && fresh(dec.local) && fresh(dec.window) && fresh(dec.remote)
    ensures dec.sch == sch && Linked(enc, dec, a, b, 0)
    ensures dec.Remaining(Difference(a, b)) == Difference(a, b) && dec.dirty == []
  {
    enc := new CodingWindow(sch);
    Load(sch, enc, a);
    dec := new Decoder(sch);
    Load(sch, dec.window, b);
    dec.ReadyIsValid(Difference(a, b), Elements(a));
  }

  lemma LinkedIsValid(enc: CodingWindow, dec: Decoder, a: seq<Sym>, b: seq<Sym>, n: nat)
    requires Linked(enc, dec, a, b, n)
    ensures dec.Valid(Difference(a, b), Elements(a)) && |dec.cs| == n
  {
  }

  /** Between calls the verdict says exactly whether the two lists are the two sides of the difference. */
  lemma Verdict(dec: Decoder, a: seq<Sym>, b: seq<Sym>, remote: seq<Sym>, local: seq<Sym>)
    requires dec.Valid(Difference(a, b), Elements(a)) && |dec.cs| > 0
    requires remote == dec.remote.symbols && local == dec.local.symbols
    ensures dec.Decoded() <==> Exact(a, b, remote, local)
    ensures Elements(remote) <= Elements(a) - Elements(b) && Elements(local) <= Elements(b) - Elements(a)
  {
    var Delta, A := Difference(a, b), Elements(a);
    assert Delta * A == A - Elements(b) && Delta - A == Elements(b) - A;
    dec.DecodedIsComplete(Delta, A);
    if dec.Decoded() {
      dec.DecodedIsExact(Delta, A);
    }
  }

  /** A wrong verdict: the two sides hold different symbols with one hash. The first coded symbol looks like nothing,
      and the decoder reports success with nothing recovered. */
  method WrongVerdict(sch: Scheme, x: Sym, y: Sym)
      returns (remote: seq<Sym>, local: seq<Sym>, received: nat, decoded: bool)
    requires Advancing(sch) && Usable(sch, x) && Usable(sch, y) && x != y && x.hash == y.hash
    ensures received == 1 && decoded && remote == [] && local == [] && !Exact([x], [y], remote, local)
  {
    hide Fold, At, Exact, Decoder.Ready, CodingWindow.Valid, Advancing, Usable;
    var c := FirstSymbol(sch, x);
    var dec := LoadedWith(sch, y);
    Collide(dec, c, x, y);
    remote, local, received, decoded := dec.remote.symbols, dec.local.symbols, |dec.cs|, dec.Decoded();
    NotExact(x, y);
  }

  method FirstSymbol(sch: Scheme, x: Sym) returns (c: Cell)
    requires Advancing(sch) && Usable(sch, x)
    ensures c == Fold(At(sch, {x}, 0), {x})
  {
    var enc := new CodingWindow(sch);
    LoadOne(sch, enc, x);
    c := enc.ProduceNextCodedSymbol();
  }

  method LoadedWith(sch: Scheme, y: Sym) returns (dec: Decoder)
    requires Advancing(sch) && Usable(sch, y)
    ensures fresh(dec) && fresh(dec.local) && fresh(dec.window) && fresh(dec.remote)
    ensures dec.sch == sch && dec.Ready() && Elements(dec.window.symbols) == {y}
  {
    dec := new Decoder(sch);
    LoadOne(sch, dec.window, y);
  }

  /** The decoder with the symbol y receives the first coded symbol of x. */
  method Collide(dec: Decoder, c: Cell, ghost x: Sym, ghost y: Sym)
    requires dec.Ready() && Elements(dec.window.symbols) == {y} && Usable(dec.sch, x) && Usable(dec.sch, y)
    requires x != y && x.hash == y.hash && c == Fold(At(dec.sch, {x}, 0), {x})
    modifies dec, dec.local, dec.window, dec.remote
    ensures dec.remote.symbols == [] && dec.local.symbols == [] && dec.pending == 0 && |dec.cs| == 1
  {
    hide Fold, Plus, Due, Agrees, LooksEmpty, NoDuplicates;
    dec.ReadyIsValid({x, y}, {x});
    LooksLikeNothing(dec.sch, x, y);
    dec.AddCodedSymbol(c, {x, y}, {x});
  }

  lemma NotExact(x: Sym, y: Sym)
    requires x != y
    ensures !Exact([x], [y], [], [])
  {
    assert x in Elements([x]) - Elements([y]);
  }

  method LoadOne(sch: Scheme, w: CodingWindow, x: Sym)
    requires w.Valid() && w.sch == sch && w.symbols == [] && w.nextIdx == 0 && Usable(sch, x)
    modifies w
    ensures w.Valid() && w.symbols == [x] && w.nextIdx == 0 && Elements(w.symbols) == {x}
  {
    w.AddHashedSymbol(x);
  }

  lemma LooksLikeNothing(sch: Scheme, x: Sym, y: Sym)
    requires x != y && x.hash == y.hash
    ensures Plus(Fold(At(sch, {x}, 0), {x}), Due(sch, {y}, 0, REMOVE)) == Fold(At(sch, {x, y}, 0), {x})
    ensures LooksEmpty(Fold(At(sch, {x, y}, 0), {x}))
  {
    hide Fold, Plus, Due, LooksEmpty;
    StreamedCell(sch, {x}, {y}, 0);
    assert ({x} - {y}) + ({y} - {x}) == {x, y};
    CellZeroHoldsAll(sch, {x, y});
    CollisionLooksEmpty(x, y);
  }

  method Fill(sch: Scheme, s: array<Cell>, a: seq<Sym>)
    requires Advancing(sch) && NoDuplicates(a) && AllUsable(sch, Elements(a))
    requires forall i | 0 <= i < s.Length :: s[i] == ZERO
    modifies s
    ensures s[..] == SketchOf(sch, s.Length, Elements(a))
  {
    EmptySketch(sch, s.Length);
    assert Elements(a[..0]) == {};
    for k := 0 to |a|
      invariant s[..] == SketchOf(sch, s.Length, Elements(a[..k]))
    {
      ExtendPrefix(a, k);
      AddHashedSymbol(sch, s, a[k], Elements(a[..k]));
    }
    assert a[..|a|] == a;
  }

  lemma ExtendPrefix(a: seq<Sym>, k: nat)
    requires NoDuplicates(a) && k < |a|
    ensures a[k] in Elements(a) && a[k] !in Elements(a[..k]) && Elements(a[..k + 1]) == Elements(a[..k]) + {a[k]}
  {
  }

  lemma EmptySketch(sch: Scheme, n: nat)
    ensures SketchOf(sch, n, {}) == seq(n, _ => ZERO)
  {
    forall i | 0 <= i < n
      ensures SketchOf(sch, n, {})[i] == ZERO
    {
      assert At(sch, {}, i) == {};
    }
  }

  /** Sketch both sets, subtract, and decode in one go, when every cell that the decoder reads tells the truth. */
  method Batch(sch: Scheme, a: seq<Sym>, b: seq<Sym>, n: nat) returns (remote: seq<Sym>, local: seq<Sym>, decoded: bool)
    requires Reconcilable(sch, a, b) && BatchTells(sch, Difference(a, b), Elements(a), n)
    ensures RecoversAll(sch, a, b, n, remote, local)
    ensures n > 0 ==> (decoded <==> Exact(a, b, remote, local))
  {
    var s, s2 := new Cell[n](_ => ZERO), new Cell[n](_ => ZERO);
    Fill(sch, s, a);
    Fill(sch, s2, b);
    var ok := Subtract(s, s2, sch, Elements(a), Elements(b));
    remote, local, decoded := Decode(sch, s, Difference(a, b), Elements(a));
    NothingLeft(a, b, remote, local);
  }

  lemma NothingLeft(a: seq<Sym>, b: seq<Sym>, remote: seq<Sym>, local: seq<Sym>)
    requires Elements(remote) <= Difference(a, b) * Elements(a) && Elements(local) <= Difference(a, b) - Elements(a)
    ensures Elements(remote) <= Elements(a) - Elements(b) && Elements(local) <= Elements(b) - Elements(a)
    ensures Left(Difference(a, b), remote, local) == {} <==>
      Elements(remote) == Elements(a) - Elements(b) && Elements(local) == Elements(b) - Elements(a)
  {
    forall x | x in Difference(a, b) && Left(Difference(a, b), remote, local) == {}
      ensures x in Elements(remote) || x in Elements(local)
    {
      assert x !in Left(Difference(a, b), remote, local);
    }
  }

  /** What is recovered from n cells is fixed by the two sets: it depends neither on the order of peeling, nor on when
      decoding was tried, nor on whether the cells were streamed or sketched and subtracted. */
  lemma RecoveryIsUnique(sch: Scheme, a: seq<Sym>, b: seq<Sym>, n: nat,
                         remote: seq<Sym>, local: seq<Sym>, remote': seq<Sym>, local': seq<Sym>)
    requires RecoversAll(sch, a, b, n, remote, local) && RecoversAll(sch, a, b, n, remote', local')
    ensures Elements(remote) == Elements(remote') && Elements(local) == Elements(local')
  {
    var Delta, A := Difference(a, b), Elements(a);
    CoreIsUnique(sch, Delta, n, Left(Delta, remote, local), Left(Delta, remote', local'));
    assert Elements(remote) == (Delta - Left(Delta, remote, local)) * A;
    assert Elements(remote') == (Delta - Left(Delta, remote', local')) * A;
    assert Elements(local) == (Delta - Left(Delta, remote, local)) - A;
    assert Elements(local') == (Delta - Left(Delta, remote', local')) - A;
  }
}
