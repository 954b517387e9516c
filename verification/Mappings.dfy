/** Which coded symbols a source symbol goes into (riblt/random.go), for any generator whose index advances. */
module Mappings {
  import opened Words
  import opened Symbols

  /** The state of the index generator of one symbol, and the last index it gave. */
  datatype Mapping = Mapping(prng: Word, lastIdx: nat)

  /** What the codec takes from outside: the symbol type's hash, and the generator. */
  datatype Scheme = Scheme(hash: Word -> Word, next: Mapping -> Mapping)

  /** A nonzero generator state stays nonzero and its index strictly advances. */
  ghost predicate Advancing(sch: Scheme) {
    forall m: Mapping | m.prng != 0 ::
      sch.next(m).prng != 0 && m.lastIdx < sch.next(m).lastIdx
  }

  function Start(s: Sym): Mapping {
    Mapping(s.hash, 0)
  }

  /** The symbol carries its own hash, and that hash can drive the generator. */
  predicate Usable(sch: Scheme, s: Sym) {
    s.hash == sch.hash(s.data) && s.hash != 0
  }

  ghost predicate AllUsable(sch: Scheme, S: set<Sym>) {
    forall s | s in S :: Usable(sch, s)
  }

  /** Whether the generator, from state m on, ever gives the index i. */
  predicate Hits(sch: Scheme, m: Mapping, i: nat)
    decreases i - m.lastIdx
  {
    if i <= m.lastIdx then i == m.lastIdx
    else var n := sch.next(m); m.lastIdx < n.lastIdx && Hits(sch, n, i)
  }

  /** The generator state after n jumps. */
  ghost function Jumps(sch: Scheme, m: Mapping, n: nat): Mapping
    decreases n
  {
    if n == 0 then m else Jumps(sch, sch.next(m), n - 1)
  }

  /** The symbol goes into coded symbol i exactly when its generator, seeded with its hash at index 0, gives i after
      some number of jumps. */
  lemma HitsAfterJumps(sch: Scheme, s: Sym, i: nat)
    requires Advancing(sch) && s.hash != 0
    ensures Hits(sch, Start(s), i) <==> exists n: nat :: Jumps(sch, Mapping(s.hash, 0), n).lastIdx == i
  {
    var m := Mapping(s.hash, 0);
    if Hits(sch, m, i) {
      var n := JumpsTo(sch, m, i);
    }
    forall n: nat | Jumps(sch, m, n).lastIdx == i
      ensures Hits(sch, m, i)
    {
      JumpsHit(sch, m, n);
    }
  }

  lemma {:induction false} JumpsTo(sch: Scheme, m: Mapping, i: nat) returns (n: nat)
    requires Hits(sch, m, i)
    ensures Jumps(sch, m, n).lastIdx == i
    decreases i - m.lastIdx
  {
    if i == m.lastIdx {
      n := 0;
    } else {
      n := JumpsTo(sch, sch.next(m), i);
      n := n + 1;
    }
  }

  lemma {:induction false} JumpsHit(sch: Scheme, m: Mapping, n: nat)
    requires Advancing(sch) && m.prng != 0
    ensures Hits(sch, m, Jumps(sch, m, n).lastIdx) && m.lastIdx + n <= Jumps(sch, m, n).lastIdx
    decreases n
  {
    if n > 0 {
      JumpsHit(sch, sch.next(m), n - 1);
    }
  }

  /** The symbols of S that go into coded symbol i. */
  function At(sch: Scheme, S: set<Sym>, i: nat): set<Sym> {
    set s | s in S && Hits(sch, Start(s), i)
  }

  /** From index n on, the state m stands for the generator of s. */
  ghost predicate Tracks(sch: Scheme, s: Sym, m: Mapping, n: nat) {
    m.prng != 0 && n <= m.lastIdx &&
    forall i: nat | n <= i :: Hits(sch, m, i) == Hits(sch, Start(s), i)
  }

  lemma TracksFromStart(sch: Scheme, s: Sym)
    requires s.hash != 0
    ensures Tracks(sch, s, Start(s), 0)
  {
  }

  lemma TracksStep(sch: Scheme, s: Sym, m: Mapping)
    requires Advancing(sch) && Tracks(sch, s, m, m.lastIdx)
    ensures Hits(sch, Start(s), m.lastIdx)
    ensures Tracks(sch, s, sch.next(m), m.lastIdx + 1)
  {
    assert Hits(sch, m, m.lastIdx);
    forall i: nat | m.lastIdx < i
      ensures Hits(sch, sch.next(m), i) == Hits(sch, Start(s), i)
    {
      assert Hits(sch, m, i) == Hits(sch, Start(s), i);
    }
  }
}
