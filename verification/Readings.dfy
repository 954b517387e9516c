/** Which cells the decoder reads while it works off its queue, and what it takes for them to tell the truth
    (riblt/decoder.go). The cells read are fixed by what is left of the difference and by the queue. */
module Readings {
  import opened Words
  import opened Lists
  import opened Symbols
  import opened Mappings
  import opened Windows
  import opened Peeling

  /** Cell i, which holds what is left of the difference there, is not mistaken for an empty or a pure one. */
  ghost predicate Tells(sch: Scheme, D: set<Sym>, plus: set<Sym>, i: nat) {
    Telling(sch, At(sch, D, i), Fold(At(sch, D, i), plus))
  }

  /** Cell i is not mistaken for an empty one. */
  ghost predicate TellsEmpty(sch: Scheme, D: set<Sym>, plus: set<Sym>, i: nat) {
    LooksEmpty(Fold(At(sch, D, i), plus)) ==> At(sch, D, i) == {}
  }

  predicate Peelable(c: Cell) {
    -1 <= c.count <= 1
  }

  /** What is left after cell i was looked at. */
  ghost function NextLeft(sch: Scheme, D: set<Sym>, i: nat): (E: set<Sym>)
    ensures E <= D && (|At(sch, D, i)| == 1 ==> E < D)
  {
    var A := At(sch, D, i);
    if |A| == 1 then PureIsLeft(sch, D, i); D - A else D
  }

  lemma PureIsLeft(sch: Scheme, D: set<Sym>, i: nat)
    requires |At(sch, D, i)| == 1
    ensures D - At(sch, D, i) < D
  {
    assert Pick(At(sch, D, i)) in D;
  }

  /** The cells below k that are queued anew when x has been peeled out of everything and E is left. */
  ghost function ReopenedBy(sch: Scheme, E: set<Sym>, plus: set<Sym>, x: Sym, queue: seq<nat>, k: nat): seq<nat> {
    if k == 0 then []
    else
      var i := k - 1;
      var before := ReopenedBy(sch, E, plus, x, queue, i);
      if Hits(sch, Start(x), i) && i !in queue && Peelable(Fold(At(sch, E, i), plus)) then before + [i] else before
  }

  /** The queue after its head was worked off, when n cells have been received. */
  ghost function NextQueue(sch: Scheme, n: nat, D: set<Sym>, plus: set<Sym>, queue: seq<nat>): seq<nat>
    requires queue != []
  {
    var A := At(sch, D, queue[0]);
    if |A| == 1 then queue[1..] + ReopenedBy(sch, D - A, plus, Pick(A), queue, n) else queue[1..]
  }

  /** Every cell that is read while the queue is worked off tells the truth. */
  ghost predicate TellsAll(sch: Scheme, n: nat, D: set<Sym>, plus: set<Sym>, queue: seq<nat>)
    decreases D, |queue|
  {
    queue == [] || (Tells(sch, D, plus, queue[0]) &&
      TellsAll(sch, n, NextLeft(sch, D, queue[0]), plus, NextQueue(sch, n, D, plus, queue)))
  }

  /** What is left when the queue has been worked off. */
  ghost function WorkedOff(sch: Scheme, n: nat, D: set<Sym>, plus: set<Sym>, queue: seq<nat>): set<Sym>
    decreases D, |queue|
  {
    if queue == [] then D
    else WorkedOff(sch, n, NextLeft(sch, D, queue[0]), plus, NextQueue(sch, n, D, plus, queue))
  }

  /** The queue after cell n was received. */
  ghost function Enqueued(sch: Scheme, D: set<Sym>, plus: set<Sym>, n: nat, queue: seq<nat>): seq<nat> {
    var c := Fold(At(sch, D, n), plus);
    if !LooksEmpty(c) && Peelable(c) then queue + [n] else queue
  }

  /** Every cell that is read from cell n on tells the truth, when decoding is tried after the i-th further cell if
      tries[i] says so. */
  ghost predicate StreamTells(sch: Scheme, n: nat, D: set<Sym>, plus: set<Sym>, queue: seq<nat>, tries: seq<bool>)
    decreases |tries|
  {
    tries == [] || (TellsEmpty(sch, D, plus, n) &&
      var q := Enqueued(sch, D, plus, n, queue);
      if tries[0]
      then TellsAll(sch, n + 1, D, plus, q) &&
           StreamTells(sch, n + 1, WorkedOff(sch, n + 1, D, plus, q), plus, [], tries[1..])
      else StreamTells(sch, n + 1, D, plus, q, tries[1..]))
  }

  /** The queue after n cells were received. */
  ghost function Filled(sch: Scheme, D: set<Sym>, plus: set<Sym>, n: nat): seq<nat> {
    if n == 0 then [] else Enqueued(sch, D, plus, n - 1, Filled(sch, D, plus, n - 1))
  }

  /** Every cell that is read tells the truth when n cells are received and then decoded in one go. */
  ghost predicate BatchTells(sch: Scheme, D: set<Sym>, plus: set<Sym>, n: nat) {
    (forall i: nat | i < n :: TellsEmpty(sch, D, plus, i)) && TellsAll(sch, n, D, plus, Filled(sch, D, plus, n))
  }

  /** What is left of a block after n coded symbols, each of which was followed by decoding. */
  ghost function BlockLeft(sch: Scheme, D: set<Sym>, plus: set<Sym>, n: nat): set<Sym> {
    if n == 0 then D
    else
      var E := BlockLeft(sch, D, plus, n - 1);
      WorkedOff(sch, n, E, plus, Enqueued(sch, E, plus, n - 1, []))
  }

  /** Every cell tells the truth that is read when coded symbol n of a block is received and decoding is tried. */
  ghost predicate BlockTells(sch: Scheme, D: set<Sym>, plus: set<Sym>, n: nat) {
    var E := BlockLeft(sch, D, plus, n);
    TellsEmpty(sch, E, plus, n) && TellsAll(sch, n + 1, E, plus, Enqueued(sch, E, plus, n, []))
  }

  /** A cell that tells the truth is read correctly. */
  lemma ReadCell(sch: Scheme, D: set<Sym>, plus: set<Sym>, i: nat)
    requires AllUsable(sch, D) && Tells(sch, D, plus, i)
    ensures var A, c := At(sch, D, i), Fold(At(sch, D, i), plus); var x := Sym(c.sum, c.checksum);
      (LooksEmpty(c) <==> A == {}) && (LooksPure(sch, c) <==> |A| == 1) &&
      (|A| == 1 ==> A == {x} && x in D && c.count == Sign(x, plus) && Pick(A) == x)
  {
    var A := At(sch, D, i);
    if |A| == 1 {
      var x := Pick(A);
      SingletonOf(A, x);
      FoldOfOne(x, plus);
    }
  }

  /** Without accidents anywhere in the difference, whatever is read tells the truth. */
  lemma {:induction false} NoCollisionTellsAll(sch: Scheme, n: nat, D: set<Sym>, plus: set<Sym>, queue: seq<nat>)
    requires NoCollision(sch, D, plus)
    ensures TellsAll(sch, n, D, plus, queue)
    decreases D, |queue|
  {
    if queue != [] {
      assert At(sch, D, queue[0]) <= D;
      NoCollisionTellsAll(sch, n, NextLeft(sch, D, queue[0]), plus, NextQueue(sch, n, D, plus, queue));
    }
  }

  lemma {:induction false} WorkedOffIsPart(sch: Scheme, n: nat, D: set<Sym>, plus: set<Sym>, queue: seq<nat>)
    ensures WorkedOff(sch, n, D, plus, queue) <= D
    decreases D, |queue|
  {
    if queue != [] {
      WorkedOffIsPart(sch, n, NextLeft(sch, D, queue[0]), plus, NextQueue(sch, n, D, plus, queue));
    }
  }

  lemma {:induction false} NoCollisionStreamTells(sch: Scheme, n: nat, D: set<Sym>, plus: set<Sym>, queue: seq<nat>,
                                                  tries: seq<bool>)
    requires NoCollision(sch, D, plus)
    ensures StreamTells(sch, n, D, plus, queue, tries)
    decreases |tries|
  {
    if tries != [] {
      assert At(sch, D, n) <= D;
      var q := Enqueued(sch, D, plus, n, queue);
      NoCollisionTellsAll(sch, n + 1, D, plus, q);
      WorkedOffIsPart(sch, n + 1, D, plus, q);
      NoCollisionStreamTells(sch, n + 1, if tries[0] then WorkedOff(sch, n + 1, D, plus, q) else D, plus,
                             if tries[0] then [] else q, tries[1..]);
    }
  }

  lemma NoCollisionBatchTells(sch: Scheme, D: set<Sym>, plus: set<Sym>, n: nat)
    requires NoCollision(sch, D, plus)
    ensures BatchTells(sch, D, plus, n)
  {
    assert forall i: nat :: At(sch, D, i) <= D;
    NoCollisionTellsAll(sch, n, D, plus, Filled(sch, D, plus, n));
  }

  lemma {:induction false} BlockLeftIsPart(sch: Scheme, D: set<Sym>, plus: set<Sym>, n: nat)
    ensures BlockLeft(sch, D, plus, n) <= D
  {
    if n > 0 {
      var E := BlockLeft(sch, D, plus, n - 1);
      BlockLeftIsPart(sch, D, plus, n - 1);
      WorkedOffIsPart(sch, n, E, plus, Enqueued(sch, E, plus, n - 1, []));
    }
  }

  lemma NoCollisionBlockTells(sch: Scheme, D: set<Sym>, plus: set<Sym>, n: nat)
    requires NoCollision(sch, D, plus)
    ensures BlockTells(sch, D, plus, n)
  {
    var E := BlockLeft(sch, D, plus, n);
    BlockLeftIsPart(sch, D, plus, n);
    assert At(sch, E, n) <= D;
    NoCollisionTellsAll(sch, n + 1, E, plus, Enqueued(sch, E, plus, n, []));
  }
}
