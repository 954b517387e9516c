/** The coding window: a heap that schedules every symbol at its next index (riblt/encoder.go). */
module Windows {
  import opened Words
  import opened Lists
  import opened Symbols
  import opened Mappings

  datatype SymbolMapping = SymbolMapping(sourceIdx: nat, codedIdx: nat)

  /** The parent in the heap; the root is its own parent because Go's (0 - 1) / 2 is 0. */
  function Parent(k: nat): nat {
    if k == 0 then 0 else (k - 1) / 2
  }

  ghost predicate HeapOrdered(q: seq<SymbolMapping>) {
    forall k | 0 <= k < |q| :: q[Parent(k)].codedIdx <= q[k].codedIdx
  }

  /** One queue entry per symbol, at the index where its generator stands. */
  function Schedule(mappings: seq<Mapping>): (q: seq<SymbolMapping>)
    ensures |q| == |mappings|
  {
    seq(|mappings|, k requires 0 <= k < |mappings| => SymbolMapping(k, mappings[k].lastIdx))
  }

  lemma {:induction false} RootIsLeast(q: seq<SymbolMapping>, k: nat)
    requires HeapOrdered(q) && k < |q|
    ensures q[0].codedIdx <= q[k].codedIdx
  {
    if k > 0 {
      RootIsLeast(q, Parent(k));
    }
  }

  ghost predicate InOrder(q: seq<SymbolMapping>, parent: nat, k: nat)
    requires parent < |q| && k < |q|
  {
    q[parent].codedIdx <= q[k].codedIdx
  }

  /** Heap order, except that the entry at curr may be too large for its place. */
  ghost predicate SinkingAt(q: seq<SymbolMapping>, curr: nat)
    requires curr < |q|
  {
    && (forall k | 0 < k < |q| && Parent(k) != curr :: InOrder(q, Parent(k), k))
    && (forall k | 0 < k < |q| && Parent(k) == curr && curr > 0 :: InOrder(q, Parent(curr), k))
  }

  /** Heap order, except that the entry at curr may be too small for its place. */
  ghost predicate RisingAt(q: seq<SymbolMapping>, curr: nat)
    requires curr < |q|
  {
    && (forall k | 0 < k < |q| && k != curr :: InOrder(q, Parent(k), k))
    && (forall k | 0 < k < |q| && Parent(k) == curr :: InOrder(q, Parent(curr), k))
  }

  lemma SinkStep(q: seq<SymbolMapping>, curr: nat, child: nat)
    requires child < |q| && (child == 2 * curr + 1 || child == 2 * curr + 2)
    requires SinkingAt(q, curr) && q[child].codedIdx < q[curr].codedIdx
    requires forall k | 0 < k < |q| && Parent(k) == curr :: InOrder(q, child, k)
    ensures SinkingAt(Swap(q, curr, child), child)
  {
    var r := Swap(q, curr, child);
    assert Parent(child) == curr;
    forall k | 0 < k < |q| && Parent(k) != child
      ensures InOrder(r, Parent(k), k)
    {
      if Parent(k) == curr {
        assert InOrder(q, child, k);
      } else if k == curr {
        assert InOrder(q, Parent(curr), child);
      } else {
        assert InOrder(q, Parent(k), k);
      }
    }
    forall k | 0 < k < |q| && Parent(k) == child
      ensures InOrder(r, curr, k)
    {
      assert InOrder(q, Parent(k), k);
    }
  }

  lemma RiseStep(q: seq<SymbolMapping>, curr: nat)
    requires 0 < curr < |q| && RisingAt(q, curr) && q[curr].codedIdx < q[Parent(curr)].codedIdx
    ensures RisingAt(Swap(q, Parent(curr), curr), Parent(curr))
  {
    var p := Parent(curr);
    var r := Swap(q, p, curr);
    forall k | 0 < k < |q| && k != p
      ensures InOrder(r, Parent(k), k)
    {
      if Parent(k) == curr {
        assert InOrder(q, p, k);
      } else if k != curr {
        assert InOrder(q, Parent(k), k);
      }
    }
    forall k | 0 < k < |q| && Parent(k) == p
      ensures InOrder(r, Parent(p), k)
    {
      if p > 0 {
        assert InOrder(q, Parent(p), p);
      }
      if k != curr {
        assert InOrder(q, Parent(k), k);
      }
    }
  }

  lemma InSchedule(mappings: seq<Mapping>, q: seq<SymbolMapping>, k: nat)
    requires multiset(q) == multiset(Schedule(mappings)) && k < |q|
    ensures |q| == |mappings| && q[k].sourceIdx < |mappings|
    ensures q[k].codedIdx == mappings[q[k].sourceIdx].lastIdx
  {
    assert |q| == |multiset(q)| == |multiset(Schedule(mappings))|;
    assert q[k] in multiset(Schedule(mappings));
  }

  lemma ScheduledSomewhere(mappings: seq<Mapping>, q: seq<SymbolMapping>, s: nat) returns (k: nat)
    requires multiset(q) == multiset(Schedule(mappings)) && s < |mappings|
    ensures k < |q| && q[k] == SymbolMapping(s, mappings[s].lastIdx)
  {
    assert Schedule(mappings)[s] in multiset(q);
    k :| k < |q| && q[k] == Schedule(mappings)[s];
  }

  lemma ScheduleAppended(mappings: seq<Mapping>, q: seq<SymbolMapping>, m: Mapping)
    requires HeapOrdered(q) && multiset(q) == multiset(Schedule(mappings))
    ensures var e := SymbolMapping(|mappings|, m.lastIdx);
      RisingAt(q + [e], |q|) && multiset(q + [e]) == multiset(Schedule(mappings + [m]))
  {
    var e := SymbolMapping(|mappings|, m.lastIdx);
    forall k | 0 <= k < |q|
      ensures InOrder(q + [e], Parent(k), k)
    {
    }
    assert Schedule(mappings + [m]) == Schedule(mappings) + [e];
    assert |q| == |multiset(q)|;
  }

  /** Moving one symbol on keeps the queue in step with the generators. */
  lemma Reschedule(mappings: seq<Mapping>, q: seq<SymbolMapping>, m: Mapping)
    requires multiset(q) == multiset(Schedule(mappings)) && |q| > 0
    ensures q[0].sourceIdx < |mappings|
    ensures multiset(q[0 := SymbolMapping(q[0].sourceIdx, m.lastIdx)]) ==
            multiset(Schedule(mappings[q[0].sourceIdx := m]))
  {
    InSchedule(mappings, q, 0);
    var s := q[0].sourceIdx;
    assert Schedule(mappings[s := m]) == Schedule(mappings)[s := SymbolMapping(s, m.lastIdx)];
  }

  /** What the symbols S contribute to coded symbol i, counted in the given direction. */
  ghost function Due(sch: Scheme, S: set<Sym>, i: nat, direction: int): Cell {
    Fold(At(sch, S, i), if direction == ADD then S else {})
  }

  /** From n on, the generators stand for the symbols, which are all different. */
  ghost predicate InStep(sch: Scheme, symbols: seq<Sym>, mappings: seq<Mapping>, n: nat) {
    |mappings| == |symbols| && NoDuplicates(symbols) &&
    forall k | 0 <= k < |symbols| :: Tracks(sch, symbols[k], mappings[k], n)
  }

  /** While coded symbol n is being filled: the symbols in applied have moved past n, the others have not moved. */
  ghost predicate PartWay(sch: Scheme, symbols: seq<Sym>, mappings: seq<Mapping>, n: nat, applied: set<Sym>) {
    && |mappings| == |symbols| && NoDuplicates(symbols) && applied <= Elements(symbols)
    && (forall k | 0 <= k < |symbols| && symbols[k] in applied ::
          Hits(sch, Start(symbols[k]), n) && Tracks(sch, symbols[k], mappings[k], n + 1))
    && (forall k | 0 <= k < |symbols| && symbols[k] !in applied :: Tracks(sch, symbols[k], mappings[k], n))
  }

  lemma PartWayStep(sch: Scheme, symbols: seq<Sym>, mappings: seq<Mapping>, n: nat, applied: set<Sym>, k: nat)
    requires Advancing(sch) && PartWay(sch, symbols, mappings, n, applied)
    requires k < |symbols| && mappings[k].lastIdx == n
    ensures symbols[k] in Elements(symbols) - applied
    ensures PartWay(sch, symbols, mappings[k := sch.next(mappings[k])], n, applied + {symbols[k]})
  {
    TracksStep(sch, symbols[k], mappings[k]);
  }

  lemma PartWayDone(sch: Scheme, symbols: seq<Sym>, mappings: seq<Mapping>, n: nat, applied: set<Sym>)
    requires PartWay(sch, symbols, mappings, n, applied)
    requires forall k | 0 <= k < |mappings| :: n < mappings[k].lastIdx
    ensures applied == At(sch, Elements(symbols), n)
    ensures InStep(sch, symbols, mappings, n + 1)
  {
    forall k | 0 <= k < |symbols| && symbols[k] !in applied
      ensures !Hits(sch, Start(symbols[k]), n)
    {
      assert !Hits(sch, mappings[k], n);
    }
  }

  lemma HeadIsAhead(mappings: seq<Mapping>, q: seq<SymbolMapping>, n: nat)
    requires HeapOrdered(q) && multiset(q) == multiset(Schedule(mappings)) && |q| > 0 && n < q[0].codedIdx
    ensures forall s | 0 <= s < |mappings| :: n < mappings[s].lastIdx
  {
    forall s | 0 <= s < |mappings|
      ensures n < mappings[s].lastIdx
    {
      var k := ScheduledSomewhere(mappings, q, s);
      RootIsLeast(q, k);
    }
  }

  lemma FoldOneMore(c: Cell, D: set<Sym>, plus: set<Sym>, x: Sym)
    requires x !in D
    ensures Apply(Plus(c, Fold(D, plus)), x, Sign(x, plus)) == Plus(c, Fold(D + {x}, plus))
  {
    FoldRemove(D + {x}, plus, x);
    assert D + {x} - {x} == D;
    ApplyPlus(c, Fold(D, plus), x, Sign(x, plus));
  }

  class CodingWindow {
    const sch: Scheme
    var symbols: seq<Sym>
    var mappings: seq<Mapping>
    var queue: seq<SymbolMapping>
    var nextIdx: nat

    /** The queue is a min-heap that holds each source index exactly once, where its generator stands. */
    ghost predicate Shaped()
      reads this
    {
      |symbols| == |mappings| == |queue| && HeapOrdered(queue) && multiset(queue) == multiset(Schedule(mappings))
    }

    /** The window is in step: from nextIdx on, every generator stands for its symbol. */
    ghost predicate Valid()
      reads this
    {
      Shaped() && Advancing(sch) && InStep(sch, symbols, mappings, nextIdx)
    }

    /** The head of the queue is behind nextIdx, where the scheduling loop never looks. */
    ghost predicate Stale()
      reads this
    {
      Shaped() && |queue| > 0 && queue[0].codedIdx < nextIdx
    }

    constructor (sch: Scheme)
      ensures this.sch == sch && symbols == [] && nextIdx == 0
      ensures Shaped() && (Advancing(sch) ==> Valid())
    {
      this.sch := sch;
      symbols, mappings, queue, nextIdx := [], [], [], 0;
    }

    method FixHead()
      requires |queue| > 0 && SinkingAt(queue, 0)
      modifies this`queue
      ensures HeapOrdered(queue) && multiset(queue) == multiset(old(queue))
    {
      var curr := 0;
      while true
        invariant curr < |queue| && SinkingAt(queue, curr)
        invariant multiset(queue) == multiset(old(queue))
        decreases |queue| - curr
      {
        var child := curr * 2 + 1;
        if child >= |queue| {
          break;
        }
        var rc := child + 1;
        if rc < |queue| && queue[rc].codedIdx < queue[child].codedIdx {
          child := rc;
        }
        if queue[curr].codedIdx <= queue[child].codedIdx {
          break;
        }
        SinkStep(queue, curr, child);
        queue := Swap(queue, curr, child);
        curr := child;
      }
      assert forall k | 0 < k < |queue| :: InOrder(queue, Parent(k), k);
    }

    method FixTail()
      requires |queue| > 0 && RisingAt(queue, |queue| - 1)
      modifies this`queue
      ensures HeapOrdered(queue) && multiset(queue) == multiset(old(queue))
    {
      var curr: nat := |queue| - 1;
      while true
        invariant curr < |queue| && RisingAt(queue, curr)
        invariant multiset(queue) == multiset(old(queue))
        decreases curr
      {
        var parent := Parent(curr);
        if curr == parent || queue[parent].codedIdx <= queue[curr].codedIdx {
          break;
        }
        RiseStep(queue, curr);
        queue := Swap(queue, parent, curr);
        curr := parent;
      }
      assert forall k | 0 < k < |queue| :: InOrder(queue, Parent(k), k);
    }

    method AddHashedSymbol(t: Sym)
      requires Shaped()
      modifies this
      ensures Shaped() && symbols == old(symbols) + [t] && nextIdx == old(nextIdx)
      ensures old(Valid()) && nextIdx == 0 && t !in old(symbols) && t.hash != 0 ==> Valid()
      ensures nextIdx > 0 ==> Stale()
    {
      if t.hash != 0 {
        TracksFromStart(sch, t);
      }
      AddHashedSymbolWithMapping(t, Mapping(t.hash, 0));
    }

    method AddHashedSymbolWithMapping(t: Sym, m: Mapping)
      requires Shaped()
      modifies this
      ensures Shaped() && symbols == old(symbols) + [t] && mappings == old(mappings) + [m] && nextIdx == old(nextIdx)
      ensures old(Valid()) && t !in old(symbols) && Tracks(sch, t, m, nextIdx) ==> Valid()
      ensures m.lastIdx < nextIdx ==> Stale()
    {
      hide Tracks;
      symbols := symbols + [t];
      mappings := mappings + [m];
      queue := queue + [SymbolMapping(|symbols| - 1, m.lastIdx)];
      ScheduleAppended(old(mappings), old(queue), m);
      FixTail();
      ghost var k := ScheduledSomewhere(mappings, queue, |mappings| - 1);
      RootIsLeast(queue, k);
    }

    /** Fold the symbol at the head of the queue into cw and reschedule it at its next index. */
    method ApplyHead(cw: Cell, direction: int) returns (r: Cell)
      requires Shaped() && |queue| > 0
      modifies this`queue, this`mappings
      ensures Shaped() && old(queue[0].sourceIdx) < |symbols|
      ensures var source := old(queue[0].sourceIdx);
        r == Apply(cw, symbols[source], direction) &&
        mappings == old(mappings)[source := sch.next(old(mappings)[source])]
    {
      InSchedule(mappings, queue, 0);
      var source := queue[0].sourceIdx;
      r := Apply(cw, symbols[source], direction);
      var moved := sch.next(mappings[source]);
      Reschedule(mappings, queue, moved);
      mappings := mappings[source := moved];
      queue := queue[0 := SymbolMapping(source, moved.lastIdx)];
      FixHead();
    }

    /** Keep taking the head of the queue while it is due at nextIdx. */
    method ApplyDue(cw: Cell, direction: int) returns (r: Cell)
      requires (Valid() || Stale()) && |queue| > 0
      requires direction == ADD || direction == REMOVE
      modifies this`queue, this`mappings
      ensures Shaped()
      ensures old(Valid()) ==> InStep(sch, symbols, mappings, nextIdx + 1)
      ensures old(Valid()) ==> r == Plus(cw, Due(sch, Elements(symbols), nextIdx, direction))
      ensures !old(Valid()) ==> r == cw && queue == old(queue)
    {
      hide Valid, Stale, HeapOrdered, PartWay, InStep, Plus, Fold, Due, Apply, Advancing;
      ghost var S, valid := Elements(symbols), Valid();
      ghost var plus := if direction == ADD then S else {};
      ghost var applied: set<Sym> := {};
      DueAtFirst(cw, plus);
      r := cw;
      while queue[0].codedIdx == nextIdx
        invariant Shaped() && |queue| > 0
        invariant !valid ==> r == cw && queue == old(queue)
        invariant valid ==> PartWay(sch, symbols, mappings, nextIdx, applied)
        invariant valid ==> r == Plus(cw, Fold(applied, plus))
        decreases S - applied
      {
        ghost var source := queue[0].sourceIdx;
        InSchedule(mappings, queue, 0);
        PartWayStep(sch, symbols, mappings, nextIdx, applied, source);
        FoldOneMore(cw, applied, plus, symbols[source]);
        r := ApplyHead(r, direction);
        applied := applied + {symbols[source]};
      }
      if valid {
        DueDone(applied, direction);
      }
    }

    /** Before any symbol is applied; the head of a stale queue is not due. */
    lemma DueAtFirst(cw: Cell, plus: set<Sym>)
      requires (Valid() || Stale()) && |queue| > 0
      ensures Shaped() && cw == Plus(cw, Fold({}, plus))
      ensures Valid() ==> Advancing(sch) && PartWay(sch, symbols, mappings, nextIdx, {})
      ensures !Valid() ==> queue[0].codedIdx < nextIdx
    {
      PlusLaws(cw, ZERO, ZERO);
    }

    /** Once the head of the queue is not due any more, it is ahead, and exactly the due symbols were applied. */
    lemma DueDone(applied: set<Sym>, direction: int)
      requires Shaped() && |queue| > 0 && PartWay(sch, symbols, mappings, nextIdx, applied)
      requires queue[0].codedIdx != nextIdx && (direction == ADD || direction == REMOVE)
      ensures InStep(sch, symbols, mappings, nextIdx + 1)
      ensures Fold(applied, if direction == ADD then Elements(symbols) else {}) ==
              Due(sch, Elements(symbols), nextIdx, direction)
    {
      InSchedule(mappings, queue, 0);
      NotBehind(symbols, applied, queue[0].sourceIdx);
      HeadIsAhead(mappings, queue, nextIdx);
      PartWayDone(sch, symbols, mappings, nextIdx, applied);
    }

    lemma NotBehind(symbols: seq<Sym>, applied: set<Sym>, k: nat)
      requires PartWay(sch, symbols, mappings, nextIdx, applied) && k < |mappings|
      ensures nextIdx <= mappings[k].lastIdx
    {
      assert symbols[k] in applied || symbols[k] !in applied;
    }

    /** Fold every symbol that goes into coded symbol nextIdx into cw, then move on to the next index. */
    method ApplyWindow(cw: Cell, direction: int) returns (r: Cell)
      requires Valid() || Stale()
      requires direction == ADD || direction == REMOVE
      modifies this
      ensures symbols == old(symbols) && nextIdx == old(nextIdx) + 1
      ensures old(Valid()) ==> Valid()
      ensures old(Valid()) ==> r == Plus(cw, Due(sch, Elements(symbols), old(nextIdx), direction))
      ensures old(Stale()) ==> Stale() && r == cw
    {
      r := cw;
      if |queue| == 0 {
        assert At(sch, Elements(symbols), nextIdx) == {};
        PlusLaws(cw, ZERO, ZERO);
        nextIdx := nextIdx + 1;
        return;
      }
      InSchedule(mappings, queue, 0);
      r := ApplyDue(r, direction);
      nextIdx := nextIdx + 1;
    }

    method Reset()
      modifies this
      ensures symbols == [] && nextIdx == 0 && Shaped() && (Advancing(sch) ==> Valid())
    {
      symbols, mappings, queue, nextIdx := [], [], [], 0;
    }

    method ProduceNextCodedSymbol() returns (c: Cell)
      requires Valid()
      modifies this
      ensures Valid() && symbols == old(symbols) && nextIdx == old(nextIdx) + 1
      ensures c == Fold(At(sch, Elements(symbols), old(nextIdx)), Elements(symbols))
    {
      c := ApplyWindow(ZERO, ADD);
      PlusLaws(Due(sch, Elements(symbols), old(nextIdx), ADD), ZERO, ZERO);
    }
  }
}
