/** The decoder's cells, dirty flags and pending counter as values, and what each of its steps does to them
    (riblt/decoder.go). D is the part of the difference that has not been recovered yet. */
module Bookkeeping {
  import opened Words
  import opened Lists
  import opened Symbols
  import opened Mappings
  import opened Windows
  import opened Peeling
  import opened Readings

  datatype Received = Received(cell: Cell, dirty: bool)

  /** Every received cell holds what is left of the difference there. */
  ghost predicate CellsHold(sch: Scheme, cs: seq<Received>, D: set<Sym>, plus: set<Sym>) {
    forall i | 0 <= i < |cs| :: cs[i].cell == Fold(At(sch, D, i), plus)
  }

  /** No index is queued twice, and exactly the flagged cells are queued. */
  ghost predicate FlagsMatch(cs: seq<Received>, queue: seq<nat>) {
    && NoDuplicates(queue)
    && (forall k | 0 <= k < |queue| :: queue[k] < |cs| && cs[queue[k]].dirty)
    && (forall i | 0 <= i < |cs| && cs[i].dirty :: i in queue)
  }

  /** Every pure cell waits in the queue. */
  ghost predicate PureAreDirty(sch: Scheme, cs: seq<Received>, D: set<Sym>) {
    forall i | 0 <= i < |cs| && |At(sch, D, i)| == 1 :: cs[i].dirty
  }

  /** The cells that pending counts: those that are not empty, and those that became so since they were queued. */
  ghost function Open(sch: Scheme, cs: seq<Received>, D: set<Sym>): set<nat> {
    set i: nat | i < |cs| && (cs[i].dirty || At(sch, D, i) != {})
  }

  /** The cells that still hold something. */
  ghost function Nonempty(sch: Scheme, n: nat, D: set<Sym>): set<nat> {
    set i: nat | i < n && At(sch, D, i) != {}
  }

  ghost predicate Kept(sch: Scheme, cs: seq<Received>, queue: seq<nat>, pending: int, D: set<Sym>, plus: set<Sym>) {
    && CellsHold(sch, cs, D, plus) && FlagsMatch(cs, queue) && PureAreDirty(sch, cs, D)
    && pending == |Open(sch, cs, D)|
  }

  /** The cell after the newly recovered symbol t was applied to it. */
  function Touched(r: Received, t: Sym, direction: int): Received {
    var c := Apply(r.cell, t, direction);
    Received(c, r.dirty || Peelable(c))
  }

  /** The cells of before, with t applied to those below done that it goes into. */
  ghost predicate TouchedUpTo(sch: Scheme, before: seq<Received>, cs: seq<Received>, t: Sym, direction: int,
                              done: nat) {
    |cs| == |before| && forall i | 0 <= i < |cs| ::
      cs[i] == if i < done && Hits(sch, Start(t), i) then Touched(before[i], t, direction) else before[i]
  }

  /** All cells with t applied to those that it goes into. */
  function TouchedAll(sch: Scheme, cs: seq<Received>, t: Sym, direction: int): (r: seq<Received>)
    ensures |r| == |cs|
  {
    seq(|cs|, i requires 0 <= i < |cs| => if Hits(sch, Start(t), i) then Touched(cs[i], t, direction) else cs[i])
  }

  /** The cells below k that are queued anew when t is applied to all cells. */
  function Reopened(sch: Scheme, cs: seq<Received>, t: Sym, direction: int, k: nat): seq<nat>
    requires k <= |cs|
  {
    if k == 0 then []
    else
      var before, r := Reopened(sch, cs, t, direction, k - 1), cs[k - 1];
      if Hits(sch, Start(t), k - 1) && !r.dirty && Peelable(Apply(r.cell, t, direction))
      then before + [k - 1]
      else before
  }

  lemma {:induction false} ReopenedSkips(sch: Scheme, cs: seq<Received>, t: Sym, direction: int, done: nat, k: nat)
    requires done <= k <= |cs| && forall i | done <= i < k :: !Hits(sch, Start(t), i)
    ensures Reopened(sch, cs, t, direction, k) == Reopened(sch, cs, t, direction, done)
  {
    if done < k {
      ReopenedSkips(sch, cs, t, direction, done, k - 1);
    }
  }

  /** Applying t to the next cell it goes into, and moving its generator on. */
  lemma TouchNext(sch: Scheme, before: seq<Received>, cs: seq<Received>, t: Sym, direction: int, m: Mapping, done: nat)
    requires Advancing(sch) && TouchedUpTo(sch, before, cs, t, direction, done)
    requires Tracks(sch, t, m, done) && m.lastIdx < |cs|
    ensures var i := m.lastIdx;
      TouchedUpTo(sch, before, cs[i := Touched(cs[i], t, direction)], t, direction, i + 1) && cs[i] == before[i] &&
      Tracks(sch, t, sch.next(m), i + 1) && done <= i && Hits(sch, Start(t), i) &&
      Reopened(sch, before, t, direction, i) == Reopened(sch, before, t, direction, done)
  {
    TracksStep(sch, t, m);
    assert forall i | done <= i < m.lastIdx :: !Hits(sch, m, i) && !Hits(sch, Start(t), i);
    ReopenedSkips(sch, before, t, direction, done, m.lastIdx);
  }

  /** Once all cells that t goes into have been passed. */
  lemma TouchDone(sch: Scheme, before: seq<Received>, cs: seq<Received>, t: Sym, direction: int, m: Mapping, done: nat)
    requires TouchedUpTo(sch, before, cs, t, direction, done) && Tracks(sch, t, m, done) && done <= |cs| <= m.lastIdx
    ensures cs == TouchedAll(sch, before, t, direction) && Tracks(sch, t, m, |cs|)
    ensures Reopened(sch, before, t, direction, |cs|) == Reopened(sch, before, t, direction, done)
  {
    assert forall i | done <= i < |cs| :: !Hits(sch, m, i) && !Hits(sch, Start(t), i);
    ReopenedSkips(sch, before, t, direction, done, |cs|);
  }

  lemma {:induction false} ReopenedAre(sch: Scheme, cs: seq<Received>, t: Sym, direction: int, k: nat)
    requires k <= |cs|
    ensures var r := Reopened(sch, cs, t, direction, k); NoDuplicates(r) && forall i: nat ::
      i in r <==> i < k && Hits(sch, Start(t), i) && !cs[i].dirty && Peelable(Apply(cs[i].cell, t, direction))
  {
    if k > 0 {
      ReopenedAre(sch, cs, t, direction, k - 1);
    }
  }

  lemma TouchFlags(sch: Scheme, cs: seq<Received>, queue: seq<nat>, t: Sym, direction: int)
    requires FlagsMatch(cs, queue)
    ensures FlagsMatch(TouchedAll(sch, cs, t, direction), queue + Reopened(sch, cs, t, direction, |cs|))
  {
    var r, cs' := Reopened(sch, cs, t, direction, |cs|), TouchedAll(sch, cs, t, direction);
    ReopenedAre(sch, cs, t, direction, |cs|);
    assert forall i: nat | i in queue :: i < |cs| && cs[i].dirty;
    assert forall i: nat | i in r :: i < |cs| && !cs[i].dirty && cs'[i].dirty;
    forall k | 0 <= k < |queue + r|
      ensures (queue + r)[k] < |cs'| && cs'[(queue + r)[k]].dirty
    {
      assert k < |queue| ==> (queue + r)[k] in queue;
      assert k >= |queue| ==> (queue + r)[k] in r;
    }
    forall i | 0 <= i < |cs'| && cs'[i].dirty
      ensures i in queue + r
    {
      assert cs[i].dirty ==> i in queue;
    }
  }

  lemma ReceiveFlag(cs: seq<Received>, queue: seq<nat>, r: Received)
    requires FlagsMatch(cs, queue)
    ensures FlagsMatch(cs + [r], if r.dirty then queue + [|cs|] else queue)
  {
    var cs', queue' := cs + [r], if r.dirty then queue + [|cs|] else queue;
    forall i | 0 <= i < |cs'| && cs'[i].dirty
      ensures i in queue'
    {
      if i < |cs| {
        assert cs[i].dirty && i in queue;
      } else {
        assert queue'[|queue|] == i;
      }
    }
  }

  lemma ReceiveCell(sch: Scheme, cs: seq<Received>, D: set<Sym>, plus: set<Sym>, r: Received)
    requires CellsHold(sch, cs, D, plus) && r.cell == Fold(At(sch, D, |cs|), plus)
    requires PureAreDirty(sch, cs, D) && (|At(sch, D, |cs|)| == 1 ==> r.dirty)
    ensures CellsHold(sch, cs + [r], D, plus) && PureAreDirty(sch, cs + [r], D)
  {
    assert forall i | 0 <= i < |cs| :: (cs + [r])[i] == cs[i];
  }

  lemma ReceiveOpen(sch: Scheme, cs: seq<Received>, D: set<Sym>, r: Received)
    requires r.dirty ==> At(sch, D, |cs|) != {}
    ensures |Open(sch, cs + [r], D)| == |Open(sch, cs, D)| + if At(sch, D, |cs|) == {} then 0 else 1
  {
    var open, open' := Open(sch, cs, D), Open(sch, cs + [r], D);
    assert forall i: nat | i < |cs| :: (cs + [r])[i] == cs[i];
    if At(sch, D, |cs|) == {} {
      assert open' == open;
    } else {
      assert open' == open + {|cs|};
    }
  }

  /** Receiving one more cell keeps everything right if and only if the cell is not mistaken for an empty one. */
  lemma ReceiveKeeps(sch: Scheme, cs: seq<Received>, queue: seq<nat>, pending: int, D: set<Sym>, plus: set<Sym>,
                     c: Cell)
    requires Kept(sch, cs, queue, pending, D, plus) && c == Fold(At(sch, D, |cs|), plus)
    ensures var dirty := !LooksEmpty(c) && Peelable(c);
      var queue', pending' := if dirty then queue + [|cs|] else queue, if LooksEmpty(c) then pending else pending + 1;
      Kept(sch, cs + [Received(c, dirty)], queue', pending', D, plus) <==> TellsEmpty(sch, D, plus, |cs|)
  {
    var A := At(sch, D, |cs|);
    var r := Received(c, !LooksEmpty(c) && Peelable(c));
    if |A| == 1 {
      SingletonOf(A, Pick(A));
      FoldOfOne(Pick(A), plus);
    }
    hide CellsHold, PureAreDirty, FlagsMatch, Open;
    ReceiveOpen(sch, cs, D, r);
    if |A| == 1 ==> r.dirty {
      ReceiveCell(sch, cs, D, plus, r);
      ReceiveFlag(cs, queue, r);
    }
  }

  /** Taking the symbol x out of every cell it goes into, as the decoder does when it has recovered x. */
  lemma TouchKeeps(sch: Scheme, cs: seq<Received>, queue: seq<nat>, pending: int, D: set<Sym>, plus: set<Sym>, x: Sym)
    requires Kept(sch, cs, queue, pending, D, plus) && x in D
    ensures Kept(sch, TouchedAll(sch, cs, x, -Sign(x, plus)), queue + Reopened(sch, cs, x, -Sign(x, plus), |cs|),
                 pending,
                 D - {x}, plus)
  {
    var D', cs' := D - {x}, TouchedAll(sch, cs, x, -Sign(x, plus));
    TouchFlags(sch, cs, queue, x, -Sign(x, plus));
    hide FlagsMatch, Reopened;
    forall i | 0 <= i < |cs|
      ensures cs'[i].cell == Fold(At(sch, D', i), plus)
      ensures |At(sch, D', i)| == 1 ==> cs'[i].dirty
      ensures cs'[i].dirty || At(sch, D', i) != {} <==> cs[i].dirty || At(sch, D, i) != {}
    {
      TouchOneCell(sch, cs[i], D, plus, x, i);
    }
    assert Open(sch, cs', D') == Open(sch, cs, D);
  }

  lemma TouchOneCell(sch: Scheme, r: Received, D: set<Sym>, plus: set<Sym>, x: Sym, i: nat)
    requires r.cell == Fold(At(sch, D, i), plus) && (|At(sch, D, i)| == 1 ==> r.dirty) && x in D
    ensures var r', A := if Hits(sch, Start(x), i) then Touched(r, x, -Sign(x, plus)) else r, At(sch, D - {x}, i);
      r'.cell == Fold(A, plus) && (|A| == 1 ==> r'.dirty) && (r'.dirty || A != {} <==> r.dirty || At(sch, D, i) != {})
  {
    if Hits(sch, Start(x), i) {
      AfterTouch(sch, r.cell, D, plus, x, i);
      assert x in At(sch, D, i);
    } else {
      assert At(sch, D - {x}, i) == At(sch, D, i);
    }
  }

  /** A cell from which x was taken out. */
  lemma AfterTouch(sch: Scheme, c: Cell, D: set<Sym>, plus: set<Sym>, x: Sym, i: nat)
    requires c == Fold(At(sch, D, i), plus) && x in D && Hits(sch, Start(x), i)
    ensures At(sch, D - {x}, i) == At(sch, D, i) - {x}
    ensures Apply(c, x, -Sign(x, plus)) == Fold(At(sch, D - {x}, i), plus)
    ensures |At(sch, D - {x}, i)| <= 1 ==> Peelable(Apply(c, x, -Sign(x, plus)))
  {
    var A := At(sch, D - {x}, i);
    assert A == At(sch, D, i) - {x};
    FoldRemove(At(sch, D, i), plus, x);
    ApplyCancels(Fold(A, plus), x, Sign(x, plus));
    FoldCounts(A, plus);
    assert A == A * plus + (A - plus);
  }

  /** Taking the entry at the head of the queue off, once its cell is not pure: pending drops exactly if the cell is
      empty. */
  lemma SettleKeeps(sch: Scheme, cs: seq<Received>, queue: seq<nat>, pending: int, D: set<Sym>, plus: set<Sym>)
    requires Kept(sch, cs, queue, pending, D, plus) && |queue| > 0 && |At(sch, D, queue[0])| != 1
    ensures var i := queue[0];
      Kept(sch, cs[i := cs[i].(dirty := false)], queue[1..],
           if At(sch, D, i) == {} then pending - 1 else pending, D, plus)
  {
    var i := queue[0];
    var cs' := cs[i := cs[i].(dirty := false)];
    assert Open(sch, cs', D) == if At(sch, D, i) == {} then Open(sch, cs, D) - {i} else Open(sch, cs, D);
    assert i in Open(sch, cs, D);
    forall k | 0 <= k < |cs'| && cs'[k].dirty
      ensures k in queue[1..]
    {
      assert k in queue;
    }
  }

  /** With the queue empty, no cell is pure. */
  lemma Settled(sch: Scheme, cs: seq<Received>, pending: int, D: set<Sym>, plus: set<Sym>)
    requires Kept(sch, cs, [], pending, D, plus)
    ensures Stopping(sch, D, |cs|)
  {
  }

  /** Between calls every queued cell still holds something. */
  ghost predicate Live(sch: Scheme, D: set<Sym>, queue: seq<nat>) {
    forall i | i in queue :: At(sch, D, i) != {}
  }

  /** Between calls pending counts exactly the cells that hold something. */
  lemma LiveCounts(sch: Scheme, cs: seq<Received>, queue: seq<nat>, pending: int, D: set<Sym>, plus: set<Sym>)
    requires Kept(sch, cs, queue, pending, D, plus) && Live(sch, D, queue)
    ensures pending == |Nonempty(sch, |cs|, D)|
  {
    assert Open(sch, cs, D) == Nonempty(sch, |cs|, D);
  }

  lemma LiveReceives(sch: Scheme, D: set<Sym>, plus: set<Sym>, n: nat, queue: seq<nat>)
    requires Live(sch, D, queue)
    ensures Live(sch, D, Enqueued(sch, D, plus, n, queue))
  {
  }

  lemma EmptyIsEmpty(sch: Scheme, n: nat)
    ensures Nonempty(sch, n, {}) == {}
  {
  }

  /** If nothing is pending, cell 0 is empty and so everything has been recovered. */
  lemma NothingPending(sch: Scheme, cs: seq<Received>, queue: seq<nat>, D: set<Sym>, plus: set<Sym>)
    requires Kept(sch, cs, queue, 0, D, plus) && |cs| > 0
    ensures D == {}
  {
    assert 0 !in Open(sch, cs, D);
    CellZeroHoldsAll(sch, D);
  }

  /** The symbols of the difference Delta that are on neither list. */
  ghost function Left(Delta: set<Sym>, remote: seq<Sym>, local: seq<Sym>): set<Sym> {
    Delta - Elements(remote) - Elements(local)
  }

  /** The decoder as a value: what was recovered, the cells, what is left of the queue, and the counter. */
  datatype DecoderState = DecoderState(remote: seq<Sym>, local: seq<Sym>, cs: seq<Received>, queue: seq<nat>,
                                       pending: int)

  /** What is left of Delta in a state of the decoder. */
  ghost function Rest(Delta: set<Sym>, s: DecoderState): set<Sym> {
    Left(Delta, s.remote, s.local)
  }

  /** Everything recovered so far is right, and the cells, the flags, the queue and the count agree with
      what is left. */
  ghost predicate Agrees(sch: Scheme, Delta: set<Sym>, plus: set<Sym>, s: DecoderState) {
    && AllUsable(sch, Delta)
    && Elements(s.remote) <= Delta * plus && Elements(s.local) <= Delta - plus
    && KeepsStopping(sch, Delta, |s.cs|, Rest(Delta, s))
    && Kept(sch, s.cs, s.queue, s.pending, Rest(Delta, s), plus)
  }

  /** What working off the head of the queue does to the decoder. */
  function StepEntry(sch: Scheme, s: DecoderState): DecoderState
    requires s.queue != [] && s.queue[0] < |s.cs|
  {
    var i := s.queue[0];
    var c := s.cs[i].cell;
    if LooksPure(sch, c) then
      var x, direction := Sym(c.sum, c.checksum), -c.count;
      var cs := TouchedAll(sch, s.cs, x, direction);
      DecoderState(if c.count == 1 then s.remote + [x] else s.remote, if c.count == 1 then s.local else s.local + [x],
                   cs[i := cs[i].(dirty := false)],
                   s.queue[1..] + Reopened(sch, s.cs, x, direction, |s.cs|), s.pending - 1)
    else
      s.(cs := s.cs[i := s.cs[i].(dirty := false)], queue := s.queue[1..],
         pending := if LooksEmpty(c) then s.pending - 1 else s.pending)
  }

  /** What receiving the residual cell c does to the decoder. */
  function StepReceive(s: DecoderState, c: Cell): DecoderState {
    var dirty := !LooksEmpty(c) && Peelable(c);
    s.(cs := s.cs + [Received(c, dirty)], queue := if dirty then s.queue + [|s.cs|] else s.queue,
       pending := if LooksEmpty(c) then s.pending else s.pending + 1)
  }

  lemma SplitHead(s: seq<nat>, i: nat)
    requires i < |s|
    ensures s[i..] == [s[i]] + s[i + 1..]
  {
  }

  /** Before anything was received, any difference agrees. */
  lemma AgreesAtFirst(sch: Scheme, Delta: set<Sym>, plus: set<Sym>)
    requires AllUsable(sch, Delta)
    ensures Agrees(sch, Delta, plus, DecoderState([], [], [], [], 0))
  {
    assert Open(sch, [], Left(Delta, [], [])) == {};
  }

  /** Receiving a cell keeps the state right if and only if the residual is not mistaken for an empty one. */
  lemma ReceiveIsRight(sch: Scheme, Delta: set<Sym>, plus: set<Sym>, s: DecoderState, c: Cell)
    requires Agrees(sch, Delta, plus, s) && c == Fold(At(sch, Rest(Delta, s), |s.cs|), plus)
    ensures Agrees(sch, Delta, plus, StepReceive(s, c)) <==> TellsEmpty(sch, Rest(Delta, s), plus, |s.cs|)
    ensures StepReceive(s, c).queue == Enqueued(sch, Rest(Delta, s), plus, |s.cs|, s.queue)
  {
    ReceiveKeeps(sch, s.cs, s.queue, s.pending, Rest(Delta, s), plus, c);
    StoppingNeedsFewerCells(sch, Delta, |s.cs|, Rest(Delta, s));
  }

  lemma {:induction false} ReopenedIs(sch: Scheme, cs: seq<Received>, queue: seq<nat>, D: set<Sym>, plus: set<Sym>,
                                      x: Sym, k: nat)
    requires CellsHold(sch, cs, D, plus) && FlagsMatch(cs, queue) && x in D && k <= |cs|
    ensures Reopened(sch, cs, x, -Sign(x, plus), k) == ReopenedBy(sch, D - {x}, plus, x, queue, k)
  {
    hide Fold, At, Apply, Hits, CellsHold, FlagsMatch;
    if k > 0 {
      var i := k - 1;
      ReopenedIs(sch, cs, queue, D, plus, x, i);
      CellIs(sch, cs, queue, D, plus, i);
      if Hits(sch, Start(x), i) {
        AfterTouch(sch, cs[i].cell, D, plus, x, i);
      }
    }
  }

  lemma CellIs(sch: Scheme, cs: seq<Received>, queue: seq<nat>, D: set<Sym>, plus: set<Sym>, i: nat)
    requires CellsHold(sch, cs, D, plus) && FlagsMatch(cs, queue) && i < |cs|
    ensures (cs[i].dirty <==> i in queue) && cs[i].cell == Fold(At(sch, D, i), plus)
  {
  }

  /** Working off a queue entry whose cell tells the truth keeps the state right; what is left then, and the new queue,
      are fixed by what was left before. */
  lemma StepRight(sch: Scheme, Delta: set<Sym>, plus: set<Sym>, s: DecoderState)
    requires Agrees(sch, Delta, plus, s) && s.queue != [] && Tells(sch, Rest(Delta, s), plus, s.queue[0])
    ensures s.queue[0] < |s.cs| && Agrees(sch, Delta, plus, StepEntry(sch, s))
    ensures Rest(Delta, StepEntry(sch, s)) == NextLeft(sch, Rest(Delta, s), s.queue[0])
    ensures StepEntry(sch, s).queue == NextQueue(sch, |s.cs|, Rest(Delta, s), plus, s.queue)
    ensures |At(sch, Rest(Delta, StepEntry(sch, s)), s.queue[0])| != 1
  {
    var i, D := s.queue[0], Rest(Delta, s);
    ReadCell(sch, D, plus, i);
    if |At(sch, D, i)| == 1 {
      var x := Sym(s.cs[i].cell.sum, s.cs[i].cell.checksum);
      StepPure(sch, Delta, plus, s, x);
    } else {
      SettleKeeps(sch, s.cs, s.queue, s.pending, D, plus);
    }
  }

  /** The cell at the head of the queue holds the one symbol x. */
  lemma StepPure(sch: Scheme, Delta: set<Sym>, plus: set<Sym>, s: DecoderState, x: Sym)
    requires Agrees(sch, Delta, plus, s) && s.queue != [] && s.queue[0] < |s.cs|
    requires var i := s.queue[0]; var c := s.cs[i].cell;
      At(sch, Rest(Delta, s), i) == {x} && x == Sym(c.sum, c.checksum) && LooksPure(sch, c) && c.count == Sign(x, plus)
    ensures Agrees(sch, Delta, plus, StepEntry(sch, s))
    ensures Rest(Delta, StepEntry(sch, s)) == Rest(Delta, s) - {x} && At(sch, Rest(Delta, s) - {x}, s.queue[0]) == {}
    ensures StepEntry(sch, s).queue == s.queue[1..] + ReopenedBy(sch, Rest(Delta, s) - {x}, plus, x, s.queue, |s.cs|)
  {
    hide StepEntry, Reopened, TouchedAll, Kept, KeepsStopping, ReopenedBy, Fold;
    var i, D, t := s.queue[0], Rest(Delta, s), StepEntry(sch, s);
    var cs, r := TouchedAll(sch, s.cs, x, -Sign(x, plus)), Reopened(sch, s.cs, x, -Sign(x, plus), |s.cs|);
    EntryOfPure(sch, Delta, plus, s, x);
    TouchKeeps(sch, s.cs, s.queue, s.pending, D, plus, x);
    SettleKeeps(sch, cs, s.queue + r, s.pending, D - {x}, plus);
    assert (s.queue + r)[0] == i && (s.queue + r)[1..] == s.queue[1..] + r;
    PeelKeepsStopping(sch, Delta, |s.cs|, D, i, x);
    ReopenedInKept(sch, s, D, plus, x);
  }

  lemma EntryOfPure(sch: Scheme, Delta: set<Sym>, plus: set<Sym>, s: DecoderState, x: Sym)
    requires s.queue != [] && s.queue[0] < |s.cs|
    requires Elements(s.remote) <= Delta * plus && Elements(s.local) <= Delta - plus
    requires var i := s.queue[0]; var c := s.cs[i].cell;
      At(sch, Rest(Delta, s), i) == {x} && x == Sym(c.sum, c.checksum) && LooksPure(sch, c) && c.count == Sign(x, plus)
    ensures var i, t := s.queue[0], StepEntry(sch, s);
      var cs, r := TouchedAll(sch, s.cs, x, -Sign(x, plus)), Reopened(sch, s.cs, x, -Sign(x, plus), |s.cs|);
      x in Rest(Delta, s) && At(sch, Rest(Delta, s) - {x}, i) == {} && Rest(Delta, t) == Rest(Delta, s) - {x} &&
      t.cs == cs[i := cs[i].(dirty := false)] && t.queue == s.queue[1..] + r && t.pending == s.pending - 1 &&
      Elements(t.remote) <= Delta * plus && Elements(t.local) <= Delta - plus
  {
    hide Fold, Reopened, TouchedAll;
    assert x in At(sch, Rest(Delta, s), s.queue[0]);
  }

  lemma ReopenedInKept(sch: Scheme, s: DecoderState, D: set<Sym>, plus: set<Sym>, x: Sym)
    requires Kept(sch, s.cs, s.queue, s.pending, D, plus) && x in D
    ensures Reopened(sch, s.cs, x, -Sign(x, plus), |s.cs|) == ReopenedBy(sch, D - {x}, plus, x, s.queue, |s.cs|)
  {
    ReopenedIs(sch, s.cs, s.queue, D, plus, x, |s.cs|);
  }

  /** If a lie did no harm, it would close no cell. */
  lemma StaysOpen(sch: Scheme, Delta: set<Sym>, plus: set<Sym>, s: DecoderState, j: nat)
    requires Agrees(sch, Delta, plus, s) && s.queue != [] && s.queue[0] < |s.cs|
    requires !Tells(sch, Rest(Delta, s), plus, s.queue[0]) && Agrees(sch, Delta, plus, StepEntry(sch, s))
    requires j in Open(sch, s.cs, Rest(Delta, s))
    ensures j in Open(sch, StepEntry(sch, s).cs, Rest(Delta, StepEntry(sch, s)))
  {
    var i, D, t := s.queue[0], Rest(Delta, s), StepEntry(sch, s);
    var E, c := Rest(Delta, t), s.cs[i].cell;
    var x := Sym(c.sum, c.checksum);
    assert LooksPure(sch, c) ==> E == D - {x};
    assert !LooksPure(sch, c) ==> E == D;
    if j == i {
      assert At(sch, E, i) == At(sch, D, i) - if LooksPure(sch, c) then {x} else {};
      OneLess(At(sch, D, i), x);
    } else if LooksPure(sch, c) && At(sch, E, j) == {} {
      assert At(sch, E, j) == At(sch, D, j) - {x};
      assert t.cs[j].cell == ZERO;
    }
  }

  lemma OneLess<T>(A: set<T>, x: T)
    requires A != {} && |A| != 1
    ensures A - {x} != {}
  {
    if A - {x} == {} {
      assert A <= {x};
      SmallerSet(A, {x});
    }
  }

  /** Working off a queue entry whose cell lies makes the state wrong. */
  lemma StepWrong(sch: Scheme, Delta: set<Sym>, plus: set<Sym>, s: DecoderState)
    requires Agrees(sch, Delta, plus, s) && s.queue != [] && s.queue[0] < |s.cs|
    requires !Tells(sch, Rest(Delta, s), plus, s.queue[0])
    ensures !Agrees(sch, Delta, plus, StepEntry(sch, s))
  {
    var i, D, t := s.queue[0], Rest(Delta, s), StepEntry(sch, s);
    var E := Rest(Delta, t);
    if Agrees(sch, Delta, plus, t) {
      assert At(sch, D, i) != {};
      forall j | j in Open(sch, s.cs, D)
        ensures j in Open(sch, t.cs, E)
      {
        StaysOpen(sch, Delta, plus, s, j);
      }
      assert Open(sch, s.cs, D) <= Open(sch, t.cs, E);
      SmallerSet(Open(sch, s.cs, D), Open(sch, t.cs, E));
    }
  }

  /** The decoder after up to k rounds of its loop. */
  function StateAfter(sch: Scheme, s: DecoderState, k: nat): DecoderState
    decreases k
  {
    if k == 0 || s.queue == [] || s.queue[0] >= |s.cs| then s else StateAfter(sch, StepEntry(sch, s), k - 1)
  }

  ghost predicate AlwaysRight(sch: Scheme, Delta: set<Sym>, plus: set<Sym>, s: DecoderState) {
    forall k: nat :: Agrees(sch, Delta, plus, StateAfter(sch, s, k))
  }

  /** The exact condition: the decoder is right after every round of its loop if and only if every cell that it reads
      tells the truth. */
  lemma {:induction false} RightIffTells(sch: Scheme, Delta: set<Sym>, plus: set<Sym>, s: DecoderState)
    requires Agrees(sch, Delta, plus, s)
    ensures TellsAll(sch, |s.cs|, Rest(Delta, s), plus, s.queue) <==> AlwaysRight(sch, Delta, plus, s)
    decreases Rest(Delta, s), |s.queue|
  {
    hide Agrees, Tells, StepEntry, StateAfter, AlwaysRight, NextLeft, NextQueue;
    if s.queue == [] {
      Stays(sch, Delta, plus, s);
    } else {
      HeadReceived(sch, Delta, plus, s);
      var t := StepEntry(sch, s);
      OneRoundLater(sch, Delta, plus, s);
      if Tells(sch, Rest(Delta, s), plus, s.queue[0]) {
        StepRight(sch, Delta, plus, s);
        SameCells(sch, s);
        Shrinks(sch, |s.cs|, Rest(Delta, s), plus, s.queue);
        RightIffTells(sch, Delta, plus, t);
      } else {
        StepWrong(sch, Delta, plus, s);
      }
    }
  }

  lemma Stays(sch: Scheme, Delta: set<Sym>, plus: set<Sym>, s: DecoderState)
    requires Agrees(sch, Delta, plus, s) && s.queue == []
    ensures AlwaysRight(sch, Delta, plus, s)
  {
    assert forall k: nat :: StateAfter(sch, s, k) == s;
  }

  lemma OneRoundLater(sch: Scheme, Delta: set<Sym>, plus: set<Sym>, s: DecoderState)
    requires Agrees(sch, Delta, plus, s) && s.queue != [] && s.queue[0] < |s.cs|
    ensures AlwaysRight(sch, Delta, plus, s) <==>
            Agrees(sch, Delta, plus, StepEntry(sch, s)) && AlwaysRight(sch, Delta, plus, StepEntry(sch, s))
  {
    hide Agrees, StepEntry;
    var t := StepEntry(sch, s);
    if AlwaysRight(sch, Delta, plus, s) {
      forall k: nat
        ensures Agrees(sch, Delta, plus, StateAfter(sch, t, k))
      {
        assert StateAfter(sch, s, k + 1) == StateAfter(sch, t, k);
      }
      assert StateAfter(sch, t, 0) == t && Agrees(sch, Delta, plus, StateAfter(sch, t, 0));
    }
    if AlwaysRight(sch, Delta, plus, t) {
      forall k: nat
        ensures Agrees(sch, Delta, plus, StateAfter(sch, s, k))
      {
        if k > 0 {
          assert StateAfter(sch, s, k) == StateAfter(sch, t, k - 1);
        }
      }
    }
  }

  lemma HeadReceived(sch: Scheme, Delta: set<Sym>, plus: set<Sym>, s: DecoderState)
    requires Agrees(sch, Delta, plus, s) && s.queue != []
    ensures s.queue[0] < |s.cs|
  {
  }

  lemma SameCells(sch: Scheme, s: DecoderState)
    requires s.queue != [] && s.queue[0] < |s.cs|
    ensures |StepEntry(sch, s).cs| == |s.cs|
  {
  }

  /** Each round either recovers a symbol or shortens the queue. */
  lemma Shrinks(sch: Scheme, n: nat, D: set<Sym>, plus: set<Sym>, queue: seq<nat>)
    requires queue != []
    ensures var E := NextLeft(sch, D, queue[0]);
      E < D || (E == D && |NextQueue(sch, n, D, plus, queue)| < |queue|)
  {
  }

  /** What reaches the dirty loop for one cell: the incoming cell less what was recovered already. */
  lemma Residual(sch: Scheme, Delta: set<Sym>, plus: set<Sym>, remote: set<Sym>, local: set<Sym>, n: nat)
    requires remote <= Delta * plus && local <= Delta - plus
    ensures Plus(Plus(Fold(At(sch, Delta, n), plus), Due(sch, remote, n, REMOVE)), Due(sch, local, n, ADD))
         == Fold(At(sch, Delta - remote - local, n), plus)
  {
    var R, L, D := At(sch, remote, n), At(sch, local, n), At(sch, Delta - remote - local, n);
    var d, r, l := Fold(D, plus), Fold(R, plus), Fold(L, plus);
    var r', l' := Due(sch, remote, n, REMOVE), Due(sch, local, n, ADD);
    assert At(sch, Delta, n) == (D + L) + R;
    calc {
      Plus(Plus(Fold(At(sch, Delta, n), plus), r'), l');
      { FoldUnion(D + L, R, plus); }
      Plus(Plus(Plus(Fold(D + L, plus), r), r'), l');
      { TakeBack(Fold(D + L, plus), R, plus, {}); }
      Plus(Fold(D + L, plus), l');
      { FoldUnion(D, L, plus); }
      Plus(Plus(d, l), l');
      { TakeBack(d, L, plus, local); }
      d;
    }
  }

  /** What was folded in with the signs of p is taken back with the opposite signs. */
  lemma TakeBack(c: Cell, X: set<Sym>, p: set<Sym>, q: set<Sym>)
    requires forall x | x in X :: x in p <==> x !in q
    ensures Plus(Plus(c, Fold(X, p)), Fold(X, q)) == c
  {
    FoldCancels(X, p, q);
    PlusLaws(c, Fold(X, p), Fold(X, q));
    PlusLaws(c, ZERO, ZERO);
  }

  /** Streaming: with the sender's set A in the incoming cell and B in the window, the difference is A and B's
      symmetric difference. */
  lemma StreamedCell(sch: Scheme, A: set<Sym>, B: set<Sym>, n: nat)
    ensures Plus(Fold(At(sch, A, n), A), Due(sch, B, n, REMOVE)) == Fold(At(sch, (A - B) + (B - A), n), A)
  {
    var a, b, d := At(sch, A, n), At(sch, B, n), At(sch, (A - B) + (B - A), n);
    assert d == (a - b) + (b - a);
    calc {
      Plus(Fold(a, A), Fold(b, {}));
      { FoldAgrees(a, A, a); FoldDifference(a, b); }
      Fold(d, a);
      { FoldAgrees(d, a, A); }
      Fold(d, A);
    }
  }
}
