/** The rateless decoder: three coding windows, the received cells, and the peeling work-list (riblt/decoder.go). */
module Decoders {
  import opened Words
  import opened Lists
  import opened Symbols
  import opened Mappings
  import opened Windows
  import opened Peeling
  import opened Readings
  import opened Bookkeeping

  class Decoder {
    const sch: Scheme
    var cs: seq<Received>
    const local: CodingWindow
    const window: CodingWindow
    const remote: CodingWindow
    var dirty: seq<nat>
    var pending: int

    /** The three windows are separate objects over one scheme. */
    ghost predicate Wired() {
      local != window && window != remote && remote != local &&
      local.sch == sch && window.sch == sch && remote.sch == sch
    }

    /** The symbols of the difference Delta that have not been recovered yet. */
    ghost function Remaining(Delta: set<Sym>): set<Sym>
      reads remote, local
    {
      Left(Delta, remote.symbols, local.symbols)
    }

    /** The decoder as a value, when the first didx entries of the work-list have been worked off. */
    ghost function State(didx: nat): DecoderState
      requires didx <= |dirty|
      reads this, remote, local
    {
      DecoderState(remote.symbols, local.symbols, cs, dirty[didx..], pending)
    }

    /** The decoder's fields agree with what remains of Delta, when didx entries have been worked off. */
    ghost predicate Consistent(Delta: set<Sym>, plus: set<Sym>, didx: nat)
      reads this, remote, local
    {
      didx <= |dirty| && Agrees(sch, Delta, plus, State(didx))
    }

    /** All three windows are in step and stand at coded symbol n. */
    ghost predicate WindowsAt(n: nat)
      reads remote, local, window
    {
      && Wired() && local.Valid() && window.Valid() && remote.Valid()
      && local.nextIdx == n && window.nextIdx == n && remote.nextIdx == n
    }

    /** All three windows stand at the next coded symbol. */
    ghost predicate Lockstep()
      reads this, remote, local, window
    {
      WindowsAt(|cs|)
    }

    /** The decoder is at work on the difference Delta, whose symbols in plus are the remote ones. */
    ghost predicate Valid(Delta: set<Sym>, plus: set<Sym>)
      reads this, remote, local, window
    {
      Lockstep() && Consistent(Delta, plus, 0) && Live(sch, Remaining(Delta), dirty)
    }

    /** Nothing has been received since the decoder was made or reset. */
    ghost predicate Ready()
      reads this, remote, local, window
    {
      Lockstep() && cs == [] && dirty == [] && pending == 0 && remote.symbols == [] && local.symbols == []
    }

    lemma ReadyIsValid(Delta: set<Sym>, plus: set<Sym>)
      requires Ready() && AllUsable(sch, Delta)
      ensures Valid(Delta, plus) && Remaining(Delta) == Delta
    {
      AgreesAtFirst(sch, Delta, plus);
    }

    constructor (sch: Scheme)
      requires Advancing(sch)
      ensures this.sch == sch && Ready() && window.symbols == []
      ensures fresh(local) && fresh(window) && fresh(remote)
    {
      this.sch := sch;
      cs, dirty, pending := [], [], 0;
      local := new CodingWindow(sch);
      window := new CodingWindow(sch);
      remote := new CodingWindow(sch);
    }

    /** Apply t to one cell, and queue the cell if it may have become pure or empty. */
    method Touch(cidx: nat, t: Sym, direction: int)
      requires cidx < |cs|
      modifies this`cs, this`dirty
      ensures cs == old(cs)[cidx := Touched(old(cs)[cidx], t, direction)]
      ensures dirty == old(dirty) + if cs[cidx].dirty && !old(cs)[cidx].dirty then [cidx] else []
    {
      cs := cs[cidx := Received(Apply(cs[cidx].cell, t, direction), cs[cidx].dirty)];
      var c := cs[cidx];
      if !c.dirty && c.cell.count >= -1 && c.cell.count <= 1 {
        cs := cs[cidx := c.(dirty := true)];
        dirty := dirty + [cidx];
      }
    }

    /** Apply t to every received cell that it goes into, and queue those that may have become pure or empty. */
    method ApplyNewSymbol(t: Sym, direction: int) returns (m: Mapping)
      requires Advancing(sch) && t.hash != 0
      modifies this`cs, this`dirty
      ensures cs == TouchedAll(sch, old(cs), t, direction)
      ensures dirty == old(dirty) + Reopened(sch, old(cs), t, direction, |cs|)
      ensures Tracks(sch, t, m, |cs|)
    {
      m := Start(t);
      TracksFromStart(sch, t);
      ghost var done: nat := 0;
      while m.lastIdx < |cs|
        invariant TouchedUpTo(sch, old(cs), cs, t, direction, done) && Tracks(sch, t, m, done) && done <= |cs|
        invariant dirty == old(dirty) + Reopened(sch, old(cs), t, direction, done)
        decreases |cs| - done
      {
        TouchNext(sch, old(cs), cs, t, direction, m, done);
        done := m.lastIdx + 1;
        Touch(m.lastIdx, t, direction);
        m := sch.next(m);
      }
      TouchDone(sch, old(cs), cs, t, direction, m, done);
    }

    /** The cell at the head of the queue looks pure: move its symbol to the side that its count says, and peel it
        everywhere. */
    method Recover(cidx: nat, c: Cell)
      requires Lockstep() && cidx < |cs| && c == cs[cidx].cell && LooksPure(sch, c) && c.checksum != 0
      modifies this`cs, this`dirty, this`pending, remote, local
      ensures cs == TouchedAll(sch, old(cs), Sym(c.sum, c.checksum), -c.count)
      ensures dirty == old(dirty) + Reopened(sch, old(cs), Sym(c.sum, c.checksum), -c.count, |cs|)
      ensures pending == old(pending) - 1 && window.symbols == old(window.symbols)
      ensures remote.symbols == old(remote.symbols) + if c.count == 1 then [Sym(c.sum, c.checksum)] else []
      ensures local.symbols == old(local.symbols) + if c.count == 1 then [] else [Sym(c.sum, c.checksum)]
      ensures NoDuplicates(remote.symbols) && NoDuplicates(local.symbols) ==> Lockstep()
    {
      hide Tracks;
      var ns := Sym(c.sum, sch.hash(c.sum));
      var m := ApplyNewSymbol(ns, if c.count == 1 then REMOVE else ADD);
      if c.count == 1 {
        NewIsNew(remote.symbols, ns);
        remote.AddHashedSymbolWithMapping(ns, m);
      } else {
        NewIsNew(local.symbols, ns);
        local.AddHashedSymbolWithMapping(ns, m);
      }
      pending := pending - 1;
    }

    /** Work off entry didx of the queue. A cell that looks pure under hash 0 would keep the code in its loop for
        ever. */
    method DecodeEntry(didx: nat)
      requires Lockstep() && didx < |dirty| && dirty[didx] < |cs|
      requires LooksPure(sch, cs[dirty[didx]].cell) ==> cs[dirty[didx]].cell.checksum != 0
      modifies this`cs, this`dirty, this`pending, remote, local
      ensures |dirty| > didx && State(didx + 1) == StepEntry(sch, old(State(didx)))
      ensures window.symbols == old(window.symbols) && |cs| == old(|cs|)
      ensures NoDuplicates(remote.symbols) && NoDuplicates(local.symbols) ==> Lockstep()
    {
      hide NoDuplicates, Reopened;
      var cidx := dirty[didx];
      var c := cs[cidx].cell;
      SplitHead(dirty, didx);
      if c.count == 1 || c.count == -1 {
        if sch.hash(c.sum) == c.checksum {
          Recover(cidx, c);
        }
      } else if c.count == 0 {
        if c.checksum == 0 {
          pending := pending - 1;
        }
      }
      cs := cs[cidx := cs[cidx].(dirty := false)];
    }

    /** Work off entry didx of the queue, whose cell tells the truth. */
    method DecodeTruly(didx: nat, ghost Delta: set<Sym>, ghost plus: set<Sym>)
      requires Lockstep() && didx < |dirty| && Consistent(Delta, plus, didx)
      requires TellsAll(sch, |cs|, Remaining(Delta), plus, dirty[didx..])
      modifies this`cs, this`dirty, this`pending, remote, local
      ensures Lockstep() && window.symbols == old(window.symbols) && |cs| == old(|cs|)
      ensures didx < |dirty| && Consistent(Delta, plus, didx + 1)
      ensures Remaining(Delta) == NextLeft(sch, old(Remaining(Delta)), old(dirty[didx]))
      ensures dirty[didx + 1..] == NextQueue(sch, |cs|, old(Remaining(Delta)), plus, old(dirty[didx..]))
      ensures TellsAll(sch, |cs|, Remaining(Delta), plus, dirty[didx + 1..])
    {
      ghost var s := State(didx);
      TrueEntry(sch, Delta, plus, s);
      hide Agrees, StepEntry, NextLeft, NextQueue, Tells, NoDuplicates;
      DecodeEntry(didx);
      NoneTwice(sch, Delta, plus, s);
    }

    /** Work off the queue, when every cell that this reads tells the truth. */
    method TryDecode(ghost Delta: set<Sym>, ghost plus: set<Sym>)
      requires Valid(Delta, plus) && TellsAll(sch, |cs|, Remaining(Delta), plus, dirty)
      modifies this`cs, this`dirty, this`pending, remote, local
      ensures Valid(Delta, plus) && window.symbols == old(window.symbols) && |cs| == old(|cs|) && dirty == []
      ensures Remaining(Delta) == WorkedOff(sch, |cs|, old(Remaining(Delta)), plus, old(dirty))
      ensures IsCore(sch, Delta, |cs|, Remaining(Delta))
    {
      assert dirty[0..] == dirty;
      WorkOff(Delta, plus);
      assert dirty[|dirty|..] == [];
      dirty := [];
      Settled(sch, cs, pending, Remaining(Delta), plus);
    }

    /** The loop over the work-list, which grows while it is scanned. */
    method WorkOff(ghost Delta: set<Sym>, ghost plus: set<Sym>)
      requires Lockstep() && Consistent(Delta, plus, 0) && TellsAll(sch, |cs|, Remaining(Delta), plus, dirty[0..])
      modifies this`cs, this`dirty, this`pending, remote, local
      ensures Lockstep() && Consistent(Delta, plus, |dirty|)
      ensures window.symbols == old(window.symbols) && |cs| == old(|cs|)
      ensures Remaining(Delta) == WorkedOff(sch, |cs|, old(Remaining(Delta)), plus, old(dirty[0..]))
    {
      hide Agrees, NextLeft, NextQueue, Tells, TellsAll;
      var didx := 0;
      while didx < |dirty|
        invariant didx <= |dirty| && Lockstep() && Consistent(Delta, plus, didx)
        invariant TellsAll(sch, |cs|, Remaining(Delta), plus, dirty[didx..])
        invariant WorkedOff(sch, |cs|, Remaining(Delta), plus, dirty[didx..]) ==
                  WorkedOff(sch, |cs|, old(Remaining(Delta)), plus, old(dirty[0..]))
        invariant window.symbols == old(window.symbols) && |cs| == old(|cs|)
        decreases Remaining(Delta), |dirty| - didx
      {
        Shrinks(sch, |cs|, Remaining(Delta), plus, dirty[didx..]);
        DecodeTruly(didx, Delta, plus);
        didx := didx + 1;
      }
    }

    method AddHashedSymbol(s: Sym)
      requires window.Shaped()
      modifies window
      ensures window.symbols == old(window.symbols) + [s] && window.Shaped()
      ensures old(Ready()) && s !in old(window.symbols) && s.hash != 0 ==> Ready()
      ensures window.nextIdx == old(window.nextIdx) && (window.nextIdx > 0 ==> window.Stale())
    {
      window.AddHashedSymbol(s);
    }

    /** Let the three windows take their symbols out of the next coded symbol. */
    method ApplyWindows(c: Cell) returns (r: Cell)
      requires Lockstep()
      modifies local, window, remote
      ensures WindowsAt(|cs| + 1) && window.symbols == old(window.symbols)
      ensures remote.symbols == old(remote.symbols) && local.symbols == old(local.symbols)
      ensures r == Plus(Plus(Plus(c, Due(sch, Elements(window.symbols), |cs|, REMOVE)),
                             Due(sch, Elements(remote.symbols), |cs|, REMOVE)),
                        Due(sch, Elements(local.symbols), |cs|, ADD))
    {
      hide Plus, Due, Elements;
      r := window.ApplyWindow(c, REMOVE);
      r := remote.ApplyWindow(r, REMOVE);
      r := local.ApplyWindow(r, ADD);
    }

    /** Take everything that the three windows know about out of the next coded symbol: what is left in it is what
        remains of the difference. */
    method Strip(c: Cell, ghost Delta: set<Sym>, ghost plus: set<Sym>) returns (r: Cell)
      requires Lockstep()
      requires Elements(remote.symbols) <= Delta * plus && Elements(local.symbols) <= Delta - plus
      requires Plus(c, Due(sch, Elements(window.symbols), |cs|, REMOVE)) == Fold(At(sch, Delta, |cs|), plus)
      modifies local, window, remote
      ensures WindowsAt(|cs| + 1) && window.symbols == old(window.symbols)
      ensures remote.symbols == old(remote.symbols) && local.symbols == old(local.symbols)
      ensures r == Fold(At(sch, Remaining(Delta), |cs|), plus)
    {
      hide Lockstep, WindowsAt, Plus, Due, Fold, At, Elements;
      Residual(sch, Delta, plus, Elements(remote.symbols), Elements(local.symbols), |cs|);
      r := ApplyWindows(c);
    }

    /** Append a residual cell, queue it if it may be pure, and count it unless it is empty. */
    method Store(c: Cell)
      modifies this`cs, this`dirty, this`pending
      ensures cs == old(cs) + [Received(c, !LooksEmpty(c) && Peelable(c))]
      ensures dirty == if !LooksEmpty(c) && Peelable(c) then old(dirty) + [old(|cs|)] else old(dirty)
      ensures pending == if LooksEmpty(c) then old(pending) else old(pending) + 1
    {
      if c.count == 0 && c.checksum == 0 {
        cs := cs + [Received(c, false)];
      } else {
        if c.count >= -1 && c.count <= 1 {
          cs := cs + [Received(c, true)];
          dirty := dirty + [|cs| - 1];
        } else {
          cs := cs + [Received(c, false)];
        }
        pending := pending + 1;
      }
    }

    /** Receive one more coded symbol. The decoder stays right if and only if what is left in it is not mistaken for
        nothing. */
    method AddCodedSymbol(c: Cell, ghost Delta: set<Sym>, ghost plus: set<Sym>)
      requires Valid(Delta, plus)
      requires Plus(c, Due(sch, Elements(window.symbols), |cs|, REMOVE)) == Fold(At(sch, Delta, |cs|), plus)
      modifies this`cs, this`dirty, this`pending, local, window, remote
      ensures Lockstep() && |cs| == old(|cs|) + 1
      ensures window.symbols == old(window.symbols) && Remaining(Delta) == old(Remaining(Delta))
      ensures State(0) == StepReceive(old(State(0)), Fold(At(sch, Remaining(Delta), old(|cs|)), plus))
      ensures Valid(Delta, plus) <==> TellsEmpty(sch, Remaining(Delta), plus, old(|cs|))
      ensures dirty == Enqueued(sch, Remaining(Delta), plus, old(|cs|), old(dirty))
    {
      hide Agrees, Lockstep, Consistent, Live, StepReceive, Enqueued, TellsEmpty, Plus, Due, Fold, At, Elements;
      Parts(Delta, plus);
      var r := Strip(c, Delta, plus);
      ReceiveIsRight(sch, Delta, plus, State(0), r);
      LiveReceives(sch, Remaining(Delta), plus, |cs|, dirty);
      Append(r);
      Whole(Delta, plus);
    }

    method Append(r: Cell)
      modifies this`cs, this`dirty, this`pending
      ensures State(0) == StepReceive(old(State(0)), r) && |cs| == old(|cs|) + 1
    {
      Store(r);
    }

    lemma Parts(Delta: set<Sym>, plus: set<Sym>)
      requires Valid(Delta, plus)
      ensures Lockstep() && WindowsAt(|cs|) && Agrees(sch, Delta, plus, State(0)) && Live(sch, Remaining(Delta), dirty)
      ensures Elements(remote.symbols) <= Delta * plus && Elements(local.symbols) <= Delta - plus
      ensures State(0).queue == dirty && State(0).cs == cs && Rest(Delta, State(0)) == Remaining(Delta)
    {
      hide Kept, KeepsStopping;
      assert dirty[0..] == dirty;
    }

    lemma Whole(Delta: set<Sym>, plus: set<Sym>)
      ensures Valid(Delta, plus) <==>
        Lockstep() && Agrees(sch, Delta, plus, State(0)) && Live(sch, Remaining(Delta), State(0).queue)
      ensures WindowsAt(|cs|) ==> Lockstep()
      ensures State(0).queue == dirty && State(0).cs == cs && Rest(Delta, State(0)) == Remaining(Delta)
    {
      assert dirty[0..] == dirty;
    }

    method Reset()
      requires Wired() && Advancing(sch)
      modifies this`cs, this`dirty, this`pending, local, window, remote
      ensures Ready() && window.symbols == []
    {
      cs, dirty := [], [];
      local.Reset();
      remote.Reset();
      window.Reset();
      pending := 0;
    }

    predicate Decoded()
      reads this
    {
      pending == 0
    }

    /** The verdict is sound: once a cell was received, Decoded means that the two lists are exactly the two sides of
        the difference, each symbol listed once. */
    lemma DecodedIsExact(Delta: set<Sym>, plus: set<Sym>)
      requires Valid(Delta, plus) && |cs| > 0 && Decoded()
      ensures Elements(remote.symbols) == Delta * plus && NoDuplicates(remote.symbols)
      ensures Elements(local.symbols) == Delta - plus && NoDuplicates(local.symbols)
    {
      NothingPending(sch, cs, dirty, Remaining(Delta), plus);
    }

    /** Between calls the counter is exact, and the verdict is complete: it holds if and only if nothing remains. */
    lemma DecodedIsComplete(Delta: set<Sym>, plus: set<Sym>)
      requires Valid(Delta, plus)
      ensures pending == |Nonempty(sch, |cs|, Remaining(Delta))|
      ensures |cs| > 0 ==> (Decoded() <==> Remaining(Delta) == {})
    {
      LiveCounts(sch, cs, dirty[0..], pending, Remaining(Delta), plus);
      if Decoded() && |cs| > 0 {
        NothingPending(sch, cs, dirty[0..], Remaining(Delta), plus);
      }
      EmptyIsEmpty(sch, |cs|);
    }

    /** After peeling, the verdict and what was recovered depend only on the difference and the number of cells. */
    lemma VerdictIsDetermined(Delta: set<Sym>, plus: set<Sym>)
      requires Valid(Delta, plus) && |cs| > 0 && IsCore(sch, Delta, |cs|, Remaining(Delta))
      ensures Decoded() <==> IsCore(sch, Delta, |cs|, {})
      ensures Decoded() ==> Elements(remote.symbols) == Delta * plus && Elements(local.symbols) == Delta - plus
    {
      DecodedIsComplete(Delta, plus);
      if IsCore(sch, Delta, |cs|, {}) {
        CoreIsUnique(sch, Delta, |cs|, {}, Remaining(Delta));
      }
      if Decoded() {
        DecodedIsExact(Delta, plus);
      }
    }
  }

  lemma NewIsNew(s: seq<Sym>, x: Sym)
    ensures NoDuplicates(s + [x]) ==> x !in s
  {
    if x in s {
      var k :| 0 <= k < |s| && s[k] == x;
      assert (s + [x])[k] == (s + [x])[|s|];
    }
  }

  /** The head of the queue, when its cell tells the truth. */
  lemma TrueEntry(sch: Scheme, Delta: set<Sym>, plus: set<Sym>, s: DecoderState)
    requires Agrees(sch, Delta, plus, s) && s.queue != [] && TellsAll(sch, |s.cs|, Rest(Delta, s), plus, s.queue)
    ensures s.queue[0] < |s.cs|
    ensures LooksPure(sch, s.cs[s.queue[0]].cell) ==> s.cs[s.queue[0]].cell.checksum != 0
    ensures Agrees(sch, Delta, plus, StepEntry(sch, s)) && |StepEntry(sch, s).cs| == |s.cs|
    ensures Rest(Delta, StepEntry(sch, s)) == NextLeft(sch, Rest(Delta, s), s.queue[0])
    ensures StepEntry(sch, s).queue == NextQueue(sch, |s.cs|, Rest(Delta, s), plus, s.queue)
  {
    StepRight(sch, Delta, plus, s);
    ReadCell(sch, Rest(Delta, s), plus, s.queue[0]);
  }

  /** A truly recovered symbol was not on either list. */
  lemma NoneTwice(sch: Scheme, Delta: set<Sym>, plus: set<Sym>, s: DecoderState)
    requires Agrees(sch, Delta, plus, s) && s.queue != [] && TellsAll(sch, |s.cs|, Rest(Delta, s), plus, s.queue)
    requires NoDuplicates(s.remote) && NoDuplicates(s.local) && s.queue[0] < |s.cs|
    ensures NoDuplicates(StepEntry(sch, s).remote) && NoDuplicates(StepEntry(sch, s).local)
  {
    ReadCell(sch, Rest(Delta, s), plus, s.queue[0]);
  }
}
