/** The sending side of the block protocol: blocks, bursts and the send window (newsim/coding.go). */
module Senders {
  import opened Words
  import opened Lists
  import opened Symbols
  import opened Mappings
  import opened Windows
  import opened Shards

  datatype Codeword = Codeword(cell: Cell, newBlock: bool, startHash: nat, endHash: nat)

  datatype Ack = Ack(ackBlock: bool, ackStart: bool, txs: seq<Sym>)

  /** Coded symbol number i of a block that encodes the set S; the first one opens the block and names its shard. */
  ghost function CodewordAt(sch: Scheme, S: set<Sym>, shard: nat, k: nat, i: nat): Codeword
    requires k > 0
  {
    var c := Fold(At(sch, S, i), S);
    if i == 0 then Codeword(c, true, ShardStart(shard, k), ShardEnd(shard, k)) else Codeword(c, false, 0, 0)
  }

  /** Coded symbols number from up to number to of a block. */
  ghost function CodewordsOf(sch: Scheme, S: set<Sym>, shard: nat, k: nat, from: nat, till: nat): (s: seq<Codeword>)
    requires k > 0 && from <= till
    ensures |s| == till - from
    decreases till
  {
    if from == till then []
    else CodewordsOf(sch, S, shard, k, from, till - 1) + [CodewordAt(sch, S, shard, k, till - 1)]
  }

  lemma {:induction false} CodewordsGrow(sch: Scheme, S: set<Sym>, shard: nat, k: nat, from: nat, till: nat, end: nat)
    requires k > 0 && from <= till <= end
    ensures CodewordsOf(sch, S, shard, k, from, end) ==
            CodewordsOf(sch, S, shard, k, from, till) + CodewordsOf(sch, S, shard, k, till, end)
    decreases end
  {
    if till < end {
      CodewordsGrow(sch, S, shard, k, from, till, end - 1);
    }
  }

  lemma {:induction false} CodewordsElement(sch: Scheme, S: set<Sym>, shard: nat, k: nat, from: nat, till: nat, i: nat)
    requires k > 0 && from <= till && i < till - from
    ensures CodewordsOf(sch, S, shard, k, from, till)[i] == CodewordAt(sch, S, shard, k, from + i)
    decreases till
  {
    if from + i + 1 != till {
      CodewordsElement(sch, S, shard, k, from, till - 1, i);
    }
  }

  /** What a block start looks at and changes. */
  datatype SenderView = SenderView(buffer: seq<Sym>, nextShard: nat, shard: nat, block: seq<Sym>, sendWindow: real,
                                   acks: nat)

  /** A block start moves the next shard out of the buffer into the block, and sizes the send window by the acks that
      the last block got. */
  ghost predicate StartsBlock(schedule: seq<nat>, randomizer: Word, overhead: real, pre: SenderView, post: SenderView)
    requires IsSchedule(schedule) && pre.nextShard < |schedule|
  {
    && post.shard == schedule[pre.nextShard] && post.nextShard == (pre.nextShard + 1) % |schedule|
    && Divided(schedule, pre.nextShard, randomizer, pre.buffer, post.buffer, post.block)
    && post.sendWindow == AtLeastOne(Scaled(pre.acks, overhead)) && post.acks == 0
  }

  /** Every buffered symbol will be in one of the |schedule| blocks that start next after it was born, which is the
      number of blocks that had started when it entered the buffer. */
  ghost predicate Timely(schedule: seq<nat>, next: nat, randomizer: Word, buffer: seq<Sym>, starts: nat,
                         born: map<Sym, nat>)
    requires IsSchedule(schedule) && next < |schedule|
  {
    forall v | v in buffer :: v in born && starts + Wait(schedule, next, randomizer, v) < born[v] + |schedule|
  }

  lemma TimelyOffer(schedule: seq<nat>, next: nat, randomizer: Word, buffer: seq<Sym>, starts: nat,
                    born: map<Sym, nat>, tx: Sym)
    requires IsSchedule(schedule) && next < |schedule| && Timely(schedule, next, randomizer, buffer, starts, born)
    requires tx !in buffer
    ensures Timely(schedule, next, randomizer, buffer + [tx], starts, born[tx := starts])
  {
  }

  lemma TimelySends(sch: Scheme, schedule: seq<nat>, randomizer: Word, overhead: real, pre: SenderState,
                    post: SenderState, starts: nat, born: map<Sym, nat>)
    requires IsSchedule(schedule) && pre.view.nextShard < |schedule|
    requires Sends(sch, schedule, randomizer, overhead, pre, post)
    requires Timely(schedule, pre.view.nextShard, randomizer, pre.view.buffer, starts, born)
    ensures post.view.nextShard < |schedule|
    ensures Timely(schedule, post.view.nextShard, randomizer, post.view.buffer,
                   if pre.encoding then starts else starts + 1,
                   born)
  {
  }

  /** The sender as a value. */
  datatype SenderState = SenderState(view: SenderView, encoding: bool, nextIdx: nat, inFlight: int,
                                     outbox: seq<Codeword>)

  /** The sender went on with its block or started one, and appended to the outbox exactly the next coded symbols of
      that block, in order; inFlight grew by as many. */
  ghost predicate Sends(sch: Scheme, schedule: seq<nat>, randomizer: Word, overhead: real,
                        pre: SenderState, post: SenderState)
    requires IsSchedule(schedule) && pre.view.nextShard < |schedule|
  {
    var from, base := if pre.encoding then pre.nextIdx else 0, if pre.encoding then pre.inFlight else 0;
    && post.encoding && from <= post.nextIdx && post.inFlight == base + (post.nextIdx - from)
    && (if pre.encoding then post.view == pre.view
        else StartsBlock(schedule, randomizer, overhead, pre.view, post.view))
    && post.outbox == pre.outbox +
         CodewordsOf(sch, Elements(post.view.block), post.view.shard, |schedule|, from, post.nextIdx)
  }

  /** What sending does to the window: nothing, unless it starts a block. */
  lemma WindowSent(sch: Scheme, schedule: seq<nat>, randomizer: Word, overhead: real, a: SenderState, b: SenderState)
    requires IsSchedule(schedule) && a.view.nextShard < |schedule| && Sends(sch, schedule, randomizer, overhead, a, b)
    ensures a.encoding ==> b.view == a.view
    ensures !a.encoding ==> b.view.acks == 0 && b.view.sendWindow == AtLeastOne(Scaled(a.view.acks, overhead))
  {
  }

  /** The state after the next codeword was produced and before it is in the outbox. */
  lemma NextIs(sch: Scheme, schedule: seq<nat>, randomizer: Word, overhead: real, a: SenderState, b: SenderState,
               cw: seq<Codeword>, yes: bool)
    requires IsSchedule(schedule) && a.view.nextShard < |schedule| && b.encoding && b.outbox == a.outbox
    requires b.nextIdx == (if a.encoding then a.nextIdx else 0) + if yes then 1 else 0
    requires b.inFlight == if a.encoding then a.inFlight else 0
    requires if a.encoding then b.view == a.view else StartsBlock(schedule, randomizer, overhead, a.view, b.view)
    requires yes ==>
      cw == CodewordsOf(sch, Elements(b.view.block), b.view.shard, |schedule|, b.nextIdx - 1, b.nextIdx)
    ensures !yes ==> Sends(sch, schedule, randomizer, overhead, a, b)
    ensures yes ==>
      Sends(sch, schedule, randomizer, overhead, a, b.(outbox := a.outbox + cw, inFlight := b.inFlight + 1))
  {
  }

  lemma SendsOn(sch: Scheme, schedule: seq<nat>, randomizer: Word, overhead: real,
                a: SenderState, b: SenderState, c: SenderState)
    requires IsSchedule(schedule) && a.view.nextShard < |schedule| && b.view.nextShard < |schedule|
    requires Sends(sch, schedule, randomizer, overhead, a, b) && Sends(sch, schedule, randomizer, overhead, b, c)
    ensures Sends(sch, schedule, randomizer, overhead, a, c)
  {
    var from := if a.encoding then a.nextIdx else 0;
    CodewordsGrow(sch, Elements(c.view.block), c.view.shard, |schedule|, from, b.nextIdx, c.nextIdx);
  }

  /** What fills a window of size w that already has base codewords in flight: as few more as possible, so that inFlight
      is the larger of base and the least integer that is not below w. */
  predicate Fills(base: int, w: real, inFlight: int) {
    if w <= base as real then inFlight == base else w <= inFlight as real < w + 1.0
  }

  /** How many codewords of its block the sender has in flight before it fills the window; a new block starts with one
      and a burst of two for every three acks of the last block. */
  function Base(pre: SenderState): int {
    if pre.encoding then pre.inFlight else 1 + pre.view.acks * 2 / 3
  }

  /** Every codeword after the first base ones was sent while the window still had room. */
  predicate Filling(base: int, w: real, inFlight: int) {
    base <= inFlight && (inFlight == base || (inFlight - 1) as real < w)
  }

  lemma FilledUp(base: int, w: real, inFlight: int)
    requires Filling(base, w, inFlight) && w <= inFlight as real
    ensures Fills(base, w, inFlight)
  {
  }

  lemma FillOneMore(base: int, w: real, before: int, after: int, more: bool)
    requires Filling(base, w, before) && after == before + (if more then 1 else 0) && (more ==> before as real < w)
    ensures Filling(base, w, after)
  {
  }

  class Sender {
    const sch: Scheme
    var buffer: seq<Sym>
    const encoder: CodingWindow
    var sendWindow: real
    var inFlight: int
    var encodingCurrentBlock: bool
    var currentBlockAckCount: nat
    var receivingCurrentBlock: bool
    var outbox: seq<Codeword>
    const controlOverhead: real
    const shardSchedule: seq<nat>
    const shardRandomizer: Word
    var nextShard: nat
    /** The shard of the current block. */
    ghost var shard: nat

    ghost predicate Valid()
      reads this`buffer, this`nextShard, this`sendWindow, this`encodingCurrentBlock, this`shard, encoder
    {
      && encoder.sch == sch && encoder.Valid() && NoDuplicates(buffer) && (forall v | v in buffer :: v.hash != 0)
      && IsSchedule(shardSchedule) && nextShard < |shardSchedule| && 1.0 <= sendWindow
      && (encodingCurrentBlock ==> encoder.nextIdx > 0 && shard < |shardSchedule|)
    }

    ghost function Block(): set<Sym>
      reads encoder
    {
      Elements(encoder.symbols)
    }

    /** The coded symbols of the current block from number from to the last one produced. */
    ghost function Produced(from: nat): seq<Codeword>
      requires |shardSchedule| > 0 && from <= encoder.nextIdx
      reads this, encoder
    {
      CodewordsOf(sch, Block(), shard, |shardSchedule|, from, encoder.nextIdx)
    }

    constructor (sch: Scheme, controlOverhead: real, shardSchedule: seq<nat>, shardRandomizer: Word)
      requires Advancing(sch) && IsSchedule(shardSchedule)
      ensures Valid() && fresh(encoder)
      ensures this.sch == sch && this.shardSchedule == shardSchedule && this.shardRandomizer == shardRandomizer
      ensures buffer == [] && encoder.symbols == [] && encoder.nextIdx == 0 && outbox == [] && nextShard == 0
      ensures !encodingCurrentBlock && !receivingCurrentBlock && currentBlockAckCount == 0 && inFlight == 0
    {
      this.sch := sch;
      encoder := new CodingWindow(sch);
      buffer, outbox := [], [];
      sendWindow, inFlight := 1.0, 0;
      encodingCurrentBlock, receivingCurrentBlock, currentBlockAckCount := false, false, 0;
      this.controlOverhead := controlOverhead;
      this.shardSchedule := shardSchedule;
      this.shardRandomizer := shardRandomizer;
      nextShard, shard := 0, 0;
    }

    ghost function View(): SenderView
      reads this, encoder
    {
      SenderView(buffer, nextShard, shard, encoder.symbols, sendWindow, currentBlockAckCount)
    }

    /** Between the two states the sender started a block. */
    twostate predicate NewBlock()
      requires old(Valid())
      reads this, encoder
    {
      StartsBlock(shardSchedule, shardRandomizer, controlOverhead, old(View()), View())
    }

    /** Move the next shard out of the buffer into an empty encoder. */
    method DrainShard(start: nat, end: nat)
      requires Valid() && start == ShardStart(shardSchedule[nextShard], |shardSchedule|)
      requires end == ShardEnd(shardSchedule[nextShard], |shardSchedule|)
      modifies this`buffer, encoder
      ensures encoder.Valid() && encoder.nextIdx == 0
      ensures Divided(shardSchedule, nextShard, shardRandomizer, old(buffer), buffer, encoder.symbols)
    {
      hide Divided, Wait, ShardStart, ShardEnd, Taken;
      encoder.Reset();
      buffer := Drain(buffer, shardRandomizer, start, end, encoder);
      DrainDivides(shardSchedule, nextShard, shardRandomizer, old(buffer), buffer, encoder.symbols, start, end);
    }

    method StartBlock() returns (start: nat, end: nat, burst: nat)
      requires Valid() && !encodingCurrentBlock
      modifies this`buffer, this`nextShard, this`encodingCurrentBlock, this`sendWindow, this`currentBlockAckCount,
               this`inFlight, this`shard, encoder
      ensures encodingCurrentBlock && encoder.nextIdx == 0 && encoder.Valid() && inFlight == 0
      ensures NewBlock() && nextShard < |shardSchedule|
      ensures start == ShardStart(shard, |shardSchedule|) && end == ShardEnd(shard, |shardSchedule|)
      ensures burst == old(currentBlockAckCount) * 2 / 3 && currentBlockAckCount == 0
      ensures sendWindow == AtLeastOne(old(currentBlockAckCount) as real * controlOverhead) && sendWindow >= 1.0
    {
      hide NoDuplicates, CodingWindow.Valid, ShardStart, ShardEnd, Wait, Divided, Scaled;
      var k := |shardSchedule|;
      start, end := ShardStart(shardSchedule[nextShard], k), ShardEnd(shardSchedule[nextShard], k);
      DrainShard(start, end);
      burst := currentBlockAckCount * 2 / 3;
      shard := shardSchedule[nextShard];
      nextShard := (nextShard + 1) % k;
      encodingCurrentBlock := true;
      sendWindow := Scaled(currentBlockAckCount, controlOverhead);
      if sendWindow < 1.0 {
        sendWindow := 1.0;
      }
      currentBlockAckCount := 0;
      inFlight := 0;
    }

    /** The next codeword, if the send window has room for it; a block that is over is first replaced by a new one. */
    method TryProduceCodeword() returns (cw: Codeword, yes: bool, burst: nat)
      requires Valid()
      modifies this`buffer, this`nextShard, this`encodingCurrentBlock, this`sendWindow, this`currentBlockAckCount,
               this`inFlight, this`shard, encoder
      ensures Valid() && encodingCurrentBlock
      ensures inFlight == if old(encodingCurrentBlock) then old(inFlight) else 0
      ensures if old(encodingCurrentBlock) then View() == old(View()) && burst == 0
              else NewBlock() && burst == old(currentBlockAckCount) * 2 / 3 && yes
      ensures yes <==> inFlight as real < sendWindow
      ensures encoder.nextIdx == (if old(encodingCurrentBlock) then old(encoder.nextIdx) else 0) + if yes then 1 else 0
      ensures yes ==> [cw] == Produced(encoder.nextIdx - 1)
    {
      hide CodingWindow.Valid, Fold, At, AtLeastOne, Scaled, Wait;
      cw := Codeword(ZERO, false, 0, 0);
      burst := 0;
      if !encodingCurrentBlock {
        var start, end;
        start, end, burst := StartBlock();
        cw := Codeword(ZERO, true, start, end);
      }
      if inFlight as real < sendWindow {
        yes := true;
        var c := encoder.ProduceNextCodedSymbol();
        cw := cw.(cell := c);
      } else {
        yes := false;
      }
    }

    method SendBurst(burst: nat)
      requires Valid() && encodingCurrentBlock
      modifies this`outbox, this`inFlight, encoder
      ensures Valid() && encoder.symbols == old(encoder.symbols) && encoder.nextIdx == old(encoder.nextIdx) + burst
      ensures View() == old(View()) && Sent() && inFlight == old(inFlight) + burst
    {
      hide CodingWindow.Valid, IsSchedule, Fold, At;
      for i := 0 to burst
        invariant Valid() && encoder.symbols == old(encoder.symbols) && encoder.nextIdx == old(encoder.nextIdx) + i
        invariant outbox == old(outbox) + Produced(old(encoder.nextIdx)) && inFlight == old(inFlight) + i
      {
        var c := encoder.ProduceNextCodedSymbol();
        outbox := outbox + [Codeword(c, false, 0, 0)];
        inFlight := inFlight + 1;
      }
    }

    ghost function State(): SenderState
      reads this, encoder
    {
      SenderState(View(), encodingCurrentBlock, encoder.nextIdx, inFlight, outbox)
    }

    /** What was sent between the two states is exactly the next coded symbols of the block. */
    twostate predicate Sent()
      requires old(Valid())
      reads this, encoder
    {
      Sends(sch, shardSchedule, shardRandomizer, controlOverhead, old(State()), State())
    }

    lemma Scheduled()
      requires Valid()
      ensures IsSchedule(shardSchedule) && nextShard < |shardSchedule|
    {
    }

    /** One round of the filling loop. */
    method SendOne() returns (yes: bool)
      requires Valid()
      modifies this`buffer, this`nextShard, this`encodingCurrentBlock, this`sendWindow, this`currentBlockAckCount,
               this`inFlight, this`shard, this`outbox, encoder
      ensures Valid() && encodingCurrentBlock && Sent()
      ensures old(encodingCurrentBlock) ==> sendWindow == old(sendWindow)
      ensures old(encodingCurrentBlock) ==> inFlight == old(inFlight) + if yes then 1 else 0
      ensures yes && old(encodingCurrentBlock) ==> old(inFlight) as real < sendWindow
      ensures !old(encodingCurrentBlock) ==> yes && inFlight == 1 + old(currentBlockAckCount) * 2 / 3
      ensures !yes ==> sendWindow <= inFlight as real
    {
      hide Valid, Sends, StartsBlock, CodewordsOf, CodewordAt, IsSchedule;
      Scheduled();
      ghost var before := State();
      var cw, burst;
      cw, yes, burst := TryProduceCodeword();
      Scheduled();
      NextIs(sch, shardSchedule, shardRandomizer, controlOverhead, before, State(), [cw], yes);
      if !yes {
        return;
      }
      outbox := outbox + [cw];
      inFlight := inFlight + 1;
      ghost var mid := State();
      SendBurst(burst);
      SendsOn(sch, shardSchedule, shardRandomizer, controlOverhead, before, mid, State());
    }

    /** Send as many codewords as the window has room for. Whatever the state before, afterwards a block is under way,
        and exactly as many codewords were sent as it takes to fill the window; a new block starts with a burst of two
        for every three acks of the last one. */
    method TryFillSendWindow()
      requires Valid()
      modifies this`buffer, this`nextShard, this`encodingCurrentBlock, this`sendWindow, this`currentBlockAckCount,
               this`inFlight, this`shard, this`outbox, encoder
      ensures Valid() && encodingCurrentBlock && sendWindow <= inFlight as real && Sent()
      ensures Fills(if old(encodingCurrentBlock) then old(inFlight) else 1 + old(currentBlockAckCount) * 2 / 3,
                    sendWindow, inFlight)
    {
      hide Valid, Sends, IsSchedule, Filling, Fills;
      Scheduled();
      ghost var before := State();
      ghost var base := if encodingCurrentBlock then inFlight else 1 + currentBlockAckCount * 2 / 3;
      var yes := SendOne();
      Scheduled();
      FirstSent(base, old(encodingCurrentBlock), yes);
      while yes
        invariant Valid() && encodingCurrentBlock && Filling(base, sendWindow, inFlight)
        invariant Sends(sch, shardSchedule, shardRandomizer, controlOverhead, before, State())
        invariant !yes ==> sendWindow <= inFlight as real
        decreases Room(sendWindow, inFlight), yes
      {
        ghost var mid := State();
        Scheduled();
        yes := SendOne();
        SendsOn(sch, shardSchedule, shardRandomizer, controlOverhead, before, mid, State());
        FillOneMore(base, sendWindow, mid.inFlight, inFlight, yes);
      }
      FilledUp(base, sendWindow, inFlight);
    }

    lemma FirstSent(base: int, encoding: bool, yes: bool)
      requires encoding ==> inFlight == base + (if yes then 1 else 0) && (yes ==> base as real < sendWindow)
      requires !encoding ==> inFlight == base
      ensures Filling(base, sendWindow, inFlight)
    {
    }

    method OnTransaction(tx: Sym)
      requires Valid() && tx !in buffer && tx.hash != 0
      modifies this, encoder
      ensures Valid() && encodingCurrentBlock && sendWindow <= inFlight as real
      ensures Sends(sch, shardSchedule, shardRandomizer, controlOverhead,
                    old(State()).(view := old(View()).(buffer := old(buffer) + [tx])), State())
      ensures Fills(if old(encodingCurrentBlock) then old(inFlight) else 1 + old(currentBlockAckCount) * 2 / 3,
                    sendWindow, inFlight)
      ensures receivingCurrentBlock == old(receivingCurrentBlock)
    {
      buffer := buffer + [tx];
      TryFillSendWindow();
    }

    /** The sender as it stands after an ack was counted and before the window is filled again. */
    ghost function Acked(ack: Ack): SenderState
      reads this, encoder
    {
      var s := State();
      var counts := ack.ackStart || (receivingCurrentBlock && !ack.ackBlock);
      var acks := (if ack.ackStart then 0 else currentBlockAckCount) + if counts then 1 else 0;
      s.(encoding := encodingCurrentBlock && !ack.ackBlock,
         inFlight := if counts then inFlight - 1 else inFlight,
         view := s.view.(acks := acks,
                         sendWindow := if counts then AtLeastOne(sendWindow + controlOverhead) else sendWindow))
    }

    /** Whether an ack is counted: one that starts a block always is, any other one only while a block is being received
        that it does not end. */
    predicate Counts(ack: Ack)
      reads this`receivingCurrentBlock
    {
      ack.ackStart || (receivingCurrentBlock && !ack.ackBlock)
    }

    /** How many acks of the block have been counted once this one was handled. */
    function AcksWith(ack: Ack): (n: nat)
      reads this`receivingCurrentBlock, this`currentBlockAckCount
      ensures ack.ackStart ==> n == 1
      ensures !ack.ackStart ==>
        n == currentBlockAckCount + if receivingCurrentBlock && !ack.ackBlock then 1 else 0
    {
      (if ack.ackStart then 0 else currentBlockAckCount) + if Counts(ack) then 1 else 0
    }

    method OnAck(ack: Ack) returns (txs: seq<Sym>)
      requires Valid()
      modifies this, encoder
      ensures Valid() && encodingCurrentBlock && sendWindow <= inFlight as real && txs == ack.txs
      ensures Sends(sch, shardSchedule, shardRandomizer, controlOverhead, old(Acked(ack)), State())
      ensures receivingCurrentBlock == (ack.ackStart || (old(receivingCurrentBlock) && !ack.ackBlock))
      ensures old(encodingCurrentBlock) && !ack.ackBlock ==>
        currentBlockAckCount == old(AcksWith(ack)) &&
        sendWindow == (if old(Counts(ack)) then AtLeastOne(old(sendWindow) + controlOverhead) else old(sendWindow)) &&
        Fills(old(inFlight) - (if old(Counts(ack)) then 1 else 0), sendWindow, inFlight)
      ensures !old(encodingCurrentBlock) || ack.ackBlock ==>
        currentBlockAckCount == 0 && Fills(1 + old(AcksWith(ack)) * 2 / 3, sendWindow, inFlight)
      ensures !old(encodingCurrentBlock) || ack.ackBlock ==>
        sendWindow == AtLeastOne(Scaled(old(AcksWith(ack)), controlOverhead))
      ensures Fills(Base(old(Acked(ack))), sendWindow, inFlight)
    {
      hide CodingWindow.Valid, IsSchedule, Sends, Fills, StartsBlock, Scaled;
      if ack.ackBlock {
        encodingCurrentBlock := false;
        receivingCurrentBlock := false;
      }
      if ack.ackStart {
        currentBlockAckCount := 0;
        receivingCurrentBlock := true;
      }
      if receivingCurrentBlock {
        currentBlockAckCount := currentBlockAckCount + 1;
        inFlight := inFlight - 1;
        sendWindow := sendWindow + controlOverhead;
        if sendWindow < 1.0 {
          sendWindow := 1.0;
        }
      }
      ghost var mid := State();
      TryFillSendWindow();
      WindowSent(sch, shardSchedule, shardRandomizer, controlOverhead, mid, State());
      txs := ack.txs;
    }
  }

  /** How many more codewords the window may take. */
  ghost function Room(sendWindow: real, inFlight: int): nat {
    if inFlight as real < sendWindow then (sendWindow - inFlight as real).Floor + 1 else 0
  }

  function Scaled(acks: nat, overhead: real): (w: real)
    ensures w == acks as real * overhead
  {
    acks as real * overhead
  }

  /** The larger of w and 1. */
  function AtLeastOne(w: real): (l: real)
    ensures l >= w && l >= 1.0 && (l == w || l == 1.0)
  {
    if w < 1.0 then 1.0 else w
  }
}
