/** The two FIFO channels between a sender and a receiver, and what can be in them (newsim/coding.go). */
module Channels {
  import opened Words
  import opened Lists
  import opened Symbols
  import opened Mappings
  import opened Windows
  import opened Shards
  import opened Senders

  /** Where the current block stands.
      stale:    leftovers of the previous block still in front of it in the forward channel
      arrived:  coded symbols of the block that have reached the receiver
      accepted: those that the receiver gave to its decoder and acked
      txs:      what the ack that ends the block carries, once it was sent */
  datatype Progress = Progress(stale: nat, arrived: nat, accepted: nat, txs: set<Sym>)

  /** How many acks of the current block the sender has counted. */
  function AckedCount(s: SenderState): int {
    s.nextIdx - s.inFlight
  }

  /** The forward channel holds leftovers of the previous block and then the coded symbols of the current one that have
      not arrived, in order. */
  ghost predicate ForwardHolds(sch: Scheme, k: nat, s: SenderState, fwd: seq<Codeword>, p: Progress)
    requires k > 0
  {
    && (p.stale > 0 ==> p.arrived == 0) && p.arrived <= s.nextIdx && p.stale <= |fwd|
    && (forall i | 0 <= i < p.stale :: !fwd[i].newBlock)
    && fwd[p.stale..] == CodewordsOf(sch, Elements(s.view.block), s.view.shard, k, p.arrived, s.nextIdx)
  }

  /** The backward channel holds the acks of the accepted coded symbols that the sender has not counted, in order; the
      first of a block starts it, and the last ends it once it was decoded and carries transactions, each once. */
  ghost predicate BackwardHolds(s: SenderState, back: seq<Ack>, received: bool, p: Progress) {
    var acked := AckedCount(s);
    && 0 <= acked && |back| == p.accepted - acked
    && forall i | 0 <= i < |back| ::
         && back[i].ackStart == (acked + i == 0)
         && back[i].ackBlock == (received && p.arrived > 0 && acked + i == p.accepted - 1)
         && NoDuplicates(back[i].txs)
         && (if back[i].ackBlock then Elements(back[i].txs) == p.txs else back[i].txs == [])
  }

  /** A started sender, the receiver's verdict on the block, and both channels fit together. */
  ghost predicate Fits(sch: Scheme, k: nat, s: SenderState, receiving: bool, fwd: seq<Codeword>, back: seq<Ack>,
                       received: bool, p: Progress)
    requires k > 0
  {
    && s.encoding && s.outbox == [] && s.view.acks == AckedCount(s)
    && (AckedCount(s) > 0 ==> receiving)
    && ForwardHolds(sch, k, s, fwd, p) && BackwardHolds(s, back, received, p)
    && p.accepted <= p.arrived && (p.arrived > 0 && !received ==> p.accepted == p.arrived)
    && (p.arrived > 0 && received ==> AckedCount(s) < p.accepted)
    && (p.stale > 0 ==> received)
  }

  /** While the window is full the protocol cannot stall: an ack is on its way, or a coded symbol that the receiver will
      accept is. */
  lemma NeverStalls(sch: Scheme, k: nat, s: SenderState, receiving: bool, fwd: seq<Codeword>, back: seq<Ack>,
                    received: bool, p: Progress)
    requires k > 0 && Fits(sch, k, s, receiving, fwd, back, received, p)
    requires 1.0 <= s.view.sendWindow <= s.inFlight as real
    ensures s.inFlight == s.nextIdx - s.view.acks && 0 < s.inFlight
    ensures back != [] ||
      (p.stale < |fwd| && (if p.arrived == 0 then fwd[p.stale].newBlock else !received && !fwd[p.stale].newBlock))
  {
    if back == [] {
      CodewordsElement(sch, Elements(s.view.block), s.view.shard, k, p.arrived, s.nextIdx, 0);
      assert fwd[p.stale..][0] == fwd[p.stale];
    }
  }

  /** More coded symbols of the block enter the forward channel. */
  lemma SendFits(sch: Scheme, k: nat, s: SenderState, receiving: bool, fwd: seq<Codeword>, back: seq<Ack>,
                 received: bool, p: Progress, s': SenderState)
    requires k > 0 && Fits(sch, k, s, receiving, fwd, back, received, p)
    requires s'.encoding && s.nextIdx <= s'.nextIdx && s'.inFlight == s.inFlight + (s'.nextIdx - s.nextIdx)
    requires s'.view.block == s.view.block && s'.view.shard == s.view.shard && s'.view.acks == s.view.acks
    requires s'.outbox == s.outbox + CodewordsOf(sch, Elements(s.view.block), s.view.shard, k, s.nextIdx, s'.nextIdx)
    ensures Fits(sch, k, s'.(outbox := []), receiving, fwd + s'.outbox, back, received, p)
  {
    CodewordsGrow(sch, Elements(s.view.block), s.view.shard, k, p.arrived, s.nextIdx, s'.nextIdx);
    assert s.outbox + CodewordsOf(sch, Elements(s.view.block), s.view.shard, k, s.nextIdx, s'.nextIdx) ==
           CodewordsOf(sch, Elements(s.view.block), s.view.shard, k, s.nextIdx, s'.nextIdx);
    assert (fwd + s'.outbox)[p.stale..] == fwd[p.stale..] + s'.outbox;
  }

  /** A new block: everything still in the forward channel is a leftover. */
  lemma StartFits(sch: Scheme, k: nat, s: SenderState, receiving: bool, fwd: seq<Codeword>, received: bool)
    requires k > 0 && s.encoding && s.inFlight == s.nextIdx && s.view.acks == 0
    requires s.outbox == CodewordsOf(sch, Elements(s.view.block), s.view.shard, k, 0, s.nextIdx)
    requires (forall i | 0 <= i < |fwd| :: !fwd[i].newBlock) && (fwd != [] ==> received)
    ensures Fits(sch, k, s.(outbox := []), receiving, fwd + s.outbox, [], received, Progress(|fwd|, 0, 0, {}))
  {
    assert (fwd + s.outbox)[|fwd|..] == s.outbox;
  }

  /** The head of the forward channel, when it belongs to the current block, is its next coded symbol. */
  lemma HeadOfBlock(sch: Scheme, k: nat, s: SenderState, fwd: seq<Codeword>, p: Progress)
    requires k > 0 && ForwardHolds(sch, k, s, fwd, p) && p.stale == 0 && fwd != []
    ensures p.arrived < s.nextIdx
    ensures fwd[0] == CodewordAt(sch, Elements(s.view.block), s.view.shard, k, p.arrived)
    ensures ForwardHolds(sch, k, s, fwd[1..], p.(arrived := p.arrived + 1))
  {
    var S, shard := Elements(s.view.block), s.view.shard;
    assert fwd[0..] == fwd;
    CodewordsElement(sch, S, shard, k, p.arrived, s.nextIdx, 0);
    CodewordsGrow(sch, S, shard, k, p.arrived, p.arrived + 1, s.nextIdx);
    assert fwd[1..][0..] == fwd[1..] == CodewordsOf(sch, S, shard, k, p.arrived + 1, s.nextIdx);
  }

  /** The progress after the receiver has dropped a codeword. */
  ghost function Dropped(p: Progress): Progress {
    if p.stale > 0 then p.(stale := p.stale - 1) else p.(arrived := p.arrived + 1)
  }

  /** A leftover of the previous block arrives, or one of the current block after it was decoded: it is dropped. */
  lemma DropFits(sch: Scheme, k: nat, s: SenderState, receiving: bool, fwd: seq<Codeword>, back: seq<Ack>,
                 received: bool, p: Progress)
    requires k > 0 && Fits(sch, k, s, receiving, fwd, back, received, p) && fwd != []
    requires p.stale > 0 || (p.arrived > 0 && received)
    ensures received && !fwd[0].newBlock
    ensures Fits(sch, k, s, receiving, fwd[1..], back, received, Dropped(p))
  {
    if p.stale > 0 {
      assert fwd[1..][p.stale - 1..] == fwd[p.stale..];
    } else {
      HeadOfBlock(sch, k, s, fwd, p);
    }
  }

  /** What the receiver accepts is the next coded symbol of the current block; everything else is a leftover. */
  lemma HeadFits(sch: Scheme, k: nat, s: SenderState, receiving: bool, fwd: seq<Codeword>, back: seq<Ack>,
                 received: bool, p: Progress)
    requires k > 0 && Fits(sch, k, s, receiving, fwd, back, received, p) && fwd != []
    ensures fwd[0].newBlock || !received ==> p.stale == 0 && (p.arrived == 0 || !received)
    ensures fwd[0].newBlock || !received ==>
      fwd[0] == CodewordAt(sch, Elements(s.view.block), s.view.shard, k, p.arrived)
    ensures !(fwd[0].newBlock || !received) ==> p.stale > 0 || (p.arrived > 0 && received)
  {
    if p.stale == 0 {
      HeadOfBlock(sch, k, s, fwd, p);
    }
  }

  /** A coded symbol of the current block arrives and is accepted and acked. */
  lemma AcceptFits(sch: Scheme, k: nat, s: SenderState, receiving: bool, fwd: seq<Codeword>, back: seq<Ack>,
                   received: bool, p: Progress, done: bool, txs: seq<Sym>)
    requires k > 0 && Fits(sch, k, s, receiving, fwd, back, received, p) && fwd != []
    requires p.stale == 0 && (p.arrived == 0 || !received) && NoDuplicates(txs) && (!done ==> txs == [])
    ensures Fits(sch, k, s, receiving, fwd[1..], back + [Ack(done, p.arrived == 0, txs)], done,
                 Progress(0, p.arrived + 1, p.arrived + 1, Elements(txs)))
  {
    HeadOfBlock(sch, k, s, fwd, p);
  }

  /** An ack that does not end the block is counted. */
  lemma AckFits(sch: Scheme, k: nat, s: SenderState, receiving: bool, fwd: seq<Codeword>, back: seq<Ack>,
                received: bool, p: Progress, s': SenderState)
    requires k > 0 && Fits(sch, k, s, receiving, fwd, back, received, p) && back != [] && !back[0].ackBlock
    requires s' == s.(inFlight := s.inFlight - 1, view := s'.view)
    requires s'.view == s.view.(acks := s.view.acks + 1, sendWindow := s'.view.sendWindow)
    ensures Fits(sch, k, s', true, fwd, back[1..], received, p)
    ensures back[0].ackStart || receiving
    ensures back[0].ackStart ==> s.view.acks == 0
  {
  }

  /** The ack that ends the block is the last one, and only leftovers of the block are in the forward channel. */
  lemma EndOfBlock(sch: Scheme, k: nat, s: SenderState, receiving: bool, fwd: seq<Codeword>, back: seq<Ack>,
                   received: bool, p: Progress)
    requires k > 0 && Fits(sch, k, s, receiving, fwd, back, received, p) && back != [] && back[0].ackBlock
    ensures |back| == 1 && received && p.arrived > 0 && Elements(back[0].txs) == p.txs && NoDuplicates(back[0].txs)
    ensures forall i | 0 <= i < |fwd| :: !fwd[i].newBlock
  {
    forall i | 0 <= i < |fwd|
      ensures !fwd[i].newBlock
    {
      CodewordsElement(sch, Elements(s.view.block), s.view.shard, k, p.arrived, s.nextIdx, i);
      assert fwd[0..][i] == fwd[i];
    }
  }

  /** Before the first transaction reaches the sender. */
  ghost predicate NotStarted(s: SenderState, fwd: seq<Codeword>, back: seq<Ack>, received: bool, p: Progress) {
    && s == SenderState(s.view.(block := [], acks := 0), false, 0, 0, []) && fwd == [] && back == []
    && !received && p == Progress(0, 0, 0, {})
  }

  /** The parts of a divided buffer make it up. */
  lemma DividedParts(schedule: seq<nat>, next: nat, randomizer: Word, buffer: seq<Sym>, rest: seq<Sym>, taken: seq<Sym>)
    requires IsSchedule(schedule) && next < |schedule| && NoDuplicates(buffer)
    requires Divided(schedule, next, randomizer, buffer, rest, taken)
    ensures Elements(rest) + Elements(taken) == Elements(buffer)
  {
    PartsAreDistinct(rest, taken, buffer);
  }

  /** The sender got the transactions of buffer, and sent on its block or started the first one. */
  lemma SentFits(sch: Scheme, schedule: seq<nat>, randomizer: Word, overhead: real, s: SenderState, buffer: seq<Sym>,
                 s': SenderState, receiving: bool, fwd: seq<Codeword>, back: seq<Ack>, received: bool, p: Progress)
    requires IsSchedule(schedule) && s.view.nextShard < |schedule| && NoDuplicates(buffer)
    requires if s.encoding then Fits(sch, |schedule|, s, receiving, fwd, back, received, p)
             else NotStarted(s, fwd, back, received, p)
    requires Sends(sch, schedule, randomizer, overhead, s.(view := s.view.(buffer := buffer)), s')
    ensures Fits(sch, |schedule|, s'.(outbox := []), receiving, fwd + s'.outbox, back, received, p)
    ensures Elements(s'.view.buffer) + Elements(s'.view.block) == Elements(buffer) + Elements(s.view.block)
    ensures s'.view.block == s.view.block || p.arrived == 0
  {
    if s.encoding {
      SendFits(sch, |schedule|, s, receiving, fwd, back, received, p, s');
    } else {
      DividedParts(schedule, s.view.nextShard, randomizer, buffer, s'.view.buffer, s'.view.block);
      assert s.outbox + s'.outbox == s'.outbox;
      StartFits(sch, |schedule|, s', receiving, fwd, received);
    }
  }

  /** The sender handled an ack: one more is counted, or the block is over and a new one has started behind what is left
      in the forward channel. */
  lemma AckedFits(sch: Scheme, schedule: seq<nat>, randomizer: Word, overhead: real, s: SenderState, a: SenderState,
                  s': SenderState, receiving: bool, fwd: seq<Codeword>, back: seq<Ack>, received: bool, p: Progress)
    requires IsSchedule(schedule) && s.view.nextShard < |schedule| && NoDuplicates(s.view.buffer)
    requires Fits(sch, |schedule|, s, receiving, fwd, back, received, p) && back != []
    requires IsAcked(overhead, s, receiving, back[0], a)
    requires a.view.nextShard < |schedule| && Sends(sch, schedule, randomizer, overhead, a, s')
    ensures var ack := back[0]; var receiving' := ack.ackStart || (receiving && !ack.ackBlock);
      Fits(sch, |schedule|, s'.(outbox := []), receiving', fwd + s'.outbox, back[1..], received,
           if ack.ackBlock then Progress(|fwd|, 0, 0, {}) else p)
    ensures !back[0].ackBlock ==> s'.view.block == s.view.block && s'.view.buffer == s.view.buffer
    ensures back[0].ackBlock ==> received && p.arrived > 0 && Elements(back[0].txs) == p.txs
    ensures NoDuplicates(back[0].txs) && (!back[0].ackBlock ==> back[0].txs == [])
    ensures back[0].ackBlock ==> Elements(s'.view.buffer) + Elements(s'.view.block) == Elements(s.view.buffer)
  {
    var ack, k := back[0], |schedule|;
    if ack.ackBlock {
      EndOfBlock(sch, k, s, receiving, fwd, back, received, p);
      DividedParts(schedule, s.view.nextShard, randomizer, s.view.buffer, s'.view.buffer, s'.view.block);
      assert a.outbox + s'.outbox == s'.outbox;
      StartFits(sch, k, s', ack.ackStart || (receiving && !ack.ackBlock), fwd, received);
      assert back[1..] == [];
    } else {
      AckFits(sch, k, s, receiving, fwd, back, received, p, a);
      SendFits(sch, k, a, true, fwd, back[1..], received, p, s');
    }
  }

  /** What handling an ack changes before the window is filled again. */
  ghost predicate IsAcked(overhead: real, s: SenderState, receiving: bool, ack: Ack, a: SenderState) {
    var counts := ack.ackStart || (receiving && !ack.ackBlock);
    && a.encoding == (s.encoding && !ack.ackBlock) && a.nextIdx == s.nextIdx && a.outbox == s.outbox
    && a.inFlight == (if counts then s.inFlight - 1 else s.inFlight)
    && a.view == s.view.(acks := (if ack.ackStart then 0 else s.view.acks) + (if counts then 1 else 0),
                         sendWindow := if counts then AtLeastOne(s.view.sendWindow + overhead) else s.view.sendWindow)
  }

  /** The progress after a codeword has reached the receiver, which put outbox on the wire. */
  ghost function Arrived(p: Progress, outbox: seq<Ack>): Progress {
    if outbox == [] then Dropped(p) else Progress(0, p.arrived + 1, p.arrived + 1, Elements(outbox[0].txs))
  }

  /** The head of the forward channel reaches the receiver. */
  lemma ArrivalFits(sch: Scheme, k: nat, s: SenderState, receiving: bool, fwd: seq<Codeword>, back: seq<Ack>,
                    received: bool, p: Progress, outbox: seq<Ack>, received': bool)
    requires k > 0 && Fits(sch, k, s, receiving, fwd, back, received, p) && fwd != []
    requires if fwd[0].newBlock || !received
      then |outbox| == 1 && outbox[0] == Ack(received', fwd[0].newBlock, outbox[0].txs) &&
           NoDuplicates(outbox[0].txs) && (!received' ==> outbox[0].txs == [])
      else outbox == [] && received' == received
    ensures Fits(sch, k, s, receiving, fwd[1..], back + outbox, received', Arrived(p, outbox))
  {
    HeadFits(sch, k, s, receiving, fwd, back, received, p);
    if fwd[0].newBlock || !received {
      AcceptFits(sch, k, s, receiving, fwd, back, received, p, received', outbox[0].txs);
      assert outbox == [Ack(received', p.arrived == 0, outbox[0].txs)];
    } else {
      DropFits(sch, k, s, receiving, fwd, back, received, p);
      assert back + outbox == back;
    }
  }
}
