/** A sender and a receiver joined by two lossless FIFO channels: every step keeps the protocol invariant, and every
    block that ends leaves both peers with the union (newsim/coding.go). */
module Links {
  import opened Words
  import opened Lists
  import opened Symbols
  import opened Mappings
  import opened Windows
  import opened Peeling
  import opened Readings
  import opened Decoders
  import opened Shards
  import opened Senders
  import opened Receivers
  import opened Channels
  import opened Ledgers

  class Link {
    ghost const U: set<Sym>
    const sch: Scheme
    const sender: Sender
    const receiver: Receiver
    var fwd: seq<Codeword>
    var back: seq<Ack>
    ghost var progress: Progress
    ghost var ledger: Ledger

    /** How many blocks have started, and how many had when a transaction was offered to the sender. */
    ghost var starts: nat
    ghost var born: map<Sym, nat>

    /** How many blocks the receiver has opened, and how many it had when a transaction was offered to it. */
    ghost var begun: nat
    ghost var bornR: map<Sym, nat>

    ghost function Repr(): set<object> {
      {this, sender, sender.encoder} + receiver.Objects()
    }

    ghost function Setting(): Setup {
      Setup(sch, sender.shardSchedule, sender.shardRandomizer, sender.controlOverhead, U)
    }

    ghost predicate Separate() {
      && sender.encoder !in receiver.Objects() && sender.sch == sch && receiver.sch == sch
      && sender.shardRandomizer == receiver.shardRandomizer
    }

    ghost function View(): LinkView
      reads this, sender, sender.encoder, receiver
    {
      LinkView(sender.State(), sender.receivingCurrentBlock, fwd, back, receiver.currentBlockReceived, receiver.buffer,
               progress, ledger, starts, born, begun, bornR)
    }

    /** The decoder is fully reset, unless it is in the middle of the current block. */
    ghost predicate ReceiverFits(received: bool, p: Progress, block: set<Sym>, share: set<Sym>)
      reads receiver.decoder, receiver.decoder.local, receiver.decoder.window, receiver.decoder.remote
    {
      if p.arrived == 0 || received then receiver.Idle() else receiver.Decoding(block, share, p.arrived)
    }

    ghost predicate Inv()
      reads Repr()
    {
      && Separate() && sender.Valid() && receiver.outbox == [] && Fine(Setting(), View())
      && ReceiverFits(receiver.currentBlockReceived, progress, sender.Block(), ledger.share)
    }

    constructor (sch: Scheme, controlOverhead: real, shardSchedule: seq<nat>, shardRandomizer: Word, ghost U: set<Sym>)
      requires Legal(sch, U) && IsSchedule(shardSchedule)
      ensures Inv() && this.U == U && fresh(Repr())
      ensures ledger == Ledger({}, {}, {}, {}, {}, {}, {}, {}) && starts == begun == 0 && born == bornR == map[]
    {
      hide Advancing, Legal, IsSchedule, Sender.Valid, Receiver.Idle, Receiver.Decoding, Fine;
      LegalAdvances(sch, U);
      this.U := U;
      this.sch := sch;
      sender := new Sender(sch, controlOverhead, shardSchedule, shardRandomizer);
      receiver := new Receiver(sch, shardRandomizer);
      fwd, back := [], [];
      progress := Progress(0, 0, 0, {});
      ledger := Ledger({}, {}, {}, {}, {}, {}, {}, {});
      starts, born, begun, bornR := 0, map[], 0, map[];
      new;
      FineAtFirst(Setting(), View());
    }

    /** A transaction reaches the receiver; each one is offered to it once. */
    method ReceiverTransaction(tx: Sym)
      requires Inv() && tx in U && tx !in ledger.offeredR
      modifies this`ledger, this`bornR, receiver`buffer
      ensures Inv() && View() == AtReceiver(old(View()), tx)
      ensures Moves(Setting(), old(View()), ToReceiver(tx), View())
    {
      hide Fine, Sender.Valid, ReceiverFits;
      FineAtReceiver(Setting(), View(), tx);
      receiver.OnTransaction(tx, U);
      ledger := ledger.(offeredR := ledger.offeredR + {tx});
      bornR := bornR[tx := begun];
      Parts();
    }

    /** Put what the sender has written on the wire. */
    method Flush()
      modifies this`fwd, sender`outbox
      ensures fwd == old(fwd) + old(sender.outbox)
      ensures View() == Flushed(old(View())) && (old(sender.Valid()) ==> sender.Valid())
    {
      fwd := fwd + sender.outbox;
      sender.outbox := [];
    }

    /** Bring the records up to date. */
    ghost method Adopt(w: LinkView)
      requires View() == w.(progress := progress, ledger := ledger, starts := starts, born := born)
      modifies this`progress, this`ledger, this`starts, this`born
      ensures View() == w
    {
      progress, ledger, starts, born := w.progress, w.ledger, w.starts, w.born;
    }

    /** Hand a transaction to the sender. */
    method Offer(tx: Sym)
      requires Inv() && tx in U && tx !in ledger.offeredS
      modifies sender, sender.encoder
      ensures sender.Valid() && sender.encodingCurrentBlock
      ensures sender.receivingCurrentBlock == old(sender.receivingCurrentBlock)
      ensures Fine(Setting(), AtSender(old(View()), tx, sender.State()))
      ensures Moves(Setting(), old(View()), ToSender(tx), AtSender(old(View()), tx, sender.State()))
      ensures ReceiverFits(receiver.currentBlockReceived, progress, sender.Block(), ledger.share)
    {
      hide Inv, Fine, Moves, Sends, Full, Fills, Sender.Valid, Receiver.Idle, Receiver.Decoding, IsSchedule;
      Parts();
      FineOffer(Setting(), View(), tx);
      sender.OnTransaction(tx);
      IsFull();
      FineAtSender(Setting(), old(View()), tx, sender.State());
      MovesOffer(Setting(), old(View()), tx, sender.State());
    }

    lemma Parts()
      requires Inv()
      ensures Separate() && sender.Valid() && receiver.outbox == [] && Fine(Setting(), View())
      ensures IsSchedule(sender.shardSchedule) && sender.nextShard < |sender.shardSchedule|
      ensures ReceiverFits(receiver.currentBlockReceived, progress, sender.Block(), ledger.share)
    {
    }

    lemma Whole()
      requires Separate() && sender.Valid() && receiver.outbox == [] && Fine(Setting(), View())
      requires ReceiverFits(receiver.currentBlockReceived, progress, sender.Block(), ledger.share)
      ensures Inv()
    {
    }

    lemma IsFull()
      requires sender.Valid() && sender.encodingCurrentBlock && sender.sendWindow <= sender.inFlight as real
      ensures Full(sender.State())
    {
    }

    /** A transaction reaches the sender; each one is offered to it once. The first one starts the protocol. */
    method SenderTransaction(tx: Sym)
      requires Inv() && tx in U && tx !in ledger.offeredS
      modifies this`progress, this`ledger, this`starts, this`born, this`fwd, sender, sender.encoder
      ensures Inv() && sender.encodingCurrentBlock && Moves(Setting(), old(View()), ToSender(tx), View())
      ensures ledger == old(ledger).(offeredS := old(ledger).offeredS + {tx})
      ensures starts == old(starts) + if old(sender.encodingCurrentBlock) then 0 else 1
      ensures born == old(born)[tx := old(starts)] && progress == old(progress)
    {
      hide Inv, Fine, Moves, Sender.Valid, Sender.State, ReceiverFits;
      Parts();
      StateIs();
      Offer(tx);
      ghost var w := AtSender(old(View()), tx, sender.State());
      Flush();
      Adopt(w);
      Whole();
    }

    /** Hand the ack at the head of the backward channel to the sender. */
    method Acknowledge() returns (txs: seq<Sym>)
      requires Inv() && back != []
      modifies sender, sender.encoder
      ensures sender.Valid() && sender.encodingCurrentBlock && txs == back[0].txs
      ensures sender.receivingCurrentBlock == AfterAck(old(View()), sender.State()).receiving
      ensures Fine(Setting(), AfterAck(old(View()), sender.State()))
      ensures Moves(Setting(), old(View()), AckArrives, AfterAck(old(View()), sender.State()))
      ensures back[0].ackBlock ==> receiver.Idle()
      ensures !back[0].ackBlock ==> sender.Block() == old(sender.Block())
      ensures NoDuplicates(txs) && (!back[0].ackBlock ==> txs == [])
      ensures back[0].ackBlock ==>
        Unites(old(sender.Block()), ledger.share, Elements(txs), ledger.got)
    {
      hide Inv, Fine, Moves, Unites, Sends, Full, Fills, Sender.Valid, Receiver.Idle, Receiver.Decoding, IsSchedule;
      Parts();
      txs := sender.OnAck(back[0]);
      IsFull();
      FineAfterAck(Setting(), old(View()), old(sender.Acked(back[0])), sender.State());
      MovesAck(Setting(), old(View()), old(sender.Acked(back[0])), sender.State());
    }

    /** The ack at the head of the backward channel reaches the sender. If it ends the block, both sides now have the
        union of the two parts of the block. */
    method DeliverAck() returns (txs: seq<Sym>)
      requires Inv() && back != []
      modifies this`progress, this`ledger, this`starts, this`born, this`fwd, this`back, sender, sender.encoder
      ensures Inv() && sender.encodingCurrentBlock && txs == old(back[0].txs)
      ensures Moves(Setting(), old(View()), AckArrives, View())
      ensures starts == old(starts) + (if old(back[0].ackBlock) then 1 else 0) && born == old(born)
      ensures NoDuplicates(txs)
      ensures !old(back[0].ackBlock) ==>
        txs == [] && ledger == old(ledger) && sender.Block() == old(sender.Block())
      ensures old(back[0].ackBlock) ==>
        Unites(old(sender.Block()), old(ledger.share), Elements(txs), old(ledger.got)) &&
        ledger == Settled(old(ledger), old(sender.Block()), Elements(txs))
    {
      hide Inv, Fine, Moves, Unites, Settled, Sender.Valid, Sender.State, Receiver.Idle, Receiver.Decoding;
      hide NoDuplicates;
      ghost var v := View();
      StateIs();
      Parts();
      txs := Acknowledge();
      PassOn(AfterAck(v, sender.State()));
      Whole();
    }

    /** Put what the sender has written on the wire, and take the ack that it has handled off the other. */
    method PassOn(ghost w: LinkView)
      requires back != []
      requires Flushed(View()).(back := back[1..]) ==
               w.(progress := progress, ledger := ledger, starts := starts, born := born)
      modifies this`progress, this`ledger, this`starts, this`born, this`fwd, this`back, sender`outbox
      ensures View() == w && (old(sender.Valid()) ==> sender.Valid())
      ensures sender.encodingCurrentBlock == old(sender.encodingCurrentBlock) && sender.Block() == old(sender.Block())
    {
      hide Sender.Valid;
      Flush();
      back := back[1..];
      Adopt(w);
    }

    lemma StateIs()
      ensures sender.State().view.block == sender.encoder.symbols
      ensures sender.State().encoding == sender.encodingCurrentBlock
    {
    }

    /** Fairness: whatever happens on the link, a transaction offered to the sender is in one of the next
        |shardSchedule| blocks that start. */
    lemma TakenInTime(x: Sym)
      requires Inv() && x in ledger.offeredS
      ensures x in born && (starts >= born[x] + |sender.shardSchedule| ==> x in sender.Block() || x in ledger.doneS)
    {
      hide Fits, NotStarted;
      assert x in Elements(sender.buffer) ==> x in sender.buffer;
    }

    /** The same for the receiver: a transaction offered to it is in one of the next |shardSchedule| blocks that it
        opens, and it opens every block that starts. */
    lemma OpenedInTime(x: Sym)
      requires Inv() && x in ledger.offeredR
      ensures x in bornR && (begun >= bornR[x] + |sender.shardSchedule| ==> x in ledger.share || x in ledger.doneR)
      ensures starts == begun + if sender.encodingCurrentBlock && progress.arrived == 0 then 1 else 0
    {
      hide Fits, NotStarted;
      assert x in Elements(receiver.buffer) ==> x in receiver.buffer;
    }

    /** No stall, and exact flow accounting: while a block is under way, inFlight is the number of its coded symbols
        sent less those whose acks were counted, it is positive, and a message that makes progress is on one of the
        wires. */
    lemma Progresses()
      requires Inv() && sender.encodingCurrentBlock
      ensures sender.inFlight == sender.encoder.nextIdx - sender.currentBlockAckCount && 0 < sender.inFlight
      ensures back != [] || (progress.stale < |fwd| &&
        (fwd[progress.stale].newBlock <==> progress.arrived == 0) &&
        (progress.arrived > 0 ==> receiver.Accepts(fwd[progress.stale])))
    {
      NeverStalls(sch, |sender.shardSchedule|, sender.State(), sender.receivingCurrentBlock, fwd, back,
        receiver.currentBlockReceived, progress);
    }

    /** Nothing is lost: what a side was given is still in its buffer, in its part of the current block, or known to the
        other side. */
    lemma NothingLost(x: Sym)
      requires Inv()
      ensures x in ledger.offeredS ==> x in sender.buffer || x in sender.Block() || x in ledger.KnownR()
      ensures x in ledger.offeredR ==> x in receiver.buffer || x in ledger.share || x in ledger.KnownS()
      ensures x in ledger.KnownS() || x in ledger.KnownR() ==> x in ledger.offeredS || x in ledger.offeredR
    {
      hide Fits, NotStarted, Timely;
    }

    /** Block lockstep: whatever codeword the receiver is about to accept is the next coded symbol of the sender's
        current block, and one that opens a block finds the decoder fully reset. */
    lemma AcceptsInOrder()
      requires Inv() && fwd != [] && receiver.Accepts(fwd[0])
      ensures fwd[0] == CodewordAt(sch, sender.Block(), sender.shard, |sender.shardSchedule|, progress.arrived)
      ensures if fwd[0].newBlock then progress.arrived == 0 && receiver.Idle()
              else receiver.Decoding(sender.Block(), ledger.share, progress.arrived)
    {
      StartedByNow(Setting(), View());
      HeadFits(sch, |sender.shardSchedule|, sender.State(), sender.receivingCurrentBlock, fwd, back,
        receiver.currentBlockReceived, progress);
    }

    /** The receiver's part of the block that the head of the forward channel belongs to. */
    ghost function PartR(): set<Sym>
      requires fwd != []
      reads this`fwd, this`ledger, receiver
    {
      if fwd[0].newBlock then receiver.Share(fwd[0]) else ledger.share
    }

    /** If the receiver is about to accept a codeword, every cell that it will read tells the truth. */
    ghost predicate ReadsTruth()
      reads this`fwd, this`ledger, this`progress, sender.encoder, receiver
    {
      fwd != [] && receiver.Accepts(fwd[0]) ==> Truthful(sch, sender.Block(), PartR(), progress.arrived)
    }

    /** The codeword at the head of the forward channel reaches the receiver. It is dropped if the receiver does not
        accept it; the one that completes the block yields exactly what the receiver is missing, and it does so as
        soon as the coded symbols of the block determine the whole difference. */
    method DeliverCodeword() returns (res: seq<Sym>, done: bool)
      requires Inv() && fwd != [] && ReadsTruth()
      modifies this`ledger, this`fwd, this`back, this`progress, this`begun, receiver.Objects()
      ensures Inv() && fwd == old(fwd)[1..] && Moves(Setting(), old(View()), CodewordArrives, View())
      ensures ledger == Updated(old(ledger), old(PartR()), done, Elements(res))
      ensures begun == old(begun) + if old(fwd)[0].newBlock then 1 else 0
      ensures old(back) <= back && progress == Arrived(old(progress), back[|old(back)|..])
      ensures old(receiver.Accepts(fwd[0])) ==>
        |back| == |old(back)| + 1 &&
        back[|old(back)|] == Ack(done, old(fwd)[0].newBlock, back[|old(back)|].txs) &&
        NoDuplicates(back[|old(back)|].txs) && (!done ==> back[|old(back)|].txs == [])
      ensures done ==> back != [] && Elements(back[|back| - 1].txs) == ledger.share - sender.Block()
      ensures ledger.offeredS == old(ledger).offeredS && ledger.offeredR == old(ledger).offeredR
      ensures !old(receiver.Accepts(fwd[0])) ==> !done && ledger == old(ledger) && back == old(back)
      ensures done ==> Elements(res) == sender.Block() - ledger.share == ledger.got
      ensures NoDuplicates(res) && (!done ==> res == [])
      ensures old(receiver.Accepts(fwd[0])) ==>
        (done <==> IsCore(sch, Apart(sender.Block(), ledger.share), progress.arrived, {}))
    {
      hide Fine, Moves, Sender.Valid, ReceiverFits, IsCore, Receiver.Share, Truthful;
      ghost var out;
      res, done, out := Receive();
      ghost var share := old(PartR());
      ledger := Updated(ledger, share, done, Elements(res));
      progress := Arrived(progress, out);
      begun := if old(fwd)[0].newBlock then begun + 1 else begun;
      assert back[|old(back)|..] == out;
      assert View() ==
        AfterCodewordView(old(View()), share, done, Elements(res), out, receiver.currentBlockReceived, receiver.buffer);
    }

    /** Give the head of the forward channel to the receiver. */
    method Receive() returns (res: seq<Sym>, done: bool, ghost out: seq<Ack>)
      requires Inv() && fwd != [] && ReadsTruth()
      modifies this`fwd, this`back, receiver.Objects()
      ensures fwd == old(fwd)[1..] && back == old(back) + out && receiver.outbox == []
      ensures Fine(Setting(), AfterCodewordView(old(View()), old(PartR()), done, Elements(res), out,
                                                receiver.currentBlockReceived, receiver.buffer))
      ensures Moves(Setting(), old(View()), CodewordArrives,
                    AfterCodewordView(old(View()), old(PartR()), done, Elements(res), out,
                                      receiver.currentBlockReceived, receiver.buffer))
      ensures ReceiverFits(receiver.currentBlockReceived, Arrived(progress, out), sender.Block(), old(PartR()))
      ensures !old(receiver.Accepts(fwd[0])) ==> out == [] && !done && old(PartR()) == ledger.share
      ensures done ==> out != [] && Elements(res) == sender.Block() - old(PartR())
      ensures NoDuplicates(res) && (!done ==> res == [])
      ensures done ==> Elements(out[0].txs) == old(PartR()) - sender.Block()
      ensures old(receiver.Accepts(fwd[0])) ==> |out| == 1 && out[0] == Ack(done, old(fwd)[0].newBlock, out[0].txs)
      ensures old(receiver.Accepts(fwd[0])) ==> NoDuplicates(out[0].txs) && (!done ==> out[0].txs == [])
      ensures old(receiver.Accepts(fwd[0])) ==>
        (done <==> IsCore(sch, Apart(sender.Block(), old(PartR())), progress.arrived + 1, {}))
    {
      hide Inv, Fine, Moves, Sender.Valid, Receiver.Idle, Receiver.Decoding, IsCore, Legal, PartOf, Truthful;
      hide NoDuplicates;
      Parts();
      HeadIsReady();
      res, done, out := HandOver(sender.Block(), ledger.share, if fwd[0].newBlock then 0 else progress.arrived);
      FineAfterCodeword(Setting(), old(View()), old(PartR()), done, Elements(res), out, receiver.currentBlockReceived,
        receiver.buffer);
      MovesCodeword(Setting(), old(View()), old(PartR()), done, Elements(res), out, receiver.currentBlockReceived,
        receiver.buffer);
    }

    /** What the receiver may rely on when the head of the forward channel arrives. */
    lemma HeadIsReady()
      requires Inv() && fwd != [] && ReadsTruth()
      ensures Separate() && sender.Valid() && receiver.outbox == [] && Fine(Setting(), View())
      ensures ReceiverFits(receiver.currentBlockReceived, progress, sender.Block(), ledger.share)
      ensures Legal(receiver.sch, U) && receiver.Buffered(U) && sender.Block() <= U && ledger.share <= U
      ensures fwd[0].newBlock ==> progress.arrived == 0 && receiver.Idle()
      ensures receiver.Accepts(fwd[0]) ==>
        progress.stale == 0 &&
        fwd[0].cell == Fold(At(receiver.sch, sender.Block(), progress.arrived), sender.Block()) &&
        Truthful(receiver.sch, sender.Block(), PartR(), progress.arrived)
      ensures receiver.Accepts(fwd[0]) && !fwd[0].newBlock ==>
        progress.arrived > 0 && receiver.Decoding(sender.Block(), ledger.share, progress.arrived)
      ensures !receiver.Accepts(fwd[0]) ==> progress.stale > 0 || progress.arrived > 0
    {
      hide Receiver.Idle, Receiver.Decoding, Timely;
      StartedByNow(Setting(), View());
      HeadFits(sch, |sender.shardSchedule|, sender.State(), sender.receivingCurrentBlock, fwd, back,
        receiver.currentBlockReceived, progress);
    }

    /** Take a codeword off one wire, and put the receiver's acks on the other. */
    method HandOver(ghost S: set<Sym>, ghost R: set<Sym>, ghost n: nat)
        returns (res: seq<Sym>, done: bool, ghost out: seq<Ack>)
      requires Legal(receiver.sch, U) && receiver.Buffered(U) && S <= U && R <= U && receiver.outbox == []
      requires fwd != [] && (fwd[0].newBlock ==> n == 0 && receiver.Idle())
      requires receiver.Accepts(fwd[0]) ==> fwd[0].cell == Fold(At(receiver.sch, S, n), S)
      requires receiver.Accepts(fwd[0]) && !fwd[0].newBlock ==> receiver.Decoding(S, R, n)
      requires receiver.Accepts(fwd[0]) ==>
        Truthful(receiver.sch, S, if fwd[0].newBlock then receiver.Share(fwd[0]) else R, n)
      modifies this`fwd, this`back, receiver.Objects()
      ensures fwd == old(fwd)[1..] && back == old(back) + out && receiver.outbox == []
      ensures receiver.Buffered(U) && (done ==> old(receiver.Accepts(fwd[0])))
      ensures NoDuplicates(res) && (!done ==> res == [])
      ensures !old(receiver.Accepts(fwd[0])) ==>
        out == [] && receiver.currentBlockReceived && receiver.buffer == old(receiver.buffer)
      ensures !old(receiver.Accepts(fwd[0])) && old(receiver.Idle()) ==> receiver.Idle()
      ensures var share := if old(fwd)[0].newBlock then old(receiver.Share(fwd[0])) else R;
        old(receiver.Accepts(fwd[0])) ==>
          |out| == 1 && out == [Ack(receiver.currentBlockReceived, old(fwd)[0].newBlock, out[0].txs)] &&
          receiver.currentBlockReceived == done && receiver.AfterCodeword(S, share, n + 1, done, res, out[0].txs)
      ensures Elements(receiver.buffer) == if old(fwd)[0].newBlock
        then Elements(old(receiver.buffer)) - old(receiver.Share(fwd[0])) else Elements(old(receiver.buffer))
      ensures old(receiver.Share(fwd[0])) <= Elements(old(receiver.buffer))
    {
      hide Receiver.Idle, Receiver.Decoding, Legal, IsCore, Truthful;
      var cw := fwd[0];
      res, done := receiver.OnCodeword(cw, U, S, R, n);
      out := receiver.outbox;
      fwd := fwd[1..];
      back := back + receiver.outbox;
      receiver.outbox := [];
    }
  }

  /** Each side is offered a transaction at most once. */
  ghost predicate OffersOnce(steps: seq<Step>, U: set<Sym>) {
    && (forall i | 0 <= i < |steps| && (steps[i].ToSender? || steps[i].ToReceiver?) :: steps[i].tx in U)
    && (forall i, j | 0 <= i < j < |steps| && (steps[i].ToSender? || steps[i].ToReceiver?) :: steps[i] != steps[j])
  }

  ghost function SenderOffers(steps: seq<Step>): set<Sym> {
    set step | step in steps && step.ToSender? :: step.tx
  }

  ghost function ReceiverOffers(steps: seq<Step>): set<Sym> {
    set step | step in steps && step.ToReceiver? :: step.tx
  }

  /** A delivery with nothing to deliver changes nothing. */
  lemma IsStill(link: Link)
    requires link.Inv()
    ensures link.fwd == [] ==> Moves(link.Setting(), link.View(), CodewordArrives, link.View())
    ensures link.back == [] ==> Moves(link.Setting(), link.View(), AckArrives, link.View())
  {
    hide Link.Inv;
    link.Parts();
  }

  method Do(link: Link, step: Step)
    requires link.Inv()
    requires step.ToSender? ==> step.tx in link.U && step.tx !in link.ledger.offeredS
    requires step.ToReceiver? ==> step.tx in link.U && step.tx !in link.ledger.offeredR
    requires step.CodewordArrives? ==> link.ReadsTruth()
    modifies link.Repr()
    ensures link.Inv() && Moves(link.Setting(), old(link.View()), step, link.View())
    ensures link.ledger.offeredS == old(link.ledger).offeredS + SenderOffers([step])
    ensures link.ledger.offeredR == old(link.ledger).offeredR + ReceiverOffers([step])
  {
    hide Link.Inv, Moves;
    IsStill(link);
    match step {
      case ToSender(tx) =>
        link.SenderTransaction(tx);
      case ToReceiver(tx) =>
        link.ReceiverTransaction(tx);
      case CodewordArrives =>
        if link.fwd != [] {
          var _, _ := link.DeliverCodeword();
        }
      case AckArrives =>
        if link.back != [] {
          var _ := link.DeliverAck();
        }
    }
    assert step in [step];
  }

  /** The block that the head of the forward channel belongs to: the two sides, and how many of its coded symbols the
      receiver has. */
  method BlockAt(link: Link) returns (S: set<Sym>, R: set<Sym>, n: nat)
    requires link.Inv() && link.fwd != [] && link.receiver.Accepts(link.fwd[0])
    ensures S == link.sender.Block() && R == link.PartR() && n == link.progress.arrived
  {
    link.AcceptsInOrder();
    var cw := link.fwd[0];
    S := set x | x in link.sender.encoder.symbols;
    if cw.newBlock {
      R := PartOf(link.receiver.buffer, link.receiver.shardRandomizer, cw.startHash, cw.endHash);
      n := 0;
    } else {
      R := set x | x in link.receiver.decoder.window.symbols;
      n := |link.receiver.decoder.cs|;
    }
  }

  /** The receiver is about to accept a codeword that does not pass the test for truthful cells. */
  ghost predicate Held(link: Link, step: Step, truthful: (set<Sym>, set<Sym>, nat) -> bool)
    reads link, link.sender, link.sender.encoder, link.receiver
  {
    && step.CodewordArrives? && link.fwd != [] && link.receiver.Accepts(link.fwd[0])
    && !truthful(link.sender.Block(), link.PartR(), link.progress.arrived)
  }

  /** Take a step, unless it delivers a codeword that does not pass the test for truthful cells. */
  method TryStep(link: Link, step: Step, truthful: (set<Sym>, set<Sym>, nat) -> bool) returns (held: bool)
    requires link.Inv()
    requires step.ToSender? ==> step.tx in link.U && step.tx !in link.ledger.offeredS
    requires step.ToReceiver? ==> step.tx in link.U && step.tx !in link.ledger.offeredR
    requires forall S, R, n :: truthful(S, R, n) ==> Truthful(link.sch, S, R, n)
    modifies link.Repr()
    ensures link.Inv() && (held ==> Held(link, step, truthful) && link.View() == old(link.View()))
    ensures !held ==> Moves(link.Setting(), old(link.View()), step, link.View())
    ensures !held ==> link.ledger.offeredS == old(link.ledger).offeredS + SenderOffers([step])
    ensures !held ==> link.ledger.offeredR == old(link.ledger).offeredR + ReceiverOffers([step])
  {
    hide Link.Inv, Moves, Truthful, SenderOffers, ReceiverOffers;
    if step.CodewordArrives? && link.fwd != [] && link.receiver.Accepts(link.fwd[0]) {
      var S, R, n := BlockAt(link);
      if !truthful(S, R, n) {
        return true;
      }
    }
    Do(link, step);
    held := false;
  }

  /** Every run: from a fresh link, any sequence of offers and deliveries (those with nothing to deliver do nothing)
      goes through states that the protocol's moves lead to, and ends in one that keeps the invariant. The run stops
      before a codeword that makes the receiver read a lying cell, as told by any test that never overlooks one. */
  method Run(link: Link, steps: seq<Step>, truthful: (set<Sym>, set<Sym>, nat) -> bool)
      returns (ran: nat, ghost trace: seq<LinkView>)
    requires link.Inv() && link.ledger.offeredS == {} && link.ledger.offeredR == {}
    requires OffersOnce(steps, link.U)
    requires forall S, R, n :: truthful(S, R, n) ==> Truthful(link.sch, S, R, n)
    modifies link.Repr()
    ensures ran <= |steps| && IsTrace(link.Setting(), trace, steps[..ran])
    ensures trace[0] == old(link.View()) && trace[ran] == link.View()
    ensures link.Inv() && (ran < |steps| ==> Held(link, steps[ran], truthful))
    ensures link.ledger.offeredS == SenderOffers(steps[..ran]) && link.ledger.offeredR == ReceiverOffers(steps[..ran])
  {
    hide Link.Inv, Moves, Truthful, Held;
    ran, trace := 0, [link.View()];
    while ran < |steps|
      invariant ran <= |steps| && link.Inv() && IsTrace(link.Setting(), trace, steps[..ran])
      invariant trace[0] == old(link.View()) && trace[ran] == link.View()
      invariant link.ledger.offeredS == SenderOffers(steps[..ran])
      invariant link.ledger.offeredR == ReceiverOffers(steps[..ran])
    {
      OneMoreStep(steps, ran);
      var held := TryStep(link, steps[ran], truthful);
      if held {
        return;
      }
      TraceGrows(link.Setting(), trace, steps[..ran], steps[ran], link.View());
      assert steps[..ran + 1] == steps[..ran] + [steps[ran]];
      ran, trace := ran + 1, trace + [link.View()];
    }
  }

  lemma OneMoreStep(steps: seq<Step>, i: nat)
    requires i < |steps|
    ensures SenderOffers(steps[..i + 1]) == SenderOffers(steps[..i]) + SenderOffers([steps[i]])
    ensures ReceiverOffers(steps[..i + 1]) == ReceiverOffers(steps[..i]) + ReceiverOffers([steps[i]])
    ensures steps[i].ToSender? && steps[i].tx in SenderOffers(steps[..i]) ==> steps[i] in steps[..i]
    ensures steps[i].ToReceiver? && steps[i].tx in ReceiverOffers(steps[..i]) ==> steps[i] in steps[..i]
  {
    assert steps[..i + 1] == steps[..i] + [steps[i]];
  }
}
