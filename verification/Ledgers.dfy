/** The state of a link as a value: who was given what, where the current block stands, and what every step of the link
    keeps (newsim/coding.go). */
module Ledgers {
  import opened Words
  import opened Lists
  import opened Symbols
  import opened Mappings
  import opened Windows
  import opened Peeling
  import opened Shards
  import opened Senders
  import opened Receivers
  import opened Channels

  /** Who was given what, and who has learned what from the other, since the start.
      share: the receiver's own part of the current block, once the block has reached it
      got:   what the receiver learned from the current block */
  datatype Ledger = Ledger(offeredS: set<Sym>, offeredR: set<Sym>, doneS: set<Sym>, doneR: set<Sym>,
                           learnedS: set<Sym>, learnedR: set<Sym>, share: set<Sym>, got: set<Sym>)
  {
    ghost function KnownS(): set<Sym> { offeredS + learnedS }

    ghost function KnownR(): set<Sym> { offeredR + learnedR }
  }

  /** Nothing is lost and nothing is made up: what a side was given is in its buffer, in its part of the current block,
      or known to the other side; and a side learns only what the other was given. */
  ghost predicate Accounted(l: Ledger, bufferS: set<Sym>, block: set<Sym>, bufferR: set<Sym>) {
    && l.offeredS == bufferS + block + l.doneS && l.offeredR == bufferR + l.share + l.doneR
    && l.doneS <= l.KnownR() && l.doneR <= l.KnownS()
    && l.learnedS <= l.offeredR && l.learnedR <= l.offeredS
    && l.got <= l.learnedR
  }

  /** A transaction is offered to the receiver. */
  lemma OfferedToReceiver(l: Ledger, bufferS: set<Sym>, block: set<Sym>, bufferR: set<Sym>, tx: Sym)
    requires Accounted(l, bufferS, block, bufferR)
    ensures Accounted(l.(offeredR := l.offeredR + {tx}), bufferS, block, bufferR + {tx})
    ensures tx !in l.offeredR ==> tx !in bufferR
  {
  }

  /** A transaction is offered to the sender, which may start a block. */
  lemma OfferedToSender(l: Ledger, bufferS: set<Sym>, block: set<Sym>, bufferR: set<Sym>, tx: Sym,
                        bufferS': set<Sym>, block': set<Sym>)
    requires Accounted(l, bufferS, block, bufferR)
    requires bufferS' + block' == bufferS + {tx} + block
    ensures Accounted(l.(offeredS := l.offeredS + {tx}), bufferS', block', bufferR)
    ensures tx !in l.offeredS ==> tx !in bufferS
  {
  }

  /** The ledger once the sender has handled the ack that ends the block. */
  ghost function Settled(l: Ledger, block: set<Sym>, txs: set<Sym>): Ledger {
    l.(doneS := l.doneS + block, doneR := l.doneR + l.share, learnedS := l.learnedS + txs, share := {}, got := {})
  }

  /** When a block ends both sides know all of it, so that nothing is lost by forgetting it. */
  lemma BlockSettled(l: Ledger, bufferS: set<Sym>, block: set<Sym>, bufferR: set<Sym>, txs: set<Sym>,
                     bufferS': set<Sym>, block': set<Sym>)
    requires Accounted(l, bufferS, block, bufferR) && bufferS' + block' == bufferS
    requires l.got == block - l.share && txs == l.share - block
    ensures Accounted(Settled(l, block, txs), bufferS', block', bufferR)
    ensures block + txs == l.share + l.got
  {
  }

  /** Once the receiver has decoded the block, it has learned exactly what it was missing, and the ack that ends the
      block carries exactly what the sender is missing. */
  ghost predicate OutcomeFits(l: Ledger, p: Progress, received: bool, block: set<Sym>) {
    && (p.arrived == 0 ==> l.share == {})
    && (p.arrived > 0 && received ==> l.got == block - l.share && p.txs == l.share - block)
  }

  /** The ledger once the receiver has handled a codeword, which may open the block and may complete it. */
  ghost function Updated(l: Ledger, share: set<Sym>, done: bool, res: set<Sym>): Ledger {
    var o := l.(share := share);
    if done then o.(learnedR := o.learnedR + res, got := res) else o
  }

  lemma CodewordHandled(l: Ledger, p: Progress, received: bool, bufferS: set<Sym>, block: set<Sym>, bufferR: set<Sym>,
                        share: set<Sym>, done: bool, res: set<Sym>, outbox: seq<Ack>, received': bool,
                        bufferR': set<Sym>)
    requires Accounted(l, bufferS, block, bufferR) && OutcomeFits(l, p, received, block)
    requires (share == l.share && bufferR' == bufferR) ||
             (p.arrived == 0 && outbox != [] && share <= bufferR && bufferR' == bufferR - share)
    requires if outbox == []
      then !done && received' == received && (p.stale > 0 || p.arrived > 0) else received' == done
    requires done ==> outbox != [] && res == block - share && Elements(outbox[0].txs) == share - block
    ensures Accounted(Updated(l, share, done, res), bufferS, block, bufferR')
    ensures OutcomeFits(Updated(l, share, done, res), Arrived(p, outbox), received', block)
  {
  }

  /** What never changes on a link; all transactions are in U. */
  datatype Setup = Setup(sch: Scheme, schedule: seq<nat>, randomizer: Word, overhead: real, U: set<Sym>)

  /** The link as a value, except for the receiver's decoder.
      starts: how many blocks have started at the sender
      born:   how many had when a transaction was offered to the sender
      begun:  how many blocks the receiver has opened
      bornR:  how many it had when a transaction was offered to the receiver */
  datatype LinkView = LinkView(s: SenderState, receiving: bool, fwd: seq<Codeword>, back: seq<Ack>, received: bool,
                               buffer: seq<Sym>, progress: Progress, ledger: Ledger, starts: nat, born: map<Sym, nat>,
                               begun: nat, bornR: map<Sym, nat>)

  /** Both buffers hold different transactions that were offered. */
  ghost predicate BuffersFine(c: Setup, v: LinkView) {
    && NoDuplicates(v.s.view.buffer) && NoDuplicates(v.buffer) && Elements(v.buffer) <= c.U
    && v.ledger.offeredS <= c.U && v.ledger.offeredR <= c.U
  }

  /** The ledger is right. */
  ghost predicate BooksFine(v: LinkView) {
    && Accounted(v.ledger, Elements(v.s.view.buffer), Elements(v.s.view.block), Elements(v.buffer))
    && OutcomeFits(v.ledger, v.progress, v.received, Elements(v.s.view.block))
  }

  /** The sender and the receiver's verdict fit the two wires. */
  ghost predicate WiresFine(c: Setup, v: LinkView)
    requires |c.schedule| > 0
  {
    if v.s.encoding
    then 1.0 <= v.s.view.sendWindow <= v.s.inFlight as real &&
         Fits(c.sch, |c.schedule|, v.s, v.receiving, v.fwd, v.back, v.received, v.progress)
    else NotStarted(v.s, v.fwd, v.back, v.received, v.progress)
  }

  /** No transaction waits longer in the sender's buffer than one round of the schedule. */
  ghost predicate OnTime(c: Setup, v: LinkView)
    requires IsSchedule(c.schedule)
  {
    && v.s.view.nextShard < |c.schedule| && v.born.Keys == v.ledger.offeredS
    && Timely(c.schedule, v.s.view.nextShard, c.randomizer, v.s.view.buffer, v.starts, v.born)
  }

  /** The place in a schedule of k shards before the given one. */
  function Before(next: nat, k: nat): (i: nat)
    requires next < k
    ensures i < k && (i + 1) % k == next
  {
    NextWraps(if next == 0 then k - 1 else next - 1, k);
    if next == 0 then k - 1 else next - 1
  }

  /** The place in the schedule of the block that the receiver opens next: the current one, until its first codeword has
      arrived. */
  ghost function NextOpen(k: nat, s: SenderState, p: Progress): (i: nat)
    requires s.view.nextShard < k
    ensures i < k
  {
    if s.encoding && p.arrived == 0 then Before(s.view.nextShard, k) else s.view.nextShard
  }

  /** No transaction waits longer in the receiver's buffer than one round of the schedule, either, and the receiver
      opens every block that starts. */
  ghost predicate OnTimeR(c: Setup, v: LinkView)
    requires IsSchedule(c.schedule)
  {
    && v.s.view.nextShard < |c.schedule| && v.bornR.Keys == v.ledger.offeredR
    && v.starts == v.begun + (if v.s.encoding && v.progress.arrived == 0 then 1 else 0)
    && (v.s.encoding ==> v.s.view.shard == c.schedule[Before(v.s.view.nextShard, |c.schedule|)])
    && Timely(c.schedule, NextOpen(|c.schedule|, v.s, v.progress), c.randomizer, v.buffer, v.begun, v.bornR)
  }

  ghost predicate Fine(c: Setup, v: LinkView) {
    && Legal(c.sch, c.U) && IsSchedule(c.schedule)
    && BuffersFine(c, v) && BooksFine(v) && WiresFine(c, v) && OnTime(c, v) && OnTimeR(c, v)
  }

  lemma FineAtFirst(c: Setup, v: LinkView)
    requires Legal(c.sch, c.U) && IsSchedule(c.schedule)
    requires NotStarted(v.s, v.fwd, v.back, v.received, v.progress) && v.s.view.nextShard == 0
    requires v.s.view.buffer == [] && v.buffer == [] && v.born == v.bornR == map[]
    requires v.ledger == Ledger({}, {}, {}, {}, {}, {}, {}, {}) && v.starts == v.begun == 0
    ensures Fine(c, v)
  {
  }

  lemma UsableIn(sch: Scheme, U: set<Sym>, tx: Sym)
    requires Legal(sch, U) && tx in U
    ensures tx.hash != 0
  {
  }

  lemma LegalAdvances(sch: Scheme, U: set<Sym>)
    requires Legal(sch, U)
    ensures Advancing(sch)
  {
  }

  lemma MoreElements(s: seq<Sym>, x: Sym)
    ensures Elements(s + [x]) == Elements(s) + {x}
    ensures NoDuplicates(s) && x !in s ==> NoDuplicates(s + [x])
  {
  }

  /** A transaction is offered to the receiver. */
  ghost function AtReceiver(v: LinkView, tx: Sym): LinkView {
    v.(buffer := v.buffer + [tx], ledger := v.ledger.(offeredR := v.ledger.offeredR + {tx}),
       bornR := v.bornR[tx := v.begun])
  }

  lemma FineAtReceiver(c: Setup, v: LinkView, tx: Sym)
    requires Fine(c, v) && tx in c.U && tx !in v.ledger.offeredR
    ensures Fine(c, AtReceiver(v, tx))
  {
    hide Accounted, Timely, Fits, NotStarted, IsSchedule, Legal;
    OfferedToReceiver(v.ledger, Elements(v.s.view.buffer), Elements(v.s.view.block), Elements(v.buffer), tx);
    MoreElements(v.buffer, tx);
    assert tx !in v.buffer by { assert tx !in Elements(v.buffer); }
    TimelyOffer(c.schedule, NextOpen(|c.schedule|, v.s, v.progress), c.randomizer, v.buffer, v.begun, v.bornR, tx);
  }

  /** What the sender may rely on when a transaction is offered to it. */
  lemma FineOffer(c: Setup, v: LinkView, tx: Sym)
    requires Fine(c, v) && tx in c.U && tx !in v.ledger.offeredS
    ensures tx !in v.s.view.buffer && tx.hash != 0
  {
    OfferedToSender(v.ledger, Elements(v.s.view.buffer), Elements(v.s.view.block), Elements(v.buffer), tx,
      Elements(v.s.view.buffer) + {tx}, Elements(v.s.view.block));
    UsableIn(c.sch, c.U, tx);
  }

  /** The sender, now in state s, was offered tx, and what it wrote is on the wire. */
  ghost function AtSender(v: LinkView, tx: Sym, s: SenderState): LinkView {
    v.(s := s.(outbox := []), fwd := v.fwd + s.outbox, ledger := v.ledger.(offeredS := v.ledger.offeredS + {tx}),
       starts := if v.s.encoding then v.starts else v.starts + 1, born := v.born[tx := v.starts])
  }

  /** What the sender wrote is on the wire. */
  ghost function Flushed(v: LinkView): LinkView {
    v.(s := v.s.(outbox := []), fwd := v.fwd + v.s.outbox)
  }

  /** The sender with one more transaction in its buffer. */
  ghost function Offered(s: SenderState, tx: Sym): SenderState {
    s.(view := s.view.(buffer := s.view.buffer + [tx]))
  }

  /** What the sender promises after every message: its window is full, and its buffer holds different transactions. */
  ghost predicate Full(s: SenderState) {
    s.encoding && 1.0 <= s.view.sendWindow <= s.inFlight as real && NoDuplicates(s.view.buffer)
  }

  lemma FineAtSender(c: Setup, v: LinkView, tx: Sym, s: SenderState)
    requires Fine(c, v) && tx in c.U && tx !in v.ledger.offeredS
    requires Sends(c.sch, c.schedule, c.randomizer, c.overhead, Offered(v.s, tx), s) && Full(s)
    ensures Fine(c, AtSender(v, tx, s)) && (s.view.block == v.s.view.block || v.progress.arrived == 0)
  {
    hide Fine, BooksFine, OnTime, OnTimeR, Timely, Fits, NotStarted, IsSchedule, Legal, Sends, NoDuplicates;
    var buffer := v.s.view.buffer + [tx];
    FineParts(c, v);
    FineOffer(c, v, tx);
    MoreElements(v.s.view.buffer, tx);
    SentFits(c.sch, c.schedule, c.randomizer, c.overhead, v.s, buffer, s, v.receiving, v.fwd, v.back, v.received,
      v.progress);
    BooksAtSender(v, tx, s);
    OnTimeAtSender(c, v, tx, s);
    OnTimeRAtSender(c, v, tx, s);
    FineWhole(c, AtSender(v, tx, s));
  }

  lemma FineParts(c: Setup, v: LinkView)
    requires Fine(c, v)
    ensures Legal(c.sch, c.U) && IsSchedule(c.schedule) && v.s.view.nextShard < |c.schedule|
    ensures BuffersFine(c, v) && BooksFine(v) && WiresFine(c, v) && OnTime(c, v) && OnTimeR(c, v)
  {
  }

  lemma FineWhole(c: Setup, v: LinkView)
    requires Legal(c.sch, c.U) && IsSchedule(c.schedule)
    requires BuffersFine(c, v) && BooksFine(v) && WiresFine(c, v) && OnTime(c, v) && OnTimeR(c, v)
    ensures Fine(c, v)
  {
  }

  lemma BooksAtSender(v: LinkView, tx: Sym, s: SenderState)
    requires BooksFine(v) && (s.view.block == v.s.view.block || v.progress.arrived == 0)
    requires Elements(s.view.buffer) + Elements(s.view.block) ==
             Elements(v.s.view.buffer) + {tx} + Elements(v.s.view.block)
    ensures BooksFine(AtSender(v, tx, s))
  {
    hide Accounted;
    OfferedToSender(v.ledger, Elements(v.s.view.buffer), Elements(v.s.view.block), Elements(v.buffer), tx,
      Elements(s.view.buffer), Elements(s.view.block));
  }

  lemma OnTimeAtSender(c: Setup, v: LinkView, tx: Sym, s: SenderState)
    requires IsSchedule(c.schedule) && OnTime(c, v) && v.s.view.nextShard < |c.schedule| && tx !in v.s.view.buffer
    requires Sends(c.sch, c.schedule, c.randomizer, c.overhead, Offered(v.s, tx), s)
    ensures OnTime(c, AtSender(v, tx, s))
  {
    hide Timely, Sends, IsSchedule;
    TimelyOffer(c.schedule, v.s.view.nextShard, c.randomizer, v.s.view.buffer, v.starts, v.born, tx);
    TimelySends(c.sch, c.schedule, c.randomizer, c.overhead, Offered(v.s, tx), s, v.starts, v.born[tx := v.starts]);
  }

  /** A block start does not change what the receiver opens next: it opens the block that started. */
  lemma NextOpenSends(c: Setup, pre: SenderState, post: SenderState, p: Progress, p': Progress)
    requires IsSchedule(c.schedule) && pre.view.nextShard < |c.schedule|
    requires Sends(c.sch, c.schedule, c.randomizer, c.overhead, pre, post)
    requires pre.encoding ==> pre.view.shard == c.schedule[Before(pre.view.nextShard, |c.schedule|)]
    requires if pre.encoding then p' == p else p'.arrived == 0
    ensures post.encoding && post.view.nextShard < |c.schedule|
    ensures post.view.shard == c.schedule[Before(post.view.nextShard, |c.schedule|)]
    ensures NextOpen(|c.schedule|, post, p') == NextOpen(|c.schedule|, pre, p)
  {
    NextWraps(pre.view.nextShard, |c.schedule|);
  }

  lemma OnTimeRAtSender(c: Setup, v: LinkView, tx: Sym, s: SenderState)
    requires IsSchedule(c.schedule) && OnTimeR(c, v) && WiresFine(c, v)
    requires Sends(c.sch, c.schedule, c.randomizer, c.overhead, Offered(v.s, tx), s)
    ensures OnTimeR(c, AtSender(v, tx, s))
  {
    hide Timely, Sends, IsSchedule, Fits;
    NextOpenSends(c, Offered(v.s, tx), s, v.progress, v.progress);
  }

  lemma OnTimeRAfterAck(c: Setup, v: LinkView, a: SenderState, s: SenderState)
    requires IsSchedule(c.schedule) && OnTimeR(c, v) && v.s.encoding && v.back != []
    requires v.back[0].ackBlock ==> v.progress.arrived > 0
    requires IsAcked(c.overhead, v.s, v.receiving, v.back[0], a) && a.view.nextShard < |c.schedule|
    requires Sends(c.sch, c.schedule, c.randomizer, c.overhead, a, s)
    ensures OnTimeR(c, AfterAck(v, s))
  {
    hide Timely, Sends, IsSchedule;
    NextOpenSends(c, a, s, v.progress, if a.encoding then v.progress else Progress(|v.fwd|, 0, 0, {}));
  }

  /** The sender, now in state s, has handled the ack at the head of the backward channel, and what it wrote is on the
      wire. */
  ghost function AfterAck(v: LinkView, s: SenderState): LinkView
    requires v.back != []
  {
    var ack := v.back[0];
    var w := v.(s := s.(outbox := []), receiving := ack.ackStart || (v.receiving && !ack.ackBlock),
                fwd := v.fwd + s.outbox, back := v.back[1..]);
    if ack.ackBlock
    then w.(progress := Progress(|v.fwd|, 0, 0, {}), starts := v.starts + 1,
            ledger := Settled(v.ledger, Elements(v.s.view.block), Elements(ack.txs)))
    else w
  }

  /** The sender's part S and the receiver's part R of a block, the transactions txs that the receiver sends back and
      those that it got: each is exactly what the other side was missing, and both sides end up with the union. */
  ghost predicate Unites(S: set<Sym>, R: set<Sym>, txs: set<Sym>, got: set<Sym>) {
    txs == R - S && got == S - R && S + txs == R + got == S + R
  }

  lemma FineAfterAck(c: Setup, v: LinkView, a: SenderState, s: SenderState)
    requires Fine(c, v) && v.back != [] && IsAcked(c.overhead, v.s, v.receiving, v.back[0], a)
    requires a.view.nextShard < |c.schedule|
    requires Sends(c.sch, c.schedule, c.randomizer, c.overhead, a, s) && Full(s)
    ensures Fine(c, AfterAck(v, s))
    ensures !v.back[0].ackBlock ==> s.view.block == v.s.view.block
    ensures v.s.encoding && (v.back[0].ackBlock ==> v.received)
    ensures NoDuplicates(v.back[0].txs) && (!v.back[0].ackBlock ==> v.back[0].txs == [])
    ensures v.back[0].ackBlock ==>
      Unites(Elements(v.s.view.block), v.ledger.share, Elements(v.back[0].txs), v.ledger.got)
  {
    hide Fine, Accounted, Timely, Fits, NotStarted, IsSchedule, Legal, Sends, NoDuplicates, OnTimeR;
    StartedByNow(c, v);
    FineParts(c, v);
    AckedFits(c.sch, c.schedule, c.randomizer, c.overhead, v.s, a, s, v.receiving, v.fwd, v.back, v.received,
              v.progress);
    TimelySends(c.sch, c.schedule, c.randomizer, c.overhead, a, s, v.starts, v.born);
    OnTimeRAfterAck(c, v, a, s);
    if v.back[0].ackBlock {
      BlockSettled(v.ledger, Elements(v.s.view.buffer), Elements(v.s.view.block), Elements(v.buffer),
        Elements(v.back[0].txs), Elements(s.view.buffer), Elements(s.view.block));
    }
    FineWhole(c, AfterAck(v, s));
  }

  lemma StartedByNow(c: Setup, v: LinkView)
    requires Fine(c, v) && (v.fwd != [] || v.back != [])
    ensures v.s.encoding
  {
  }

  /** The receiver has handled the head of the forward channel: received, buffer and out are its verdict, its buffer and
      its acks since. */
  ghost function AfterCodewordView(v: LinkView, share: set<Sym>, done: bool, res: set<Sym>, out: seq<Ack>,
                                   received: bool, buffer: seq<Sym>): LinkView
    requires v.fwd != []
  {
    v.(fwd := v.fwd[1..], back := v.back + out, received := received, buffer := buffer,
       progress := Arrived(v.progress, out), ledger := Updated(v.ledger, share, done, res),
       begun := if v.fwd[0].newBlock then v.begun + 1 else v.begun)
  }

  /** What the receiver answers to the codeword at the head of the forward channel. */
  ghost predicate Answers(c: Setup, v: LinkView, share: set<Sym>, done: bool, res: set<Sym>, out: seq<Ack>,
                          received: bool, buffer: seq<Sym>)
    requires v.fwd != []
  {
    var cw, S := v.fwd[0], Elements(v.s.view.block);
    && (if cw.newBlock || !v.received
        then |out| == 1 && out[0] == Ack(received, cw.newBlock, out[0].txs) && received == done &&
             NoDuplicates(out[0].txs) && (!done ==> out[0].txs == [])
        else out == [] && received == v.received && !done && buffer == v.buffer)
    && NoDuplicates(buffer) && (done ==> res == S - share && Elements(out[0].txs) == share - S)
    && (if cw.newBlock
        then share == PartOf(v.buffer, c.randomizer, cw.startHash, cw.endHash) &&
             Elements(buffer) == Elements(v.buffer) - share
        else share == v.ledger.share && Elements(buffer) == Elements(v.buffer))
  }

  /** Opening a block takes exactly the symbols out of the receiver's buffer whose wait is over. */
  lemma TimelyOpens(schedule: seq<nat>, next: nat, randomizer: Word, buffer: seq<Sym>, begun: nat, bornR: map<Sym, nat>,
                    start: nat, end: nat, rest: seq<Sym>)
    requires IsSchedule(schedule) && next < |schedule| && Timely(schedule, next, randomizer, buffer, begun, bornR)
    requires start == ShardStart(schedule[next], |schedule|) && end == ShardEnd(schedule[next], |schedule|)
    requires Elements(rest) == Elements(buffer) - PartOf(buffer, randomizer, start, end)
    ensures Timely(schedule, (next + 1) % |schedule|, randomizer, rest, begun + 1, bornR)
  {
    hide IsSchedule, Wait, Taken, ShardStart, ShardEnd;
    forall v | v in rest
      ensures v in bornR
      ensures begun + 1 + Wait(schedule, (next + 1) % |schedule|, randomizer, v) < bornR[v] + |schedule|
    {
      assert v in Elements(rest);
      WaitStep(schedule, next, randomizer, v);
    }
  }

  lemma TimelySame(schedule: seq<nat>, next: nat, randomizer: Word, buffer: seq<Sym>, begun: nat,
                   bornR: map<Sym, nat>, rest: seq<Sym>)
    requires IsSchedule(schedule) && next < |schedule| && Timely(schedule, next, randomizer, buffer, begun, bornR)
    requires Elements(rest) == Elements(buffer)
    ensures Timely(schedule, next, randomizer, rest, begun, bornR)
  {
    assert forall v | v in rest :: v in Elements(rest);
  }

  lemma OnTimeRAfterCodeword(c: Setup, v: LinkView, share: set<Sym>, done: bool, res: set<Sym>, out: seq<Ack>,
                             received: bool, buffer: seq<Sym>)
    requires IsSchedule(c.schedule) && OnTimeR(c, v) && v.s.encoding && v.fwd != []
    requires Answers(c, v, share, done, res, out, received, buffer)
    requires if v.fwd[0].newBlock
      then v.progress.arrived == 0 &&
           v.fwd[0] == CodewordAt(c.sch, Elements(v.s.view.block), v.s.view.shard, |c.schedule|, 0)
      else (Arrived(v.progress, out).arrived == 0 <==> v.progress.arrived == 0)
    ensures OnTimeR(c, AfterCodewordView(v, share, done, res, out, received, buffer))
  {
    hide Timely, IsSchedule, PartOf, NoDuplicates, ShardStart, ShardEnd;
    var k, cw := |c.schedule|, v.fwd[0];
    var next := NextOpen(k, v.s, v.progress);
    if cw.newBlock {
      TimelyOpens(c.schedule, next, c.randomizer, v.buffer, v.begun, v.bornR, cw.startHash, cw.endHash, buffer);
    } else {
      TimelySame(c.schedule, next, c.randomizer, v.buffer, v.begun, v.bornR, buffer);
    }
  }

  lemma FineAfterCodeword(c: Setup, v: LinkView, share: set<Sym>, done: bool, res: set<Sym>, out: seq<Ack>,
                          received: bool, buffer: seq<Sym>)
    requires Fine(c, v) && v.fwd != [] && Answers(c, v, share, done, res, out, received, buffer)
    ensures Fine(c, AfterCodewordView(v, share, done, res, out, received, buffer))
  {
    hide Fine, Accounted, Timely, Fits, NotStarted, IsSchedule, Legal, NoDuplicates, OutcomeFits, OnTimeR;
    StartedByNow(c, v);
    FineParts(c, v);
    HeadFits(c.sch, |c.schedule|, v.s, v.receiving, v.fwd, v.back, v.received, v.progress);
    ArrivalFits(c.sch, |c.schedule|, v.s, v.receiving, v.fwd, v.back, v.received, v.progress, out, received);
    CodewordHandled(v.ledger, v.progress, v.received, Elements(v.s.view.buffer), Elements(v.s.view.block),
      Elements(v.buffer), share, done, res, out, received, Elements(buffer));
    OnTimeRAfterCodeword(c, v, share, done, res, out, received, buffer);
    FineWhole(c, AfterCodewordView(v, share, done, res, out, received, buffer));
  }

  /** What can happen on a link. */
  datatype Step = ToSender(tx: Sym) | ToReceiver(tx: Sym) | CodewordArrives | AckArrives

  /** The sender went on from the state pre: it sent as many codewords as it takes to fill its window. */
  ghost predicate WentOn(c: Setup, pre: SenderState, s: SenderState)
    requires IsSchedule(c.schedule) && pre.view.nextShard < |c.schedule|
  {
    && Sends(c.sch, c.schedule, c.randomizer, c.overhead, pre, s) && Full(s)
    && Fills(Base(pre), s.view.sendWindow, s.inFlight)
  }

  /** The head of the forward channel, if it is accepted, completes its block exactly when the coded symbols so far
      determine the whole difference. */
  ghost predicate Decides(c: Setup, v: LinkView, share: set<Sym>, done: bool)
    requires v.fwd != []
  {
    v.fwd[0].newBlock || !v.received ==>
      (done <==> IsCore(c.sch, Apart(Elements(v.s.view.block), share), v.progress.arrived + 1, {}))
  }

  /** The step takes the link from v to w. A delivery changes nothing if there is nothing to deliver. */
  ghost predicate Moves(c: Setup, v: LinkView, step: Step, w: LinkView) {
    && IsSchedule(c.schedule) && v.s.view.nextShard < |c.schedule|
    && match step
       case ToSender(tx) => exists s :: WentOn(c, Offered(v.s, tx), s) && w == AtSender(v, tx, s)
       case ToReceiver(tx) => w == AtReceiver(v, tx)
       case CodewordArrives =>
         if v.fwd == [] then w == v
         else exists share, done, res, out, received, buffer ::
           && Answers(c, v, share, done, res, out, received, buffer) && Decides(c, v, share, done)
           && w == AfterCodewordView(v, share, done, res, out, received, buffer)
       case AckArrives =>
         if v.back == [] then w == v
         else exists a, s ::
           && IsAcked(c.overhead, v.s, v.receiving, v.back[0], a) && a.view.nextShard < |c.schedule|
           && WentOn(c, a, s) && w == AfterAck(v, s)
  }

  /** Whatever the steps are, a link that is in order stays so. */
  lemma MovesKeepFine(c: Setup, v: LinkView, step: Step, w: LinkView)
    requires Fine(c, v) && Moves(c, v, step, w)
    requires step.ToSender? ==> step.tx in c.U && step.tx !in v.ledger.offeredS
    requires step.ToReceiver? ==> step.tx in c.U && step.tx !in v.ledger.offeredR
    ensures Fine(c, w)
  {
    hide Fine, Answers, Decides, IsAcked, Sends, Full, Fills, IsSchedule;
    match step {
      case ToSender(tx) =>
        var s :| WentOn(c, Offered(v.s, tx), s) && w == AtSender(v, tx, s);
        FineAtSender(c, v, tx, s);
      case ToReceiver(tx) =>
        FineAtReceiver(c, v, tx);
      case CodewordArrives =>
        if v.fwd != [] {
          var share, done, res, out, received, buffer :|
            Answers(c, v, share, done, res, out, received, buffer) && Decides(c, v, share, done) &&
            w == AfterCodewordView(v, share, done, res, out, received, buffer);
          FineAfterCodeword(c, v, share, done, res, out, received, buffer);
        }
      case AckArrives =>
        if v.back != [] {
          var a, s :| IsAcked(c.overhead, v.s, v.receiving, v.back[0], a) && a.view.nextShard < |c.schedule| &&
                      WentOn(c, a, s) && w == AfterAck(v, s);
          FineAfterAck(c, v, a, s);
        }
    }
  }

  /** The steps take the link through the given states. */
  ghost predicate IsTrace(c: Setup, trace: seq<LinkView>, steps: seq<Step>) {
    |trace| == |steps| + 1 && forall i | 0 <= i < |steps| :: Moves(c, trace[i], steps[i], trace[i + 1])
  }

  lemma TraceGrows(c: Setup, trace: seq<LinkView>, steps: seq<Step>, step: Step, v: LinkView)
    requires IsTrace(c, trace, steps) && Moves(c, trace[|steps|], step, v)
    ensures IsTrace(c, trace + [v], steps + [step])
  {
    hide Moves;
    forall i | 0 <= i < |steps + [step]|
      ensures Moves(c, (trace + [v])[i], (steps + [step])[i], (trace + [v])[i + 1])
    {
    }
  }

  lemma MovesOffer(c: Setup, v: LinkView, tx: Sym, s: SenderState)
    requires IsSchedule(c.schedule) && v.s.view.nextShard < |c.schedule| && WentOn(c, Offered(v.s, tx), s)
    ensures Moves(c, v, ToSender(tx), AtSender(v, tx, s))
  {
  }

  lemma MovesAck(c: Setup, v: LinkView, a: SenderState, s: SenderState)
    requires IsSchedule(c.schedule) && v.s.view.nextShard < |c.schedule| && v.back != []
    requires IsAcked(c.overhead, v.s, v.receiving, v.back[0], a) && a.view.nextShard < |c.schedule| && WentOn(c, a, s)
    ensures Moves(c, v, AckArrives, AfterAck(v, s))
  {
    hide WentOn, IsAcked;
  }

  lemma MovesCodeword(c: Setup, v: LinkView, share: set<Sym>, done: bool, res: set<Sym>, out: seq<Ack>, received: bool,
                      buffer: seq<Sym>)
    requires IsSchedule(c.schedule) && v.s.view.nextShard < |c.schedule| && v.fwd != []
    requires Answers(c, v, share, done, res, out, received, buffer) && Decides(c, v, share, done)
    ensures Moves(c, v, CodewordArrives, AfterCodewordView(v, share, done, res, out, received, buffer))
  {
    hide Answers, Decides;
  }
}
