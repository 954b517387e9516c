/** LT encoders and an LT decoder together: codewords sampled from moving windows are fed to the decoder, which may also
    be given transactions directly (lt/encoder.go, lt/decoder.go). */
module LtExchanges {
  import opened Words
  import opened Lists
  import opened LtGraph
  import opened LtStores
  import opened LtDecoders
  import opened LtEncoders

  /** A transaction enters an encoder's window, an encoder samples a codeword with the given random numbers and sends
      it, or the decoder is given a transaction. */
  datatype Event = Enters(to: nat, t: Transaction) | Sends(from: nat, deg: nat, random: nat -> nat)
                 | Given(t: Transaction)

  /** A codeword that was sent, and the window it was sampled from. */
  datatype Sent = Sent(c: Codeword, window: seq<SaltedTransaction>)

  /** Draws below n, n - 1, and so on, as math/rand's Intn gives them. */
  function Draws(random: nat -> nat, n: nat, deg: nat): (draws: seq<nat>)
    requires deg <= n
    ensures |draws| == deg && forall i | 0 <= i < deg :: draws[i] < n - i
  {
    seq(deg, i requires 0 <= i < deg => random(i) % (n - i))
  }

  /** The shuffle history of the given draws. */
  function HistoryOf(draws: seq<nat>, n: nat): (history: seq<nat>)
    requires |draws| <= n && forall i | 0 <= i < |draws| :: draws[i] < n - i
    ensures IsHistory(history, n) && FromDraws(history, draws, n)
  {
    seq(|draws|, i requires 0 <= i < |draws| => draws[i] + i)
  }

  /** The members of a codeword of the given degree that is sampled from w. */
  function Sampled(w: seq<SaltedTransaction>, deg: nat, random: nat -> nat): seq<Key> {
    var d := if deg > |w| then |w| else deg;
    KeysAlong(Selected(w, HistoryOf(Draws(random, |w|, d), |w|)))
  }

  /** The window of encoder j after the given events. */
  ghost function WindowAfter(h: Hashing, sizes: seq<nat>, j: nat, events: seq<Event>): seq<SaltedTransaction>
    requires j < |sizes|
  {
    if events == [] then []
    else
      var w, e := WindowAfter(h, sizes, j, events[..|events| - 1]), events[|events| - 1];
      if e.Enters? && e.to == j && h.salt(e.t.hash) !in Hashes(w)
      then Latest(w + [SaltedTransaction(h.salt(e.t.hash), e.t)], sizes[j])
      else w
  }

  /** The window of the encoder that sends in event i, as it then is. */
  ghost function SourceOf(h: Hashing, sizes: seq<nat>, events: seq<Event>, i: nat): seq<SaltedTransaction>
    requires i < |events| && events[i].Sends? && events[i].from < |sizes|
  {
    WindowAfter(h, sizes, events[i].from, events[..i])
  }

  /** The members of the codeword that the last event has sent, if it has sent one: a degree of zero and an empty window
      give none. */
  ghost function LastFamily(h: Hashing, sizes: seq<nat>, events: seq<Event>): set<set<Key>>
    requires events != []
  {
    var i := |events| - 1;
    var e := events[i];
    if e.Sends? && e.from < |sizes| && e.deg > 0 && SourceOf(h, sizes, events, i) != []
    then {Elements(Sampled(SourceOf(h, sizes, events, i), e.deg, e.random))}
    else {}
  }

  /** The members of every codeword that was sent. */
  ghost function Families(h: Hashing, sizes: seq<nat>, events: seq<Event>): set<set<Key>> {
    if events == [] then {} else Families(h, sizes, events[..|events| - 1]) + LastFamily(h, sizes, events)
  }

  lemma FamiliesGrow(h: Hashing, sizes: seq<nat>, events: seq<Event>, i: nat)
    requires i < |events|
    ensures Families(h, sizes, events[..i + 1]) ==
            Families(h, sizes, events[..i]) + LastFamily(h, sizes, events[..i + 1])
    ensures events[i].Sends? && events[i].from < |sizes| ==>
      SourceOf(h, sizes, events[..i + 1], i) == SourceOf(h, sizes, events, i)
  {
    assert events[..i + 1][..i] == events[..i];
  }

  /** The salted hashes of the transactions that the decoder was given. */
  ghost function Givens(h: Hashing, events: seq<Event>): set<Key> {
    set e | e in events && e.Given? :: h.salt(e.t.hash)
  }

  lemma GivensGrow(h: Hashing, events: seq<Event>, i: nat)
    requires i < |events|
    ensures Givens(h, events[..i + 1]) ==
            Givens(h, events[..i]) + if events[i].Given? then {h.salt(events[i].t.hash)} else {}
  {
    assert events[..i + 1] == events[..i] + [events[i]];
  }

  /** All entries are transactions that the decoder was given. */
  ghost predicate FromUser(h: Hashing, own: seq<Entry>, events: seq<Event>) {
    forall e | e in own :: Given(e.1) in events && h.salt(e.1.hash) == e.0
  }

  lemma MoreFromUser(h: Hashing, own: seq<Entry>, more: seq<Entry>, events: seq<Event>, i: nat)
    requires i < |events| && FromUser(h, own, events[..i])
    requires more == [] || (events[i].Given? && more == [(h.salt(events[i].t.hash), events[i].t)])
    ensures FromUser(h, own + more, events[..i + 1])
  {
    assert events[..i + 1] == events[..i] + [events[i]];
  }

  /** What the events have told the decoder: exactly the codewords that were sent and the transactions that were given;
      and what it has returned is what it has stored, except for what it was given. */
  ghost predicate Fed(d: Decoder, sizes: seq<nat>, events: seq<Event>, own: seq<Entry>, newTx: seq<Transaction>)
    reads d
  {
    && d.all.Keys == d.mem.Keys && d.all.Values == Families(d.hashing, sizes, events)
    && d.given == Givens(d.hashing, events)
    && Told(d.hashing, d.history, own, newTx) && FromUser(d.hashing, own, events)
  }

  lemma OneMoreFamily(before: map<PendingCodeword, set<Key>>, cw: PendingCodeword, M: set<Key>)
    requires cw !in before
    ensures before[cw := M].Values == before.Values + {M}
  {
    assert before[cw := M][cw] == M;
    assert forall c | c in before :: before[cw := M][c] == before[c];
  }

  /** t was in the window of one of the encoders when an event sampled a codeword from it, and was a member of that
      codeword. */
  ghost predicate WasSampled(h: Hashing, sizes: seq<nat>, events: seq<Event>, t: Transaction) {
    exists i: nat, e | i < |events| && events[i].Sends? && events[i].from < |sizes| &&
                       e in SourceOf(h, sizes, events, i) ::
      e.t == t && h.salt(t.hash) in Sampled(SourceOf(h, sizes, events, i), events[i].deg, events[i].random)
  }

  /** Event i sampled the codeword s. */
  ghost predicate SentBy(h: Hashing, sizes: seq<nat>, events: seq<Event>, i: nat, s: Sent) {
    && i < |events| && events[i].Sends? && events[i].from < |sizes| && s.window == SourceOf(h, sizes, events, i)
    && s.c.members == Sampled(s.window, events[i].deg, events[i].random)
  }

  /** What was sent was sampled by the events. */
  ghost predicate FromEvents(h: Hashing, sizes: seq<nat>, events: seq<Event>, sent: seq<Sent>) {
    forall s | s in sent :: exists i: nat :: SentBy(h, sizes, events, i, s)
  }

  lemma SameEvent(h: Hashing, sizes: seq<nat>, events: seq<Event>, i: nat, k: nat, s: Sent)
    requires i < |events| && SentBy(h, sizes, events[..i], k, s)
    ensures SentBy(h, sizes, events[..i + 1], k, s)
  {
    assert events[..i][..k] == events[..i + 1][..k] && events[..i][k] == events[..i + 1][k];
  }

  lemma MoreEvents(h: Hashing, sizes: seq<nat>, events: seq<Event>, i: nat, sent: seq<Sent>)
    requires i < |events| && FromEvents(h, sizes, events[..i], sent)
    ensures FromEvents(h, sizes, events[..i + 1], sent)
  {
    hide SentBy;
    var before, more := events[..i], events[..i + 1];
    forall s | s in sent
      ensures exists k: nat :: SentBy(h, sizes, more, k, s)
    {
      var k: nat :| SentBy(h, sizes, before, k, s);
      SameEvent(h, sizes, events, i, k, s);
    }
  }

  lemma OneMoreSent(h: Hashing, sizes: seq<nat>, events: seq<Event>, i: nat, sent: seq<Sent>, s: Sent)
    requires i < |events| && FromEvents(h, sizes, events[..i], sent) && events[i].Sends?
    requires events[i].from < |sizes| && s.window == SourceOf(h, sizes, events, i)
    requires s.c.members == Sampled(s.window, events[i].deg, events[i].random)
    ensures FromEvents(h, sizes, events[..i + 1], sent + [s])
  {
    assert events[..i + 1][i] == events[i] && events[..i + 1][..i] == events[..i];
    assert SentBy(h, sizes, events[..i + 1], i, s);
    hide SentBy;
    MoreEvents(h, sizes, events, i, sent);
  }

  lemma SentWasSampled(h: Hashing, sizes: seq<nat>, events: seq<Event>, sent: seq<Sent>, t: Transaction)
    requires FromEvents(h, sizes, events, sent) && WasSent(h, sent, t)
    ensures WasSampled(h, sizes, events, t)
  {
    var s, e :| s in sent && e in s.window && e.t == t && h.salt(t.hash) in s.c.members;
    var i: nat :| SentBy(h, sizes, events, i, s);
    assert e in SourceOf(h, sizes, events, i);
  }

  /** t is what honest encoders encode under its salted hash. */
  ghost predicate TrueTransaction(h: Hashing, truth: map<Key, Word>, t: Transaction) {
    h.salt(t.hash) in truth && t == NewTransaction(h, truth[h.salt(t.hash)])
  }

  ghost predicate TrueWindow(h: Hashing, truth: map<Key, Word>, w: seq<SaltedTransaction>) {
    forall e | e in w :: e.saltedHash == h.salt(e.t.hash) && TrueTransaction(h, truth, e.t)
  }

  /** Every codeword sent has its members in its window, which held true transactions. */
  ghost predicate AllSampled(h: Hashing, truth: map<Key, Word>, sent: seq<Sent>) {
    forall s | s in sent :: TrueWindow(h, truth, s.window) && Elements(s.c.members) <= Hashes(s.window)
  }

  /** The members of all codewords sent. */
  ghost function Heard(sent: seq<Sent>): set<Key> {
    set s, k | s in sent && k in Elements(s.c.members) :: k
  }

  /** t was in the window of a codeword that was sent, and a member of that codeword. */
  ghost predicate WasSent(h: Hashing, sent: seq<Sent>, t: Transaction) {
    exists s, e :: s in sent && e in s.window && e.t == t && h.salt(t.hash) in s.c.members
  }

  ghost predicate AllWereSent(h: Hashing, sent: seq<Sent>, txs: seq<Transaction>) {
    forall t | t in txs :: WasSent(h, sent, t)
  }

  lemma HeardWasSent(h: Hashing, truth: map<Key, Word>, sent: seq<Sent>, t: Transaction)
    requires AllSampled(h, truth, sent) && h.salt(t.hash) in Heard(sent) && TrueTransaction(h, truth, t)
    ensures WasSent(h, sent, t)
  {
    var k := h.salt(t.hash);
    var s :| s in sent && k in Elements(s.c.members);
    assert k in Hashes(s.window);
    var e :| e in s.window && e.saltedHash == k;
    assert e.t == t;
  }

  /** The transactions that the decoder has returned were sent; what it still waits for was heard of. */
  ghost predicate Consistent(d: Decoder, truth: map<Key, Word>, sent: seq<Sent>, newTx: seq<Transaction>)
    reads d
  {
    && d.truth == truth && d.honest && d.pendingTransactions.Keys <= Heard(sent)
    && AllSampled(d.hashing, truth, sent) && AllWereSent(d.hashing, sent, newTx)
  }

  lemma NothingSent(h: Hashing, sizes: seq<nat>, truth: map<Key, Word>, events: seq<Event>)
    ensures AllSampled(h, truth, []) && AllWereSent(h, [], []) && FromEvents(h, sizes, events[..0], [])
  {
  }

  lemma MoreSent(h: Hashing, truth: map<Key, Word>, sent: seq<Sent>, s: Sent, newTx: seq<Transaction>)
    requires AllSampled(h, truth, sent) && AllWereSent(h, sent, newTx)
    requires TrueWindow(h, truth, s.window) && Elements(s.c.members) <= Hashes(s.window)
    ensures AllSampled(h, truth, sent + [s]) && AllWereSent(h, sent + [s], newTx)
    ensures Heard(sent + [s]) == Heard(sent) + Elements(s.c.members)
  {
    assert forall x | x in sent + [s] :: x in sent || x == s;
    assert s in sent + [s] && forall x | x in sent :: x in sent + [s];
  }

  /** What the decoder returns for a codeword was sent. */
  lemma NewWereSent(h: Hashing, truth: map<Key, Word>, sent: seq<Sent>, txs: seq<Transaction>, more: seq<Transaction>,
                    before: set<Key>, after: set<Key>)
    requires AllSampled(h, truth, sent) && AllWereSent(h, sent, txs)
    requires Revealed(h, more, before, after) && before <= Heard(sent) && Honest(h, truth, more)
    ensures AllWereSent(h, sent, txs + more) && after <= Heard(sent)
  {
    forall t | t in more
      ensures WasSent(h, sent, t)
    {
      var i :| 0 <= i < |more| && more[i] == t;
      assert h.salt(more[i].hash) in before;
      HeardWasSent(h, truth, sent, t);
    }
  }

  lemma TrueAgrees(h: Hashing, truth: map<Key, Word>, w: seq<SaltedTransaction>)
    requires TrueWindow(h, truth, w)
    ensures Agrees(truth, w)
  {
  }

  lemma TrueLatest(h: Hashing, truth: map<Key, Word>, w: seq<SaltedTransaction>, t: Transaction, size: nat)
    requires TrueWindow(h, truth, w) && TrueTransaction(h, truth, t)
    ensures TrueWindow(h, truth, Latest(w + [SaltedTransaction(h.salt(t.hash), t)], size))
  {
  }

  /** Sample a codeword and feed it to the decoder. */
  method Send(enc: Encoder, d: Decoder, deg: nat, random: nat -> nat, txs: seq<Transaction>,
              ghost truth: map<Key, Word>, ghost sent: seq<Sent>, ghost own: seq<Entry>)
      returns (newTx: seq<Transaction>, ghost sent': seq<Sent>)
    requires d.all.Keys == d.mem.Keys && Told(d.hashing, d.history, own, txs)
    requires enc.Valid() && d.Ready([]) && enc.hashing == d.hashing && TrueWindow(d.hashing, truth, enc.window)
    requires Consistent(d, truth, sent, txs)
    modifies enc, d, d.mem.Keys, d.blk.Keys
    ensures enc.Valid() && d.Ready([]) && enc.window == old(enc.window) && enc.windowSize == old(enc.windowSize)
    ensures Consistent(d, truth, sent', newTx)
    ensures d.all.Keys == d.mem.Keys && d.given == old(d.given) && Told(d.hashing, d.history, own, newTx)
    ensures d.all.Values == old(d.all.Values) +
      if deg > 0 && enc.window != [] then {Elements(Sampled(enc.window, deg, random))} else {}
    ensures fresh(d.mem.Keys - old(d.mem.Keys)) && fresh(d.blk.Keys - old(d.blk.Keys))
    ensures sent' == sent ||
      (|sent'| == |sent| + 1 && sent' == sent + [sent'[|sent|]] && sent'[|sent|].window == enc.window &&
       sent'[|sent|].c.members == Sampled(enc.window, deg, random))
  {
    hide Encoder.Valid, Decoder.Ready, Decoder.Reports, TrueWindow, AllSampled, AllWereSent, Heard, Agrees;
    hide HonestCodeword, Selected, KeysAlong, FromDraws, Told, Consistent;
    newTx, sent' := txs, sent;
    TrueAgrees(d.hashing, truth, enc.window);
    WindowIsIndexed(enc);
    ConsistentParts(d, truth, sent, txs);
    ghost var draws := Draws(random, |enc.window|, enc.Degree(deg));
    var ok, c := enc.ProduceCodeword(deg, Draws(random, |enc.window|, enc.Degree(deg)), truth);
    if ok {
      SameHistory(enc.shuffleHistory, draws, |enc.window|);
      MoreSent(d.hashing, truth, sent, Sent(c, enc.window), txs);
      sent' := sent + [Sent(c, enc.window)];
      newTx := Accept(d, c, txs, truth, sent, sent', own);
    }
  }

  /** The codeword reaches the decoder. */
  method Accept(d: Decoder, c: Codeword, txs: seq<Transaction>, ghost truth: map<Key, Word>, ghost before: seq<Sent>,
                ghost sent: seq<Sent>, ghost own: seq<Entry>)
      returns (newTx: seq<Transaction>)
    requires d.all.Keys == d.mem.Keys && Told(d.hashing, d.history, own, txs) && HonestCodeword(truth, c)
    requires d.Ready([]) && Consistent(d, truth, before, txs) && Heard(sent) == Heard(before) + Elements(c.members)
    requires AllSampled(d.hashing, truth, sent) && AllWereSent(d.hashing, sent, txs)
    modifies d, d.mem.Keys, d.blk.Keys
    ensures d.Ready([]) && Consistent(d, truth, sent, newTx)
    ensures d.all.Keys == d.mem.Keys && d.given == old(d.given) && Told(d.hashing, d.history, own, newTx)
    ensures d.all.Values == old(d.all.Values) + {Elements(c.members)}
    ensures fresh(d.mem.Keys - old(d.mem.Keys)) && fresh(d.blk.Keys - old(d.blk.Keys))
  {
    hide Decoder.Ready, Decoder.Reports, AllSampled, AllWereSent, Heard, HonestCodeword, Told, Elements;
    var cw, more := d.AddCodeword(c);
    newTx := txs + more;
    ReportedWereSent(d, truth, sent, txs, more, old(d.pendingTransactions.Keys), Elements(c.members),
                     old(d.receivedTransactions), old(d.history));
    OneMoreFamily(old(d.all), cw, Elements(c.members));
    MoreTold(d.hashing, old(d.history), own, txs, [], more);
    assert own + [] == own;
  }

  lemma ConsistentParts(d: Decoder, truth: map<Key, Word>, sent: seq<Sent>, txs: seq<Transaction>)
    requires Consistent(d, truth, sent, txs)
    ensures AllSampled(d.hashing, truth, sent) && AllWereSent(d.hashing, sent, txs)
  {
  }

  lemma SameHistory(history: seq<nat>, draws: seq<nat>, n: nat)
    requires |draws| <= n && (forall i | 0 <= i < |draws| :: draws[i] < n - i) && FromDraws(history, draws, n)
    ensures history == HistoryOf(draws, n)
  {
  }

  lemma WindowIsIndexed(enc: Encoder)
    requires enc.Valid()
    ensures enc.hashes == Hashes(enc.window)
  {
  }

  lemma ReportedWereSent(d: Decoder, truth: map<Key, Word>, sent: seq<Sent>, txs: seq<Transaction>,
                         more: seq<Transaction>,
                         pending: set<Key>, members: set<Key>, received: map<Key, Transaction>,
                         stored: seq<Entry>)
    requires AllSampled(d.hashing, truth, sent) && AllWereSent(d.hashing, sent, txs) && d.truth == truth && d.honest
    requires d.Reports(more, pending + (members - received.Keys), received, stored) && pending + members <= Heard(sent)
    ensures Consistent(d, truth, sent, txs + more)
    ensures d.history == stored + [] + Entries(d.hashing, more)
  {
    assert stored + [] == stored;
    NewWereSent(d.hashing, truth, sent, txs, more, pending + (members - received.Keys), d.pendingTransactions.Keys);
  }

  /** Give a transaction to the decoder. */
  method Give(d: Decoder, t: Transaction, txs: seq<Transaction>, ghost truth: map<Key, Word>, ghost sent: seq<Sent>,
              ghost own: seq<Entry>)
      returns (newTx: seq<Transaction>, ghost own': seq<Entry>)
    requires d.all.Keys == d.mem.Keys && Told(d.hashing, d.history, own, txs)
    requires d.Ready([]) && Consistent(d, truth, sent, txs) && TrueTransaction(d.hashing, truth, t)
    modifies d, d.mem.Keys, d.blk.Keys
    ensures d.Ready([]) && Consistent(d, truth, sent, newTx)
    ensures d.all == old(d.all) && d.all.Keys == d.mem.Keys && d.given == old(d.given) + {d.hashing.salt(t.hash)}
    ensures Told(d.hashing, d.history, own', newTx)
    ensures own' == own || own' == own + [(d.hashing.salt(t.hash), t)]
    ensures fresh(d.mem.Keys - old(d.mem.Keys)) && fresh(d.blk.Keys - old(d.blk.Keys))
  {
    hide Decoder.Ready, AllSampled, AllWereSent, Heard, Revealed, Grown, Honest, Told;
    own' := own + d.Given(t);
    var more := d.AddTransaction(t);
    MoreTold(d.hashing, old(d.history), own, txs, old(d.Given(t)), more);
    NewWereSent(d.hashing, truth, sent, txs, more, old(d.pendingTransactions.Keys) - {d.hashing.salt(t.hash)},
                d.pendingTransactions.Keys);
    newTx := txs + more;
  }

  /** Encoder j stands where the events have brought it. */
  ghost predicate EncoderAt(enc: Encoder, h: Hashing, sizes: seq<nat>, truth: map<Key, Word>, j: nat,
                            events: seq<Event>)
    requires j < |sizes|
    reads enc
  {
    && enc.Valid() && enc.hashing == h && enc.windowSize == sizes[j] && TrueWindow(h, truth, enc.window)
    && enc.window == WindowAfter(h, sizes, j, events)
  }

  ghost predicate EncodersAt(encs: seq<Encoder>, h: Hashing, sizes: seq<nat>, truth: map<Key, Word>,
                             events: seq<Event>)
    reads encs
  {
    && |encs| == |sizes| && NoDuplicates(encs)
    && forall j | 0 <= j < |encs| :: EncoderAt(encs[j], h, sizes, truth, j, events)
  }

  /** The events name encoders that exist, and true transactions. */
  ghost predicate TrueEvents(h: Hashing, sizes: seq<nat>, truth: map<Key, Word>, events: seq<Event>) {
    forall e | e in events ::
      (e.Enters? ==> e.to < |sizes|) && (e.Sends? ==> e.from < |sizes|) &&
      (!e.Sends? ==> TrueTransaction(h, truth, e.t))
  }

  lemma NextWindow(h: Hashing, sizes: seq<nat>, j: nat, events: seq<Event>, i: nat)
    requires i < |events| && j < |sizes|
    ensures var w, e := WindowAfter(h, sizes, j, events[..i]), events[i];
      WindowAfter(h, sizes, j, events[..i + 1]) ==
      if e.Enters? && e.to == j && h.salt(e.t.hash) !in Hashes(w)
      then Latest(w + [SaltedTransaction(h.salt(e.t.hash), e.t)], sizes[j])
      else w
  {
    assert events[..i + 1][..i] == events[..i] && events[..i + 1][i] == events[i];
  }

  /** A transaction enters the window of encoder j. */
  method Enter(enc: Encoder, t: Transaction, ghost h: Hashing, ghost j: nat, ghost sizes: seq<nat>,
               ghost truth: map<Key, Word>, ghost events: seq<Event>, ghost i: nat)
    requires i < |events| && j < |sizes| && events[i] == Enters(j, t) && TrueTransaction(h, truth, t)
    requires EncoderAt(enc, h, sizes, truth, j, events[..i])
    modifies enc
    ensures EncoderAt(enc, h, sizes, truth, j, events[..i + 1])
  {
    hide Encoder.Valid, TrueWindow, TrueTransaction, WindowAfter, Latest;
    NextWindow(h, sizes, j, events, i);
    TrueLatest(h, truth, enc.window, t, enc.windowSize);
    var _ := enc.AddTransaction(t);
  }

  /** Encoder j sends a codeword to the decoder. */
  method SendFrom(enc: Encoder, d: Decoder, deg: nat, random: nat -> nat, txs: seq<Transaction>, ghost j: nat,
                  ghost sizes: seq<nat>, ghost truth: map<Key, Word>, ghost events: seq<Event>, ghost i: nat,
                  ghost sent: seq<Sent>, ghost own: seq<Entry>)
      returns (newTx: seq<Transaction>, ghost sent': seq<Sent>)
    requires i < |events| && Fed(d, sizes, events[..i], own, txs)
    requires j < |sizes| && events[i] == Sends(j, deg, random)
    requires d.Ready([]) && Consistent(d, truth, sent, txs) && FromEvents(d.hashing, sizes, events[..i], sent)
    requires EncoderAt(enc, d.hashing, sizes, truth, j, events[..i])
    modifies enc, d, d.mem.Keys, d.blk.Keys
    ensures d.Ready([]) && Consistent(d, truth, sent', newTx) && FromEvents(d.hashing, sizes, events[..i + 1], sent')
    ensures EncoderAt(enc, d.hashing, sizes, truth, j, events[..i + 1])
    ensures Fed(d, sizes, events[..i + 1], own, newTx)
    ensures fresh(d.mem.Keys - old(d.mem.Keys)) && fresh(d.blk.Keys - old(d.blk.Keys))
  {
    hide Encoder.Valid, Decoder.Ready, Consistent, FromEvents, TrueWindow, WindowAfter, Sampled;
    hide Families, Givens, Told, FromUser, Elements;
    FamiliesGrow(d.hashing, sizes, events, i);
    GivensGrow(d.hashing, events, i);
    MoreFromUser(d.hashing, own, [], events, i);
    assert own + [] == own;
    NextWindow(d.hashing, sizes, j, events, i);
    MoreEvents(d.hashing, sizes, events, i, sent);
    newTx, sent' := Send(enc, d, deg, random, txs, truth, sent, own);
    if sent' != sent {
      OneMoreSent(d.hashing, sizes, events, i, sent, sent'[|sent|]);
    }
  }

  /** The encoders that event i does not concern. */
  lemma OtherEncoder(enc: Encoder, h: Hashing, sizes: seq<nat>, truth: map<Key, Word>, j: nat, events: seq<Event>,
                     i: nat)
    requires i < |events| && j < |sizes| && (events[i].Enters? ==> events[i].to != j)
    requires EncoderAt(enc, h, sizes, truth, j, events[..i])
    ensures EncoderAt(enc, h, sizes, truth, j, events[..i + 1])
  {
    NextWindow(h, sizes, j, events, i);
  }

  /** Whatever enters the windows of any encoders, whatever is sampled from them, and whatever else the decoder is
      given: every transaction that it returns was in the window of an encoder when a codeword was sampled from it, and
      was one of its members. If its memory has room for all transactions, what it has received in the end is exactly
      what the sampled codewords and the given transactions determine, with the true data. */
  method Exchange(hashing: Hashing, sizes: seq<nat>, memory: nat, events: seq<Event>, ghost truth: map<Key, Word>)
      returns (d: Decoder, newTx: seq<Transaction>, ghost own: seq<Entry>)
    requires forall k | k in truth :: hashing.salt(hashing.full(truth[k])) == k
    requires TrueEvents(hashing, sizes, truth, events)
    ensures fresh(d) && d.Ready([]) && d.hashing == hashing && d.memory == memory
    ensures forall t | t in newTx :: WasSampled(hashing, sizes, events, t)
    ensures Fed(d, sizes, events, own, newTx)
    ensures |Givens(hashing, events) + Union(Families(hashing, sizes, events))| <= memory ==>
      LeastClosed(Families(hashing, sizes, events), Givens(hashing, events), d.receivedTransactions.Keys) &&
      AllTrue(hashing, truth, d.receivedTransactions)
  {
    hide Encoder.Valid, Decoder.Ready, EncodersAt, Consistent, FromEvents, Fed, LeastClosed, Givens, Families, Union;
    var encs := NewEncoders(hashing, sizes, truth);
    d := NewDecoder(hashing, memory, truth);
    newTx, own := [], [];
    ghost var sent: seq<Sent> := [];
    NothingSent(hashing, sizes, truth, events);
    assert events[..0] == [] && events[..|events|] == events;
    for i := 0 to |events|
      invariant d.Ready([]) && d.hashing == hashing && d.memory == memory && Consistent(d, truth, sent, newTx)
      invariant Fed(d, sizes, events[..i], own, newTx)
      invariant EncodersAt(encs, hashing, sizes, truth, events[..i])
      invariant FromEvents(hashing, sizes, events[..i], sent)
      invariant fresh(set e | e in encs) && fresh(d) && fresh(d.mem.Keys) && fresh(d.blk.Keys)
    {
      newTx, sent, own := Step(encs, d, hashing, sizes, events, i, newTx, truth, sent, own);
    }
    AllWereSampled(d, sizes, truth, events, sent, newTx);
    Settles(d, sizes, truth, events, sent, own, newTx);
  }

  lemma Settles(d: Decoder, sizes: seq<nat>, truth: map<Key, Word>, events: seq<Event>, sent: seq<Sent>,
                own: seq<Entry>, newTx: seq<Transaction>)
    requires d.Ready([]) && Consistent(d, truth, sent, newTx) && Fed(d, sizes, events, own, newTx)
    ensures |Givens(d.hashing, events) + Union(Families(d.hashing, sizes, events))| <= d.memory ==>
      LeastClosed(Families(d.hashing, sizes, events), Givens(d.hashing, events), d.receivedTransactions.Keys) &&
      AllTrue(d.hashing, truth, d.receivedTransactions)
  {
    hide Decoder.Ready, LeastClosed, AllTrue, Givens, Families, Told;
    if |Givens(d.hashing, events) + Union(Families(d.hashing, sizes, events))| <= d.memory {
      d.Outcome();
    }
  }

  method NewDecoder(hashing: Hashing, memory: nat, ghost truth: map<Key, Word>) returns (d: Decoder)
    requires forall k | k in truth :: hashing.salt(hashing.full(truth[k])) == k
    ensures d.Ready([]) && d.hashing == hashing && d.memory == memory && Consistent(d, truth, [], [])
    ensures forall sizes :: Fed(d, sizes, [], [], [])
    ensures fresh(d) && fresh(d.mem.Keys) && fresh(d.blk.Keys)
  {
    d := new Decoder(hashing, memory, truth);
  }

  method NewEncoders(hashing: Hashing, sizes: seq<nat>, ghost truth: map<Key, Word>) returns (encs: seq<Encoder>)
    ensures EncodersAt(encs, hashing, sizes, truth, []) && fresh(set e | e in encs)
  {
    encs := [];
    for j := 0 to |sizes|
      invariant |encs| == j && NoDuplicates(encs) && fresh(set e | e in encs)
      invariant forall i | 0 <= i < |encs| :: EncoderAt(encs[i], hashing, sizes, truth, i, [])
    {
      var enc := new Encoder(hashing, sizes[j]);
      encs := encs + [enc];
    }
  }

  /** An event in which the decoder takes no part. */
  lemma FedStill(d: Decoder, sizes: seq<nat>, events: seq<Event>, i: nat, own: seq<Entry>, txs: seq<Transaction>)
    requires i < |events| && Fed(d, sizes, events[..i], own, txs)
    ensures events[i].Enters? ==> Fed(d, sizes, events[..i + 1], own, txs)
  {
    hide Families, Givens, Told, FromUser;
    FamiliesGrow(d.hashing, sizes, events, i);
    GivensGrow(d.hashing, events, i);
    MoreFromUser(d.hashing, own, [], events, i);
    assert own + [] == own;
  }

  /** The decoder is given a transaction. */
  method GiveNext(d: Decoder, t: Transaction, ghost sizes: seq<nat>, ghost events: seq<Event>, ghost i: nat,
                  txs: seq<Transaction>, ghost truth: map<Key, Word>, ghost sent: seq<Sent>, ghost own: seq<Entry>)
      returns (newTx: seq<Transaction>, ghost own': seq<Entry>)
    requires i < |events| && events[i] == Given(t) && Fed(d, sizes, events[..i], own, txs)
    requires d.Ready([]) && Consistent(d, truth, sent, txs) && TrueTransaction(d.hashing, truth, t)
    modifies d, d.mem.Keys, d.blk.Keys
    ensures d.Ready([]) && Consistent(d, truth, sent, newTx) && Fed(d, sizes, events[..i + 1], own', newTx)
    ensures fresh(d.mem.Keys - old(d.mem.Keys)) && fresh(d.blk.Keys - old(d.blk.Keys))
  {
    hide Decoder.Ready, Consistent, Families, Givens, Told, FromUser, TrueTransaction;
    FamiliesGrow(d.hashing, sizes, events, i);
    GivensGrow(d.hashing, events, i);
    newTx, own' := Give(d, t, txs, truth, sent, own);
    assert own + [] == own;
    MoreFromUser(d.hashing, own, if own' == own then [] else [(d.hashing.salt(t.hash), t)], events, i);
  }

  /** The encoder that an event concerns is none of the others. */
  lemma Distinct(encs: seq<Encoder>, e: Event)
    requires NoDuplicates(encs)
    ensures forall j | e.Enters? && e.to < |encs| && 0 <= j < |encs| && j != e.to :: encs[j] != encs[e.to]
    ensures forall j | e.Sends? && e.from < |encs| && 0 <= j < |encs| && j != e.from :: encs[j] != encs[e.from]
  {
  }

  /** One event. */
  method Step(encs: seq<Encoder>, d: Decoder, h: Hashing, ghost sizes: seq<nat>, events: seq<Event>, i: nat,
              txs: seq<Transaction>, ghost truth: map<Key, Word>, ghost sent: seq<Sent>, ghost own: seq<Entry>)
      returns (newTx: seq<Transaction>, ghost sent': seq<Sent>, ghost own': seq<Entry>)
    requires i < |events| && Fed(d, sizes, events[..i], own, txs)
    requires d.Ready([]) && d.hashing == h && Consistent(d, truth, sent, txs)
    requires TrueEvents(h, sizes, truth, events)
    requires EncodersAt(encs, h, sizes, truth, events[..i]) && FromEvents(h, sizes, events[..i], sent)
    modifies encs, d, d.mem.Keys, d.blk.Keys
    ensures d.Ready([]) && Consistent(d, truth, sent', newTx) && Fed(d, sizes, events[..i + 1], own', newTx)
    ensures EncodersAt(encs, h, sizes, truth, events[..i + 1]) && FromEvents(h, sizes, events[..i + 1], sent')
    ensures fresh(d.mem.Keys - old(d.mem.Keys)) && fresh(d.blk.Keys - old(d.blk.Keys))
  {
    hide EncoderAt, Decoder.Ready, Consistent, FromEvents, TrueTransaction, NoDuplicates, Fed;
    Distinct(encs, events[i]);
    MoreEvents(h, sizes, events, i, sent);
    newTx, sent', own' := txs, sent, own;
    FedStill(d, sizes, events, i, own, txs);
    forall j | 0 <= j < |encs| && (events[i].Enters? ==> events[i].to != j)
      ensures EncoderAt(encs[j], h, sizes, truth, j, events[..i + 1])
    {
      OtherEncoder(encs[j], h, sizes, truth, j, events, i);
    }
    match events[i] {
      case Enters(to, t) =>
        Enter(encs[to], t, h, to, sizes, truth, events, i);
      case Sends(from, deg, random) =>
        newTx, sent' := SendFrom(encs[from], d, deg, random, txs, from, sizes, truth, events, i, sent, own);
      case Given(t) =>
        newTx, own' := GiveNext(d, t, sizes, events, i, txs, truth, sent, own);
    }
  }

  lemma AllWereSampled(d: Decoder, sizes: seq<nat>, truth: map<Key, Word>, events: seq<Event>, sent: seq<Sent>,
                       newTx: seq<Transaction>)
    requires FromEvents(d.hashing, sizes, events, sent) && Consistent(d, truth, sent, newTx)
    ensures forall t | t in newTx :: WasSampled(d.hashing, sizes, events, t)
  {
    forall t | t in newTx
      ensures WasSampled(d.hashing, sizes, events, t)
    {
      SentWasSampled(d.hashing, sizes, events, sent, t);
    }
  }
}
