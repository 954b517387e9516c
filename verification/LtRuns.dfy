/** Whole runs of the LT decoder: any sequence of codewords and transactions, in any order (lt/decoder.go). */
module LtRuns {
  import opened Words
  import opened Lists
  import opened LtGraph
  import opened LtStores
  import opened LtDecoders

  datatype Event = Arrives(raw: Codeword) | Given(t: Transaction)

  ghost function Families(events: seq<Event>): set<set<Key>> {
    set e | e in events && e.Arrives? :: Elements(e.raw.members)
  }

  ghost function Givens(h: Hashing, events: seq<Event>): set<Key> {
    set e | e in events && e.Given? :: h.salt(e.t.hash)
  }

  ghost predicate HonestEvent(h: Hashing, truth: map<Key, Word>, e: Event) {
    match e
    case Arrives(raw) => HonestCodeword(truth, raw)
    case Given(t) => h.salt(t.hash) in truth && t == NewTransaction(h, truth[h.salt(t.hash)])
  }

  ghost predicate AllHonest(h: Hashing, truth: map<Key, Word>, events: seq<Event>) {
    && (forall k | k in truth :: h.salt(h.full(truth[k])) == k)
    && forall e | e in events :: HonestEvent(h, truth, e)
  }

  /** The salted hashes of the transactions on the list are different. */
  ghost predicate Different(h: Hashing, txs: seq<Transaction>) {
    forall i, j | 0 <= i < j < |txs| :: h.salt(txs[i].hash) != h.salt(txs[j].hash)
  }

  ghost predicate AllIn(h: Hashing, txs: seq<Transaction>, keys: set<Key>) {
    forall t | t in txs :: h.salt(t.hash) in keys
  }

  /** The transactions have different salted hashes that were not received before, and unless something was evicted they
      and the ones before are received now. */
  ghost predicate News(h: Hashing, txs: seq<Transaction>, before: set<Key>, after: set<Key>, evicted: bool) {
    && Different(h, txs) && (forall t | t in txs :: h.salt(t.hash) !in before)
    && (!evicted ==> before <= after && AllIn(h, txs, after))
  }

  lemma RevealedIsNews(h: Hashing, txs: seq<Transaction>, pending: set<Key>, still: set<Key>,
                       before: map<Key, Transaction>, given: seq<Transaction>, after: map<Key, Transaction>,
                       evicted: bool)
    requires Revealed(h, txs, pending, still) && pending !! before.Keys && Grown(h, before, given + txs, after, evicted)
    ensures News(h, txs, before.Keys, after.Keys, evicted)
  {
    assert forall t | t in txs :: t in given + txs;
  }

  method StepCodeword(d: Decoder, raw: Codeword) returns (newTx: seq<Transaction>)
    requires d.Ready([]) && d.all.Keys == d.mem.Keys
    modifies d, d.mem.Keys, d.blk.Keys
    ensures d.Ready([]) && d.all.Keys == d.mem.Keys
    ensures fresh(d.mem.Keys - old(d.mem.Keys)) && fresh(d.blk.Keys - old(d.blk.Keys))
    ensures d.all.Values == old(d.all.Values) + Families([Arrives(raw)])
    ensures d.given == old(d.given) + Givens(d.hashing, [Arrives(raw)])
    ensures d.honest == (old(d.honest) && HonestEvent(d.hashing, d.truth, Arrives(raw)))
    ensures old(d.evicted) ==> d.evicted
    ensures News(d.hashing, newTx, old(d.receivedTransactions.Keys), d.receivedTransactions.Keys, d.evicted)
    ensures d.honest ==> Honest(d.hashing, d.truth, newTx)
    ensures d.history == old(d.history) + [] + Entries(d.hashing, newTx)
  {
    hide Decoder.Ready, Decoder.Reports, HonestCodeword, Honest, News, Elements, Families, Givens;
    d.NeverBoth();
    var cw;
    cw, newTx := d.AddCodeword(raw);
    FamilyOfOne(old(d.all), cw, raw, d.hashing);
    ReportsNews(d, newTx, old(d.pendingTransactions.Keys), Elements(raw.members), old(d.receivedTransactions),
                old(d.history));
  }

  lemma ReportsNews(d: Decoder, txs: seq<Transaction>, pending: set<Key>, M: set<Key>, before: map<Key, Transaction>,
                    stored: seq<Entry>)
    requires d.Reports(txs, pending + (M - before.Keys), before, stored) && pending !! before.Keys
    ensures News(d.hashing, txs, before.Keys, d.receivedTransactions.Keys, d.evicted)
    ensures d.honest ==> Honest(d.hashing, d.truth, txs)
    ensures d.history == stored + [] + Entries(d.hashing, txs)
  {
    assert [] + txs == txs;
    RevealedIsNews(d.hashing, txs, pending + (M - before.Keys), d.pendingTransactions.Keys, before, [],
                   d.receivedTransactions, d.evicted);
  }

  method StepTransaction(d: Decoder, t: Transaction) returns (newTx: seq<Transaction>)
    requires d.Ready([]) && d.all.Keys == d.mem.Keys
    modifies d, d.mem.Keys, d.blk.Keys
    ensures d.Ready([]) && d.all.Keys == d.mem.Keys
    ensures fresh(d.mem.Keys - old(d.mem.Keys)) && fresh(d.blk.Keys - old(d.blk.Keys))
    ensures d.all.Values == old(d.all.Values) + Families([Given(t)])
    ensures d.given == old(d.given) + Givens(d.hashing, [Given(t)])
    ensures d.honest == (old(d.honest) && HonestEvent(d.hashing, d.truth, Given(t))) && (old(d.evicted) ==> d.evicted)
    ensures News(d.hashing, newTx, old(d.receivedTransactions.Keys), d.receivedTransactions.Keys, d.evicted)
    ensures d.honest ==> Honest(d.hashing, d.truth, newTx)
    ensures d.history == old(d.history) + old(d.Given(t)) + Entries(d.hashing, newTx)
  {
    hide Decoder.Ready, Honest, Grown, Revealed, News;
    d.NeverBoth();
    newTx := d.AddTransaction(t);
    assert Families([Given(t)]) == {} && Given(t) in [Given(t)];
    assert Givens(d.hashing, [Given(t)]) == {d.hashing.salt(t.hash)};
    RevealedIsNews(d.hashing, newTx, old(d.pendingTransactions.Keys) - {d.hashing.salt(t.hash)},
                   d.pendingTransactions.Keys,
                   old(d.receivedTransactions), [t], d.receivedTransactions, d.evicted);
  }

  /** What the decoder stores on behalf of the user when the event happens. */
  ghost function OwnOf(d: Decoder, e: Event): seq<Entry>
    reads d
  {
    match e
    case Arrives(_) => []
    case Given(t) => d.Given(t)
  }

  method Step(d: Decoder, e: Event) returns (newTx: seq<Transaction>)
    requires d.Ready([]) && d.all.Keys == d.mem.Keys
    modifies d, d.mem.Keys, d.blk.Keys
    ensures d.Ready([]) && d.all.Keys == d.mem.Keys
    ensures fresh(d.mem.Keys - old(d.mem.Keys)) && fresh(d.blk.Keys - old(d.blk.Keys))
    ensures d.all.Values == old(d.all.Values) + Families([e]) && d.given == old(d.given) + Givens(d.hashing, [e])
    ensures d.honest == (old(d.honest) && HonestEvent(d.hashing, d.truth, e)) && (old(d.evicted) ==> d.evicted)
    ensures News(d.hashing, newTx, old(d.receivedTransactions.Keys), d.receivedTransactions.Keys, d.evicted)
    ensures d.honest ==> Honest(d.hashing, d.truth, newTx)
    ensures d.history == old(d.history) + old(OwnOf(d, e)) + Entries(d.hashing, newTx)
  {
    match e {
      case Arrives(raw) =>
        newTx := StepCodeword(d, raw);
      case Given(t) =>
        newTx := StepTransaction(d, t);
    }
  }

  lemma FamilyOfOne(all: map<PendingCodeword, set<Key>>, cw: PendingCodeword, raw: Codeword, h: Hashing)
    requires cw !in all
    ensures all[cw := Elements(raw.members)].Values == all.Values + Families([Arrives(raw)])
    ensures Givens(h, [Arrives(raw)]) == {}
  {
    var M := Elements(raw.members);
    assert Arrives(raw) in [Arrives(raw)];
    assert Families([Arrives(raw)]) == {M};
    assert all[cw := M][cw] == M;
    assert forall c | c in all :: all[cw := M][c] == all[c];
  }

  /** What a run has told the decoder. */
  ghost predicate Fed(d: Decoder, h: Hashing, truth: map<Key, Word>, events: seq<Event>)
    reads d
  {
    && d.hashing == h && d.truth == truth && d.all.Values == Families(events) && d.given == Givens(h, events)
    && (d.honest <==> AllHonest(h, truth, events))
  }

  lemma OneMoreEvent(h: Hashing, truth: map<Key, Word>, events: seq<Event>, i: nat)
    requires i < |events|
    ensures Families(events[..i + 1]) == Families(events[..i]) + Families([events[i]])
    ensures Givens(h, events[..i + 1]) == Givens(h, events[..i]) + Givens(h, [events[i]])
    ensures AllHonest(h, truth, events[..i + 1]) <==>
            AllHonest(h, truth, events[..i]) && HonestEvent(h, truth, events[i])
  {
    assert events[..i + 1] == events[..i] + [events[i]];
    assert forall e | e in events[..i + 1] :: e in events[..i] || e in [events[i]];
  }

  lemma MoreNews(h: Hashing, txs: seq<Transaction>, before: set<Key>, more: seq<Transaction>, after: set<Key>)
    requires Different(h, txs) && AllIn(h, txs, before) && News(h, more, before, after, false)
    ensures Different(h, txs + more) && AllIn(h, txs + more, after)
  {
    forall i, j | 0 <= i < j < |txs + more|
      ensures h.salt((txs + more)[i].hash) != h.salt((txs + more)[j].hash)
    {
      if i < |txs| <= j {
        assert txs[i] in txs && more[j - |txs|] in more;
      }
    }
  }

  lemma MoreHonest(h: Hashing, truth: map<Key, Word>, txs: seq<Transaction>, more: seq<Transaction>)
    requires Honest(h, truth, txs) && Honest(h, truth, more)
    ensures Honest(h, truth, txs + more)
  {
  }

  /** What a run has returned: unless something was evicted no transaction is returned twice and all are still received,
      and if all encoders were honest they are transactions that were encoded. */
  ghost predicate Returned(d: Decoder, newTx: seq<Transaction>)
    reads d
  {
    && (!d.evicted ==> Different(d.hashing, newTx) && AllIn(d.hashing, newTx, d.receivedTransactions.Keys))
    && (d.honest ==> Honest(d.hashing, d.truth, newTx))
  }

  lemma MoreReturned(d: Decoder, txs: seq<Transaction>, before: set<Key>, more: seq<Transaction>)
    requires !d.evicted ==> Different(d.hashing, txs) && AllIn(d.hashing, txs, before)
    requires d.honest ==> Honest(d.hashing, d.truth, txs) && Honest(d.hashing, d.truth, more)
    requires News(d.hashing, more, before, d.receivedTransactions.Keys, d.evicted)
    ensures Returned(d, txs + more)
  {
    if !d.evicted {
      MoreNews(d.hashing, txs, before, more, d.receivedTransactions.Keys);
    }
    if d.honest {
      MoreHonest(d.hashing, d.truth, txs, more);
    }
  }

  method Feed(d: Decoder, txs: seq<Transaction>, e: Event, ghost own: seq<Entry>) returns (newTx: seq<Transaction>)
    requires d.Ready([]) && d.all.Keys == d.mem.Keys && Returned(d, txs) && Told(d.hashing, d.history, own, txs)
    modifies d, d.mem.Keys, d.blk.Keys
    ensures d.Ready([]) && d.all.Keys == d.mem.Keys && Returned(d, newTx)
    ensures fresh(d.mem.Keys - old(d.mem.Keys)) && fresh(d.blk.Keys - old(d.blk.Keys))
    ensures d.all.Values == old(d.all.Values) + Families([e]) && d.given == old(d.given) + Givens(d.hashing, [e])
    ensures d.honest == (old(d.honest) && HonestEvent(d.hashing, d.truth, e))
    ensures Told(d.hashing, d.history, own + old(OwnOf(d, e)), newTx)
  {
    hide Decoder.Ready, Different, AllIn, Honest, News, HonestEvent, Told, OwnOf, Families, Givens;
    var more := Step(d, e);
    MoreTold(d.hashing, old(d.history), own, txs, old(OwnOf(d, e)), more);
    MoreReturned(d, txs, old(d.receivedTransactions.Keys), more);
    newTx := txs + more;
  }

  /** All entries are transactions that the user gave. */
  ghost predicate FromUser(h: Hashing, own: seq<Entry>, events: seq<Event>) {
    forall e | e in own :: Given(e.1) in events && h.salt(e.1.hash) == e.0
  }

  lemma MoreFromUser(d: Decoder, own: seq<Entry>, events: seq<Event>, i: nat)
    requires i < |events| && FromUser(d.hashing, own, events[..i])
    ensures FromUser(d.hashing, own + OwnOf(d, events[i]), events[..i + 1])
  {
    assert events[..i + 1] == events[..i] + [events[i]];
  }

  method FeedNext(d: Decoder, txs: seq<Transaction>, events: seq<Event>, i: nat, ghost own: seq<Entry>)
      returns (newTx: seq<Transaction>, ghost own': seq<Entry>)
    requires i < |events| && d.Ready([]) && d.all.Keys == d.mem.Keys && Returned(d, txs)
    requires Told(d.hashing, d.history, own, txs) && FromUser(d.hashing, own, events[..i])
    requires Fed(d, d.hashing, d.truth, events[..i])
    modifies d, d.mem.Keys, d.blk.Keys
    ensures d.Ready([]) && d.all.Keys == d.mem.Keys && Returned(d, newTx)
    ensures fresh(d.mem.Keys - old(d.mem.Keys)) && fresh(d.blk.Keys - old(d.blk.Keys))
    ensures Fed(d, d.hashing, d.truth, events[..i + 1])
    ensures Told(d.hashing, d.history, own', newTx) && FromUser(d.hashing, own', events[..i + 1])
  {
    hide Decoder.Ready, Returned, HonestEvent, AllHonest, Families, Givens, Told, FromUser, OwnOf;
    OneMoreEvent(d.hashing, d.truth, events, i);
    MoreFromUser(d, own, events, i);
    own' := own + OwnOf(d, events[i]);
    newTx := Feed(d, txs, events[i], own);
  }

  method Start(hashing: Hashing, memory: nat, ghost truth: map<Key, Word>) returns (d: Decoder)
    ensures fresh(d) && d.Ready([]) && d.all.Keys == d.mem.Keys && d.memory == memory
    ensures d.hashing == hashing && d.truth == truth && d.mem == map[] && d.blk == map[]
    ensures d.pendingTransactions == map[] && d.receivedTransactions == map[] && d.history == []
    ensures Fed(d, hashing, truth, []) && Returned(d, []) && Told(hashing, d.history, [], [])
  {
    d := new Decoder(hashing, memory, truth);
  }

  /** A decoder can forget a transaction in the very call that gives it: with room for two, after a and a transaction
      with the same salted hash, giving a again drops it. */
  method ForgetsGiven(hashing: Hashing, a: Transaction, b: Transaction) returns (there: bool)
    requires hashing.salt(a.hash) == hashing.salt(b.hash) && a.hash != b.hash && a.data != b.data
    ensures !there
  {
    hide Decoder.Ready, Grown, Kept, PushesOut, Fed, Returned;
    var d := Start(hashing, 2, map[]);
    ghost var k := hashing.salt(a.hash);
    GiveFresh(d, a, []);
    KeptExactly([(k, a)], 2, k, 0);
    GiveFresh(d, b, [(k, a)]);
    PushedOut(k, a, b);
    GiveFresh(d, a, [(k, a), (k, b)]);
    there := d.HasDecoded(a);
  }

  /** Give the decoder a transaction that it does not know and that no codeword needs. */
  method GiveFresh(d: Decoder, t: Transaction, ghost stored: seq<Entry>)
    requires d.Ready([]) && d.pendingTransactions == map[] && d.history == stored && d.Given(t) != []
    modifies d, d.mem.Keys, d.blk.Keys
    ensures d.Ready([]) && d.pendingTransactions == map[]
    ensures d.mem.Keys == old(d.mem.Keys) && d.blk.Keys <= old(d.blk.Keys)
    ensures d.history == stored + [(d.hashing.salt(t.hash), t)] && d.Current() == Kept(d.history, d.memory)
  {
    var _ := d.AddTransaction(t);
  }

  /** Any codewords and transactions in any order leave the decoder ready for more; what was returned is exactly what
      was stored, except for what was stored on behalf of the user. */
  method Run(hashing: Hashing, memory: nat, ghost truth: map<Key, Word>, events: seq<Event>)
      returns (d: Decoder, newTx: seq<Transaction>, ghost own: seq<Entry>)
    ensures Told(hashing, d.history, own, newTx) && FromUser(hashing, own, events)
    ensures fresh(d) && d.Ready([]) && d.memory == memory && Fed(d, hashing, truth, events) && Returned(d, newTx)
  {
    hide Decoder.Ready, Returned, Fed, Told;
    d := Start(hashing, memory, truth);
    newTx, own := [], [];
    assert events[..0] == [] && events[..|events|] == events;
    for i := 0 to |events|
      invariant d.Ready([]) && d.all.Keys == d.mem.Keys && d.memory == memory
      invariant d.hashing == hashing && d.truth == truth
      invariant fresh(d) && fresh(d.mem.Keys) && fresh(d.blk.Keys)
      invariant Fed(d, hashing, truth, events[..i]) && Returned(d, newTx)
      invariant Told(hashing, d.history, own, newTx) && FromUser(hashing, own, events[..i])
    {
      newTx, own := FeedNext(d, newTx, events, i, own);
    }
  }

  /** Whatever the decoder knows after a run, it has returned or was given. */
  lemma KnownWasTold(d: Decoder, own: seq<Entry>, newTx: seq<Transaction>, events: seq<Event>, k: Key)
    requires d.Ready([]) && k in d.receivedTransactions
    requires Told(d.hashing, d.history, own, newTx) && FromUser(d.hashing, own, events)
    ensures var t := d.receivedTransactions[k];
      d.hashing.salt(t.hash) == k && (t in newTx || Given(t) in events)
  {
    hide Told, Kept;
    ReceivedWasTold(d.hashing, d.history, own, newTx, d.memory, k);
  }

  /** Honest codewords and transactions, if the memory has room for all of them: what is received is the least set that
      has the given transactions and leaves no codeword with one unknown member. */
  lemma RunSettles(d: Decoder, h: Hashing, truth: map<Key, Word>, events: seq<Event>)
    requires d.Ready([]) && Fed(d, h, truth, events) && AllHonest(h, truth, events)
    requires |Givens(h, events) + Union(Families(events))| <= d.memory
    ensures LeastClosed(Families(events), Givens(h, events), d.receivedTransactions.Keys)
    ensures AllTrue(h, truth, d.receivedTransactions)
  {
    hide Decoder.Ready, LeastClosed, AllHonest, Families, Givens;
    d.Outcome();
  }

  /** The order in which honest codewords and transactions arrive does not matter. */
  lemma OrderDoesNotMatter(d: Decoder, e: Decoder, h: Hashing, truth: map<Key, Word>, events: seq<Event>,
                           shuffled: seq<Event>)
    requires d.Ready([]) && Fed(d, h, truth, events) && e.Ready([]) && Fed(e, h, truth, shuffled)
    requires multiset(events) == multiset(shuffled) && AllHonest(h, truth, events)
    requires |Givens(h, events) + Union(Families(events))| <= d.memory
    requires |Givens(h, events) + Union(Families(events))| <= e.memory
    ensures d.receivedTransactions == e.receivedTransactions
  {
    SameEvents(h, truth, events, shuffled);
    hide Decoder.Ready, LeastClosed, AllHonest, Families, Givens, Fed, AllTrue;
    RunSettles(d, h, truth, events);
    RunSettles(e, h, truth, shuffled);
    LeastClosedIsUnique(Families(events), Givens(h, events), d.receivedTransactions.Keys, e.receivedTransactions.Keys);
    SameTruth(h, truth, d.receivedTransactions, e.receivedTransactions);
  }

  lemma SameTruth(h: Hashing, truth: map<Key, Word>, a: map<Key, Transaction>, b: map<Key, Transaction>)
    requires AllTrue(h, truth, a) && AllTrue(h, truth, b) && a.Keys == b.Keys
    ensures a == b
  {
  }

  lemma SameEvents(h: Hashing, truth: map<Key, Word>, events: seq<Event>, shuffled: seq<Event>)
    requires multiset(events) == multiset(shuffled)
    ensures Families(events) == Families(shuffled) && Givens(h, events) == Givens(h, shuffled)
    ensures AllHonest(h, truth, events) <==> AllHonest(h, truth, shuffled)
  {
    assert forall x :: x in events <==> x in multiset(events);
    assert forall x :: x in shuffled <==> x in multiset(shuffled);
  }
}
