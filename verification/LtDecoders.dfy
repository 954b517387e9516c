/** The LT decoder: codewords and pending transactions linked through pointers, peeled through a stack, with bounded
    memory of received transactions (lt/decoder.go). */
module LtDecoders {
  import opened Words
  import opened Lists
  import opened LtGraph
  import opened LtStores

  datatype Codeword = Codeword(symbol: Word, members: seq<Key>)

  class PendingTransaction {
    const saltedHash: Key
    var blocking: seq<PendingCodeword>

    constructor (saltedHash: Key)
      ensures this.saltedHash == saltedHash && blocking == []
    {
      this.saltedHash := saltedHash;
      blocking := [];
    }
  }

  class PendingCodeword {
    var symbol: Word
    var members: seq<PendingTransaction>
    var queued: bool
    var decoded: bool

    constructor (symbol: Word)
      ensures this.symbol == symbol && members == [] && !queued && !decoded
    {
      this.symbol := symbol;
      members, queued, decoded := [], false, false;
    }

    /** Remove the codeword from the one transaction it still needs; freed tells whether that transaction blocks nothing
        else. */
    method FailToDecode() returns (saltedHash: Key, freed: bool)
      requires |members| == 1 && this in members[0].blocking
      modifies this`members, members[0]
      ensures members == []
      ensures multiset(old(members[0]).blocking) + multiset{this} == multiset(old(members[0].blocking))
      ensures freed <==> old(members[0]).blocking == []
      ensures freed ==> saltedHash == old(members[0]).saltedHash
    {
      var ptr := members[0];
      for cwIdx := 0 to |ptr.blocking|
        invariant this !in ptr.blocking[..cwIdx]
        invariant members == old(members) && ptr.blocking == old(ptr.blocking)
      {
        if ptr.blocking[cwIdx] == this {
          members := [];
          RemovedBySwap(ptr.blocking, cwIdx);
          ptr.blocking := SwapRemove(ptr.blocking, cwIdx);
          if |ptr.blocking| == 0 {
            return ptr.saltedHash, true;
          } else {
            return 0, false;
          }
        }
      }
      assert false;
    }

    /** Take one occurrence of stub out of the members and its data out of the symbol. */
    method PeelTransaction(stub: PendingTransaction, data: Word)
      requires stub in members
      modifies this`members, this`symbol
      ensures multiset(members) + multiset{stub} == multiset(old(members)) && |members| == |old(members)| - 1
      ensures symbol == Xor(old(symbol), data)
    {
      for idx := 0 to |members|
        invariant stub !in members[..idx]
        invariant members == old(members) && symbol == old(symbol)
      {
        if members[idx] == stub {
          RemovedBySwap(members, idx);
          members := SwapRemove(members, idx);
          symbol := Xor(symbol, data);
          return;
        }
      }
      assert false;
    }
  }

  /** The salted hashes of the transactions on a list. */
  ghost function KeysOf(m: seq<PendingTransaction>): set<Key> {
    set s | s in m :: s.saltedHash
  }

  /** The map finds exactly the given transactions, each under its salted hash. */
  ghost predicate Indexed(pending: map<Key, PendingTransaction>, stubs: set<PendingTransaction>) {
    && (forall s | s in stubs :: s.saltedHash in pending && pending[s.saltedHash] == s)
    && (forall k | k in pending :: pending[k] in stubs && pending[k].saltedHash == k)
  }

  /** A codeword on the stack or in hand is queued and needs at most one member; any other one is decoded and empty, or
      still needs at least two. */
  ghost predicate InPlace(queued: bool, decoded: bool, members: nat, stacked: bool) {
    if stacked then queued && !decoded && members <= 1
    else if members == 0 then decoded
    else members >= 2 && !queued && !decoded
  }

  /** The members are different, and the symbol is the XOR of their true data. */
  ghost predicate Sums(truth: map<Key, Word>, symbol: Word, m: seq<PendingTransaction>) {
    NoDuplicates(m) && symbol == XorOver(truth, KeysOf(m))
  }

  /** What of every codeword is still unknown, and what the codewords and given transactions force to be known. */
  ghost predicate Tally(mem: map<PendingCodeword, seq<PendingTransaction>>, all: map<PendingCodeword, set<Key>>,
                        given: set<Key>, known: set<Key>) {
    && all.Keys == mem.Keys && given <= known && Forced(all.Values, given, known)
    && forall c | c in mem :: KeysOf(mem[c]) == all[c] - known
  }

  /** m' has no member that m has not, and in the sound case the same keys as m except perhaps for k. */
  ghost predicate Lighter(m': seq<PendingTransaction>, m: seq<PendingTransaction>, k: Key, sound: bool) {
    Elements(m') <= Elements(m) && (sound ==> KeysOf(m') - {k} == KeysOf(m) - {k})
  }

  lemma LighterStill(m'': seq<PendingTransaction>, m': seq<PendingTransaction>, m: seq<PendingTransaction>, k: Key,
                     sound: bool)
    requires Lighter(m'', m', k, sound) && Lighter(m', m, k, sound)
    ensures Lighter(m'', m, k, sound)
  {
  }

  lemma StillNeeds(m: seq<PendingTransaction>, tx: PendingTransaction)
    requires m != [] && Elements(m) <= Elements([tx])
    ensures tx.saltedHash in KeysOf(m)
  {
    assert m[0] in Elements(m);
  }

  /** What the loop over the stack counts down: pending transactions first, then codewords on the stack. */
  ghost predicate Fewer(pending: map<Key, PendingTransaction>, stack: nat, before: map<Key, PendingTransaction>,
                        stackBefore: nat) {
    |pending| < |before| || (|pending| == |before| && stack <= stackBefore)
  }

  lemma FewerByOne(pending: map<Key, PendingTransaction>, stack: nat, before: map<Key, PendingTransaction>,
                   stackBefore: nat, k: Key)
    requires pending == before - {k} && k in before
    ensures Fewer(pending, stack, before, stackBefore)
  {
    assert pending.Keys == before.Keys - {k};
  }

  lemma PeeledLighter(truth: map<Key, Word>, symbol: Word, m: seq<PendingTransaction>, m': seq<PendingTransaction>,
                      tx: PendingTransaction, sound: bool)
    requires multiset(m') + multiset{tx} == multiset(m)
    requires forall s | s in m && s != tx :: s.saltedHash != tx.saltedHash
    requires sound ==> Sums(truth, symbol, m)
    ensures Lighter(m', m, tx.saltedHash, sound)
    ensures sound ==> Sums(truth, Xor(symbol, Truth(truth, tx.saltedHash)), m')
  {
    forall s | s in m'
      ensures s in m
    {
      assert s in multiset(m') && s in multiset(m);
    }
    if sound {
      PartsAreDistinct(m', [tx], m);
      assert tx in Elements([tx]) && tx in Elements(m);
      assert forall s | s in m :: s in Elements(m') || s in Elements([tx]);
      assert KeysOf(m') == KeysOf(m) - {tx.saltedHash};
      XorPeels(truth, KeysOf(m), tx.saltedHash);
    }
  }

  /** Something is evicted only when there are more transactions than fit the memory; until then, the received ones are
      those that the codewords and the given transactions force. */
  ghost predicate Account(mem: map<PendingCodeword, seq<PendingTransaction>>, all: map<PendingCodeword, set<Key>>,
                          given: set<Key>, store: Store, memory: nat) {
    && all.Keys == mem.Keys
    && if store.evicted then memory < |given + Union(all.Values)|
       else Tally(mem, all, given, store.received.Keys) && |store.recent| == |store.received|
  }

  ghost predicate Known(truth: map<Key, Word>, stubs: set<PendingTransaction>) {
    forall s | s in stubs :: s.saltedHash in truth
  }

  /** Every received transaction is the one that honest encoders encode under its salted hash. */
  ghost predicate AllTrue(h: Hashing, truth: map<Key, Word>, received: map<Key, Transaction>) {
    forall k | k in received :: k in truth && received[k] == NewTransaction(h, truth[k])
  }

  lemma StoredIsTrue(h: Hashing, truth: map<Key, Word>, before: Store, k: Key, t: Transaction, after: Store,
                     memory: nat)
    requires AllTrue(h, truth, before.received) && Stored(before, k, t, after, memory)
    requires k in truth && t == NewTransaction(h, truth[k])
    ensures AllTrue(h, truth, after.received)
  {
    hide Stored;
    StoredMeans(before, k, t, after, memory);
  }

  lemma StillDisjoint(before: Store, k: Key, t: Transaction, after: Store, memory: nat,
                      pending: map<Key, PendingTransaction>)
    requires Stored(before, k, t, after, memory) && pending.Keys !! before.received.Keys
    ensures (pending - {k}).Keys !! after.received.Keys
  {
    hide Stored;
    StoredMeans(before, k, t, after, memory);
  }

  /** The revealed transactions have different salted hashes, which were pending before and are not any more. */
  ghost predicate Revealed(h: Hashing, txs: seq<Transaction>, before: set<Key>, after: set<Key>) {
    && after <= before
    && (forall i | 0 <= i < |txs| :: h.salt(txs[i].hash) in before - after)
    && (forall i, j | 0 <= i < j < |txs| :: h.salt(txs[i].hash) != h.salt(txs[j].hash))
  }

  /** After stands for before and the transactions on the list, except that something may be evicted. */
  ghost predicate Grown(h: Hashing, before: map<Key, Transaction>, txs: seq<Transaction>, after: map<Key, Transaction>,
                        evicted: bool) {
    && (forall k | k in after ::
          (k in before && after[k] == before[k]) || (after[k] in txs && h.salt(after[k].hash) == k))
    && (!evicted ==> before.Keys <= after.Keys && forall t | t in txs :: h.salt(t.hash) in after)
  }

  /** Whatever was pending before and is not any more is on the list. */
  ghost predicate AllReturned(h: Hashing, txs: seq<Transaction>, before: set<Key>, after: set<Key>) {
    forall k | k in before && k !in after :: exists t :: t in txs && h.salt(t.hash) == k
  }

  lemma OneMoreReturned(h: Hashing, txs: seq<Transaction>, before: set<Key>, mid: set<Key>, t: Transaction)
    requires AllReturned(h, txs, before, mid)
    ensures AllReturned(h, txs + [t], before, mid - {h.salt(t.hash)})
  {
    forall k | k in before && k !in mid - {h.salt(t.hash)}
      ensures exists u :: u in txs + [t] && h.salt(u.hash) == k
    {
      if k !in mid {
        var u :| u in txs && h.salt(u.hash) == k;
        assert u in txs + [t];
      } else {
        assert t in txs + [t];
      }
    }
  }

  ghost predicate Honest(h: Hashing, truth: map<Key, Word>, txs: seq<Transaction>) {
    forall t | t in txs :: h.salt(t.hash) in truth && t == NewTransaction(h, truth[h.salt(t.hash)])
  }

  lemma GrownByOne(h: Hashing, before: map<Key, Transaction>, txs: seq<Transaction>, mid: Store, t: Transaction,
                   after: Store, memory: nat)
    requires Grown(h, before, txs, mid.received, mid.evicted) && Stored(mid, h.salt(t.hash), t, after, memory)
    ensures Grown(h, before, txs + [t], after.received, after.evicted) && (mid.evicted ==> after.evicted)
  {
    hide Stored;
    StoredMeans(mid, h.salt(t.hash), t, after, memory);
  }

  lemma GrownByGiven(h: Hashing, before: Store, t: Transaction, after: Store, memory: nat)
    requires Stored(before, h.salt(t.hash), t, after, memory)
    ensures Grown(h, before.received, [t], after.received, after.evicted) && (before.evicted ==> after.evicted)
  {
    GrownByOne(h, before.received, [], before, t, after, memory);
  }

  lemma NothingRevealed(h: Hashing, truth: map<Key, Word>, t: Transaction, received: map<Key, Transaction>,
                        pending: set<Key>, evicted: bool)
    ensures [t] + [] == [t] && Honest(h, truth, [])
    ensures h.salt(t.hash) in received ==> Grown(h, received, [t], received, evicted)
    ensures h.salt(t.hash) !in pending ==> Revealed(h, [], pending - {h.salt(t.hash)}, pending)
  {
  }

  lemma GrownByMore(h: Hashing, before: map<Key, Transaction>, txs: seq<Transaction>, mid: map<Key, Transaction>,
                    evicted: bool, more: seq<Transaction>, after: map<Key, Transaction>, evicted': bool)
    requires Grown(h, before, txs, mid, evicted) && Grown(h, mid, more, after, evicted') && (evicted ==> evicted')
    ensures Grown(h, before, txs + more, after, evicted')
  {
  }

  lemma HonestByOne(h: Hashing, truth: map<Key, Word>, txs: seq<Transaction>, t: Transaction, honest: bool)
    requires honest ==> Honest(h, truth, txs)
    requires honest ==> h.salt(t.hash) in truth && t == NewTransaction(h, truth[h.salt(t.hash)])
    ensures honest ==> Honest(h, truth, txs + [t])
  {
  }

  lemma RevealedLess(h: Hashing, txs: seq<Transaction>, before: set<Key>, mid: set<Key>, after: set<Key>)
    requires Revealed(h, txs, before, mid) && after <= mid
    ensures Revealed(h, txs, before, after)
  {
  }

  lemma RevealedByOne(h: Hashing, txs: seq<Transaction>, before: set<Key>, mid: set<Key>, t: Transaction)
    requires Revealed(h, txs, before, mid) && h.salt(t.hash) in mid
    ensures Revealed(h, txs + [t], before, mid - {h.salt(t.hash)})
  {
  }

  /** The symbol of a codeword is the XOR of its members' true data. */
  ghost predicate HonestCodeword(truth: map<Key, Word>, raw: Codeword) {
    && NoDuplicates(raw.members) && Elements(raw.members) <= truth.Keys
    && raw.symbol == XorOver(truth, Elements(raw.members))
  }

  /** A codeword that is being linked: of the members that are done it needs those not known, and the symbol is the XOR
      of the true data of those and of the members still to do. */
  ghost predicate HalfLinked(truth: map<Key, Word>, symbol: Word, m: seq<PendingTransaction>, known: set<Key>,
                             done: set<Key>, todo: seq<Key>) {
    && NoDuplicates(todo) && done !! Elements(todo) && done + Elements(todo) <= truth.Keys
    && NoDuplicates(m) && KeysOf(m) == done - known && symbol == XorOver(truth, KeysOf(m) + Elements(todo))
  }

  lemma NothingLinked(truth: map<Key, Word>, raw: Codeword, known: set<Key>)
    requires HonestCodeword(truth, raw)
    ensures HalfLinked(truth, raw.symbol, [], known, {}, raw.members)
  {
    assert KeysOf([]) + Elements(raw.members) == Elements(raw.members);
  }

  lemma AllLinked(truth: map<Key, Word>, symbol: Word, m: seq<PendingTransaction>, known: set<Key>, done: set<Key>)
    requires HalfLinked(truth, symbol, m, known, done, [])
    ensures Sums(truth, symbol, m) && KeysOf(m) == done - known
  {
    assert KeysOf(m) + Elements<Key>([]) == KeysOf(m);
  }

  lemma LinkOneMore(truth: map<Key, Word>, symbol: Word, m: seq<PendingTransaction>, known: set<Key>, done: set<Key>,
                    todo: seq<Key>, stub: PendingTransaction)
    requires HalfLinked(truth, symbol, m, known, done, todo) && todo != []
    requires stub.saltedHash == todo[0] && todo[0] !in known
    ensures HalfLinked(truth, symbol, m + [stub], known, done + {todo[0]}, todo[1..])
  {
    FirstAndRest(todo);
    assert forall s | s in m :: s.saltedHash in KeysOf(m);
    assert KeysOf(m + [stub]) == KeysOf(m) + {todo[0]};
    assert KeysOf(m + [stub]) + Elements(todo[1..]) == KeysOf(m) + Elements(todo);
  }

  lemma MemberIsKnown(truth: map<Key, Word>, symbol: Word, m: seq<PendingTransaction>, known: set<Key>, done: set<Key>,
                      todo: seq<Key>)
    requires HalfLinked(truth, symbol, m, known, done, todo) && todo != []
    ensures todo[0] in truth
  {
    assert todo[0] in Elements(todo);
  }

  lemma PeelOneMore(truth: map<Key, Word>, symbol: Word, m: seq<PendingTransaction>, known: set<Key>, done: set<Key>,
                    todo: seq<Key>)
    requires HalfLinked(truth, symbol, m, known, done, todo) && todo != [] && todo[0] in known
    ensures HalfLinked(truth, Xor(symbol, Truth(truth, todo[0])), m, known, done + {todo[0]}, todo[1..])
  {
    FirstAndRest(todo);
    XorPeels(truth, KeysOf(m) + Elements(todo), todo[0]);
    assert KeysOf(m) + Elements(todo[1..]) == KeysOf(m) + Elements(todo) - {todo[0]};
  }

  lemma FirstAndRest<T>(s: seq<T>)
    requires s != [] && NoDuplicates(s)
    ensures NoDuplicates(s[1..]) && s[0] !in Elements(s[1..]) && Elements(s) == {s[0]} + Elements(s[1..])
  {
    assert s == [s[0]] + s[1..];
  }

  /** The codeword c with the one unknown member k has revealed it, and k was peeled everywhere. */
  lemma TallyReveals(mem: map<PendingCodeword, seq<PendingTransaction>>,
                     mem': map<PendingCodeword, seq<PendingTransaction>>,
                     all: map<PendingCodeword, set<Key>>, given: set<Key>, known: set<Key>, c: PendingCodeword, k: Key)
    requires Tally(mem, all, given, known) && c in mem && KeysOf(mem[c]) == {k}
    requires mem'.Keys == mem.Keys
    requires forall d | d in mem :: k !in KeysOf(mem'[d]) && KeysOf(mem'[d]) - {k} == KeysOf(mem[d]) - {k}
    ensures Tally(mem', all, given, known + {k})
  {
    assert c in all && all[c] in all.Values;
    RevealForces(all.Values, given, known, all[c], k);
    forall d | d in mem'
      ensures KeysOf(mem'[d]) == all[d] - (known + {k})
    {
      assert KeysOf(mem[d]) == all[d] - known;
      assert KeysOf(mem'[d]) == KeysOf(mem'[d]) - {k};
    }
  }

  /** The transaction k was given and peeled everywhere. */
  lemma TallyGiven(mem: map<PendingCodeword, seq<PendingTransaction>>,
                   mem': map<PendingCodeword, seq<PendingTransaction>>,
                   all: map<PendingCodeword, set<Key>>, given: set<Key>, known: set<Key>, k: Key)
    requires Tally(mem, all, given, known) && mem'.Keys == mem.Keys
    requires forall d | d in mem :: k !in KeysOf(mem'[d]) && KeysOf(mem'[d]) - {k} == KeysOf(mem[d]) - {k}
    ensures Tally(mem', all, given + {k}, known + {k})
  {
    GivenForces(all.Values, given, known, k);
    forall d | d in mem'
      ensures KeysOf(mem'[d]) == all[d] - (known + {k})
    {
      assert KeysOf(mem[d]) == all[d] - known;
      assert KeysOf(mem'[d]) == KeysOf(mem'[d]) - {k};
    }
  }

  /** A codeword arrived and was linked to those of its members that are not known. */
  lemma TallyArrives(mem: map<PendingCodeword, seq<PendingTransaction>>, all: map<PendingCodeword, set<Key>>,
                     given: set<Key>, known: set<Key>, cw: PendingCodeword, M: set<Key>)
    requires cw in mem && Tally(mem - {cw}, all, given, known) && KeysOf(mem[cw]) == M - known
    ensures Tally(mem, all[cw := M], given, known)
  {
    MoreFamilyForces(all.Values, given, known, M);
    assert all[cw := M].Values == all.Values + {M} by {
      assert all[cw := M][cw] == M;
      assert forall c | c in all :: all[cw := M][c] == all[c];
    }
    assert forall c | c in mem && c != cw :: (mem - {cw})[c] == mem[c];
  }

  /** The codeword c has revealed k, which was then stored. */
  lemma AccountReveals(mem: map<PendingCodeword, seq<PendingTransaction>>,
                       mem': map<PendingCodeword, seq<PendingTransaction>>,
                       all: map<PendingCodeword, set<Key>>, given: set<Key>, before: Store, after: Store, memory: nat,
                       c: PendingCodeword, k: Key, t: Transaction)
    requires Account(mem, all, given, before, memory) && c in mem && KeysOf(mem[c]) == {k} && mem'.Keys == mem.Keys
    requires forall d | d in mem :: k !in KeysOf(mem'[d]) && KeysOf(mem'[d]) - {k} == KeysOf(mem[d]) - {k}
    requires Stored(before, k, t, after, memory) && k !in before.received
    ensures Account(mem', all, given, after, memory)
  {
    if !before.evicted {
      TallyReveals(mem, mem', all, given, before.received.Keys, c, k);
      FitsOrNot(all.Values, given, before, k, t, after, memory);
    }
  }

  lemma AccountGiven(mem: map<PendingCodeword, seq<PendingTransaction>>,
                     mem': map<PendingCodeword, seq<PendingTransaction>>,
                     all: map<PendingCodeword, set<Key>>, given: set<Key>, before: Store, after: Store, memory: nat,
                     k: Key, t: Transaction)
    requires Account(mem, all, given, before, memory) && mem'.Keys == mem.Keys
    requires forall d | d in mem :: k !in KeysOf(mem'[d]) && KeysOf(mem'[d]) - {k} == KeysOf(mem[d]) - {k}
    requires Stored(before, k, t, after, memory) && k !in before.received
    ensures Account(mem', all, given + {k}, after, memory)
  {
    if !before.evicted {
      TallyGiven(mem, mem', all, given, before.received.Keys, k);
      FitsOrNot(all.Values, given + {k}, before, k, t, after, memory);
    } else {
      SmallerSet(given + Union(all.Values), given + {k} + Union(all.Values));
    }
  }

  /** The transactions that are forced are at most those that were given or are members of codewords. */
  lemma FitsOrNot(family: set<set<Key>>, given: set<Key>, before: Store, k: Key, t: Transaction, after: Store,
                  memory: nat)
    requires Stored(before, k, t, after, memory) && k !in before.received && !before.evicted
    requires |before.recent| == |before.received| && Forced(family, given, before.received.Keys + {k})
    ensures after.evicted ==> memory < |given + Union(family)|
    ensures !after.evicted ==> |after.recent| == |after.received| && after.received.Keys == before.received.Keys + {k}
  {
    hide Stored;
    StoredMeans(before, k, t, after, memory);
    ForcedIsSound(family, given, before.received.Keys + {k});
    SmallerSet(before.received.Keys + {k}, given + Union(family));
    assert |before.received| == |before.received.Keys|;
  }

  lemma UnionGrows(all: map<PendingCodeword, set<Key>>, cw: PendingCodeword, M: set<Key>)
    requires cw !in all
    ensures Union(all.Values) <= Union(all[cw := M].Values)
  {
    assert forall c | c in all :: all[cw := M][c] == all[c];
  }

  lemma AccountArrives(mem: map<PendingCodeword, seq<PendingTransaction>>, all: map<PendingCodeword, set<Key>>,
                       given: set<Key>, store: Store, memory: nat, cw: PendingCodeword, M: set<Key>)
    requires cw in mem && Account(mem - {cw}, all, given, store, memory) && KeysOf(mem[cw]) == M - store.received.Keys
    ensures Account(mem, all[cw := M], given, store, memory)
  {
    if !store.evicted {
      TallyArrives(mem, all, given, store.received.Keys, cw, M);
    } else {
      hide Union, KeysOf;
      UnionGrows(all, cw, M);
      SmallerSet(given + Union(all.Values), given + Union(all[cw := M].Values));
    }
  }

  /** A transaction that was received before was given again. */
  lemma AccountKnown(mem: map<PendingCodeword, seq<PendingTransaction>>, all: map<PendingCodeword, set<Key>>,
                     given: set<Key>, store: Store, memory: nat, k: Key)
    requires Account(mem, all, given, store, memory) && k in store.received
    ensures Account(mem, all, given + {k}, store, memory)
  {
    if !store.evicted {
      GivenForces(all.Values, given, store.received.Keys, k);
      assert store.received.Keys + {k} == store.received.Keys;
    } else {
      SmallerSet(given + Union(all.Values), given + {k} + Union(all.Values));
    }
  }

  lemma IndexRemove(pending: map<Key, PendingTransaction>, stubs: set<PendingTransaction>, tx: PendingTransaction)
    requires Indexed(pending, stubs) && tx in stubs
    ensures Indexed(pending - {tx.saltedHash}, stubs - {tx})
  {
  }

  class Decoder {
    var receivedTransactions: map<Key, Transaction>
    var recentTransactions: seq<Entry>
    var pendingTransactions: map<Key, PendingTransaction>
    const hashing: Hashing
    const memory: nat

    /** The transactions that honest encoders encode, by salted hash. */
    ghost const truth: map<Key, Word>

    /** Whether everything so far came from honest encoders; whether any received transaction was ever evicted. */
    ghost var honest: bool
    ghost var evicted: bool

    /** Everything that was ever stored, in order. */
    ghost var history: seq<Entry>

    /** The members that every codeword had when it arrived, and the transactions given by the user. */
    ghost var all: map<PendingCodeword, set<Key>>
    ghost var given: set<Key>

    /** The links as values: the members of every codeword ever added, and what every pending transaction blocks. */
    ghost var mem: map<PendingCodeword, seq<PendingTransaction>>
    ghost var blk: map<PendingTransaction, seq<PendingCodeword>>

    constructor (hashing: Hashing, memory: nat, ghost truth: map<Key, Word>)
      ensures this.hashing == hashing && this.memory == memory && this.truth == truth
      ensures Ready([]) && !evicted && history == [] && all == map[] && given == {} && mem == map[] && blk == map[]
      ensures receivedTransactions == map[] && pendingTransactions == map[] && (honest <==> TruthHashes())
    {
      this.hashing, this.memory, this.truth := hashing, memory, truth;
      receivedTransactions, recentTransactions, pendingTransactions := map[], [], map[];
      mem, blk, all, given, evicted, history := map[], map[], map[], {}, false, [];
      new;
      hide TruthHashes;
      honest := TruthHashes();
    }

    ghost predicate MembersMatch()
      reads this`mem, mem.Keys`members
    {
      forall c | c in mem :: c.members == mem[c]
    }

    ghost predicate BlockingMatch(gone: set<PendingTransaction>)
      reads this`blk, blk.Keys`blocking
    {
      forall s | s in blk && s !in gone :: s.blocking == blk[s]
    }

    /** The objects hold the links; every pending transaction is found under its salted hash, except for those in gone,
        which are just being decoded. */
    ghost predicate Wired(gone: set<PendingTransaction>)
      reads this`mem, this`blk, this`pendingTransactions, mem.Keys`members, blk.Keys`blocking
    {
      Linked(mem, blk) && MembersMatch() && BlockingMatch(gone) && Indexed(pendingTransactions, blk.Keys - gone)
    }

    /** The codewords on the stack and the one in hand are queued; every other one is decoded and empty, or still needs
        at least two members. */
    ghost predicate Stacked(queue: seq<PendingCodeword>, hand: set<PendingCodeword>)
      reads this`mem, mem.Keys`queued, mem.Keys`decoded
    {
      && NoDuplicates(queue) && Elements(queue) !! hand && Elements(queue) + hand <= mem.Keys
      && forall c | c in mem :: InPlace(c.queued, c.decoded, |mem[c]|, c in queue || c in hand)
    }

    /** Every codeword's symbol is the XOR of the true data of its remaining members. */
    ghost predicate AllSum()
      reads this`mem, mem.Keys`symbol
    {
      forall c | c in mem :: Sums(truth, c.symbol, mem[c])
    }

    /** Peel tx out of one codeword it blocks. */
    method PeelOut(tx: PendingTransaction, data: Word, peelable: PendingCodeword, ghost rest: seq<PendingCodeword>)
      requires tx in blk && blk[tx] == [peelable] + rest && Wired({tx})
      modifies this`mem, this`blk, peelable`members, peelable`symbol
      ensures Wired({tx}) && peelable in old(mem) && peelable in mem && mem == old(mem)[peelable := mem[peelable]]
      ensures blk == old(blk)[tx := rest] && peelable.members == mem[peelable]
      ensures multiset(mem[peelable]) + multiset{tx} == multiset(old(mem)[peelable])
      ensures |mem[peelable]| == |old(mem)[peelable]| - 1
      ensures peelable.symbol == Xor(old(peelable.symbol), data)
    {
      hide Linked, Indexed;
      HeadIsLinked(mem, blk, tx, peelable, rest);
      peelable.PeelTransaction(tx, data);
      UnlinkKeeps(mem, blk, peelable, tx, peelable.members, rest);
      mem := mem[peelable := peelable.members];
      assert blk[tx := rest].Keys == blk.Keys;
      blk := blk[tx := rest];
    }

    /** Peel tx out of one codeword it blocks, and stack the codeword if it became decodable. */
    method PeelOne(tx: PendingTransaction, data: Word, peelable: PendingCodeword, ghost rest: seq<PendingCodeword>,
                   queue: seq<PendingCodeword>, ghost hand: set<PendingCodeword>)
        returns (decodableCws: seq<PendingCodeword>)
      requires tx in blk && blk[tx] == [peelable] + rest && Wired({tx}) && Stacked(queue, hand)
      modifies this`mem, this`blk, peelable`members, peelable`symbol, peelable`queued
      ensures Wired({tx}) && Stacked(decodableCws, hand)
      ensures peelable in old(mem) && peelable in mem && mem == old(mem)[peelable := mem[peelable]]
      ensures blk == old(blk)[tx := rest]
      ensures multiset(mem[peelable]) + multiset{tx} == multiset(old(mem)[peelable])
      ensures peelable.symbol == Xor(old(peelable.symbol), data)
    {
      hide Wired, NoDuplicates;
      PeelOut(tx, data, peelable, rest);
      decodableCws := queue;
      if |peelable.members| <= 1 && !peelable.queued {
        peelable.queued := true;
        Appended(queue, peelable);
        decodableCws := queue + [peelable];
      }
    }

    ghost predicate NeededNowhere(k: Key)
      reads this`mem
    {
      forall c | c in mem :: k !in KeysOf(mem[c])
    }

    /** The same codewords as in before, each with some occurrences of tx peeled out. */
    ghost predicate Peeled(before: map<PendingCodeword, seq<PendingTransaction>>, tx: PendingTransaction, sound: bool)
      reads this`mem, mem.Keys`symbol
    {
      && mem.Keys == before.Keys && (sound ==> AllSum())
      && forall c | c in mem :: Lighter(mem[c], before[c], tx.saltedHash, sound)
    }

    method PeelNext(tx: PendingTransaction, data: Word, peelable: PendingCodeword, ghost rest: seq<PendingCodeword>,
                    queue: seq<PendingCodeword>, ghost hand: set<PendingCodeword>, ghost sound: bool,
                    ghost before: map<PendingCodeword, seq<PendingTransaction>>)
        returns (decodableCws: seq<PendingCodeword>)
      requires tx in blk && blk[tx] == [peelable] + rest && tx.saltedHash !in pendingTransactions
      requires Wired({tx}) && Stacked(queue, hand) && Peeled(before, tx, sound)
      requires sound ==> data == Truth(truth, tx.saltedHash)
      modifies this`mem, this`blk, mem.Keys
      ensures Wired({tx}) && Stacked(decodableCws, hand) && Peeled(before, tx, sound)
      ensures blk == old(blk)[tx := rest] && mem.Keys == old(mem.Keys)
    {
      hide Linked, Indexed, NoDuplicates, Stacked, Sums, Lighter;
      HeadIsLinked(mem, blk, tx, peelable, rest);
      ghost var m, symbol := mem[peelable], peelable.symbol;
      DistinctKeys(mem, blk, pendingTransactions, tx);
      decodableCws := PeelOne(tx, data, peelable, rest, queue, hand);
      PeeledLighter(truth, symbol, m, mem[peelable], tx, sound);
      LighterStill(mem[peelable], m, before[peelable], tx.saltedHash, sound);
    }

    method PeelAll(tx: PendingTransaction, data: Word, queue: seq<PendingCodeword>, ghost hand: set<PendingCodeword>,
                   ghost sound: bool)
        returns (decodableCws: seq<PendingCodeword>)
      requires tx in blk && tx.blocking == blk[tx] && tx.saltedHash !in pendingTransactions
      requires Wired({tx}) && Stacked(queue, hand) && Peeled(mem, tx, sound)
      requires sound ==> data == Truth(truth, tx.saltedHash)
      modifies this`mem, this`blk, mem.Keys
      ensures Wired({tx}) && Stacked(decodableCws, hand) && Peeled(old(mem), tx, sound)
      ensures mem.Keys == old(mem.Keys) && blk == old(blk)[tx := []]
    {
      hide Linked, Indexed, MembersMatch, BlockingMatch, Wired, Stacked, Peeled;
      decodableCws := queue;
      for idx := 0 to |tx.blocking|
        invariant mem.Keys == old(mem.Keys) && tx.blocking == old(tx.blocking)
        invariant blk == old(blk)[tx := tx.blocking[idx..]]
        invariant Wired({tx}) && Stacked(decodableCws, hand) && Peeled(old(mem), tx, sound)
      {
        assert tx.blocking[idx..] == [tx.blocking[idx]] + tx.blocking[idx + 1..];
        decodableCws := PeelNext(tx, data, tx.blocking[idx], tx.blocking[idx + 1..], decodableCws, hand, sound,
                                 old(mem));
      }
    }

    /** Peel tx out of every codeword it blocks, stack those that became decodable, and forget tx. */
    method MarkDecoded(tx: PendingTransaction, data: Word, queue: seq<PendingCodeword>,
                       ghost hand: set<PendingCodeword>,
                       ghost sound: bool)
        returns (decodableCws: seq<PendingCodeword>)
      requires tx in blk && tx.blocking == blk[tx] && tx.saltedHash !in pendingTransactions
      requires Wired({tx}) && Stacked(queue, hand)
      requires sound ==> AllSum() && data == Truth(truth, tx.saltedHash)
      modifies this`mem, this`blk, mem.Keys
      ensures Wired({}) && Stacked(decodableCws, hand)
      ensures mem.Keys == old(mem.Keys) && blk == old(blk) - {tx}
      ensures Peeled(old(mem), tx, sound) && NeededNowhere(tx.saltedHash)
    {
      hide Wired, Stacked, Peeled, AllSum, NeededNowhere;
      NothingPeeled(tx, sound);
      decodableCws := PeelAll(tx, data, queue, hand, sound);
      Forget(tx);
    }

    lemma NothingPeeled(tx: PendingTransaction, sound: bool)
      requires sound ==> AllSum()
      ensures Peeled(mem, tx, sound)
    {
    }

    /** The decoder knows exactly what its memory keeps of everything that was stored. */
    ghost predicate Remembered()
      reads this`receivedTransactions, this`recentTransactions, this`evicted, this`history
    {
      Current() == Kept(history, memory)
    }

    ghost function Current(): Store
      reads this`receivedTransactions, this`recentTransactions, this`evicted
    {
      Store(receivedTransactions, recentTransactions, evicted)
    }

    /** Receive a transaction, and forget the oldest ones that no longer fit the memory. */
    method StoreNewTransaction(saltedHash: Key, t: Transaction)
      requires Remembered()
      modifies this`receivedTransactions, this`recentTransactions, this`evicted, this`history
      ensures Remembered() && |recentTransactions| <= memory && history == old(history) + [(saltedHash, t)]
      ensures recentTransactions == Latest(old(recentTransactions) + [(saltedHash, t)], memory)
      ensures Stored(old(Current()), saltedHash, t, Current(), memory)
    {
      hide Kept, Undropped;
      receivedTransactions := receivedTransactions[saltedHash := t];
      recentTransactions := recentTransactions + [(saltedHash, t)];
      ghost var all, received := recentTransactions, receivedTransactions;
      NothingDropped(received);
      while |recentTransactions| > memory
        invariant |recentTransactions| == |all| || memory <= |recentTransactions| < |all|
        invariant recentTransactions == all[|all| - |recentTransactions|..]
        invariant receivedTransactions == Undropped(received, all[..|all| - |recentTransactions|])
        invariant evicted == (old(evicted) || |recentTransactions| < |all|) && history == old(history)
        decreases |recentTransactions|
      {
        var (oldest, e) := recentTransactions[0];
        ghost var n := |all| - |recentTransactions|;
        assert all[..n + 1] == all[..n] + [(oldest, e)];
        DropOneMore(received, all[..n], (oldest, e));
        if oldest in receivedTransactions && receivedTransactions[oldest].data == e.data {
          receivedTransactions := receivedTransactions - {oldest};
        }
        recentTransactions := recentTransactions[1..];
        evicted := true;
      }
      KeepOneMore(history, (saltedHash, t), memory);
      history := history + [(saltedHash, t)];
    }

    /** The transactions that honest encoders encode have their own salted hashes. */
    ghost predicate TruthHashes() {
      forall k | k in truth :: hashing.salt(hashing.full(truth[k])) == k
    }

    /** What honest encoders guarantee: symbols are the XOR of the members' true data, received data is true, and as
        long as nothing was evicted the received set is exactly what the codewords and the given
        transactions force. */
    ghost predicate Sound()
      reads this`mem, this`blk, this`receivedTransactions, this`recentTransactions, this`evicted, this`all, this`given
      reads mem.Keys`symbol
    {
      Trusted() && Account(mem, all, given, Current(), memory)
    }

    ghost predicate Trusted()
      reads this`mem, this`blk, this`receivedTransactions, mem.Keys`symbol
    {
      TruthHashes() && AllSum() && Known(truth, blk.Keys) && AllTrue(hashing, truth, receivedTransactions)
    }

    /** Every pending transaction blocks some codeword: none is kept for nothing. */
    ghost predicate NoneIdle()
      reads this`blk
    {
      forall s | s in blk :: blk[s] != []
    }

    lemma StillNoneIdle(before: map<PendingTransaction, seq<PendingCodeword>>, tx: PendingTransaction)
      requires forall s | s in before :: before[s] != []
      requires blk == before - {tx} || (tx in blk && blk == before[tx := blk[tx]] && blk[tx] != [])
      ensures NoneIdle()
    {
    }

    lemma NoneWasIdle()
      requires NoneIdle()
      ensures forall s | s in blk :: blk[s] != []
    {
    }

    /** What holds of any codewords, honest or not, with a stack of codewords to work off. */
    ghost predicate Safe(queue: seq<PendingCodeword>)
      reads this`mem, this`blk, this`pendingTransactions, this`receivedTransactions, this`recentTransactions
      reads this`evicted, this`history
      reads mem.Keys`members, mem.Keys`queued, mem.Keys`decoded, blk.Keys`blocking
    {
      && Wired({}) && Stacked(queue, {}) && pendingTransactions.Keys !! receivedTransactions.Keys
      && Remembered() && |recentTransactions| <= memory && NoneIdle()
    }

    /** The decoder with a stack of codewords to work off. */
    ghost predicate Ready(queue: seq<PendingCodeword>)
      reads this, mem.Keys, blk.Keys
    {
      Safe(queue) && (honest ==> Sound())
    }

    /** c has been taken from the stack and needs nothing any more. */
    ghost predicate InHand(c: PendingCodeword, queue: seq<PendingCodeword>)
      reads this, mem.Keys, blk.Keys
    {
      && Wired({}) && Stacked(queue, {c}) && pendingTransactions.Keys !! receivedTransactions.Keys
      && Remembered() && |recentTransactions| <= memory && NoneIdle() && (honest ==> Sound())
      && c in mem && mem[c] == []
    }

    /** c has been taken from the stack and still needs tx, which is pending and not received; in the honest case c's
        symbol is the true data of tx. */
    ghost predicate Held(c: PendingCodeword, tx: PendingTransaction, rest: seq<PendingCodeword>)
      reads this, mem.Keys, blk.Keys
    {
      && Wired({}) && Stacked(rest, {c}) && pendingTransactions.Keys !! receivedTransactions.Keys
      && Remembered() && |recentTransactions| <= memory && NoneIdle() && (honest ==> Sound())
      && c in mem && mem[c] == [tx] && tx in blk && c in blk[tx] && tx.saltedHash in pendingTransactions
      && (honest ==> tx.saltedHash in truth && c.symbol == truth[tx.saltedHash])
    }

    /** A transaction that has been peeled out of every codeword is forgotten. */
    ghost method Forget(tx: PendingTransaction)
      requires tx in blk && blk[tx] == [] && tx.saltedHash !in pendingTransactions && Wired({tx})
      modifies this`blk
      ensures Wired({}) && blk == old(blk) - {tx}
      ensures NeededNowhere(tx.saltedHash)
    {
      hide Linked, Indexed;
      DistinctKeys(mem, blk, pendingTransactions, tx);
      ForgetKeeps(mem, blk, tx);
      assert (blk - {tx}).Keys - {} == blk.Keys - {tx};
      blk := blk - {tx};
    }

    lemma LastMember(c: PendingCodeword, tx: PendingTransaction, rest: seq<PendingCodeword>)
      requires Ready(rest + [c]) && c in mem && mem[c] == [tx]
      ensures Held(c, tx, rest)
    {
      assert tx in mem[c];
      assert multiset(mem[c])[tx] == multiset(blk[tx])[c];
      Popped(c, rest);
      if honest {
        assert Sums(truth, c.symbol, mem[c]);
        assert KeysOf(mem[c]) == {tx.saltedHash};
        XorOfOne(truth, tx.saltedHash);
      }
    }

    lemma LastIsDecodable(c: PendingCodeword, tx: PendingTransaction, rest: seq<PendingCodeword>)
      requires Held(c, tx, rest)
      ensures tx.saltedHash in pendingTransactions && tx.saltedHash !in receivedTransactions
      ensures honest ==> hashing.salt(hashing.full(c.symbol)) == tx.saltedHash
    {
    }

    lemma Popped(c: PendingCodeword, rest: seq<PendingCodeword>)
      requires Stacked(rest + [c], {})
      ensures c in mem && Stacked(rest, {c})
    {
      assert (rest + [c])[|rest|] == c;
      assert c in Elements(rest + [c]);
      assert forall d | d in rest :: d in Elements(rest + [c]);
      assert forall k | 0 <= k < |rest| :: (rest + [c])[k] == rest[k];
    }

    /** Receive t, which was pending, and peel it out of every codeword it blocks. */
    method Receive(tx: PendingTransaction, t: Transaction, rest: seq<PendingCodeword>, ghost hand: set<PendingCodeword>,
                   ghost sound: bool)
        returns (queue: seq<PendingCodeword>)
      requires tx in blk && tx.saltedHash in pendingTransactions && Wired({}) && Stacked(rest, hand) && Remembered()
      requires NoneIdle()
      requires sound ==> AllSum() && t.data == Truth(truth, tx.saltedHash)
      modifies this`pendingTransactions, this`receivedTransactions, this`recentTransactions, this`evicted, this`history
      modifies this`mem, this`blk, mem.Keys
      ensures Wired({}) && Stacked(queue, hand) && Remembered() && |recentTransactions| <= memory
      ensures mem.Keys == old(mem.Keys) && blk == old(blk) - {tx} && NoneIdle()
      ensures Peeled(old(mem), tx, sound) && NeededNowhere(tx.saltedHash)
      ensures pendingTransactions == old(pendingTransactions) - {tx.saltedHash}
      ensures Stored(old(Current()), tx.saltedHash, t, Current(), memory)
      ensures history == old(history) + [(tx.saltedHash, t)]
    {
      hide Wired, Stacked, Peeled, AllSum, NeededNowhere, Remembered, Stored, NoneIdle;
      NoneWasIdle();
      Detach(tx);
      StoreNewTransaction(tx.saltedHash, t);
      queue := MarkDecoded(tx, t.data, rest, hand, sound);
      StillNoneIdle(old(blk), tx);
    }

    /** Take tx out of the index before its links are taken away. */
    method Detach(tx: PendingTransaction)
      requires tx in blk && tx.saltedHash in pendingTransactions && Wired({})
      modifies this`pendingTransactions
      ensures Wired({tx}) && tx.blocking == blk[tx]
      ensures pendingTransactions == old(pendingTransactions) - {tx.saltedHash}
    {
      hide Linked;
      IndexRemove(pendingTransactions, blk.Keys - {}, tx);
      assert blk.Keys - {} - {tx} == blk.Keys - {tx};
      pendingTransactions := pendingTransactions - {tx.saltedHash};
    }

    /** The codeword c has revealed tx, which was received and then peeled out of every codeword. */
    lemma PeeledAccount(m0: map<PendingCodeword, seq<PendingTransaction>>, before: Store, c: PendingCodeword,
                        tx: PendingTransaction, t: Transaction)
      requires Account(m0, all, given, before, memory) && Peeled(m0, tx, true) && NeededNowhere(tx.saltedHash)
      requires c in m0 && m0[c] == [tx] && tx.saltedHash !in before.received
      requires Stored(before, tx.saltedHash, t, Current(), memory)
      ensures Account(mem, all, given, Current(), memory)
    {
      hide Account, AllSum, Stored;
      assert KeysOf(m0[c]) == {tx.saltedHash};
      AccountReveals(m0, mem, all, given, before, Current(), memory, c, tx.saltedHash, t);
    }

    lemma SoundAfter(m0: map<PendingCodeword, seq<PendingTransaction>>, stubs: set<PendingTransaction>, before: Store,
                     c: PendingCodeword, tx: PendingTransaction, t: Transaction)
      requires TruthHashes() && Known(truth, stubs) && blk.Keys <= stubs && tx in stubs
      requires AllTrue(hashing, truth, before.received) && t == NewTransaction(hashing, Truth(truth, tx.saltedHash))
      requires Stored(before, tx.saltedHash, t, Current(), memory) && tx.saltedHash !in before.received
      requires Account(m0, all, given, before, memory)
      requires Peeled(m0, tx, true) && NeededNowhere(tx.saltedHash) && c in m0 && m0[c] == [tx]
      ensures Sound()
    {
      assert AllSum();
      assert tx.saltedHash in truth && Known(truth, blk.Keys);
      hide Stored, AllTrue, AllSum, Account, Peeled, NeededNowhere, Known, TruthHashes;
      StoredIsTrue(hashing, truth, before, tx.saltedHash, t, Current(), memory);
      PeeledAccount(m0, before, c, tx, t);
    }

    lemma LastIsGone(before: map<PendingCodeword, seq<PendingTransaction>>, c: PendingCodeword, tx: PendingTransaction,
                     sound: bool)
      requires Peeled(before, tx, sound) && NeededNowhere(tx.saltedHash) && c in before && before[c] == [tx]
      ensures c in mem && mem[c] == []
    {
      assert Lighter(mem[c], before[c], tx.saltedHash, sound);
      hide KeysOf;
      if mem[c] != [] {
        StillNeeds(mem[c], tx);
      }
    }

    /** The last member of c could be decoded: receive it and peel it out of every codeword it blocks. */
    method Succeed(c: PendingCodeword, tx: PendingTransaction, decodedTx: Transaction, rest: seq<PendingCodeword>)
        returns (queue: seq<PendingCodeword>)
      requires Held(c, tx, rest)
      requires decodedTx == NewTransaction(hashing, c.symbol) && hashing.salt(decodedTx.hash) == tx.saltedHash
      modifies this`pendingTransactions, this`receivedTransactions, this`recentTransactions, this`evicted, this`history
      modifies this`mem, this`blk, mem.Keys
      ensures InHand(c, queue) && mem.Keys == old(mem.Keys) && blk.Keys <= old(blk.Keys)
      ensures pendingTransactions == old(pendingTransactions) - {tx.saltedHash}
      ensures Stored(old(Current()), tx.saltedHash, decodedTx, Current(), memory)
      ensures history == old(history) + [(tx.saltedHash, decodedTx)]
    {
      hide Wired, Stacked, TruthHashes, Remembered, Linked, AllTrue, Stored, Account, AllSum, Known, Peeled;
      queue := Receive(tx, decodedTx, rest, {c}, honest);
      LastIsGone(old(mem), c, tx, honest);
      StillDisjoint(old(Current()), tx.saltedHash, decodedTx, Current(), memory, old(pendingTransactions));
      if honest {
        SoundAfter(old(mem), old(blk.Keys), old(Current()), c, tx, decodedTx);
      }
    }

    /** Take the link between c and the last transaction it needs away on both sides. */
    method Unlink(c: PendingCodeword, tx: PendingTransaction, ghost rest: seq<PendingCodeword>)
        returns (saltedHash: Key, failed: bool)
      requires Wired({}) && Stacked(rest, {c}) && c in mem && mem[c] == [tx] && tx in blk && c in blk[tx]
      modifies this`mem, this`blk, c`members, tx
      ensures Wired({}) && Stacked(rest, {c}) && mem == old(mem)[c := []]
      ensures tx in blk && blk == old(blk)[tx := blk[tx]] && |blk[tx]| == |old(blk)[tx]| - 1
      ensures (failed <==> blk[tx] == []) && (failed ==> saltedHash == tx.saltedHash)
    {
      hide Linked, Indexed, NoDuplicates;
      saltedHash, failed := c.FailToDecode();
      UnlinkKeeps(mem, blk, c, tx, [], tx.blocking);
      mem, blk := mem[c := []], blk[tx := tx.blocking];
      assert blk.Keys == old(blk.Keys);
      assert |multiset(old(blk)[tx])| == |old(blk)[tx]| && |multiset(blk[tx])| == |blk[tx]|;
    }

    /** Forget a pending transaction that blocks nothing. */
    method Drop(saltedHash: Key, ghost tx: PendingTransaction, ghost c: PendingCodeword,
                ghost rest: seq<PendingCodeword>)
      requires Stacked(rest, {c})
      requires Wired({}) && tx in blk && blk[tx] == [] && tx.saltedHash == saltedHash
      modifies this`pendingTransactions, this`blk
      ensures Wired({}) && blk == old(blk) - {tx}
      ensures saltedHash in old(pendingTransactions) && pendingTransactions == old(pendingTransactions) - {saltedHash}
      ensures Stacked(rest, {c})
    {
      hide Linked, Stacked;
      ForgetKeeps(mem, blk, tx);
      IndexRemove(pendingTransactions, blk.Keys - {}, tx);
      assert (blk - {tx}).Keys - {} == blk.Keys - {} - {tx};
      blk := blk - {tx};
      pendingTransactions := pendingTransactions - {saltedHash};
    }

    /** The last member of c could not be decoded: take c out of what it blocks, and forget it when it
        blocks nothing. */
    method Fail(c: PendingCodeword, tx: PendingTransaction, rest: seq<PendingCodeword>)
      requires Held(c, tx, rest) && !honest
      modifies this`pendingTransactions, this`mem, this`blk, c`members, tx
      ensures InHand(c, rest) && mem == old(mem)[c := []] && blk.Keys <= old(blk.Keys)
      ensures if old(|blk[tx]|) == 1
        then blk == old(blk) - {tx} && pendingTransactions == old(pendingTransactions) - {tx.saltedHash}
        else blk.Keys == old(blk.Keys) && pendingTransactions == old(pendingTransactions)
      ensures Fewer(pendingTransactions, |rest|, old(pendingTransactions), |rest|)
    {
      hide Held, InHand, Wired, Stacked, Remembered, NoneIdle;
      HeldParts(c, tx, rest);
      var saltedHash, failed := Unlink(c, tx, rest);
      if failed {
        Drop(saltedHash, tx, c, rest);
        FewerByOne(pendingTransactions, |rest|, old(pendingTransactions), |rest|, saltedHash);
      }
      StillNoneIdle(old(blk), tx);
      FailedInHand(c, rest);
    }

    lemma HeldParts(c: PendingCodeword, tx: PendingTransaction, rest: seq<PendingCodeword>)
      requires Held(c, tx, rest)
      ensures Wired({}) && Stacked(rest, {c}) && pendingTransactions.Keys !! receivedTransactions.Keys
      ensures Remembered() && |recentTransactions| <= memory && c in mem && mem[c] == [tx] && tx in blk && c in blk[tx]
      ensures forall s | s in blk :: blk[s] != []
    {
    }

    lemma FailedInHand(c: PendingCodeword, rest: seq<PendingCodeword>)
      requires Wired({}) && Stacked(rest, {c}) && pendingTransactions.Keys !! receivedTransactions.Keys
      requires Remembered() && |recentTransactions| <= memory && NoneIdle() && c in mem && mem[c] == [] && !honest
      ensures InHand(c, rest)
    {
    }

    /** What has been returned since the decoder held the given pending and received transactions and had stored the
        given entries: exactly what was stored since, in order. */
    ghost predicate Reports(newTx: seq<Transaction>, pending: set<Key>, received: map<Key, Transaction>,
                            stored: seq<Entry>)
      reads this`pendingTransactions, this`receivedTransactions, this`evicted, this`history, this`honest
    {
      && history == stored + Entries(hashing, newTx)
      && Revealed(hashing, newTx, pending, pendingTransactions.Keys)
      && Grown(hashing, received, newTx, receivedTransactions, evicted)
      && (honest ==> Honest(hashing, truth, newTx) && AllReturned(hashing, newTx, pending, pendingTransactions.Keys))
    }

    lemma EmptyInHand(c: PendingCodeword, queue: seq<PendingCodeword>)
      requires InHand(c, queue)
      ensures c.members == []
    {
    }

    /** c has been worked off. */
    method Finish(c: PendingCodeword, queue: seq<PendingCodeword>)
      requires InHand(c, queue)
      modifies c`decoded
      ensures Ready(queue)
    {
      hide Linked, Indexed, NoDuplicates, Remembered, Sums, Account, AllTrue, Known;
      assert |c.members| == 0;
      c.decoded := true;
    }

    method DecodeCodewords(cws: seq<PendingCodeword>) returns (newTx: seq<Transaction>)
      requires Ready(cws)
      modifies this`pendingTransactions, this`receivedTransactions, this`recentTransactions, this`evicted, this`history
      modifies this`mem, this`blk, mem.Keys, blk.Keys
      ensures Ready([]) && mem.Keys == old(mem.Keys) && blk.Keys <= old(blk.Keys)
      ensures Reports(newTx, old(pendingTransactions.Keys), old(receivedTransactions), old(history))
      ensures recentTransactions == Latest(old(recentTransactions) + Entries(hashing, newTx), memory)
      ensures old(evicted) ==> evicted
    {
      hide Ready, Reports;
      newTx := [];
      ReadyRemembers(cws);
      NothingReported();
      var queue := cws;
      while |queue| > 0
        invariant Ready(queue) && mem.Keys == old(mem.Keys) && blk.Keys <= old(blk.Keys)
        invariant Reports(newTx, old(pendingTransactions.Keys), old(receivedTransactions), old(history))
        invariant old(evicted) ==> evicted
        decreases |pendingTransactions|, |queue|
      {
        queue, newTx := DecodeNext(queue, newTx, old(pendingTransactions.Keys), old(receivedTransactions),
                                   old(history));
      }
      ReportedRecent(newTx, old(pendingTransactions.Keys), old(receivedTransactions), old(history));
    }

    /** The recent transactions are the latest that were stored. */
    lemma RecentAre()
      requires Remembered()
      ensures recentTransactions == Latest(history, memory)
    {
      KeptRecent(history, memory);
    }

    /** What was stored since is returned, and the recent transactions are the latest of it and the ones before. */
    lemma ReportedRecent(newTx: seq<Transaction>, pending: set<Key>, received: map<Key, Transaction>,
                         stored: seq<Entry>)
      requires Reports(newTx, pending, received, stored) && Ready([])
      ensures recentTransactions == Latest(Latest(stored, memory) + Entries(hashing, newTx), memory)
    {
      ReadyRemembers([]);
      RecentAre();
      LatestOn(stored, Entries(hashing, newTx), memory);
    }

    lemma ReadyRemembers(queue: seq<PendingCodeword>)
      requires Ready(queue)
      ensures Remembered() && recentTransactions == Latest(history, memory)
    {
      RecentAre();
    }

    lemma NothingReported()
      ensures Reports([], pendingTransactions.Keys, receivedTransactions, history)
    {
    }

    method DecodeNext(stack: seq<PendingCodeword>, txs: seq<Transaction>, ghost pending: set<Key>,
                      ghost received: map<Key, Transaction>, ghost stored: seq<Entry>)
        returns (queue: seq<PendingCodeword>, newTx: seq<Transaction>)
      requires |stack| > 0 && Ready(stack) && Reports(txs, pending, received, stored)
      modifies this`pendingTransactions, this`receivedTransactions, this`recentTransactions, this`evicted, this`history
      modifies this`mem, this`blk, mem.Keys, blk.Keys
      ensures Ready(queue) && mem.Keys == old(mem.Keys) && blk.Keys <= old(blk.Keys)
      ensures Reports(newTx, pending, received, stored) && (old(evicted) ==> evicted)
      ensures |pendingTransactions| < old(|pendingTransactions|) || |pendingTransactions| == old(|pendingTransactions|)
      ensures |pendingTransactions| == old(|pendingTransactions|) ==> |queue| < |stack|
    {
      var c, rest := stack[|stack| - 1], stack[..|stack| - 1];
      TopOfStack(stack);
      assert Ready(stack) && |mem[c]| == 0 ==> InHand(c, rest);
      hide Ready, InHand, Reports;
      assert c.queued;
      if |c.members| == 0 {
        queue, newTx := rest, txs;
      } else {
        assert |c.members| == 1;
        queue, newTx := DecodeLast(c, c.members[0], rest, txs, pending, received, stored);
      }
      EmptyInHand(c, queue);
      assert |c.members| == 0;
      Finish(c, queue);
    }

    /** Decode the one transaction that c still needs, or give up on it. */
    method DecodeLast(c: PendingCodeword, decodableTx: PendingTransaction, rest: seq<PendingCodeword>,
                      txs: seq<Transaction>, ghost pending: set<Key>, ghost received: map<Key, Transaction>,
                      ghost stored: seq<Entry>)
        returns (queue: seq<PendingCodeword>, newTx: seq<Transaction>)
      requires Ready(rest + [c]) && c in mem && mem[c] == [decodableTx] && Reports(txs, pending, received, stored)
      modifies this`pendingTransactions, this`receivedTransactions, this`recentTransactions, this`evicted, this`history
      modifies this`mem, this`blk, mem.Keys, blk.Keys
      ensures InHand(c, queue) && mem.Keys == old(mem.Keys) && blk.Keys <= old(blk.Keys)
      ensures Reports(newTx, pending, received, stored) && (old(evicted) ==> evicted)
      ensures Fewer(pendingTransactions, |queue|, old(pendingTransactions), |rest|)
    {
      LastMember(c, decodableTx, rest);
      LastIsDecodable(c, decodableTx, rest);
      hide Ready, Held, InHand, Reports, Fewer;
      assert decodableTx.saltedHash !in receivedTransactions && decodableTx.saltedHash in pendingTransactions;
      var decodedTx := NewTransaction(hashing, c.symbol);
      var saltedHash := hashing.salt(decodedTx.hash);
      if saltedHash != decodableTx.saltedHash {
        queue, newTx := rest, txs;
        FailAndReport(c, decodableTx, rest, txs, pending, received, stored);
      } else {
        newTx := txs + [decodedTx];
        queue := SucceedAndReport(c, decodableTx, decodedTx, rest, txs, pending, received, stored);
      }
    }

    method FailAndReport(c: PendingCodeword, tx: PendingTransaction, rest: seq<PendingCodeword>,
                          ghost txs: seq<Transaction>, ghost pending: set<Key>, ghost received: map<Key, Transaction>,
                          ghost stored: seq<Entry>)
      requires Held(c, tx, rest) && !honest && Reports(txs, pending, received, stored)
      modifies this`pendingTransactions, this`mem, this`blk, c`members, tx
      ensures InHand(c, rest) && mem.Keys == old(mem.Keys) && blk.Keys <= old(blk.Keys)
      ensures Fewer(pendingTransactions, |rest|, old(pendingTransactions), |rest|)
      ensures Reports(txs, pending, received, stored)
    {
      hide InHand, Stacked, Wired, Remembered, Fewer, Grown, Honest, Revealed, AllReturned, Entries;
      Fail(c, tx, rest);
      RevealedLess(hashing, txs, pending, old(pendingTransactions.Keys), pendingTransactions.Keys);
    }

    method SucceedAndReport(c: PendingCodeword, tx: PendingTransaction, decodedTx: Transaction,
                            rest: seq<PendingCodeword>, ghost txs: seq<Transaction>, ghost pending: set<Key>,
                            ghost received: map<Key, Transaction>, ghost stored: seq<Entry>)
        returns (queue: seq<PendingCodeword>)
      requires Held(c, tx, rest) && Reports(txs, pending, received, stored)
      requires decodedTx == NewTransaction(hashing, c.symbol) && hashing.salt(decodedTx.hash) == tx.saltedHash
      modifies this`pendingTransactions, this`receivedTransactions, this`recentTransactions, this`evicted, this`history
      modifies this`mem, this`blk, mem.Keys
      ensures InHand(c, queue) && mem.Keys == old(mem.Keys) && blk.Keys <= old(blk.Keys)
      ensures Reports(txs + [decodedTx], pending, received, stored) && (old(evicted) ==> evicted)
      ensures Fewer(pendingTransactions, |queue|, old(pendingTransactions), |rest|)
    {
      hide InHand, Stored, Revealed, Grown, Honest, Stacked, Wired, Remembered, KeysOf, Fewer, AllReturned, Entries;
      queue := Succeed(c, tx, decodedTx, rest);
      FewerByOne(pendingTransactions, |queue|, old(pendingTransactions), |rest|, tx.saltedHash);
      GrownByOne(hashing, received, txs, old(Current()), decodedTx, Current(), memory);
      RevealedByOne(hashing, txs, pending, old(pendingTransactions.Keys), decodedTx);
      assert pendingTransactions.Keys == old(pendingTransactions.Keys) - {tx.saltedHash};
      HonestByOne(hashing, truth, txs, decodedTx, honest);
      if honest {
        OneMoreReturned(hashing, txs, pending, old(pendingTransactions.Keys), decodedTx);
      }
      EntriesOneMore(hashing, txs, decodedTx);
    }

    lemma TopOfStack(stack: seq<PendingCodeword>)
      requires |stack| > 0 && Ready(stack)
      ensures stack[..|stack| - 1] + [stack[|stack| - 1]] == stack
      ensures var c := stack[|stack| - 1]; c in mem && c.members == mem[c] && c.queued && |c.members| <= 1
      ensures Stacked(stack[..|stack| - 1], {stack[|stack| - 1]})
    {
      assert stack[..|stack| - 1] + [stack[|stack| - 1]] == stack;
      Popped(stack[|stack| - 1], stack[..|stack| - 1]);
    }

    /** The codeword cw is neither decoded nor stacked; every other one is in place, and nothing is stacked. */
    ghost predicate Apart(cw: PendingCodeword)
      reads this`mem, this`blk, this`pendingTransactions, this`receivedTransactions, this`recentTransactions
      reads this`evicted, this`history
      reads mem.Keys`members, mem.Keys`queued, mem.Keys`decoded, blk.Keys`blocking
    {
      && Wired({}) && pendingTransactions.Keys !! receivedTransactions.Keys
      && Remembered() && |recentTransactions| <= memory && NoneIdle()
      && cw in mem && Others(cw) && !cw.queued && !cw.decoded
    }

    /** The codeword cw is being linked. */
    ghost predicate Building(cw: PendingCodeword, done: set<Key>, todo: seq<Key>)
      reads this, mem.Keys, blk.Keys
    {
      && Apart(cw)
      && (honest ==> SoundBut(cw) && HalfLinked(truth, cw.symbol, mem[cw], receivedTransactions.Keys, done, todo))
    }

    ghost predicate Others(cw: PendingCodeword)
      reads this`mem, mem.Keys`queued, mem.Keys`decoded
    {
      forall c | c in mem && c != cw :: InPlace(c.queued, c.decoded, |mem[c]|, false)
    }

    ghost predicate SoundBut(cw: PendingCodeword)
      reads this`mem, this`blk, this`receivedTransactions, this`recentTransactions, this`evicted, this`all, this`given
      reads mem.Keys`symbol
    {
      && TruthHashes() && OthersSum(cw) && Known(truth, blk.Keys) && AllTrue(hashing, truth, receivedTransactions)
      && Account(mem - {cw}, all, given, Current(), memory)
    }

    ghost predicate OthersSum(cw: PendingCodeword)
      reads this`mem, mem.Keys`symbol
    {
      forall c | c in mem && c != cw :: Sums(truth, c.symbol, mem[c])
    }

    /** The transaction pending under a salted hash, made if there was none. */
    method StubFor(member: Key) returns (pending: PendingTransaction)
      requires Wired({})
      modifies this`pendingTransactions, this`blk
      ensures Wired({}) && pending in blk && pending.saltedHash == member
      ensures member in old(pendingTransactions) ==> pending in old(blk) && blk == old(blk)
      ensures member !in old(pendingTransactions) ==> fresh(pending) && blk == old(blk)[pending := []]
      ensures pendingTransactions.Keys == old(pendingTransactions.Keys) + {member}
    {
      hide Linked;
      if member in pendingTransactions {
        pending := pendingTransactions[member];
      } else {
        pending := new PendingTransaction(member);
        NewTransactionKeeps(mem, blk, pending);
        blk := blk[pending := []];
        pendingTransactions := pendingTransactions[member := pending];
      }
    }

    /** Link cw and a pending transaction on both sides. */
    method Link(cw: PendingCodeword, pending: PendingTransaction)
      requires Wired({}) && cw in mem && pending in blk
      modifies this`mem, this`blk, cw`members, pending`blocking
      ensures Wired({}) && mem == old(mem)[cw := old(mem)[cw] + [pending]]
      ensures blk == old(blk)[pending := old(blk)[pending] + [cw]]
    {
      hide Linked, Indexed;
      LinkKeeps(mem, blk, cw, pending);
      pending.blocking := pending.blocking + [cw];
      cw.members := cw.members + [pending];
      mem, blk := mem[cw := cw.members], blk[pending := pending.blocking];
      assert blk.Keys == old(blk.Keys);
    }

    method LinkStub(cw: PendingCodeword, member: Key) returns (ghost pending: PendingTransaction)
      requires Wired({}) && cw in mem && NoneIdle()
      modifies this`pendingTransactions, this`mem, this`blk, cw`members, blk.Keys`blocking
      ensures Wired({}) && NoneIdle() && mem == old(mem)[cw := old(mem)[cw] + [pending]] && pending.saltedHash == member
      ensures blk.Keys == old(blk.Keys) + {pending} && (pending in old(blk.Keys) || fresh(pending))
      ensures pendingTransactions.Keys == old(pendingTransactions.Keys) + {member}
    {
      hide Wired;
      var stub := StubFor(member);
      Link(cw, stub);
      pending := stub;
    }

    method LinkApart(cw: PendingCodeword, member: Key) returns (ghost pending: PendingTransaction)
      requires Apart(cw) && member !in receivedTransactions
      modifies this`pendingTransactions, this`mem, this`blk, cw`members, blk.Keys`blocking
      ensures Apart(cw) && mem == old(mem)[cw := old(mem)[cw] + [pending]] && mem.Keys == old(mem.Keys)
      ensures pending.saltedHash == member
      ensures blk.Keys == old(blk.Keys) + {pending} && (pending in old(blk.Keys) || fresh(pending))
      ensures pendingTransactions.Keys == old(pendingTransactions.Keys) + {member}
    {
      hide Wired, Remembered, NoneIdle;
      pending := LinkStub(cw, member);
    }

    method LinkSound(cw: PendingCodeword, member: Key, ghost sound: bool) returns (ghost pending: PendingTransaction)
      requires Apart(cw) && member !in receivedTransactions && (sound ==> SoundBut(cw) && member in truth)
      modifies this`pendingTransactions, this`mem, this`blk, cw`members, blk.Keys`blocking
      ensures Apart(cw) && mem[cw] == old(mem)[cw] + [pending] && pending.saltedHash == member
      ensures mem.Keys == old(mem.Keys) && (sound ==> SoundBut(cw))
      ensures old(blk.Keys) <= blk.Keys && fresh(blk.Keys - old(blk.Keys))
      ensures pendingTransactions.Keys == old(pendingTransactions.Keys) + {member}
    {
      hide Apart, Sums, AllTrue, TruthHashes, Account, Current;
      pending := LinkApart(cw, member);
      RestSame(old(mem), cw, mem[cw]);
    }

    lemma BuildingMeans(cw: PendingCodeword, done: set<Key>, todo: seq<Key>)
      requires Building(cw, done, todo) && todo != []
      ensures cw in mem && Apart(cw)
      ensures honest ==> SoundBut(cw) && todo[0] in truth
      ensures honest ==> HalfLinked(truth, cw.symbol, mem[cw], receivedTransactions.Keys, done, todo)
    {
      assert cw in mem;
      hide Apart, SoundBut;
      if honest {
        MemberIsKnown(truth, cw.symbol, mem[cw], receivedTransactions.Keys, done, todo);
      }
    }

    lemma IsBuilding(cw: PendingCodeword, done: set<Key>, todo: seq<Key>)
      requires cw in mem && Apart(cw) && (honest ==> SoundBut(cw))
      requires honest ==> HalfLinked(truth, cw.symbol, mem[cw], receivedTransactions.Keys, done, todo)
      ensures Building(cw, done, todo)
    {
      hide Apart, SoundBut, HalfLinked;
    }

    method LinkMember(cw: PendingCodeword, member: Key, ghost done: set<Key>, ghost todo: seq<Key>)
      requires Building(cw, done, todo) && todo != [] && todo[0] == member && member !in receivedTransactions
      modifies this`pendingTransactions, this`mem, this`blk, cw`members, blk.Keys`blocking
      ensures Building(cw, done + {member}, todo[1..]) && mem.Keys == old(mem.Keys)
      ensures old(blk.Keys) <= blk.Keys && fresh(blk.Keys - old(blk.Keys))
      ensures pendingTransactions.Keys == old(pendingTransactions.Keys) + {member}
    {
      hide Building, Apart, SoundBut, HalfLinked;
      BuildingMeans(cw, done, todo);
      ghost var pending := LinkSound(cw, member, honest);
      if honest {
        LinkOneMore(truth, cw.symbol, old(mem)[cw], receivedTransactions.Keys, done, todo, pending);
      }
      IsBuilding(cw, done + {member}, todo[1..]);
    }

    method PeelMember(cw: PendingCodeword, member: Key, ghost done: set<Key>, ghost todo: seq<Key>)
      requires Building(cw, done, todo) && todo != [] && todo[0] == member && member in receivedTransactions
      modifies cw`symbol
      ensures Building(cw, done + {member}, todo[1..])
    {
      hide Wired, Linked, Remembered, Sums, HalfLinked, Account, TruthHashes, KeysOf;
      if honest {
        PeelOneMore(truth, cw.symbol, mem[cw], receivedTransactions.Keys, done, todo);
      }
      cw.symbol := Xor(cw.symbol, receivedTransactions[member].data);
    }

    /** Link or peel the next member of cw. */
    method AddMember(cw: PendingCodeword, member: Key, ghost done: set<Key>, ghost todo: seq<Key>)
      requires Building(cw, done, todo) && todo != [] && todo[0] == member
      modifies this`pendingTransactions, this`mem, this`blk, cw`members, cw`symbol, blk.Keys`blocking
      ensures Building(cw, done + {member}, todo[1..]) && mem.Keys == old(mem.Keys)
      ensures old(blk.Keys) <= blk.Keys && fresh(blk.Keys - old(blk.Keys))
      ensures pendingTransactions.Keys ==
              old(pendingTransactions.Keys) + if member in receivedTransactions then {} else {member}
    {
      NotBoth(cw, done, todo);
      hide Building;
      if member !in receivedTransactions {
        LinkMember(cw, member, done, todo);
      } else {
        assert member !in pendingTransactions;
        PeelMember(cw, member, done, todo);
      }
    }

    lemma NotBoth(cw: PendingCodeword, done: set<Key>, todo: seq<Key>)
      requires Building(cw, done, todo)
      ensures pendingTransactions.Keys !! receivedTransactions.Keys
    {
    }

    /** Make the codeword for a raw codeword and link it to all its members. */
    method BuildCodeword(raw: Codeword) returns (cw: PendingCodeword)
      requires Ready([])
      modifies this`pendingTransactions, this`mem, this`blk, this`honest, blk.Keys`blocking
      ensures Building(cw, Elements(raw.members), []) && fresh(cw) && mem.Keys == old(mem.Keys) + {cw}
      ensures fresh(blk.Keys - old(blk.Keys)) && honest == (old(honest) && HonestCodeword(truth, raw))
      ensures PendingWith(pendingTransactions.Keys, old(pendingTransactions.Keys), raw.members,
                          receivedTransactions.Keys)
    {
      hide Ready, Building, HonestCodeword, PendingWith;
      cw := NewBuilding(raw);
      AddMembers(cw, raw.members);
    }

    method AddMembers(cw: PendingCodeword, members: seq<Key>)
      requires Building(cw, {}, members)
      modifies this`pendingTransactions, this`mem, this`blk, cw`members, cw`symbol, blk.Keys`blocking
      ensures Building(cw, Elements(members), []) && mem.Keys == old(mem.Keys)
      ensures old(blk.Keys) <= blk.Keys && fresh(blk.Keys - old(blk.Keys))
      ensures PendingWith(pendingTransactions.Keys, old(pendingTransactions.Keys), members, receivedTransactions.Keys)
    {
      hide Building, PendingWith, Elements;
      AsAWhole(members);
      PendingWithNone(pendingTransactions.Keys, members, receivedTransactions.Keys);
      for i := 0 to |members|
        invariant Building(cw, Elements(members[..i]), members[i..]) && mem.Keys == old(mem.Keys)
        invariant old(blk.Keys) <= blk.Keys && fresh(blk.Keys - old(blk.Keys))
        invariant PendingWith(pendingTransactions.Keys, old(pendingTransactions.Keys), members[..i],
                              receivedTransactions.Keys)
      {
        OneMoreDone(members, i);
        PendingWithOneMore(pendingTransactions.Keys, old(pendingTransactions.Keys), members, i,
                           receivedTransactions.Keys);
        AddMember(cw, members[i], Elements(members[..i]), members[i..]);
      }
    }

    method NewApart(symbol: Word) returns (cw: PendingCodeword)
      requires Safe([])
      modifies this`mem
      ensures Apart(cw) && fresh(cw) && mem == old(mem)[cw := []] && cw !in old(mem) && cw.symbol == symbol
    {
      hide Linked, Remembered, Indexed, NoDuplicates;
      cw := new PendingCodeword(symbol);
      NewCodewordKeeps(mem, blk, cw);
      mem := mem[cw := []];
    }

    method NewBuilding(raw: Codeword) returns (cw: PendingCodeword)
      requires Ready([])
      modifies this`mem, this`honest
      ensures Building(cw, {}, raw.members) && fresh(cw) && mem.Keys == old(mem.Keys) + {cw}
      ensures honest == (old(honest) && HonestCodeword(truth, raw))
    {
      hide Safe, Apart, Sums, Account, AllTrue, TruthHashes, HonestCodeword, HalfLinked, Current;
      cw := NewApart(raw.symbol);
      assert mem - {cw} == old(mem);
      honest := honest && HonestCodeword(truth, raw);
      if honest {
        NothingLinked(truth, raw, receivedTransactions.Keys);
      }
    }

    /** The codeword cw is linked, but not yet stacked if it can be decoded. */
    ghost predicate Filed(cw: PendingCodeword)
      reads this, mem.Keys, blk.Keys
    {
      Apart(cw) && (honest ==> Sound())
    }

    ghost method RecordArrival(cw: PendingCodeword, M: set<Key>)
      requires Apart(cw) && (honest ==> Trusted() && Account(mem, all[cw := M], given, Current(), memory))
      modifies this`all
      ensures Filed(cw) && all == old(all)[cw := M]
    {
      hide Apart, Account, Current, Trusted;
      all := all[cw := M];
    }

    ghost method File(cw: PendingCodeword, M: set<Key>)
      requires Building(cw, M, [])
      modifies this`all
      ensures Filed(cw) && all == old(all)[cw := M]
    {
      hide Apart, Account, Current, Trusted, Filed, SoundBut, HalfLinked;
      if honest {
        SumsToo(cw, M);
      }
      RecordArrival(cw, M);
    }

    lemma SumsToo(cw: PendingCodeword, M: set<Key>)
      requires Building(cw, M, []) && honest
      ensures Trusted() && Account(mem, all[cw := M], given, Current(), memory)
    {
      AllLinked(truth, cw.symbol, mem[cw], receivedTransactions.Keys, M);
      hide Sums, Account, AllTrue, TruthHashes, HalfLinked, Wired;
      AccountArrives(mem, all, given, Current(), memory, cw, M);
    }

    /** Stack a new codeword if it can be decoded. */
    method Stack(cw: PendingCodeword) returns (queue: seq<PendingCodeword>)
      requires Filed(cw)
      modifies cw`queued
      ensures Ready(queue) && queue == if |cw.members| <= 1 then [cw] else []
    {
      hide Linked, Remembered, Sound, Indexed;
      queue := [];
      if |cw.members| <= 1 {
        cw.queued := true;
        queue := [cw];
      }
    }

    /** Link a codeword to those of its members that were not received. */
    method MakeCodeword(raw: Codeword) returns (cw: PendingCodeword, queue: seq<PendingCodeword>)
      requires Ready([])
      modifies this`pendingTransactions, this`mem, this`blk, this`honest, this`all, blk.Keys`blocking
      ensures Ready(queue) && fresh(cw) && mem.Keys == old(mem.Keys) + {cw}
      ensures fresh(blk.Keys - old(blk.Keys)) && honest == (old(honest) && HonestCodeword(truth, raw))
      ensures all == old(all)[cw := Elements(raw.members)]
      ensures PendingWith(pendingTransactions.Keys, old(pendingTransactions.Keys), raw.members,
                          receivedTransactions.Keys)
    {
      hide Ready, Building, Filed, HonestCodeword, PendingWith, Elements;
      cw := BuildCodeword(raw);
      File(cw, Elements(raw.members));
      queue := Stack(cw);
    }

    /** Link a codeword to those of its members that were not received, and decode what can be decoded. */
    method AddCodeword(raw: Codeword) returns (cw: PendingCodeword, newTx: seq<Transaction>)
      requires Ready([])
      modifies this, mem.Keys, blk.Keys
      ensures Ready([]) && fresh(cw) && mem.Keys == old(mem.Keys) + {cw} && fresh(blk.Keys - old(blk.Keys))
      ensures all == old(all)[cw := Elements(raw.members)] && given == old(given)
      ensures honest == (old(honest) && HonestCodeword(truth, raw)) && (old(evicted) ==> evicted)
      ensures Reports(newTx, old(pendingTransactions.Keys) + (Elements(raw.members) - old(receivedTransactions.Keys)),
                      old(receivedTransactions), old(history))
      ensures recentTransactions == Latest(old(recentTransactions) + Entries(hashing, newTx), memory)
    {
      hide Ready, Reports, HonestCodeword, Elements;
      var queue;
      cw, queue := MakeCodeword(raw);
      newTx := DecodeCodewords(queue);
    }

    /** No codeword needs k, and apart from k every codeword needs what it needed before. */
    ghost predicate Relieved(before: map<PendingCodeword, seq<PendingTransaction>>, k: Key)
      reads this`mem
    {
      mem.Keys == before.Keys
      && forall c | c in mem :: k !in KeysOf(mem[c]) && KeysOf(mem[c]) - {k} == KeysOf(before[c]) - {k}
    }

    lemma PeeledRelieves(before: map<PendingCodeword, seq<PendingTransaction>>, tx: PendingTransaction)
      requires Peeled(before, tx, true) && NeededNowhere(tx.saltedHash)
      ensures Relieved(before, tx.saltedHash) && AllSum()
    {
      hide KeysOf, AllSum;
    }

    /** A transaction that is not pending is needed nowhere. */
    lemma NotPendingRelieves(k: Key)
      requires Safe([]) && k !in pendingTransactions
      ensures Relieved(mem, k)
    {
    }

    /** Whether t is what honest encoders encode under its salted hash. */
    ghost predicate IsTrue(t: Transaction)
    {
      var k := hashing.salt(t.hash);
      k in truth && t == NewTransaction(hashing, truth[k])
    }

    /** Before t is stored: it is the true transaction k, and what was received before is true. */
    ghost predicate Due(m0: map<PendingCodeword, seq<PendingTransaction>>, stubs: set<PendingTransaction>,
                        before: Store, k: Key, t: Transaction)
      reads this`all, this`given
    {
      && TruthHashes() && Known(truth, stubs) && AllTrue(hashing, truth, before.received)
      && k in truth && t == NewTransaction(hashing, truth[k]) && k !in before.received
      && Account(m0, all, given, before, memory)
    }

    lemma IsDue(k: Key, t: Transaction)
      requires Sound() && IsTrue(t) && k == hashing.salt(t.hash) && k !in receivedTransactions
      ensures Due(mem, blk.Keys, Current(), k, t) && AllSum()
    {
    }

    /** The transaction k was stored and peeled out of m0. */
    ghost predicate Handed(m0: map<PendingCodeword, seq<PendingTransaction>>, stubs: set<PendingTransaction>,
                           before: Store, k: Key, t: Transaction)
      reads this`mem, this`blk, this`receivedTransactions, this`recentTransactions, this`evicted, this`all, this`given
      reads mem.Keys`symbol
    {
      && Due(m0, stubs, before, k, t) && Stored(before, k, t, Current(), memory)
      && blk.Keys <= stubs && AllSum() && Relieved(m0, k)
    }

    ghost method Record(k: Key, queue: seq<PendingCodeword>)
      requires Safe(queue) && (honest ==> Trusted() && Account(mem, all, given + {k}, Current(), memory))
      modifies this`given
      ensures Ready(queue) && given == old(given) + {k}
    {
      hide Safe, Trusted, Account, Current;
      given := given + {k};
    }

    ghost method Give(m0: map<PendingCodeword, seq<PendingTransaction>>, stubs: set<PendingTransaction>,
                      before: Store, k: Key, t: Transaction, queue: seq<PendingCodeword>)
      requires Safe(queue) && (honest ==> Handed(m0, stubs, before, k, t))
      modifies this`given
      ensures Ready(queue) && given == old(given) + {k}
    {
      hide Safe, Trusted, Account, Current, Handed;
      if honest {
        SoundWhenGiven(m0, stubs, before, k, t);
      }
      Record(k, queue);
    }

    lemma SoundWhenGiven(m0: map<PendingCodeword, seq<PendingTransaction>>, stubs: set<PendingTransaction>,
                         before: Store, k: Key, t: Transaction)
      requires Handed(m0, stubs, before, k, t)
      ensures Trusted() && Account(mem, all, given + {k}, Current(), memory)
    {
      assert Known(truth, blk.Keys);
      assert Relieved(m0, k);
      hide Stored, AllTrue, AllSum, Account, Known, TruthHashes, KeysOf;
      StoredIsTrue(hashing, truth, before, k, t, Current(), memory);
      AccountGiven(m0, mem, all, given, before, Current(), memory, k, t);
    }

    ghost method Trust(t: Transaction)
      requires Ready([])
      modifies this`honest
      ensures Ready([]) && honest == (old(honest) && IsTrue(t))
    {
      hide Safe, Sound, IsTrue;
      honest := honest && IsTrue(t);
    }

    lemma IsIndexed(k: Key)
      requires Ready([]) && k in pendingTransactions
      ensures pendingTransactions[k] in blk && pendingTransactions[k].saltedHash == k
      ensures Safe([]) && (honest ==> Sound())
    {
    }

    method ReceiveSafe(k: Key, t: Transaction, pending: PendingTransaction, ghost sound: bool)
        returns (queue: seq<PendingCodeword>)
      requires Safe([]) && k in pendingTransactions && pending in blk && pending.saltedHash == k
      requires sound ==> AllSum() && t.data == Truth(truth, k)
      modifies this`pendingTransactions, this`receivedTransactions, this`recentTransactions, this`evicted, this`history
      modifies this`mem, this`blk, mem.Keys
      ensures Safe(queue) && mem.Keys == old(mem.Keys) && blk.Keys <= old(blk.Keys)
      ensures sound ==> AllSum() && Relieved(old(mem), k)
      ensures pendingTransactions == old(pendingTransactions) - {k}
      ensures Stored(old(Current()), k, t, Current(), memory)
      ensures history == old(history) + [(k, t)]
    {
      hide Wired, Stacked, Remembered, Stored, AllSum, Peeled, NeededNowhere, Relieved;
      queue := Receive(pending, t, [], {}, sound);
      StillDisjoint(old(Current()), k, t, Current(), memory, old(pendingTransactions));
      if sound {
        PeeledRelieves(old(mem), pending);
      }
    }

    /** Receive a transaction from the user that codewords are waiting for. */
    method ReceiveGiven(k: Key, t: Transaction, pending: PendingTransaction) returns (queue: seq<PendingCodeword>)
      requires Safe([]) && (honest ==> Sound() && IsTrue(t)) && k == hashing.salt(t.hash)
      requires k in pendingTransactions && pending in blk && pending.saltedHash == k
      modifies this`pendingTransactions, this`receivedTransactions, this`recentTransactions, this`evicted, this`history
      modifies this`mem, this`blk, mem.Keys
      ensures Safe(queue) && mem.Keys == old(mem.Keys) && blk.Keys <= old(blk.Keys)
      ensures honest ==> Handed(old(mem), old(blk.Keys), old(Current()), k, t)
      ensures pendingTransactions == old(pendingTransactions) - {k}
      ensures Stored(old(Current()), k, t, Current(), memory)
      ensures history == old(history) + [(k, t)]
    {
      if honest {
        NotReceived(k);
        IsDue(k, t);
        assert t.data == Truth(truth, k);
      }
      hide Safe, Stored, Due, AllSum, Relieved, Sound, IsTrue, Truth;
      queue := ReceiveSafe(k, t, pending, honest);
    }

    lemma NotReceived(k: Key)
      requires Safe([]) && k in pendingTransactions
      ensures k !in receivedTransactions
    {
    }

    /** Give a transaction that codewords are waiting for. */
    method GivePending(k: Key, t: Transaction, pending: PendingTransaction) returns (queue: seq<PendingCodeword>)
      requires Ready([]) && k == hashing.salt(t.hash) && k in pendingTransactions && pendingTransactions[k] == pending
      modifies this`pendingTransactions, this`receivedTransactions, this`recentTransactions, this`evicted, this`history
      modifies this`mem, this`blk, this`honest, this`given, mem.Keys
      ensures Ready(queue) && mem.Keys == old(mem.Keys) && blk.Keys <= old(blk.Keys)
      ensures honest == (old(honest) && IsTrue(t)) && given == old(given) + {k} && (old(evicted) ==> evicted)
      ensures pendingTransactions.Keys == old(pendingTransactions.Keys) - {k}
      ensures Grown(hashing, old(receivedTransactions), [t], receivedTransactions, evicted)
      ensures history == old(history) + [(k, t)]
    {
      hide Ready, Safe, Handed, IsTrue, Sound, Stored, Grown;
      Trust(t);
      IsIndexed(k);
      assert pending.saltedHash == k;
      queue := ReceiveGiven(k, t, pending);
      Give(old(mem), old(blk.Keys), old(Current()), k, t, queue);
      GrownByGiven(hashing, old(Current()), t, Current(), memory);
    }

    lemma NotKnown(k: Key, t: Transaction)
      requires Ready([]) && (honest ==> IsTrue(t)) && k == hashing.salt(t.hash) && k !in pendingTransactions
      requires k in receivedTransactions ==> receivedTransactions[k].hash != t.hash
      ensures Safe([]) && (honest ==> Sound() && k !in receivedTransactions)
    {
    }

    method StoreSafe(k: Key, t: Transaction)
      requires Safe([]) && k !in pendingTransactions
      modifies this`receivedTransactions, this`recentTransactions, this`evicted, this`history
      ensures Safe([]) && Stored(old(Current()), k, t, Current(), memory)
      ensures history == old(history) + [(k, t)]
    {
      hide Wired, Stacked, Remembered, Stored;
      StoreNewTransaction(k, t);
      StillDisjoint(old(Current()), k, t, Current(), memory, pendingTransactions);
      assert pendingTransactions - {k} == pendingTransactions;
    }

    method StoreGiven(k: Key, t: Transaction)
      requires Safe([]) && (honest ==> Sound() && IsTrue(t) && k !in receivedTransactions)
      requires k == hashing.salt(t.hash) && k !in pendingTransactions
      modifies this`receivedTransactions, this`recentTransactions, this`evicted, this`history
      ensures Safe([]) && (honest ==> Handed(mem, blk.Keys, old(Current()), k, t))
      ensures Stored(old(Current()), k, t, Current(), memory)
      ensures history == old(history) + [(k, t)]
    {
      hide Safe, Stored, Due, AllSum, Relieved, Sound, IsTrue;
      NotPendingRelieves(k);
      if honest {
        IsDue(k, t);
      }
      StoreSafe(k, t);
    }

    /** Give a transaction that no codeword is waiting for, perhaps in conflict with a received one of the same hash. */
    method GiveUnneeded(k: Key, t: Transaction)
      requires Ready([]) && k == hashing.salt(t.hash) && k !in pendingTransactions
      requires k in receivedTransactions ==> receivedTransactions[k].hash != t.hash
      modifies this`receivedTransactions, this`recentTransactions, this`evicted, this`history, this`honest, this`given
      ensures Ready([])
      ensures honest == (old(honest) && IsTrue(t)) && given == old(given) + {k} && (old(evicted) ==> evicted)
      ensures Grown(hashing, old(receivedTransactions), [t], receivedTransactions, evicted)
      ensures history == old(history) + [(k, t)]
    {
      hide Ready, Safe, Handed, IsTrue, Sound, Stored, Grown;
      Trust(t);
      NotKnown(k, t);
      StoreGiven(k, t);
      Give(mem, blk.Keys, old(Current()), k, t, []);
      GrownByGiven(hashing, old(Current()), t, Current(), memory);
    }

    /** Give a transaction that was already received. */
    ghost method GiveKnown(k: Key, t: Transaction)
      requires Ready([]) && k == hashing.salt(t.hash) && k in receivedTransactions
      modifies this`honest, this`given
      ensures Ready([]) && honest == (old(honest) && IsTrue(t)) && given == old(given) + {k}
    {
      hide Safe, Trusted, Account, IsTrue;
      Trust(t);
      if honest {
        AccountKnown(mem, all, given, Current(), memory, k);
      }
      Record(k, []);
    }

    /** Store a transaction from the user, and decode what it makes decodable. */
    method AddTransaction(t: Transaction) returns (newTx: seq<Transaction>)
      requires Ready([])
      modifies this`pendingTransactions, this`receivedTransactions, this`recentTransactions, this`evicted, this`history
      modifies this`mem, this`blk, this`honest, this`given, mem.Keys, blk.Keys
      ensures Ready([]) && mem.Keys == old(mem.Keys) && blk.Keys <= old(blk.Keys)
      ensures all == old(all) && given == old(given) + {hashing.salt(t.hash)}
      ensures honest == (old(honest) && IsTrue(t)) && (old(evicted) ==> evicted)
      ensures Revealed(hashing, newTx, old(pendingTransactions.Keys) - {hashing.salt(t.hash)}, pendingTransactions.Keys)
      ensures Grown(hashing, old(receivedTransactions), [t] + newTx, receivedTransactions, evicted)
      ensures honest ==> Honest(hashing, truth, newTx)
      ensures honest ==> AllReturned(hashing, newTx, old(pendingTransactions.Keys) - {hashing.salt(t.hash)},
                                     pendingTransactions.Keys)
      ensures history == old(history) + old(Given(t)) + Entries(hashing, newTx)
      ensures recentTransactions == Latest(old(recentTransactions) + old(Given(t)) + Entries(hashing, newTx), memory)
      ensures old(Given(t)) != [] && newTx == [] ==>
        (hashing.salt(t.hash) in receivedTransactions <==>
         !PushesOut(old(recentTransactions), memory, hashing.salt(t.hash), t))
      ensures old(Given(t)) == [] ==> newTx == [] && receivedTransactions == old(receivedTransactions)
    {
      hide Ready, IsTrue, Grown, Revealed, Honest, Given, Entries, AllReturned, PushesOut;
      GivenIs(t);
      NeverBoth();
      var saltedHash := hashing.salt(t.hash);
      if saltedHash in receivedTransactions && receivedTransactions[saltedHash].hash == t.hash {
        NothingRevealed(hashing, truth, t, receivedTransactions, pendingTransactions.Keys, evicted);
        GiveKnown(saltedHash, t);
        newTx := [];
      } else {
        newTx := AddNew(saltedHash, t);
      }
    }

    /** Store a transaction from the user that is not received, or is in conflict with a received one of the same salted
        hash. */
    method AddNew(k: Key, t: Transaction) returns (newTx: seq<Transaction>)
      requires Ready([]) && k == hashing.salt(t.hash)
      requires k in receivedTransactions ==> k !in pendingTransactions && receivedTransactions[k].hash != t.hash
      modifies this`pendingTransactions, this`receivedTransactions, this`recentTransactions, this`evicted, this`history
      modifies this`mem, this`blk, this`honest, this`given, mem.Keys, blk.Keys
      ensures Ready([]) && mem.Keys == old(mem.Keys) && blk.Keys <= old(blk.Keys)
      ensures all == old(all) && given == old(given) + {k}
      ensures honest == (old(honest) && IsTrue(t)) && (old(evicted) ==> evicted)
      ensures Revealed(hashing, newTx, old(pendingTransactions.Keys) - {k}, pendingTransactions.Keys)
      ensures Grown(hashing, old(receivedTransactions), [t] + newTx, receivedTransactions, evicted)
      ensures honest ==> Honest(hashing, truth, newTx)
      ensures honest ==> AllReturned(hashing, newTx, old(pendingTransactions.Keys) - {k}, pendingTransactions.Keys)
      ensures history == old(history) + [(k, t)] + Entries(hashing, newTx)
      ensures recentTransactions == Latest(old(recentTransactions) + [(k, t)] + Entries(hashing, newTx), memory)
      ensures newTx == [] ==> (k in receivedTransactions <==> !PushesOut(old(recentTransactions), memory, k, t))
    {
      hide Ready, Remembered, IsTrue, Grown, Revealed, Honest, Entries, AllReturned, PushesOut, Latest, Given;
      ReadyRemembers([]);
      ghost var stored := history;
      if k in pendingTransactions {
        newTx := AddPending(k, t);
      } else {
        GivenIs(t);
        NothingRevealed(hashing, truth, t, receivedTransactions, pendingTransactions.Keys, evicted);
        GiveUnneeded(k, t);
        newTx := [];
      }
      ReadyRemembers([]);
      GivenRecent(stored, Entries(hashing, newTx), k, t);
    }

    /** What is stored of a transaction from the user: nothing if it is received already. */
    ghost function Given(t: Transaction): seq<Entry>
      reads this`receivedTransactions
    {
      var k := hashing.salt(t.hash);
      if k in receivedTransactions && receivedTransactions[k].hash == t.hash then [] else [(k, t)]
    }

    lemma GivenIs(t: Transaction)
      ensures var k := hashing.salt(t.hash);
        Given(t) == if k in receivedTransactions && receivedTransactions[k].hash == t.hash then [] else [(k, t)]
      ensures Entries(hashing, []) == [] && AllReturned(hashing, [], pendingTransactions.Keys, pendingTransactions.Keys)
      ensures hashing.salt(t.hash) !in pendingTransactions ==>
        pendingTransactions.Keys - {hashing.salt(t.hash)} == pendingTransactions.Keys
    {
    }

    lemma GivenRecent(stored: seq<Entry>, more: seq<Entry>, k: Key, t: Transaction)
      requires Remembered() && history == stored + [(k, t)] + more
      ensures recentTransactions == Latest(Latest(stored, memory) + [(k, t)] + more, memory)
      ensures more == [] ==> (k in receivedTransactions <==> !PushesOut(Latest(stored, memory), memory, k, t))
    {
      hide Kept, PushesOut;
      KeptRecent(history, memory);
      assert stored + [(k, t)] + more == stored + ([(k, t)] + more);
      assert Latest(stored, memory) + [(k, t)] + more == Latest(stored, memory) + ([(k, t)] + more);
      LatestOn(stored, [(k, t)] + more, memory);
      if more == [] {
        assert history == stored + [(k, t)];
        JustStored(stored, memory, k, t);
      }
    }

    method HasDecoded(tx: Transaction) returns (there: bool)
      ensures there <==> hashing.salt(tx.hash) in receivedTransactions
    {
      var saltedHash := hashing.salt(tx.hash);
      there := saltedHash in receivedTransactions;
    }

    /** Received and pending transactions stay apart, the links agree in both directions, every pending transaction is
        needed by some codeword, and every received one is still among the recent ones, so that at most memory of them
        are held. */
    lemma Invariants()
      requires Ready([])
      ensures pendingTransactions.Keys !! receivedTransactions.Keys
      ensures forall c, s | c in mem && s in c.members :: s in blk && multiset(c.members)[s] == multiset(s.blocking)[c]
      ensures forall s, c | s in blk && c in s.blocking :: c in mem && multiset(c.members)[s] == multiset(s.blocking)[c]
      ensures forall s | s in blk :: s.saltedHash in pendingTransactions && pendingTransactions[s.saltedHash] == s
      ensures forall s | s in blk :: exists c :: c in mem && s in c.members
      ensures forall c | c in mem :: |c.members| != 1 && (c.decoded <==> c.members == [])
      ensures |receivedTransactions| <= |recentTransactions| <= memory
      ensures forall k | k in receivedTransactions :: (k, receivedTransactions[k]) in recentTransactions
    {
      KeptRemembers(history, memory);
      KeptRecent(history, memory);
      AtMost(receivedTransactions, recentTransactions);
      assert forall c | c in mem :: InPlace(c.queued, c.decoded, |mem[c]|, false);
      forall s | s in blk
        ensures exists c :: c in mem && s in c.members
      {
        var c := blk[s][0];
        assert multiset(c.members)[s] == multiset(s.blocking)[c] > 0;
      }
    }

    /** With evictions, too, it is determined what is received: a salted hash stands for the last transaction stored
        under it, unless an entry of the same salted hash and data was dropped since. */
    lemma ReceivedExactly(k: Key, i: nat)
      requires Ready([]) && IsLast(history, k, i)
      ensures k in receivedTransactions <==> !DroppedSince(history, memory, i)
      ensures k in receivedTransactions ==> receivedTransactions[k] == history[i].1
    {
      hide Kept, DroppedSince, IsLast;
      KeptExactly(history, memory, k, i);
    }

    /** When the memory has room for all transactions, what honest encoders encoded has been received if and only if the
        codewords and the given transactions force it, and a codeword is decoded if and only if all its members were
        received. */
    lemma Outcome()
      requires Ready([]) && honest && (!evicted || |given + Union(all.Values)| <= memory)
      ensures !evicted
      ensures all.Keys == mem.Keys && LeastClosed(all.Values, given, receivedTransactions.Keys)
      ensures AllTrue(hashing, truth, receivedTransactions)
      ensures forall c | c in mem :: c.decoded <==> all[c] <= receivedTransactions.Keys
    {
      var K := receivedTransactions.Keys;
      assert forall c | c in mem :: Sums(truth, c.symbol, mem[c]);
      hide Indexed, NoDuplicates, Forced, KeysOf, XorOver;
      forall c | c in mem
        ensures |all[c] - K| != 1 && (c.decoded <==> all[c] <= K)
      {
        assert Elements(mem[c]) <= blk.Keys - {};
        assert InPlace(c.queued, c.decoded, |mem[c]|, false) && NoDuplicates(mem[c]);
        NeedsNoneOrTwo(mem[c], pendingTransactions, blk.Keys - {});
        assert KeysOf(mem[c]) == all[c] - K;
        NoneLeft(all[c], K);
      }
    }

    lemma NeverBoth()
      requires Ready([])
      ensures pendingTransactions.Keys !! receivedTransactions.Keys && |recentTransactions| <= memory
    {
    }

    method AddPending(k: Key, t: Transaction) returns (newTx: seq<Transaction>)
      requires Ready([]) && k == hashing.salt(t.hash) && k in pendingTransactions
      modifies this`pendingTransactions, this`receivedTransactions, this`recentTransactions, this`evicted, this`history
      modifies this`mem, this`blk, this`honest, this`given, mem.Keys, blk.Keys
      ensures Ready([]) && mem.Keys == old(mem.Keys) && blk.Keys <= old(blk.Keys)
      ensures all == old(all) && given == old(given) + {k}
      ensures honest == (old(honest) && IsTrue(t)) && (old(evicted) ==> evicted)
      ensures Revealed(hashing, newTx, old(pendingTransactions.Keys) - {k}, pendingTransactions.Keys)
      ensures Grown(hashing, old(receivedTransactions), [t] + newTx, receivedTransactions, evicted)
      ensures honest ==> Honest(hashing, truth, newTx)
      ensures honest ==> AllReturned(hashing, newTx, old(pendingTransactions.Keys) - {k}, pendingTransactions.Keys)
      ensures history == old(history) + [(k, t)] + Entries(hashing, newTx)
    {
      hide Ready, IsTrue, Grown, Revealed, Honest, Reports, AllReturned, Entries;
      var queue := GivePending(k, t, pendingTransactions[k]);
      ghost var still, middle, evictedBefore := pendingTransactions.Keys, receivedTransactions, evicted;
      newTx := DecodeCodewords(queue);
      ReportedMore(old(receivedTransactions), t, middle, evictedBefore, newTx, still, old(history) + [(k, t)]);
    }

    lemma ReportedMore(before: map<Key, Transaction>, t: Transaction, middle: map<Key, Transaction>,
                       evictedBefore: bool, newTx: seq<Transaction>, still: set<Key>,
                       stored: seq<Entry>)
      requires Grown(hashing, before, [t], middle, evictedBefore) && Reports(newTx, still, middle, stored)
      requires evictedBefore ==> evicted
      ensures Revealed(hashing, newTx, still, pendingTransactions.Keys)
      ensures Grown(hashing, before, [t] + newTx, receivedTransactions, evicted)
      ensures honest ==> Honest(hashing, truth, newTx)
      ensures honest ==> AllReturned(hashing, newTx, still, pendingTransactions.Keys)
      ensures history == stored + Entries(hashing, newTx)
    {
      GrownByMore(hashing, before, [t], middle, evictedBefore, newTx, receivedTransactions, evicted);
    }
  }

  /** The keys pending before and those members that are not known. */
  ghost predicate PendingWith(pending: set<Key>, before: set<Key>, members: seq<Key>, known: set<Key>) {
    pending == before + (Elements(members) - known)
  }

  lemma PendingWithNone(pending: set<Key>, members: seq<Key>, known: set<Key>)
    ensures PendingWith(pending, pending, members[..0], known)
  {
  }

  lemma PendingWithOneMore(pending: set<Key>, before: set<Key>, members: seq<Key>, i: nat, known: set<Key>)
    requires i < |members| && PendingWith(pending, before, members[..i], known)
    ensures PendingWith(pending + if members[i] in known then {} else {members[i]}, before, members[..i + 1], known)
  {
    OneMoreDone(members, i);
  }

  lemma AsAWhole<T>(s: seq<T>)
    ensures s[..0] == [] && Elements<T>([]) == {} && s[0..] == s && s[..|s|] == s && s[|s|..] == []
  {
  }

  lemma OneMoreDone<T>(s: seq<T>, i: nat)
    requires i < |s|
    ensures Elements(s[..i + 1]) == Elements(s[..i]) + {s[i]} && s[i..][1..] == s[i + 1..] && s[i..][0] == s[i]
  {
    assert s[..i + 1] == s[..i] + [s[i]];
  }

  /** The stubs on a list have different salted hashes, so that two of them are two keys. */
  lemma NeedsNoneOrTwo(m: seq<PendingTransaction>, pending: map<Key, PendingTransaction>,
                       stubs: set<PendingTransaction>)
    requires Indexed(pending, stubs) && Elements(m) <= stubs && NoDuplicates(m) && |m| != 1
    ensures |KeysOf(m)| != 1 && (KeysOf(m) == {} <==> m == [])
  {
    if |m| >= 2 {
      assert m[0] in Elements(m) && m[1] in Elements(m);
      assert m[0].saltedHash in KeysOf(m) && m[1].saltedHash in KeysOf(m);
      var others := KeysOf(m) - {m[0].saltedHash};
      assert m[1].saltedHash in others;
      assert KeysOf(m) == {m[0].saltedHash} + others;
    }
  }

  lemma RestSame<K, V>(m: map<K, V>, k: K, v: V)
    ensures m[k := v] - {k} == m - {k}
  {
  }

  lemma NoneLeft<T>(a: set<T>, b: set<T>)
    ensures a - b == {} <==> a <= b
  {
    forall x | x in a && x !in b
      ensures a - b != {}
    {
      assert x in a - b;
    }
  }

  /** A map whose entries are all on a list has at most as many entries as the list. */
  lemma {:induction false} AtMost<K, V>(m: map<K, V>, s: seq<(K, V)>)
    requires forall k | k in m :: (k, m[k]) in s
    ensures |m| <= |s|
  {
    if s != [] {
      var k := s[0].0;
      assert s == [s[0]] + s[1..];
      AtMost(m - {k}, s[1..]);
      assert m.Keys <= (m - {k}).Keys + {k};
      assert |m| == |m.Keys| && |m - {k}| == |(m - {k}).Keys|;
      assert m.Keys - {k} == (m - {k}).Keys;
    }
  }

  /** While tx is being decoded no other transaction has its salted hash. */
  lemma DistinctKeys(mem: map<PendingCodeword, seq<PendingTransaction>>,
                     blk: map<PendingTransaction, seq<PendingCodeword>>,
                     pending: map<Key, PendingTransaction>, tx: PendingTransaction)
    requires Linked(mem, blk) && Indexed(pending, blk.Keys - {tx}) && tx.saltedHash !in pending
    ensures forall c, s | c in mem && s in mem[c] && s != tx :: s.saltedHash != tx.saltedHash
  {
  }

  lemma Appended<T>(s: seq<T>, x: T)
    requires NoDuplicates(s) && x !in s
    ensures NoDuplicates(s + [x]) && Elements(s + [x]) == Elements(s) + {x}
  {
  }

  lemma HeadIsLinked(mem: map<PendingCodeword, seq<PendingTransaction>>,
                     blk: map<PendingTransaction, seq<PendingCodeword>>,
                     tx: PendingTransaction, c: PendingCodeword, rest: seq<PendingCodeword>)
    requires Linked(mem, blk) && tx in blk && blk[tx] == [c] + rest
    ensures c in mem && tx in mem[c] && multiset(rest) + multiset{c} == multiset(blk[tx])
  {
    assert c in blk[tx];
    assert multiset(mem[c])[tx] == multiset(blk[tx])[c];
  }
}
