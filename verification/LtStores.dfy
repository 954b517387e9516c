/** The bounded memory of an LT decoder as values: what it has stored, and what of it the decoder still knows
    (lt/decoder.go). */
module LtStores {
  import opened Words
  import opened Lists
  import opened LtGraph

  datatype Transaction = Transaction(data: Word, hash: Word)

  /** The hash of transaction data, and the decoder's salted hash of that hash. */
  datatype Hashing = Hashing(full: Word -> Word, salt: Word -> Key)

  function NewTransaction(h: Hashing, data: Word): Transaction {
    Transaction(data, h.full(data))
  }

  /** A transaction under the salted hash that it was stored under. */
  type Entry = (Key, Transaction)

  /** The entries of transactions, each under its own salted hash. */
  function Entries(h: Hashing, txs: seq<Transaction>): (es: seq<Entry>)
    ensures |es| == |txs| && forall i | 0 <= i < |txs| :: es[i] == (h.salt(txs[i].hash), txs[i])
  {
    seq(|txs|, i requires 0 <= i < |txs| => (h.salt(txs[i].hash), txs[i]))
  }

  lemma EntriesOneMore(h: Hashing, txs: seq<Transaction>, t: Transaction)
    ensures Entries(h, txs + [t]) == Entries(h, txs) + [(h.salt(t.hash), t)]
  {
  }

  lemma MoreEntries(h: Hashing, txs: seq<Transaction>, more: seq<Transaction>)
    ensures Entries(h, txs + more) == Entries(h, txs) + Entries(h, more)
  {
  }

  /** An entry on the list has the given salted hash and data. */
  ghost predicate Names(entries: seq<Entry>, k: Key, data: Word) {
    exists j :: 0 <= j < |entries| && entries[j].0 == k && entries[j].1.data == data
  }

  lemma NamesOneMore(entries: seq<Entry>, e: Entry, k: Key, data: Word)
    ensures Names(entries + [e], k, data) <==> Names(entries, k, data) || (e.0 == k && e.1.data == data)
  {
    var more := entries + [e];
    assert more[|entries|] == e && forall j | 0 <= j < |entries| :: more[j] == entries[j];
  }

  /** What is still received when the given entries have been dropped. */
  ghost function Undropped(received: map<Key, Transaction>, dropped: seq<Entry>): map<Key, Transaction> {
    map k | k in received && !Names(dropped, k, received[k].data) :: received[k]
  }

  lemma DropOneMore(received: map<Key, Transaction>, dropped: seq<Entry>, e: Entry)
    ensures var mid := Undropped(received, dropped);
      Undropped(received, dropped + [e]) == if e.0 in mid && mid[e.0].data == e.1.data then mid - {e.0} else mid
  {
    forall k | k in received
      ensures Names(dropped + [e], k, received[k].data) <==>
              Names(dropped, k, received[k].data) || (e.0 == k && e.1.data == received[k].data)
    {
      NamesOneMore(dropped, e, k, received[k].data);
    }
  }

  lemma NothingDropped(received: map<Key, Transaction>)
    ensures Undropped(received, []) == received
  {
  }

  /** What a decoder has received, its recent entries, and whether any was ever evicted. */
  datatype Store = Store(received: map<Key, Transaction>, recent: seq<Entry>, evicted: bool)

  /** One more entry: the oldest ones that no longer fit are dropped, each with what was received under its salted hash
      if it has the same data. */
  ghost function StoreOne(s: Store, e: Entry, memory: nat): Store {
    var all := s.recent + [e];
    Store(Undropped(s.received[e.0 := e.1], all[..|all| - |Latest(all, memory)|]), Latest(all, memory),
          s.evicted || |all| > memory)
  }

  ghost predicate Stored(before: Store, saltedHash: Key, t: Transaction, after: Store, memory: nat) {
    after == StoreOne(before, (saltedHash, t), memory)
  }

  /** The transactions of before and the new one; something is evicted if and only if there is no room for it. */
  lemma StoredMeans(before: Store, saltedHash: Key, t: Transaction, after: Store, memory: nat)
    requires Stored(before, saltedHash, t, after, memory)
    ensures forall k | k in after.received ::
      if k == saltedHash then after.received[k] == t
      else k in before.received && after.received[k] == before.received[k]
    ensures after.evicted == (before.evicted || |before.recent| + 1 > memory)
    ensures !after.evicted ==>
      after.received == before.received[saltedHash := t] && |after.recent| == |before.recent| + 1
  {
    if !after.evicted {
      var all := before.recent + [(saltedHash, t)];
      assert all[..|all| - |Latest(all, memory)|] == [];
      NothingDropped(before.received[saltedHash := t]);
    }
  }

  /** What a decoder knows after storing the given entries. */
  ghost function Kept(history: seq<Entry>, memory: nat): Store {
    if history == [] then Store(map[], [], false)
    else StoreOne(Kept(history[..|history| - 1], memory), history[|history| - 1], memory)
  }

  lemma KeepOneMore(history: seq<Entry>, e: Entry, memory: nat)
    ensures Kept(history + [e], memory) == StoreOne(Kept(history, memory), e, memory)
  {
    assert (history + [e])[..|history|] == history;
  }

  lemma LatestOn<T>(s: seq<T>, more: seq<T>, size: nat)
    ensures Latest(Latest(s, size) + more, size) == Latest(s + more, size)
  {
  }

  lemma LatestSize<T>(s: seq<T>, size: nat)
    ensures |Latest(s, size)| == if |s| < size then |s| else size
    ensures s == [] ==> Latest(s, size) == []
  {
  }

  /** The recent entries are the latest that fit; something was evicted if and only if not all of them fit. */
  lemma {:induction false} KeptRecent(history: seq<Entry>, memory: nat)
    ensures Kept(history, memory).recent == Latest(history, memory)
    ensures Kept(history, memory).evicted <==> |history| > memory
  {
    if history != [] {
      hide Kept, Latest, Undropped;
      var front, e := history[..|history| - 1], history[|history| - 1];
      assert history == front + [e];
      KeptRecent(front, memory);
      KeepOneMore(front, e, memory);
      LatestOn(front, [e], memory);
      LatestSize(front, memory);
    } else {
      LatestSize(history, memory);
    }
  }

  /** Storing drops at most the one entry that then is too old. */
  lemma DroppedNow(history: seq<Entry>, e: Entry, memory: nat)
    ensures var all := Kept(history, memory).recent + [e]; var n := |history|;
      all[..|all| - |Latest(all, memory)|] == if n < memory then [] else [(history + [e])[n - memory]]
  {
    KeptRecent(history, memory);
  }

  /** An entry with the salted hash and data of entry i was dropped when entry i was stored or later. */
  ghost predicate DroppedSince(history: seq<Entry>, memory: nat, i: nat)
    requires i < |history|
  {
    exists j | 0 <= j <= i :: i <= j + memory < |history| && history[j].0 == history[i].0 &&
                              history[j].1.data == history[i].1.data
  }

  /** Entry i is the last one with the salted hash k. */
  ghost predicate IsLast(history: seq<Entry>, k: Key, i: nat) {
    i < |history| && history[i].0 == k && forall j | i < j < |history| :: history[j].0 != k
  }

  lemma DroppedOneMore(history: seq<Entry>, e: Entry, memory: nat, i: nat)
    requires i < |history| && e.0 != history[i].0
    ensures var h := history + [e];
      DroppedSince(h, memory, i) <==>
      DroppedSince(history, memory, i) ||
      (memory <= |history| && h[|history| - memory].0 == h[i].0 && |history| - memory <= i &&
       h[|history| - memory].1.data == h[i].1.data)
  {
    var h := history + [e];
    assert forall j | 0 <= j < |history| :: h[j] == history[j];
    if memory <= |history| && |history| - memory <= i && h[|history| - memory].0 == h[i].0 &&
       h[|history| - memory].1.data == h[i].1.data {
      assert h[|history| - memory] == h[|history| - memory];
    }
    if DroppedSince(history, memory, i) {
      var j :| 0 <= j <= i && i <= j + memory < |history| && history[j].0 == history[i].0 &&
               history[j].1.data == history[i].1.data;
      assert h[j] == history[j];
    }
  }

  /** What is received once the entry e was stored. */
  lemma ReceivedOneMore(history: seq<Entry>, e: Entry, memory: nat, k: Key)
    ensures var h, n := history + [e], |history|;
      var before, after := Kept(history, memory).received[e.0 := e.1], Kept(h, memory).received;
      && (k in after <==>
          (k in before && !(memory <= n && h[n - memory].0 == k && h[n - memory].1.data == before[k].data)))
      && (k in after ==> after[k] == before[k])
  {
    hide Kept, Names;
    var h, n, before := history + [e], |history|, Kept(history, memory).received[e.0 := e.1];
    KeepOneMore(history, e, memory);
    DroppedNow(history, e, memory);
    if k in before {
      NoNames(k, before[k].data);
      if memory <= n {
        NamesOneMore([], h[n - memory], k, before[k].data);
        assert [] + [h[n - memory]] == [h[n - memory]];
      }
    }
  }

  lemma NoNames(k: Key, data: Word)
    ensures !Names([], k, data)
  {
  }

  lemma DroppedAtOnce(history: seq<Entry>, memory: nat, n: nat)
    requires |history| == n + 1
    ensures DroppedSince(history, memory, n) <==>
            memory <= n && history[n - memory].0 == history[n].0 && history[n - memory].1.data == history[n].1.data
  {
    if memory <= n {
      assert history[n - memory] == history[n - memory];
    }
  }

  /** What is still received, whatever was stored: a salted hash stands for the last transaction stored under it, unless
      an entry of the same salted hash and data was dropped since then. */
  lemma {:induction false} KeptExactly(history: seq<Entry>, memory: nat, k: Key, i: nat)
    requires IsLast(history, k, i)
    ensures k in Kept(history, memory).received <==> !DroppedSince(history, memory, i)
    ensures k in Kept(history, memory).received ==> Kept(history, memory).received[k] == history[i].1
  {
    hide Kept, DroppedSince;
    var n := |history| - 1;
    var front, e := history[..n], history[n];
    assert history == front + [e];
    ReceivedOneMore(front, e, memory, k);
    if i == n {
      DroppedAtOnce(history, memory, n);
    } else {
      assert IsLast(front, k, i);
      KeptExactly(front, memory, k, i);
      DroppedOneMore(front, e, memory, i);
    }
  }

  /** Of the latest entries, each is received under its salted hash if no other entry among them and those that were the
      latest when it was stored has that hash. */
  lemma LatestAreKept(history: seq<Entry>, memory: nat, i: nat)
    requires i < |history| <= i + memory
    requires forall j | 0 <= j < |history| && j != i && i < j + memory + 1 :: history[j].0 != history[i].0
    ensures var received := Kept(history, memory).received;
      history[i].0 in received && received[history[i].0] == history[i].1
  {
    KeptExactly(history, memory, history[i].0, i);
  }

  /** Storing t under k drops it at once: the oldest of the full memory has the same salted hash and data. */
  ghost predicate PushesOut(recent: seq<Entry>, memory: nat, k: Key, t: Transaction) {
    |recent| >= memory && (recent + [(k, t)])[0].0 == k && (recent + [(k, t)])[0].1.data == t.data
  }

  /** A transaction just stored is received, unless it pushes itself out. */
  lemma JustStored(history: seq<Entry>, memory: nat, k: Key, t: Transaction)
    ensures var after := Kept(history + [(k, t)], memory).received;
      && (k in after <==> !PushesOut(Latest(history, memory), memory, k, t))
      && (k in after ==> after[k] == t)
  {
    ReceivedOneMore(history, (k, t), memory, k);
    var all := Latest(history, memory) + [(k, t)];
    if memory <= |history| {
      assert all[0] == (history + [(k, t)])[|history| - memory];
    }
  }

  /** A transaction can push itself out although the memory has room for two: a, then one with the same salted hash,
      then a again. */
  lemma PushedOut(k: Key, a: Transaction, b: Transaction)
    requires a.data != b.data
    ensures var two := Kept([(k, a), (k, b)], 2);
      two.received == map[k := b] && PushesOut(two.recent, 2, k, a) &&
      k !in Kept([(k, a), (k, b)] + [(k, a)], 2).received
  {
    var h := [(k, a), (k, b)];
    KeptRecent(h, 2);
    assert IsLast(h, k, 1);
    KeptExactly(h, 2, k, 1);
    OnlyKey(k, a, b);
    JustStored(h, 2, k, a);
  }

  lemma OnlyKey(k: Key, a: Transaction, b: Transaction)
    ensures forall l | l in Kept([(k, a), (k, b)], 2).received :: l == k
  {
    hide Kept;
    forall l: Key | l != k
      ensures l !in Kept([(k, a), (k, b)], 2).received
    {
      NeverKept([(k, a), (k, b)], 2, l);
    }
  }

  /** What was never stored is not received. */
  lemma {:induction false} NeverKept(history: seq<Entry>, memory: nat, k: Key)
    requires forall e | e in history :: e.0 != k
    ensures k !in Kept(history, memory).received
  {
    if history != [] {
      NeverKept(history[..|history| - 1], memory, k);
      assert history[|history| - 1] in history;
    }
  }

  /** What was returned is all that was stored, except for what was stored on behalf of the user. */
  ghost predicate Told(h: Hashing, history: seq<Entry>, own: seq<Entry>, txs: seq<Transaction>) {
    multiset(history) == multiset(own) + multiset(Entries(h, txs))
  }

  lemma MoreTold(h: Hashing, history: seq<Entry>, own: seq<Entry>, txs: seq<Transaction>, given: seq<Entry>,
                 more: seq<Transaction>)
    requires Told(h, history, own, txs)
    ensures Told(h, history + given + Entries(h, more), own + given, txs + more)
  {
    MoreEntries(h, txs, more);
  }

  /** Whatever is received was returned, or stored on behalf of the user. */
  lemma ReceivedWasTold(h: Hashing, history: seq<Entry>, own: seq<Entry>, txs: seq<Transaction>, memory: nat, k: Key)
    requires Told(h, history, own, txs) && k in Kept(history, memory).received
    ensures var t := Kept(history, memory).received[k];
      (k, t) in own || (t in txs && h.salt(t.hash) == k)
  {
    hide Kept;
    var e := (k, Kept(history, memory).received[k]);
    KeptRemembers(history, memory);
    KeptRecent(history, memory);
    assert e in history;
    assert e in multiset(history);
    if e !in own {
      assert e in multiset(Entries(h, txs));
      var i :| 0 <= i < |txs| && Entries(h, txs)[i] == e;
    }
  }

  /** Whatever is received is still among the recent entries. */
  lemma {:induction false} KeptRemembers(history: seq<Entry>, memory: nat)
    ensures forall k | k in Kept(history, memory).received ::
      (k, Kept(history, memory).received[k]) in Kept(history, memory).recent
  {
    if history != [] {
      var front, e := history[..|history| - 1], history[|history| - 1];
      KeptRemembers(front, memory);
      assert history == front + [e];
      StillRemembered(Kept(front, memory), e, memory);
    }
  }

  lemma StillRemembered(s: Store, e: Entry, memory: nat)
    requires forall k | k in s.received :: (k, s.received[k]) in s.recent
    ensures var t := StoreOne(s, e, memory); forall k | k in t.received :: (k, t.received[k]) in t.recent
  {
    var all, t := s.recent + [e], StoreOne(s, e, memory);
    var n := |all| - |t.recent|;
    assert e in all && forall x | x in s.recent :: x in all;
    forall k | k in t.received
      ensures (k, t.received[k]) in t.recent
    {
      assert (k, t.received[k]) in all && !Names(all[..n], k, t.received[k].data);
      InTheRest(all, n, k, t.received[k]);
    }
  }

  lemma InTheRest(all: seq<Entry>, n: nat, k: Key, t: Transaction)
    requires n <= |all| && (k, t) in all && !Names(all[..n], k, t.data)
    ensures (k, t) in all[n..]
  {
    var i :| 0 <= i < |all| && all[i] == (k, t);
    assert forall j | 0 <= j < n :: all[..n][j] == all[j];
    assert i >= n;
    assert all[n..][i - n] == (k, t);
  }
}
