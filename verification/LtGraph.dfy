/** The peeling graph of the LT decoder as values: codewords list the transactions they still need, transactions list
    the codewords they block, and peeling reveals the least set closed under "one unknown member is revealed"
    (lt/decoder.go). */
module LtGraph {
  import opened Words
  import opened Lists

  type Key = k: nat | k < 0x1_0000_0000

  /** The two lists agree in both directions, counting repetitions. */
  ghost predicate Linked<C, S>(mem: map<C, seq<S>>, blk: map<S, seq<C>>) {
    && (forall c, s | c in mem && s in mem[c] :: s in blk)
    && (forall s, c | s in blk && c in blk[s] :: c in mem)
    && (forall c, s | c in mem && s in blk :: multiset(mem[c])[s] == multiset(blk[s])[c])
  }

  /** Taking one link away on both sides. */
  lemma UnlinkKeeps<C, S>(mem: map<C, seq<S>>, blk: map<S, seq<C>>, c: C, s: S, m: seq<S>, b: seq<C>)
    requires Linked(mem, blk) && c in mem && s in blk && s in mem[c]
    requires multiset(m) + multiset{s} == multiset(mem[c]) && multiset(b) + multiset{c} == multiset(blk[s])
    ensures Linked(mem[c := m], blk[s := b])
  {
    var mem', blk' := mem[c := m], blk[s := b];
    OneLess(m, mem[c], s);
    OneLess(b, blk[s], c);
    forall d, t | d in mem' && t in mem'[d]
      ensures t in blk'
    {
      assert t in mem[d];
    }
    forall t, d | t in blk' && d in blk'[t]
      ensures d in mem'
    {
      assert d in blk[t];
    }
    forall d, t | d in mem' && t in blk'
      ensures multiset(mem'[d])[t] == multiset(blk'[t])[d]
    {
      assert multiset(mem[d])[t] == multiset(blk[t])[d];
    }
  }

  /** m is the list whole without one occurrence of x. */
  lemma OneLess<T>(m: seq<T>, whole: seq<T>, x: T)
    requires multiset(m) + multiset{x} == multiset(whole)
    ensures forall y :: multiset(m)[y] == multiset(whole)[y] - if y == x then 1 else 0
    ensures forall y | y in m :: y in whole
  {
    forall y | y in m
      ensures y in whole
    {
      assert y in multiset(m) && y in multiset(whole);
    }
  }

  /** Adding one link on both sides. */
  lemma LinkKeeps<C, S>(mem: map<C, seq<S>>, blk: map<S, seq<C>>, c: C, s: S)
    requires Linked(mem, blk) && c in mem && s in blk
    ensures Linked(mem[c := mem[c] + [s]], blk[s := blk[s] + [c]])
  {
  }

  /** A new codeword without members. */
  lemma NewCodewordKeeps<C, S>(mem: map<C, seq<S>>, blk: map<S, seq<C>>, c: C)
    requires Linked(mem, blk) && c !in mem
    ensures Linked(mem[c := []], blk)
  {
  }

  /** A new transaction that blocks nothing. */
  lemma NewTransactionKeeps<C, S>(mem: map<C, seq<S>>, blk: map<S, seq<C>>, s: S)
    requires Linked(mem, blk) && s !in blk
    ensures Linked(mem, blk[s := []])
  {
  }

  /** A transaction that blocks nothing can be forgotten. */
  lemma ForgetKeeps<C, S>(mem: map<C, seq<S>>, blk: map<S, seq<C>>, s: S)
    requires Linked(mem, blk) && s in blk && blk[s] == []
    ensures Linked(mem, blk - {s})
    ensures forall c | c in mem :: s !in mem[c]
  {
    forall c | c in mem
      ensures s !in mem[c]
    {
      assert multiset(mem[c])[s] == multiset(blk[s])[c] == 0;
    }
  }

  /** K is closed: no codeword of the family has exactly one member outside K. */
  ghost predicate Closed(family: set<set<Key>>, K: set<Key>) {
    forall M | M in family :: |M - K| != 1
  }

  /** Everything in K is forced by the keys given and by codewords with one unknown member. */
  ghost predicate Forced(family: set<set<Key>>, given: set<Key>, K: set<Key>) {
    forall L | given <= L && Closed(family, L) :: K <= L
  }

  /** K is the least closed set that contains the given keys. */
  ghost predicate LeastClosed(family: set<set<Key>>, given: set<Key>, K: set<Key>) {
    given <= K && Closed(family, K) && Forced(family, given, K)
  }

  /** The order in which codewords and transactions arrive does not matter. */
  lemma LeastClosedIsUnique(family: set<set<Key>>, given: set<Key>, K: set<Key>, L: set<Key>)
    requires LeastClosed(family, given, K) && LeastClosed(family, given, L)
    ensures K == L
  {
    assert K <= L && L <= K;
  }

  ghost function Union(family: set<set<Key>>): set<Key> {
    set M, k | M in family && k in M :: k
  }

  /** Nothing is received that was neither given nor a member of a codeword. */
  lemma ForcedIsSound(family: set<set<Key>>, given: set<Key>, K: set<Key>)
    requires Forced(family, given, K)
    ensures K <= given + Union(family)
  {
    var L := given + Union(family);
    forall M | M in family
      ensures |M - L| != 1
    {
      assert M - L == {};
    }
    assert Closed(family, L);
  }

  /** A codeword with one unknown member reveals it. */
  lemma RevealForces(family: set<set<Key>>, given: set<Key>, K: set<Key>, M: set<Key>, k: Key)
    requires Forced(family, given, K) && M in family && M - K == {k}
    ensures Forced(family, given, K + {k})
  {
    forall L | given <= L && Closed(family, L)
      ensures K + {k} <= L
    {
      assert M - L <= {k};
      assert k !in L ==> M - L == {k};
    }
  }

  lemma GivenForces(family: set<set<Key>>, given: set<Key>, K: set<Key>, k: Key)
    requires Forced(family, given, K)
    ensures Forced(family, given + {k}, K + {k})
  {
  }

  lemma MoreFamilyForces(family: set<set<Key>>, given: set<Key>, K: set<Key>, M: set<Key>)
    requires Forced(family, given, K)
    ensures Forced(family + {M}, given, K)
  {
    forall L | given <= L && Closed(family + {M}, L)
      ensures K <= L
    {
      assert forall N | N in family :: N in family + {M};
      assert Closed(family, L);
    }
  }

  ghost function PickKey(K: set<Key>): Key
    requires K != {}
  {
    var k :| k in K; k
  }

  function Truth(truth: map<Key, Word>, k: Key): Word {
    if k in truth then truth[k] else 0
  }

  /** The XOR of the true data of the keys in K. */
  ghost function XorOver(truth: map<Key, Word>, K: set<Key>): Word {
    if K == {} then 0 else var k := PickKey(K); Xor(XorOver(truth, K - {k}), Truth(truth, k))
  }

  lemma XorSwap(a: Word, x: Word, y: Word)
    ensures Xor(Xor(a, x), y) == Xor(Xor(a, y), x)
  {
    XorLaws(a, x, y);
    XorLaws(a, y, x);
    XorLaws(x, y, 0);
  }

  lemma {:induction false} XorRemove(truth: map<Key, Word>, K: set<Key>, k: Key)
    requires k in K
    ensures XorOver(truth, K) == Xor(XorOver(truth, K - {k}), Truth(truth, k))
  {
    var l := PickKey(K);
    if k != l {
      XorRemove(truth, K - {l}, k);
      XorRemove(truth, K - {k}, l);
      assert K - {k} - {l} == K - {l} - {k};
      XorSwap(XorOver(truth, K - {k} - {l}), Truth(truth, k), Truth(truth, l));
    }
  }

  /** Peeling a member out of a codeword. */
  lemma XorPeels(truth: map<Key, Word>, K: set<Key>, k: Key)
    requires k in K
    ensures Xor(XorOver(truth, K), Truth(truth, k)) == XorOver(truth, K - {k})
  {
    var r, t := XorOver(truth, K - {k}), Truth(truth, k);
    XorRemove(truth, K, k);
    XorLaws(r, t, t);
    XorLaws(t, t, t);
  }

  lemma XorOfOne(truth: map<Key, Word>, k: Key)
    ensures XorOver(truth, {k}) == Truth(truth, k)
  {
    XorRemove(truth, {k}, k);
    assert {k} - {k} == {};
    XorLaws(Truth(truth, k), 0, 0);
    XorLaws(0, Truth(truth, k), 0);
  }
}
