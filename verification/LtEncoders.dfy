/** The LT encoder: a sliding window of transactions with an index of their hashes, and codewords sampled from it
    without replacement (lt/encoder.go). */
module LtEncoders {
  import opened Words
  import opened Lists
  import opened LtGraph
  import opened LtStores
  import opened LtDecoders

  datatype SaltedTransaction = SaltedTransaction(saltedHash: Key, t: Transaction)

  ghost function Hashes(w: seq<SaltedTransaction>): set<Key> {
    set e | e in w :: e.saltedHash
  }

  /** The entries have different salted hashes, each the hash of its transaction. */
  ghost predicate WellHashed(h: Hashing, w: seq<SaltedTransaction>) {
    && (forall e | e in w :: e.saltedHash == h.salt(e.t.hash))
    && forall i, j | 0 <= i < j < |w| :: w[i].saltedHash != w[j].saltedHash
  }

  lemma SwapTwice<T>(w: seq<T>, i: nat, r: nat)
    requires i < |w| && r < |w|
    ensures Swap(Swap(w, i, r), i, r) == w
  {
  }

  /** A record of a shuffle: step i swaps places i and history[i], and never touches a place before i. */
  predicate IsHistory(history: seq<nat>, n: nat) {
    |history| <= n && forall i | 0 <= i < |history| :: i <= history[i] < n
  }

  function Shuffled<T>(w: seq<T>, history: seq<nat>): (s: seq<T>)
    requires IsHistory(history, |w|)
    ensures |s| == |w| && multiset(s) == multiset(w)
  {
    if history == [] then w
    else var l := |history| - 1; Swap(Shuffled(w, history[..l]), l, history[l])
  }

  /** What the shuffle selected. */
  function Selected<T>(w: seq<T>, history: seq<nat>): (s: seq<T>)
    requires IsHistory(history, |w|)
    ensures |s| == |history|
  {
    Shuffled(w, history)[..|history|]
  }

  lemma SelectedGrows<T>(w: seq<T>, history: seq<nat>, r: nat)
    requires IsHistory(history + [r], |w|)
    ensures IsHistory(history, |w|) && |history| <= r < |w|
    ensures Shuffled(w, history + [r]) == Swap(Shuffled(w, history), |history|, r)
    ensures Selected(w, history + [r]) == Selected(w, history) + [Shuffled(w, history)[r]]
  {
    assert forall i | 0 <= i < |history| :: (history + [r])[i] == history[i];
    assert (history + [r])[|history|] == r;
    assert (history + [r])[..|history|] == history;
    assert Shuffled(w, history + [r]) == Swap(Shuffled(w, history), |history|, r);
    hide Shuffled, Swap;
    FrontSwapped(Shuffled(w, history), |history|, r);
  }

  lemma FrontSwapped<T>(s: seq<T>, i: nat, r: nat)
    requires i <= r < |s|
    ensures Swap(s, i, r)[..i + 1] == s[..i] + [s[r]]
  {
  }

  /** A permutation of a list without duplicates has none. */
  lemma PermutationIsDistinct<T>(s: seq<T>, w: seq<T>)
    requires multiset(s) == multiset(w) && NoDuplicates(w)
    ensures NoDuplicates(s) && Elements(s) == Elements(w)
  {
    assert multiset(s) + multiset{} == multiset(w);
    PartsAreDistinct(s, [], w);
  }

  /** Different draws select differently. */
  lemma {:induction false} SelectsOnce<T>(w: seq<T>, h: seq<nat>, g: seq<nat>)
    requires NoDuplicates(w) && IsHistory(h, |w|) && IsHistory(g, |w|) && Selected(w, h) == Selected(w, g)
    ensures h == g
  {
    hide Shuffled, Selected;
    assert |g| == |h|;
    if h != [] {
      var l := |h| - 1;
      var h0, a, g0, b := h[..l], h[l], g[..l], g[l];
      assert h == h0 + [a] && g == g0 + [b];
      SameStep(w, h0, a, g0, b);
      SelectsOnce(w, h0, g0);
      var s := Shuffled(w, h0);
      PermutationIsDistinct(s, w);
      assert s[a] == s[b];
    }
  }

  lemma SameStep<T>(w: seq<T>, h: seq<nat>, a: nat, g: seq<nat>, b: nat)
    requires IsHistory(h + [a], |w|) && IsHistory(g + [b], |w|) && |h| == |g|
    requires Selected(w, h + [a]) == Selected(w, g + [b])
    ensures IsHistory(h, |w|) && IsHistory(g, |w|) && a < |w| && b < |w|
    ensures Selected(w, h) == Selected(w, g) && Shuffled(w, h)[a] == Shuffled(w, g)[b]
  {
    SelectedGrows(w, h, a);
    SelectedGrows(w, g, b);
    hide Shuffled, Selected;
    assert Selected(w, h) == Selected(w, h + [a])[..|h|];
    assert Selected(w, g) == Selected(w, g + [b])[..|h|];
    assert Selected(w, h + [a])[|h|] == Shuffled(w, h)[a];
  }

  /** Every list of different entries is selected by some draws: with uniform draws all of them are equally likely. */
  lemma {:induction false} SelectsAll<T>(w: seq<T>, target: seq<T>) returns (history: seq<nat>)
    requires NoDuplicates(w) && NoDuplicates(target) && Elements(target) <= Elements(w)
    ensures IsHistory(history, |w|) && Selected(w, history) == target
  {
    if target == [] {
      NoShuffle(w);
      history := [];
    } else {
      var l := |target| - 1;
      var first, x := target[..l], target[l];
      assert target == first + [x];
      assert x in Elements(target) && forall y | y in first :: y in Elements(target);
      hide Shuffled, Selected;
      history := SelectsAll(w, first);
      history := SelectNext(w, history, first, x);
    }
  }

  /** One more entry can be selected. */
  lemma SelectNext<T>(w: seq<T>, h: seq<nat>, first: seq<T>, x: T) returns (history: seq<nat>)
    requires NoDuplicates(w) && IsHistory(h, |w|) && x in Elements(w) && x !in first && Selected(w, h) == first
    ensures IsHistory(history, |w|) && Selected(w, history) == first + [x]
  {
    var s := Shuffled(w, h);
    PermutationIsDistinct(s, w);
    assert x in Elements(s);
    var r :| 0 <= r < |s| && s[r] == x;
    assert forall i | 0 <= i < |h| :: s[i] == first[i];
    assert |h| <= r;
    history := h + [r];
    SelectedGrows(w, h, r);
  }

  /** The window's transactions are what honest encoders encode. */
  ghost predicate Agrees(truth: map<Key, Word>, w: seq<SaltedTransaction>) {
    forall e | e in w :: e.saltedHash in truth && truth[e.saltedHash] == e.t.data
  }

  function KeysAlong(s: seq<SaltedTransaction>): (m: seq<Key>)
    ensures |m| == |s| && forall i | 0 <= i < |s| :: m[i] == s[i].saltedHash
  {
    seq(|s|, i requires 0 <= i < |s| => s[i].saltedHash)
  }

  /** A codeword of the given entries. */
  ghost predicate Encodes(c: Codeword, s: seq<SaltedTransaction>, truth: map<Key, Word>) {
    c.members == KeysAlong(s) && (Agrees(truth, s) ==> HonestCodeword(truth, c))
  }

  lemma NothingEncoded(truth: map<Key, Word>)
    ensures Encodes(Codeword(0, []), [], truth)
  {
    assert Elements<Key>([]) == {};
  }

  lemma EncodesOneMore(c: Codeword, s: seq<SaltedTransaction>, e: SaltedTransaction, truth: map<Key, Word>)
    requires Encodes(c, s, truth) && e.saltedHash !in c.members
    ensures Encodes(Codeword(Xor(c.symbol, e.t.data), c.members + [e.saltedHash]), s + [e], truth)
  {
    var c' := Codeword(Xor(c.symbol, e.t.data), c.members + [e.saltedHash]);
    assert c'.members == KeysAlong(s + [e]);
    if Agrees(truth, s + [e]) {
      assert forall x | x in s :: x in s + [e];
      assert e in s + [e];
      Appended(c.members, e.saltedHash);
      XorRemove(truth, Elements(c'.members), e.saltedHash);
      assert Elements(c'.members) - {e.saltedHash} == Elements(c.members);
    }
  }

  lemma AddNewest(h: Hashing, w: seq<SaltedTransaction>, e: SaltedTransaction)
    requires WellHashed(h, w) && e.saltedHash == h.salt(e.t.hash) && e.saltedHash !in Hashes(w)
    ensures WellHashed(h, w + [e]) && Hashes(w + [e]) == Hashes(w) + {e.saltedHash}
  {
    assert forall x | x in w :: x.saltedHash in Hashes(w);
  }

  lemma LatestIs(all: seq<SaltedTransaction>, w: seq<SaltedTransaction>, size: nat)
    requires |w| <= |all| && w == all[|all| - |w|..] && |w| <= size && (|w| == |all| || |w| >= size)
    ensures w == Latest(all, size)
  {
  }

  lemma DropOldest(h: Hashing, w: seq<SaltedTransaction>)
    requires WellHashed(h, w) && w != []
    ensures WellHashed(h, w[1..]) && Hashes(w[1..]) == Hashes(w) - {w[0].saltedHash}
  {
    assert forall e | e in w :: e == w[0] || e in w[1..];
  }

  class Encoder {
    var window: seq<SaltedTransaction>
    var hashes: set<Key>
    var windowSize: nat
    var shuffleHistory: seq<nat>
    const hashing: Hashing

    /** The index holds exactly the hashes of the window, whose entries are different and fit its size. */
    ghost predicate Valid()
      reads this`window, this`hashes, this`windowSize
    {
      hashes == Hashes(window) && WellHashed(hashing, window) && |window| <= windowSize
    }

    constructor (hashing: Hashing, ws: nat)
      ensures Valid() && window == [] && windowSize == ws && this.hashing == hashing
    {
      this.hashing := hashing;
      window, hashes, windowSize, shuffleHistory := [], {}, ws, [];
    }

    method Reset(ws: nat)
      modifies this`window, this`hashes, this`windowSize
      ensures Valid() && window == [] && windowSize == ws
    {
      window := [];
      windowSize := ws;
      hashes := {};
    }

    /** Add a transaction unless it is in the window, and drop the oldest ones that no longer fit. */
    method AddTransaction(t: Transaction) returns (added: bool)
      requires Valid()
      modifies this`window, this`hashes
      ensures Valid() && (added <==> hashing.salt(t.hash) !in old(Hashes(window)))
      ensures added ==> window == Latest(old(window) + [SaltedTransaction(hashing.salt(t.hash), t)], windowSize)
      ensures !added ==> window == old(window)
    {
      hide WellHashed, Hashes, Latest;
      var hash := hashing.salt(t.hash);
      if hash in hashes {
        return false;
      }
      AddNewest(hashing, window, SaltedTransaction(hash, t));
      window := window + [SaltedTransaction(hash, t)];
      hashes := hashes + {hash};
      added := true;
      ghost var all := window;
      while |window| > windowSize
        invariant |window| <= |all| && (|window| == |all| || |window| >= windowSize)
        invariant window == all[|all| - |window|..]
        invariant hashes == Hashes(window) && WellHashed(hashing, window)
      {
        DropOldest(hashing, window);
        hashes := hashes - {window[0].saltedHash};
        window := window[1..];
      }
      LatestIs(all, window, windowSize);
    }

    /** How many entries a codeword of the given degree has. */
    function Degree(deg: nat): nat
      reads this`window
    {
      if deg > |window| then |window| else deg
    }

    /** Sample a codeword without replacement, and put the window back in order. The draws stand for the random numbers:
        draw i is below |window| - i. A codeword of degree zero is refused, where the code gives up. */
    method ProduceCodeword(deg: nat, draws: seq<nat>, ghost truth: map<Key, Word>) returns (ok: bool, c: Codeword)
      requires Valid() && |draws| == Degree(deg) && forall i | 0 <= i < |draws| :: draws[i] < |window| - i
      modifies this`window, this`shuffleHistory
      ensures Valid() && window == old(window)
      ensures ok <==> deg > 0 && window != []
      ensures ok ==> FromDraws(shuffleHistory, draws, |window|) && Encodes(c, Selected(window, shuffleHistory), truth)
      ensures ok ==> |c.members| == Degree(deg) && NoDuplicates(c.members) && Elements(c.members) <= hashes
      ensures ok && Agrees(truth, window) ==> HonestCodeword(truth, c)
    {
      c := Codeword(0, []);
      if Degree(deg) == 0 {
        return false, c;
      }
      ok := true;
      hide Shuffled, Selected, Encodes, WellHashed, Agrees, FromDraws;
      c := Sample(draws, truth);
      ChosenFrom(c, old(window), shuffleHistory, draws, truth, hashing);
      Unshuffle(old(window));
    }

    /** Undo a shuffle of w, last step first. */
    method Unshuffle(ghost w: seq<SaltedTransaction>)
      requires IsHistory(shuffleHistory, |w|) && window == Shuffled(w, shuffleHistory)
      modifies this`window
      ensures window == w
    {
      hide Shuffled;
      AsAWhole(shuffleHistory);
      for i := |shuffleHistory| downto 0
        invariant IsHistory(shuffleHistory[..i], |w|) && |window| == |w|
        invariant window == Shuffled(w, shuffleHistory[..i])
      {
        assert shuffleHistory[..i + 1] == shuffleHistory[..i] + [shuffleHistory[i]];
        UndoStep(w, shuffleHistory[..i], shuffleHistory[i]);
        window := Swap(window, i, shuffleHistory[i]);
      }
      NoShuffle(w);
    }

    /** Shuffle the selected entries to the front. */
    method Sample(draws: seq<nat>, ghost truth: map<Key, Word>) returns (c: Codeword)
      requires WellHashed(hashing, window) && |draws| <= |window|
      requires forall i | 0 <= i < |draws| :: draws[i] < |window| - i
      modifies this`window, this`shuffleHistory
      ensures FromDraws(shuffleHistory, draws, |old(window)|) && window == Shuffled(old(window), shuffleHistory)
      ensures Encodes(c, Selected(old(window), shuffleHistory), truth)
    {
      c := Codeword(0, []);
      shuffleHistory := [];
      NothingEncoded(truth);
      NoShuffle(window);
      assert draws[..0] == [] && draws[..|draws|] == draws && FromDraws([], draws[..0], |window|);
      hide Shuffled, Selected, Encodes, WellHashed, FromDraws;
      for i := 0 to |draws|
        invariant |shuffleHistory| == i && IsHistory(shuffleHistory, |old(window)|)
        invariant FromDraws(shuffleHistory, draws[..i], |old(window)|)
        invariant window == Shuffled(old(window), shuffleHistory)
        invariant Encodes(c, Selected(old(window), shuffleHistory), truth)
      {
        c := SampleNext(c, draws, i, old(window), truth);
      }
    }

    /** Select one more entry. */
    method SampleNext(c: Codeword, draws: seq<nat>, i: nat, ghost w: seq<SaltedTransaction>,
                      ghost truth: map<Key, Word>)
        returns (c': Codeword)
      requires WellHashed(hashing, w) && i < |draws| <= |w| && draws[i] < |w| - i
      requires FromDraws(shuffleHistory, draws[..i], |w|) && window == Shuffled(w, shuffleHistory)
      requires Encodes(c, Selected(w, shuffleHistory), truth)
      modifies this`window, this`shuffleHistory
      ensures FromDraws(shuffleHistory, draws[..i + 1], |w|) && window == Shuffled(w, shuffleHistory)
      ensures Encodes(c', Selected(w, shuffleHistory), truth)
    {
      var r := draws[i] + i;
      DrawOneMore(shuffleHistory, draws, i, |w|);
      SelectOneMore(c, w, shuffleHistory, r, truth, hashing);
      hide Shuffled, Selected, WellHashed, FromDraws, Encodes;
      shuffleHistory := shuffleHistory + [r];
      window := Swap(window, i, r);
      c' := Codeword(Xor(c.symbol, window[i].t.data), c.members + [window[i].saltedHash]);
    }
  }

  lemma SelectOneMore(c: Codeword, w: seq<SaltedTransaction>, history: seq<nat>, r: nat, truth: map<Key, Word>,
                      h: Hashing)
    requires WellHashed(h, w) && IsHistory(history + [r], |w|)
    requires IsHistory(history, |w|) && Encodes(c, Selected(w, history), truth)
    ensures |history| <= r < |w| && Shuffled(w, history + [r]) == Swap(Shuffled(w, history), |history|, r)
    ensures var e := Shuffled(w, history)[r];
      Encodes(Codeword(Xor(c.symbol, e.t.data), c.members + [e.saltedHash]), Selected(w, history + [r]), truth)
  {
    SelectedGrows(w, history, r);
    NextIsNew(h, w, history, r);
    hide Shuffled, Selected, WellHashed, IsHistory;
    assert c.members == KeysAlong(Selected(w, history));
    EncodesOneMore(c, Selected(w, history), Shuffled(w, history)[r], truth);
  }

  lemma NoShuffle<T>(w: seq<T>)
    ensures Shuffled(w, []) == w && Selected(w, []) == []
  {
  }

  lemma UndoStep<T>(w: seq<T>, g: seq<nat>, r: nat)
    requires IsHistory(g + [r], |w|)
    ensures IsHistory(g, |w|) && |g| <= r < |w|
    ensures Swap(Shuffled(w, g + [r]), |g|, r) == Shuffled(w, g)
  {
    SelectedGrows(w, g, r);
    hide Shuffled, Swap, IsHistory;
    SwapTwice(Shuffled(w, g), |g|, r);
  }

  /** What a codeword of selected entries promises. */
  lemma ChosenFrom(c: Codeword, w: seq<SaltedTransaction>, history: seq<nat>, draws: seq<nat>, truth: map<Key, Word>,
                   h: Hashing)
    requires WellHashed(h, w) && FromDraws(history, draws, |w|) && Encodes(c, Selected(w, history), truth)
    ensures IsHistory(history, |w|) && |c.members| == |draws|
    ensures NoDuplicates(c.members) && Elements(c.members) <= Hashes(w)
    ensures Agrees(truth, w) ==> HonestCodeword(truth, c)
  {
    MembersAreChosen(h, Shuffled(w, history), w, history, truth);
  }

  /** The shuffle history that the draws make. */
  ghost predicate FromDraws(history: seq<nat>, draws: seq<nat>, n: nat) {
    |history| == |draws| && IsHistory(history, n) && forall i | 0 <= i < |draws| :: history[i] == draws[i] + i
  }

  lemma DrawOneMore(history: seq<nat>, draws: seq<nat>, i: nat, n: nat)
    requires i < |draws| <= n && draws[i] < n - i && FromDraws(history, draws[..i], n)
    ensures FromDraws(history + [draws[i] + i], draws[..i + 1], n)
  {
  }

  lemma PermutationWellHashed(h: Hashing, s: seq<SaltedTransaction>, w: seq<SaltedTransaction>)
    requires multiset(s) == multiset(w) && WellHashed(h, w)
    ensures WellHashed(h, s) && Hashes(s) == Hashes(w)
  {
    PermutationIsDistinct(s, w);
    assert forall e :: e in s <==> e in Elements(s);
    assert forall e :: e in w <==> e in Elements(w);
    forall i, j | 0 <= i < j < |s|
      ensures s[i].saltedHash != s[j].saltedHash
    {
      assert s[i] in w && s[j] in w && s[i] != s[j];
    }
  }

  lemma NextIsNew(h: Hashing, w: seq<SaltedTransaction>, history: seq<nat>, r: nat)
    requires WellHashed(h, w) && IsHistory(history, |w|) && |history| <= r < |w|
    ensures Shuffled(w, history)[r].saltedHash !in KeysAlong(Selected(w, history))
  {
    PermutationWellHashed(h, Shuffled(w, history), w);
  }

  /** The members are different and are in the window. */
  lemma MembersAreChosen(h: Hashing, s: seq<SaltedTransaction>, w: seq<SaltedTransaction>, history: seq<nat>,
                         truth: map<Key, Word>)
    requires WellHashed(h, w) && IsHistory(history, |w|) && s == Shuffled(w, history)
    ensures NoDuplicates(KeysAlong(Selected(w, history))) && Elements(KeysAlong(Selected(w, history))) <= Hashes(w)
    ensures Agrees(truth, w) ==> Agrees(truth, Selected(w, history))
  {
    PermutationWellHashed(h, s, w);
    PermutationIsDistinct(s, w);
    hide Shuffled, IsHistory;
    FrontIsChosen(h, s, |history|);
    assert forall e | e in Selected(w, history) :: e in Elements(s) && e in Elements(w);
  }

  lemma FrontIsChosen(h: Hashing, s: seq<SaltedTransaction>, n: nat)
    requires WellHashed(h, s) && n <= |s|
    ensures NoDuplicates(KeysAlong(s[..n])) && Elements(KeysAlong(s[..n])) <= Hashes(s)
  {
    var m := KeysAlong(s[..n]);
    forall k | k in m
      ensures k in Hashes(s)
    {
      var i :| 0 <= i < |m| && m[i] == k;
      assert s[i] in s;
    }
  }
}
