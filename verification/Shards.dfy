/** Splitting the 64-bit hash space into shards, and draining one shard out of a buffer (newsim/coding.go). */
module Shards {
  import opened Words
  import opened Lists
  import opened Symbols
  import opened Mappings
  import opened Windows

  function ShardSize(k: nat): nat
    requires k > 0
  {
    (WORD_SIZE - 1) / k
  }

  function ShardStart(s: nat, k: nat): nat
    requires k > 0
  {
    s * ShardSize(k)
  }

  /** The end of the last shard wraps around to 0. */
  function ShardEnd(s: nat, k: nat): nat
    requires k > 0
  {
    ((s + 1) % k) * ShardSize(k)
  }

  /** The range test of sender and receiver; a range that ends before it starts wraps around. */
  predicate InRange(h: nat, start: nat, end: nat) {
    (start < end && start <= h < end) || (start >= end && (h >= start || h < end))
  }

  function ShardHash(h: Word, randomizer: Word): Word {
    (h * randomizer) % WORD_SIZE
  }

  /** The one shard that a hash belongs to. */
  function ShardOf(h: Word, k: nat): (s: nat)
    requires 0 < k < WORD_SIZE
    ensures s < k
  {
    var q := h / ShardSize(k);
    if q < k then q else k - 1
  }

  /** The shards partition the hash space: each hash is in the range of exactly one shard. */
  lemma ShardsPartition(h: Word, s: nat, k: nat)
    requires 0 < k < WORD_SIZE && s < k
    ensures InRange(h, ShardStart(s, k), ShardEnd(s, k)) <==> s == ShardOf(h, k)
    ensures ShardStart(s, k) < WORD_SIZE && ShardEnd(s, k) < WORD_SIZE
  {
    var q, size := h / ShardSize(k), ShardSize(k);
    SizeFits(k);
    var start, end := ShardStart(s, k), ShardEnd(s, k);
    assert start <= k * size by { MulOrder(s, k, size); }
    assert end == if s + 1 < k then (s + 1) * size else 0 by { Wraps(s, k); }
    assert end <= k * size by { MulOrder(s + 1, k, size); }
    assert h < start <==> q < s by { Place(h, s, size); }
    if s + 1 < k {
      assert start < end by { assert (s + 1) * size == s * size + size; }
      assert h < end <==> q <= s by { Place(h, s, size); }
    }
  }

  lemma Wraps(s: nat, k: nat)
    requires s < k
    ensures ShardEnd(s, k) == if s + 1 < k then (s + 1) * ShardSize(k) else 0
  {
    NextWraps(s, k);
  }

  lemma NextWraps(s: nat, k: nat)
    requires s < k
    ensures (s + 1) % k == if s + 1 < k then s + 1 else 0
  {
    if s + 1 < k {
      assert (s + 1) % k == s + 1;
    } else {
      assert (s + 1) % k == 0;
    }
  }

  lemma SizeFits(k: nat)
    requires 0 < k < WORD_SIZE
    ensures 1 <= ShardSize(k) && k * ShardSize(k) < WORD_SIZE
  {
  }

  /** Where h lies among the multiples of size. */
  lemma Place(h: nat, s: nat, size: nat)
    requires size > 0
    ensures h < s * size <==> h / size < s
    ensures h < (s + 1) * size <==> h / size <= s
  {
    var q := h / size;
    assert q * size <= h < (q + 1) * size;
    if q < s {
      MulOrder(q + 1, s, size);
    } else {
      MulOrder(s, q, size);
    }
    if q <= s {
      MulOrder(q + 1, s + 1, size);
    } else {
      MulOrder(s + 1, q, size);
    }
  }

  lemma MulOrder(a: nat, b: nat, size: nat)
    requires a <= b
    ensures a * size <= b * size
  {
  }

  /** Every shard has the same length d, the greatest one of which k fit below 2^64; the last shard also has the at most
      k hashes that are left over. */
  lemma ShardLengths(s: nat, k: nat) returns (d: nat)
    requires 0 < k < WORD_SIZE && s < k
    ensures k * d < 0x1_0000_0000_0000_0000 <= k * d + k
    ensures ShardStart(s, k) == s * d && ShardEnd(s, k) == if s + 1 < k then (s + 1) * d else 0
  {
    d := ShardSize(k);
    Wraps(s, k);
  }

  /** The shard hash is congruent to the product modulo 2^64. */
  lemma ShardHashIsProduct(h: Word, randomizer: Word) returns (q: nat)
    ensures h * randomizer == q * 0x1_0000_0000_0000_0000 + ShardHash(h, randomizer)
  {
    q := h * randomizer / WORD_SIZE;
  }

  predicate Taken(v: Sym, randomizer: Word, start: nat, end: nat) {
    InRange(ShardHash(v.hash, randomizer), start, end)
  }

  /** A shard takes exactly the symbols whose hash, times the randomizer and modulo 2^64, belongs to it. */
  lemma TakenMeans(v: Sym, randomizer: Word, s: nat, k: nat)
    requires 0 < k < WORD_SIZE && s < k
    ensures Taken(v, randomizer, ShardStart(s, k), ShardEnd(s, k)) <==>
            ShardOf(v.hash * randomizer % 0x1_0000_0000_0000_0000, k) == s
  {
    ShardsPartition(ShardHash(v.hash, randomizer), s, k);
  }

  /** The symbols of the buffer whose hash is in the range. */
  function PartOf(buffer: seq<Sym>, randomizer: Word, start: nat, end: nat): set<Sym> {
    set v | v in buffer && Taken(v, randomizer, start, end)
  }

  /** The loop with which both sides move the symbols of one shard out of their buffer into a fresh coding window,
      filling each gap with the last element of the buffer. */
  method Drain(buffer: seq<Sym>, randomizer: Word, start: nat, end: nat, w: CodingWindow) returns (rest: seq<Sym>)
    requires w.Valid() && w.symbols == [] && w.nextIdx == 0
    requires NoDuplicates(buffer) && forall v | v in buffer :: v.hash != 0
    modifies w
    ensures w.Valid() && w.nextIdx == 0
    ensures multiset(rest) + multiset(w.symbols) == multiset(buffer)
    ensures forall v | v in w.symbols :: Taken(v, randomizer, start, end)
    ensures forall v | v in rest :: !Taken(v, randomizer, start, end)
  {
    rest := buffer;
    var tidx := 0;
    while tidx < |rest|
      invariant tidx <= |rest| && w.Valid() && w.nextIdx == 0
      invariant multiset(rest) + multiset(w.symbols) == multiset(buffer)
      invariant forall k | 0 <= k < tidx :: !Taken(rest[k], randomizer, start, end)
      invariant forall v | v in w.symbols :: Taken(v, randomizer, start, end)
      decreases |rest| - tidx
    {
      var v := rest[tidx];
      if Taken(v, randomizer, start, end) {
        PartsAreDistinct(rest, w.symbols, buffer);
        assert v in Elements(rest);
        w.AddHashedSymbol(v);
        RemovedBySwap(rest, tidx);
        rest := SwapRemove(rest, tidx);
      } else {
        tidx := tidx + 1;
      }
    }
  }

  /** The order in which a sender takes the shards: each of the |schedule| shards once. */
  ghost predicate IsSchedule(schedule: seq<nat>) {
    && 0 < |schedule| < WORD_SIZE && NoDuplicates(schedule)
    && (forall i | 0 <= i < |schedule| :: schedule[i] < |schedule|)
    && (forall s: nat | s < |schedule| :: s in schedule)
  }

  ghost function Position(schedule: seq<nat>, s: nat): (i: nat)
    requires s in schedule
    ensures i < |schedule| && schedule[i] == s
  {
    var i: nat :| i < |schedule| && schedule[i] == s; i
  }

  /** How many blocks start before the one that takes the symbol v, when the next block is number next in the
      schedule. */
  ghost function Wait(schedule: seq<nat>, next: nat, randomizer: Word, v: Sym): (w: nat)
    requires IsSchedule(schedule) && next < |schedule|
    ensures w < |schedule|
  {
    var p := Position(schedule, ShardOf(ShardHash(v.hash, randomizer), |schedule|));
    if next <= p then p - next else p + |schedule| - next
  }

  /** A block start takes exactly the symbols whose wait is over, and brings every other symbol one block closer. */
  lemma WaitStep(schedule: seq<nat>, next: nat, randomizer: Word, v: Sym)
    requires IsSchedule(schedule) && next < |schedule|
    ensures var k := |schedule|;
      Taken(v, randomizer, ShardStart(schedule[next], k), ShardEnd(schedule[next], k)) <==>
      Wait(schedule, next, randomizer, v) == 0
    ensures Wait(schedule, next, randomizer, v) > 0 ==>
      Wait(schedule, (next + 1) % |schedule|, randomizer, v) == Wait(schedule, next, randomizer, v) - 1
  {
    var k, h := |schedule|, ShardHash(v.hash, randomizer);
    ShardsPartition(h, schedule[next], k);
    var p := Position(schedule, ShardOf(h, k));
    assert p == next <==> schedule[next] == ShardOf(h, k);
    NextWraps(next, k);
  }

  /** The parts into which a block start divides the buffer: taken if the wait is over, kept with one block less to
      wait otherwise. */
  ghost predicate Divided(schedule: seq<nat>, next: nat, randomizer: Word, buffer: seq<Sym>, rest: seq<Sym>,
                          taken: seq<Sym>)
    requires IsSchedule(schedule) && next < |schedule|
  {
    && multiset(rest) + multiset(taken) == multiset(buffer) && NoDuplicates(rest) && NoDuplicates(taken)
    && (forall v | v in taken :: v in buffer && Wait(schedule, next, randomizer, v) == 0)
    && (forall v | v in rest :: v in buffer && Wait(schedule, next, randomizer, v) > 0 &&
          Wait(schedule, (next + 1) % |schedule|, randomizer, v) == Wait(schedule, next, randomizer, v) - 1)
  }

  lemma DrainDivides(schedule: seq<nat>, next: nat, randomizer: Word, buffer: seq<Sym>, rest: seq<Sym>, taken: seq<Sym>,
                     start: nat, end: nat)
    requires IsSchedule(schedule) && next < |schedule| && NoDuplicates(buffer)
    requires start == ShardStart(schedule[next], |schedule|) && end == ShardEnd(schedule[next], |schedule|)
    requires multiset(rest) + multiset(taken) == multiset(buffer)
    requires forall v | v in taken :: Taken(v, randomizer, start, end)
    requires forall v | v in rest :: !Taken(v, randomizer, start, end)
    ensures Divided(schedule, next, randomizer, buffer, rest, taken)
  {
    PartsAreDistinct(rest, taken, buffer);
    PartsAreDistinct(taken, rest, buffer);
    forall v | v in taken
      ensures v in buffer && Wait(schedule, next, randomizer, v) == 0
    {
      assert v in Elements(buffer);
      WaitStep(schedule, next, randomizer, v);
    }
    forall v | v in rest
      ensures v in buffer && Wait(schedule, next, randomizer, v) > 0
      ensures Wait(schedule, (next + 1) % |schedule|, randomizer, v) == Wait(schedule, next, randomizer, v) - 1
    {
      assert v in Elements(buffer);
      WaitStep(schedule, next, randomizer, v);
    }
  }
}
