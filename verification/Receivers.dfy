/** The receiving side of the block protocol (newsim/coding.go). */
module Receivers {
  import opened Words
  import opened Lists
  import opened Symbols
  import opened Mappings
  import opened Windows
  import opened Peeling
  import opened Readings
  import opened Bookkeeping
  import opened Decoders
  import opened Shards
  import opened Senders

  /** The generator advances, and all symbols ever used can drive it. */
  ghost predicate Legal(sch: Scheme, U: set<Sym>) {
    Advancing(sch) && AllUsable(sch, U)
  }

  /** What sender block S and receiver block R differ in. */
  ghost function Apart(S: set<Sym>, R: set<Sym>): set<Sym> {
    (S - R) + (R - S)
  }

  lemma Sides(S: set<Sym>, R: set<Sym>)
    ensures Apart(S, R) * S == S - R && Apart(S, R) - S == R - S
  {
  }

  /** Every cell that is read when coded symbol n of a block is absorbed tells the truth. */
  ghost predicate Truthful(sch: Scheme, S: set<Sym>, R: set<Sym>, n: nat) {
    BlockTells(sch, Apart(S, R), S, n)
  }

  lemma UsableApart(sch: Scheme, U: set<Sym>, S: set<Sym>, R: set<Sym>)
    requires Legal(sch, U) && S <= U && R <= U
    ensures AllUsable(sch, Apart(S, R))
  {
  }

  class Receiver {
    const sch: Scheme
    const decoder: Decoder
    var buffer: seq<Sym>
    var currentBlockReceived: bool
    var currentBlockCount: nat
    const shardRandomizer: Word
    var outbox: seq<Ack>

    ghost function Objects(): set<object>
    {
      {this, decoder, decoder.local, decoder.window, decoder.remote}
    }

    /** The decoder is fully reset. */
    ghost predicate Idle()
      reads decoder, decoder.local, decoder.window, decoder.remote
    {
      decoder.sch == sch && decoder.Ready() && decoder.window.symbols == []
    }

    /** The decoder has taken n coded symbols of a block that encodes S, against the receiver's own set R. */
    ghost predicate Decoding(S: set<Sym>, R: set<Sym>, n: nat)
      reads decoder, decoder.local, decoder.window, decoder.remote
    {
      && decoder.sch == sch && decoder.Valid(Apart(S, R), S) && Elements(decoder.window.symbols) == R
      && |decoder.cs| == n && decoder.dirty == []
      && decoder.Remaining(Apart(S, R)) == BlockLeft(sch, Apart(S, R), S, n)
    }

    ghost predicate Buffered(U: set<Sym>)
      reads this`buffer
    {
      NoDuplicates(buffer) && Elements(buffer) <= U
    }

    constructor (sch: Scheme, shardRandomizer: Word)
      requires Advancing(sch)
      ensures this.sch == sch && this.shardRandomizer == shardRandomizer
      ensures Idle() && buffer == [] && outbox == [] && !currentBlockReceived && fresh(Objects())
    {
      this.sch := sch;
      decoder := new Decoder(sch);
      buffer, outbox := [], [];
      currentBlockReceived, currentBlockCount := false, 0;
      this.shardRandomizer := shardRandomizer;
    }

    method OnTransaction(tx: Sym, ghost U: set<Sym>)
      modifies this`buffer
      ensures buffer == old(buffer) + [tx] && Elements(buffer) == Elements(old(buffer)) + {tx}
      ensures old(Buffered(U)) && tx in U && tx !in Elements(old(buffer)) ==> Buffered(U)
    {
      buffer := buffer + [tx];
    }

    /** Open a block: move the receiver's share of the shard into the decoder. */
    method OpenBlock(start: nat, end: nat, ghost U: set<Sym>) returns (ghost R: set<Sym>)
      requires Legal(sch, U) && Buffered(U) && Idle()
      modifies this`buffer, this`currentBlockReceived, this`currentBlockCount, decoder.window
      ensures Buffered(U) && !currentBlockReceived && currentBlockCount == 0
      ensures decoder.Ready() && Elements(decoder.window.symbols) == R <= U
      ensures R == PartOf(old(buffer), shardRandomizer, start, end)
      ensures Elements(buffer) == Elements(old(buffer)) - R
    {
      currentBlockReceived := false;
      currentBlockCount := 0;
      forall v | v in buffer
        ensures v.hash != 0
      {
        assert v in Elements(buffer);
      }
      buffer := Drain(buffer, shardRandomizer, start, end, decoder.window);
      PartsAreDistinct(buffer, decoder.window.symbols, old(buffer));
      R := Elements(decoder.window.symbols);
      assert forall v | v in old(buffer) :: v in Elements(old(buffer));
    }

    /** Open the block that cw announces, which encodes the set S. */
    method OpenFor(cw: Codeword, ghost U: set<Sym>, ghost S: set<Sym>) returns (ghost R: set<Sym>)
      requires Legal(sch, U) && Buffered(U) && Idle() && S <= U
      modifies this`buffer, this`currentBlockReceived, this`currentBlockCount, decoder.window
      ensures Buffered(U) && !currentBlockReceived && currentBlockCount == 0
      ensures R == old(Share(cw)) && Decoding(S, R, 0) && |decoder.cs| == 0
      ensures Elements(buffer) == Elements(old(buffer)) - R && R <= Elements(old(buffer))
    {
      R := OpenBlock(cw.startHash, cw.endHash, U);
      UsableApart(sch, U, S, R);
      decoder.ReadyIsValid(Apart(S, R), S);
    }

    method AddStreamed(c: Cell, ghost S: set<Sym>, ghost R: set<Sym>)
      requires Decoding(S, R, |decoder.cs|) && c == Fold(At(sch, S, |decoder.cs|), S)
      requires TellsEmpty(sch, BlockLeft(sch, Apart(S, R), S, |decoder.cs|), S, |decoder.cs|)
      modifies decoder, decoder.local, decoder.window, decoder.remote
      ensures decoder.Valid(Apart(S, R), S) && Elements(decoder.window.symbols) == R
      ensures |decoder.cs| == old(|decoder.cs|) + 1
      ensures decoder.Remaining(Apart(S, R)) == BlockLeft(sch, Apart(S, R), S, old(|decoder.cs|))
      ensures decoder.dirty == Enqueued(sch, decoder.Remaining(Apart(S, R)), S, old(|decoder.cs|), [])
    {
      hide Agrees, Fold, At, BlockLeft, TellsEmpty;
      StreamedCell(sch, S, R, |decoder.cs|);
      decoder.AddCodedSymbol(c, Apart(S, R), S);
    }

    /** Give one coded symbol of the block to the decoder; whether that decodes the block depends only on the two sets
        and on how many coded symbols have arrived. */
    method Absorb(c: Cell, ghost S: set<Sym>, ghost R: set<Sym>) returns (done: bool)
      requires Decoding(S, R, |decoder.cs|) && c == Fold(At(sch, S, |decoder.cs|), S)
      requires Truthful(sch, S, R, |decoder.cs|)
      modifies decoder, decoder.local, decoder.window, decoder.remote
      ensures Decoding(S, R, old(|decoder.cs|) + 1)
      ensures done <==> IsCore(sch, Apart(S, R), |decoder.cs|, {})
      ensures done ==> Elements(decoder.remote.symbols) == S - R && Elements(decoder.local.symbols) == R - S
      ensures NoDuplicates(decoder.remote.symbols) && NoDuplicates(decoder.local.symbols)
    {
      hide Agrees, Fold, At, TellsEmpty, TellsAll, IsCore;
      AddStreamed(c, S, R);
      decoder.TryDecode(Apart(S, R), S);
      decoder.VerdictIsDetermined(Apart(S, R), S);
      done := decoder.Decoded();
      Sides(S, R);
    }

    predicate Accepts(cw: Codeword)
      reads this
    {
      cw.newBlock || !currentBlockReceived
    }

    /** Handle a codeword of a block that encodes the set S, of which n were accepted so far, against the receiver's own
        set R: ignore it if the block is already decoded; otherwise ack it, and if it completes the block, hand out what
        only the sender had and ack what only the receiver had. */
    method OnCodeword(cw: Codeword, ghost U: set<Sym>, ghost S: set<Sym>, ghost R: set<Sym>, ghost n: nat)
        returns (res: seq<Sym>, done: bool)
      requires Legal(sch, U) && Buffered(U) && S <= U && R <= U
      requires cw.newBlock ==> n == 0 && Idle()
      requires Accepts(cw) ==> Truthful(sch, S, if cw.newBlock then Share(cw) else R, n)
      requires Accepts(cw) ==> cw.cell == Fold(At(sch, S, n), S)
      requires Accepts(cw) && !cw.newBlock ==> Decoding(S, R, n)
      modifies Objects()
      ensures Buffered(U) && (done ==> old(Accepts(cw)))
      ensures !old(Accepts(cw)) ==> unchanged(Objects()) && res == []
      ensures old(Accepts(cw)) ==> currentBlockReceived == done && |outbox| == |old(outbox)| + 1
      ensures old(Accepts(cw)) ==> outbox == old(outbox) + [Ack(done, cw.newBlock, outbox[|old(outbox)|].txs)]
      ensures old(Accepts(cw)) ==>
        AfterCodeword(S, if cw.newBlock then old(Share(cw)) else R, n + 1, done, res, outbox[|old(outbox)|].txs)
      ensures Elements(buffer) == if cw.newBlock then Elements(old(buffer)) - old(Share(cw)) else Elements(old(buffer))
      ensures old(Share(cw)) <= Elements(old(buffer))
      ensures old(Accepts(cw)) ==> currentBlockCount == (if cw.newBlock then 0 else old(currentBlockCount)) + 1
    {
      hide Decoding, Truthful, Legal, Idle;
      if currentBlockReceived && !cw.newBlock {
        return [], false;
      }
      ghost var share := R;
      if cw.newBlock {
        share := OpenFor(cw, U, S);
      }
      res, done := Take(cw, S, share, n);
    }

    /** Absorb an accepted codeword and ack it. */
    method Take(cw: Codeword, ghost S: set<Sym>, ghost R: set<Sym>, ghost n: nat)
        returns (res: seq<Sym>, done: bool)
      requires Decoding(S, R, n) && cw.cell == Fold(At(sch, S, n), S) && !currentBlockReceived
      requires Truthful(sch, S, R, n)
      modifies this`currentBlockReceived, this`currentBlockCount, this`outbox,
               decoder, decoder.local, decoder.window, decoder.remote
      ensures currentBlockReceived == done && currentBlockCount == old(currentBlockCount) + 1
      ensures |outbox| == |old(outbox)| + 1
      ensures outbox == old(outbox) + [Ack(done, cw.newBlock, outbox[|old(outbox)|].txs)]
      ensures AfterCodeword(S, R, n + 1, done, res, outbox[|old(outbox)|].txs)
    {
      done := Absorb(cw.cell, S, R);
      currentBlockCount := currentBlockCount + 1;
      if done {
        currentBlockReceived := true;
        outbox := outbox + [Ack(true, cw.newBlock, decoder.local.symbols)];
        res := decoder.remote.symbols;
        decoder.Reset();
      } else {
        outbox := outbox + [Ack(false, cw.newBlock, [])];
        res := [];
      }
    }

    /** The buffered symbols that belong to the shard that cw names. */
    ghost function Share(cw: Codeword): set<Sym>
      reads this
    {
      PartOf(buffer, shardRandomizer, cw.startHash, cw.endHash)
    }

    /** Where the receiver stands after the n-th codeword of a block: still decoding, or done with exactly what each
        side was missing, each symbol once, and fully reset. */
    ghost predicate AfterCodeword(S: set<Sym>, R: set<Sym>, n: nat, done: bool, res: seq<Sym>, txs: seq<Sym>)
      reads decoder, decoder.local, decoder.window, decoder.remote
    {
      && (done <==> IsCore(sch, Apart(S, R), n, {}))
      && (done ==> Idle() && Elements(res) == S - R && Elements(txs) == R - S)
      && NoDuplicates(res) && NoDuplicates(txs)
      && (!done ==> Decoding(S, R, n) && res == [] && txs == [])
    }
  }
}
