# Rateless set reconciliation

A model, with proofs, of the four connected pieces of the repository:

* **The rateless codec** (`riblt`). `Symbols`, `Mappings` and `Windows` model the coding window and its heap;
  `Sketches` the direct form of encoding; `Peeling`, `Readings`, `Bookkeeping` and `Decoders` the peeling decoder;
  `Reconciliation` runs encoder and decoder against each other. The main theorems: after at least one coded symbol
  `Decoded()` holds if and only if the recovered lists are exactly the two sides of the difference; and what is
  recovered from n cells is fixed by the two sets alone, whatever the order of peeling, the moments of decoding, or
  the choice between streaming and sketching. `Generator` proves in exact arithmetic that the index generator meets
  the one hypothesis that the codec makes about it.
* **The block protocol** (`newsim/coding.go`). `Shards`, `Senders` and `Receivers` model the two sides, `Channels` and
  `Links` the two FIFO channels between them; `Ledgers` is the state of a link as a value. The main theorem is the
  invariant `Link.Inv`, kept by every step of every run, from which follow block lockstep, exact flow accounting
  without stalling, fairness between the shards on both sides (whatever the sender or the receiver buffers is in a
  block within one round of the schedule), and that the ack which ends a block leaves both peers with the union of
  their parts of it.
* **The LT decoder and encoder** (`lt`). `LtGraph` holds the peeling graph and `LtStores` the bounded memory as values,
  `LtDecoders` the linked objects that the code mutates, `LtRuns` whole runs, `LtEncoders` the sampling encoder,
  `LtExchanges` any number of encoders with a decoder. The main theorems: no panic is reachable for any input, honest or
  not; exactly what was stored is returned, and what is still known of it is determined, evictions or not; and with
  honest encoders and enough memory the received set is the least set closed under "one unknown member is revealed", so
  the order of arrival does not matter.
* **The event simulator** (`des`). `Simulators` proves the global delivery order, the per-link FIFO order that the
  protocol relies on, and that every message reaches the module that its sender named.

Symbols and transactions are 64-bit words under exclusive-or (`Words`); hashes are arbitrary functions, so that a cell
can lie: its count and checksum can look empty or pure by accident when it is not. The statements about the codec ask
that the cells that the decoder actually reads tell the truth. Which cells these are is fixed by the difference and
the work-list, and `Readings` follows the work-list step by step (`TellsAll` for one call of `TryDecode`,
`StreamTells` and `BatchTells` for whole runs, `BlockTells` for a codeword of the protocol). This is the exact
condition: the decoder's lists, cells and counter are right after every round of its loop if and only if every cell
read tells the truth (`Bookkeeping.RightIffTells`), and they are right after a new cell if and only if it is not
mistaken for an empty one (`Decoders.Decoder.AddCodedSymbol`). It holds in differences of any size, also when some
subset of the difference would lie (`Spreading.LopsidedTells`, `Spreading.TrueWithCollision`), it follows from the
simpler `NoCollision`, which asks that no subset at all would lie, and it holds always when one set contains the other
(`Peeling.NoCollisionOneSided`). `NoCollision` itself fails for two-sided differences so large that their hashes
cannot be linearly independent. When a cell lies the verdict can be wrong (`Reconciliation.WrongVerdict`). In the
protocol the condition is asked of each codeword at the moment the receiver accepts it. Symbols have nonzero hashes,
because a zero state never leaves index 0 (`Generator.IndexAdvances`).

The LT decoder needs no such precondition: the ghost field `honest` records whether all input so far came from honest
encoders. Safety holds regardless; soundness and completeness hold as long as it does. In the simulator, `Causal` (no
negative delay so far) plays the same part.

Three places where the code differs from what its comments or names suggest. `Decoder.pending` is described as the
number of symbols that are not pure (riblt/decoder.go:20); it counts the received cells that hold anything, pure or
not. `RunUntil(t)` reads the clock before it delivers (des/simulator.go:40-44), so it may deliver one event after t.
And a transaction that is given to the LT decoder need not be known to it afterwards: when the full memory drops an
older entry of the same salted hash and data, it takes the new transaction with it (lt/decoder.go:128-141,
`LtRuns.ForgetsGiven`). If nothing else is decoded, it is known exactly when that is not so
(`LtDecoders.Decoder.AddTransaction`); in general `LtDecoders.Decoder.ReceivedExactly` tells.

## Model

| member | source | states |
|---|---|---|
| Words.XorBits | riblt/symbol.go:28-33 | the exclusive-or of data and of hashes is bit by bit |
| Symbols.PlusLaws | riblt/symbol.go:28-33 | cells form a commutative group under cell-wise sum |
| Symbols.FoldRemove | riblt/symbol.go:28-33 | the fold of a set does not depend on the order: any symbol can be split off last |
| Symbols.FoldUnion | riblt/symbol.go:28-33 | the fold of two disjoint sets is the sum of their folds |
| Symbols.FoldCancels | riblt/symbol.go:28-33 | folding a set in and out again with opposite signs leaves nothing |
| Symbols.FoldDifference | riblt/sketch.go:21-32 | what two sets have in common cancels, and their difference is left with signs |
| Mappings.TracksStep | riblt/random.go:18-41 | a generator that has given index n is in step with its symbol again after one more jump |
| Mappings.HitsAfterJumps | riblt/encoder.go:57-59 | a symbol goes into exactly the cells that its generator, seeded with its hash at index 0, gives after some number of jumps |
| Windows.CodingWindow.FixHead | riblt/encoder.go:14-31 | sifting down permutes the queue and restores heap order |
| Windows.CodingWindow.FixTail | riblt/encoder.go:33-43 | sifting up permutes the queue and restores heap order, with the root as its own parent |
| Windows.SinkStep | riblt/encoder.go:22-29 | one swap with the smaller child moves the only possible violation of heap order down |
| Windows.RiseStep | riblt/encoder.go:36-41 | one swap with the parent moves the only possible violation of heap order up |
| Windows.RootIsLeast | riblt/encoder.go:73 | the head of a heap-ordered queue is due first |
| Windows.CodingWindow.AddHashedSymbol | riblt/encoder.go:57-59 | adds one queue entry per source symbol at index 0; legal only before the first coded symbol, later it freezes the window |
| Windows.CodingWindow.AddHashedSymbolWithMapping | riblt/encoder.go:61-66 | a symbol whose generator stands at or after the next index joins without breaking the window invariant |
| Windows.CodingWindow.ApplyWindow | riblt/encoder.go:68-82 | applies exactly the symbols mapped to the next index, moves each past it, and keeps heap and schedule |
| Windows.CodingWindow.ProduceNextCodedSymbol | riblt/encoder.go:107-109 | the i-th coded symbol is the fold of all symbols mapped to i, which is cell i of a sketch of the set |
| Windows.CodingWindow.Reset | riblt/encoder.go:84-95 | back to the empty window at index 0 |
| Peeling.CoreIsUnique | riblt/decoder.go:80-116 | the greatest part without a pure cell is unique, so peeling is confluent |
| Peeling.PeelKeepsStopping | riblt/decoder.go:84-112 | peeling a pure symbol never touches a part that has no pure cell |
| Peeling.CellZeroHoldsAll | riblt/encoder.go:57-59 | every symbol is in cell 0, so an empty cell 0 means an empty difference |
| Readings.ReadCell | riblt/decoder.go:84-108 | in a cell that tells the truth the code's tests on count and checksum tell empty and pure exactly, and yield the symbol and its side |
| Readings.NoCollisionTellsAll | riblt/decoder.go:80-116 | when no subset of the difference would lie, no cell that is read lies |
| Readings.NoCollisionStreamTells | riblt/decoder.go:44-116 | the same for a whole stream under any interleaving of TryDecode |
| Readings.NoCollisionBatchTells | riblt/sketch.go:34-41 | the same for receiving all cells and decoding once |
| Readings.NoCollisionBlockTells | newsim/coding.go:253-256 | the same for every codeword of a block |
| Spreading.LopsidedTells | riblt/decoder.go:80-116 | with an advancing generator and a cell of its own for every symbol, any difference of any size with two more symbols on one side is read truly and recovered |
| Spreading.TrueWithCollision | riblt/decoder.go:80-116 | a difference with a lying subset whose cells are nevertheless all read truly and which is fully recovered |
| Peeling.NoCollisionForTwo | riblt/decoder.go:85-107 | the hypothesis is satisfiable: when it holds for a difference of two symbols |
| Peeling.NoCollisionOneSided | riblt/decoder.go:84-108 | when one set contains the other no accident is possible, whatever the hashes |
| Peeling.FoldCounts | riblt/symbol.go:30 | the count of a cell is the number of its symbols on one side less the number on the other |
| Peeling.CollisionLooksEmpty | riblt/decoder.go:105-108 | two symbols with equal hashes on opposite sides fold to a cell that looks empty |
| Reconciliation.WrongVerdict | riblt/decoder.go:44-62 | for such a pair the decoder reports success after the first coded symbol with nothing recovered |
| Bookkeeping.ReceiveKeeps | riblt/decoder.go:49-62 | a new cell keeps the counter, the dirty flags and the work-list in agreement if and only if it is not mistaken for an empty one |
| Bookkeeping.TouchKeeps | riblt/decoder.go:65-78 | peeling a symbol out of its cells keeps them in agreement |
| Bookkeeping.SettleKeeps | riblt/decoder.go:105-113 | taking an entry off the work-list keeps them in agreement |
| Bookkeeping.StepRight | riblt/decoder.go:81-114 | working off an entry whose cell tells the truth keeps everything right; what is left and the new work-list are fixed |
| Bookkeeping.StepWrong | riblt/decoder.go:81-114 | working off an entry whose cell lies makes something wrong, whatever the lie |
| Bookkeeping.RightIffTells | riblt/decoder.go:80-116 | the exact condition: right after every round if and only if every cell read tells the truth |
| Bookkeeping.LiveCounts | riblt/decoder.go:20-25 | between calls the counter is the number of cells that hold something |
| Bookkeeping.NothingPending | riblt/decoder.go:23-25 | a counter of zero means that nothing of the difference remains |
| Bookkeeping.StreamedCell | riblt/decoder.go:44-46 | a coded symbol of A less B's window is the signed fold of the difference of A and B |
| Bookkeeping.Residual | riblt/decoder.go:46-48 | less what was recovered it is the signed fold of what remains |
| Decoders.Decoder.ApplyNewSymbol | riblt/decoder.go:65-78 | applies the symbol to exactly the received cells it maps to, queues those that may have become pure, and leaves the generator after the last cell |
| Decoders.Decoder.Recover | riblt/decoder.go:85-104 | the symbol of a cell that looks pure goes to the list that its count says and out of every cell it is in |
| Decoders.Decoder.DecodeEntry | riblt/decoder.go:81-114 | one round of the loop, also for a lying cell: the new state is the modelled step of the old one |
| Decoders.Decoder.DecodeTruly | riblt/decoder.go:81-114 | one round on a truthful cell keeps the decoder right and goes on as foreseen |
| Decoders.Decoder.TryDecode | riblt/decoder.go:80-116 | terminates; the work-list is empty, and the rest is exactly what peeling in any order cannot recover |
| Decoders.Decoder.AddCodedSymbol | riblt/decoder.go:44-63 | keeps the three windows in step with the cells; the decoder stays right if and only if the residual is not mistaken for nothing |
| Decoders.Decoder.Strip | riblt/decoder.go:46-48 | three windows in lockstep leave exactly the fold of the remaining difference |
| Decoders.Decoder.Store | riblt/decoder.go:49-62 | the new cell, its dirty flag, the work-list and the counter |
| Decoders.Decoder.AddHashedSymbol | riblt/decoder.go:40-42 | loads a symbol into an unused decoder; after the first coded symbol it freezes the window |
| Decoders.Decoder.Reset | riblt/decoder.go:118-129 | everything back to the unused decoder |
| Decoders.Decoder.DecodedIsExact | riblt/decoder.go:23-33 | once a cell was received, a true verdict means that Remote and Local are exactly the two sides, each symbol once |
| Decoders.Decoder.DecodedIsComplete | riblt/decoder.go:20-25 | between calls the counter is exact, and the verdict is true if and only if nothing remains |
| Decoders.Decoder.VerdictIsDetermined | riblt/decoder.go:23-25 | after TryDecode the verdict depends only on the difference and the number of cells |
| Sketches.AddHashedSymbol | riblt/sketch.go:5-14 | adds the symbol to exactly the cells it maps to; a sketch of S becomes one of S and t |
| Sketches.Subtract | riblt/sketch.go:21-32 | subtracting the sketch of B from that of A leaves in each cell the signed fold of the difference; different lengths are refused |
| Sketches.Decode | riblt/sketch.go:34-41 | recovers all that any order of peeling the cells can, and says whether that is all |
| Reconciliation.Stream | riblt/decoder.go:44-116 | under any interleaving of TryDecode the verdict is true if and only if the result is exact, and a final TryDecode recovers all that can be |
| Reconciliation.Verdict | riblt/decoder.go:23-33 | the same between any two calls |
| Reconciliation.Batch | riblt/sketch.go:34-41 | the same for sketching, subtracting and decoding in one go |
| Reconciliation.RecoveryIsUnique | benchmark/main.go:86-131 | decoding after each symbol, at the end, or in batch recovers the same sets |
| Generator.StepIsBijection | riblt/random.go:19-20 | multiplication by the constant modulo 2^64 has an inverse |
| Generator.NeverMerge | riblt/random.go:19-20 | different hashes never lead to the same state after the same number of steps |
| Generator.StepKeepsTwos | riblt/random.go:19-20 | a nonzero state keeps its number of trailing zero bits and never becomes zero |
| Generator.ComesBack | riblt/random.go:19-20 | a nonzero state returns after n steps if and only if its trailing zeros and those of n add up to 62 or more |
| Generator.OrbitLength | riblt/random.go:19-20 | an odd state returns exactly after the multiples of 2^62 |
| Generator.GapAdvances | riblt/random.go:38-39 | the exact jump is zero only for the zero state |
| Generator.GapIsCeiling | riblt/random.go:37-39 | the exact jump is the code's formula, rounded up, over the reals |
| Generator.RandomMapping.NextIndex | riblt/random.go:18-41 | the state is multiplied by the constant modulo 2^64 first; then the index advances by (index + 1.5) (1 / sqrt(1 - state / 2^64) - 1) rounded up, with the new state; it strictly advances if and only if the state was not zero |
| Generator.IndexAdvances | riblt/random.go:18-41 | the same for the state as a value; the zero state is stuck |
| Generator.GeneratorAdvances | riblt/sketch.go:6-13 | the exact generator meets the codec's hypothesis, so the sketch loop terminates |
| Shards.ShardsPartition | newsim/coding.go:167-177 | for any number of shards each 64-bit hash passes the range test of exactly one, wrap-around included |
| Shards.ShardLengths | newsim/coding.go:167-169 | all shards have the same length, the greatest that fits, and the last one also has the fewer than k + 1 hashes left over |
| Shards.TakenMeans | newsim/coding.go:176-177 | the range test takes a symbol exactly when its hash times the randomizer, modulo 2^64, is in the shard |
| Shards.Drain | newsim/coding.go:173-186 | the swap-removal loop conserves the buffer and takes exactly the symbols in range |
| Shards.WaitStep | newsim/coding.go:174-191 | a block start takes exactly the symbols whose wait is over and brings the others one block closer |
| Senders.Sender.StartBlock | newsim/coding.go:160-202 | moves one shard into the block, sets the window to the last block's acks times the overhead, at least 1, and the burst to two for every three acks, and resets the flow counters |
| Senders.Sender.TryProduceCodeword | newsim/coding.go:154-212 | yields the next coded symbol of the block if and only if the window has room |
| Senders.Sender.TryFillSendWindow | newsim/coding.go:133-152 | terminates with a full window; what was sent is exactly the next coded symbols of one block, in order, and exactly as many as fill the window, or one and the burst if a new block starts and that is more |
| Senders.Sender.OnTransaction | newsim/coding.go:125-131 | buffers the transaction and sends exactly as many codewords as fill the window |
| Senders.Sender.OnAck | newsim/coding.go:100-123 | counts the ack if it belongs to the current block, which raises the window by the overhead, ends the block if it says so, and sends exactly as many codewords as fill the window |
| Senders.TimelySends | newsim/coding.go:166-191 | every block start brings every buffered symbol one block closer to its own |
| Links.Link.TakenInTime | newsim/coding.go:166-191 | fairness in every run: a transaction offered to the sender is in a block by the time as many blocks have started as there are shards |
| Ledgers.TimelyOpens | newsim/coding.go:239-251 | opening a block takes out of the receiver's buffer exactly the symbols that are due, and brings the others one block closer |
| Links.Link.OpenedInTime | newsim/coding.go:235-252 | the same fairness for the receiver: a transaction offered to it is in its part of a block, or settled, by the time it has opened as many blocks as there are shards; it opens every block that starts |
| Receivers.Receiver.OpenBlock | newsim/coding.go:235-252 | moves the receiver's part of the shard into the unused decoder |
| Receivers.Receiver.Absorb | newsim/coding.go:253-256 | one coded symbol decodes the block if and only if the symbols so far determine the whole difference |
| Receivers.Receiver.OnCodeword | newsim/coding.go:227-273 | leftovers change nothing; an accepted codeword is acked; a completed block yields exactly what each side was missing, each symbol once, and resets the decoder |
| Receivers.Receiver.OnTransaction | newsim/coding.go:275-281 | buffers the transaction |
| Channels.NeverStalls | newsim/coding.go:203-211 | with a full window an ack or an acceptable codeword is on its way, and inFlight is codewords sent less acks counted, positive |
| Channels.HeadFits | newsim/coding.go:231-233 | what the receiver accepts is the next coded symbol of the current block, everything else a leftover |
| Channels.SentFits | newsim/coding.go:142-149 | the channel invariant survives sending and the start of the first block |
| Channels.AckedFits | newsim/coding.go:104-121 | the channel invariant survives an ack, also one that ends a block |
| Channels.ArrivalFits | newsim/coding.go:231-272 | the channel invariant survives the arrival of a codeword |
| Ledgers.FineAtSender | newsim/coding.go:125-152 | what holds of a link as a value survives a transaction at the sender |
| Ledgers.FineAfterAck | newsim/coding.go:100-123 | it survives an ack, and one that ends a block leaves both sides with the union |
| Ledgers.FineAfterCodeword | newsim/coding.go:227-273 | it survives a codeword at the receiver |
| Ledgers.MovesKeepFine | newsim/coding.go:53-73 | whatever the protocol can do next keeps a link as a value in order |
| Links.Link.SenderTransaction | newsim/coding.go:53-56 | a transaction at the sender keeps the link invariant and starts the protocol |
| Links.Link.ReceiverTransaction | newsim/coding.go:53-56 | a transaction at the receiver keeps the link invariant |
| Links.Link.DeliverCodeword | newsim/coding.go:227-273 | keeps the link invariant and moves as the protocol does; the receiver's part of the block becomes its in-shard set when a block opens and nothing else in the ledger changes but what the completing codeword teaches; that one yields exactly the sender's part less the receiver's, each symbol once, and its ack carries the opposite |
| Links.Link.DeliverAck | newsim/coding.go:100-123 | keeps the link invariant; at a block's end the sender's block and the acked transactions, each once, and the receiver's part and what it decoded, are the same union |
| Links.Link.AcceptsInOrder | newsim/coding.go:231-254 | block lockstep: an accepted codeword is the next one of the current block, and one that opens a block finds the decoder reset |
| Links.Link.Progresses | newsim/coding.go:112-119 | inFlight is exact and positive, and a message that makes progress is in transit |
| Links.Link.NothingLost | newsim/coding.go:178-181 | a transaction is in its side's buffer, in its part of the block, or known to the other side |
| Links.Run | newsim/coding.go:58-73 | every run of any steps goes through exactly the states that the protocol's moves lead to and keeps all of this, up to the first codeword that makes the receiver read a lying cell |
| LtGraph.UnlinkKeeps | lt/decoder.go:62-70 | taking one link away on both sides keeps the two directions in agreement |
| LtGraph.LinkKeeps | lt/decoder.go:157-158 | so does adding one |
| LtGraph.LeastClosedIsUnique | lt/decoder.go:214-266 | the least closed set is unique |
| LtGraph.ForcedIsSound | lt/decoder.go:214-266 | whatever is forced was given or is a member of some codeword |
| LtGraph.XorPeels | lt/decoder.go:90 | taking a member's data out leaves the XOR of the others |
| LtStores.KeptExactly | lt/decoder.go:128-141 | the same of any list of stored entries |
| LtStores.LatestAreKept | lt/decoder.go:128-141 | of the latest entries that fit, each is received if no other recent one has its salted hash |
| LtStores.JustStored | lt/decoder.go:128-141 | an entry just stored is received if and only if the oldest one of the full memory has not the same hash and data |
| LtStores.ReceivedWasTold | lt/decoder.go:128-141 | what is received was returned or stored on behalf of the user |
| LtDecoders.PendingCodeword.FailToDecode | lt/decoder.go:54-79 | removes exactly the link to the last member and tells whether that still blocks anything; no panic |
| LtDecoders.PendingCodeword.PeelTransaction | lt/decoder.go:81-96 | removes one occurrence of the transaction and its data; no panic |
| LtDecoders.Decoder.MarkDecoded | lt/decoder.go:21-35 | afterwards no codeword needs the transaction, links agree, and every codeword that became decodable is stacked once |
| LtDecoders.Decoder.StoreNewTransaction | lt/decoder.go:128-141 | what is known afterwards is exactly what the memory keeps of everything that was stored; the recent entries are the latest that fit |
| LtDecoders.Decoder.Succeed | lt/decoder.go:252-254 | a decoded transaction moves from pending to received and leaves the codeword empty |
| LtDecoders.Decoder.Fail | lt/decoder.go:245-248 | only without honest encoders: exactly this codeword is unlinked, and its transaction forgotten if and only if it blocks nothing else |
| LtDecoders.Decoder.DecodeCodewords | lt/decoder.go:214-266 | terminates with an empty stack; returns exactly what it stores, in order: different transactions that were pending, and with honest encoders true ones and all that are not pending any more; the recent entries are the latest of those and the ones before |
| LtDecoders.Decoder.AddCodeword | lt/decoder.go:143-176 | for any raw codeword: the decoder invariant, that exactly what is stored is returned, evictions or not, and the record of the codeword's members |
| LtDecoders.Decoder.AddTransaction | lt/decoder.go:178-210 | for any transaction, hash conflicts included: the decoder invariant; it is stored unless it is known, followed by exactly what is returned, evictions or not; if nothing was decoded it is received if and only if it does not push itself out of the full memory |
| LtDecoders.Decoder.HasDecoded | lt/decoder.go:106-116 | tells whether the salted hash is received |
| LtDecoders.Decoder.Invariants | lt/decoder.go:97-103 | received and pending keys are disjoint, links agree both ways, no codeword needs exactly one member, every pending transaction is needed by some codeword, at most memory are received |
| LtDecoders.Decoder.ReceivedExactly | lt/decoder.go:128-141 | with evictions, too: a salted hash is received if and only if no entry of the same hash and data was dropped since it was last stored, and stands for what was stored then |
| LtDecoders.Decoder.Outcome | lt/decoder.go:43-45 | with room for all transactions the received keys are the least closed set, and Decoded holds exactly when all members are received |
| LtRuns.Run | lt/decoder.go:143-210 | any events in any order: no panic; exactly what was stored and not given was returned; without eviction nothing is returned twice; honest input gives true transactions |
| LtRuns.KnownWasTold | lt/decoder.go:143-210 | whatever the decoder knows after a run it has returned or was given |
| LtRuns.ForgetsGiven | lt/decoder.go:178-207 | with room for two and salted hashes that collide, the decoder forgets a transaction in the very call that gives it |
| LtRuns.RunSettles | lt/decoder.go:214-266 | what an honest run receives is the least closed set of its events, with the true data |
| LtExchanges.Exchange | lt/encoder.go:56-109 | any number of encoders with one decoder, which is also given transactions directly: every returned transaction was in the window of one of the encoders when an event sampled a codeword from it, and was a member of that codeword, evictions or not; with enough memory the decoder ends with exactly what the sampled codewords and the given transactions determine |
| LtRuns.OrderDoesNotMatter | lt/decoder.go:214-266 | two honest runs of the same events in different orders receive the same transactions |
| LtEncoders.Encoder.AddTransaction | lt/encoder.go:56-72 | the window is the latest different transactions that fit, and hashes is its key set |
| LtEncoders.Encoder.Reset | lt/encoder.go:47-54 | an empty window and index |
| LtEncoders.Encoder.ProduceCodeword | lt/encoder.go:79-109 | the members are as many different window entries as the degree asks, the symbol is their XOR, and the window is restored; degree zero is refused |
| LtEncoders.SelectsOnce | lt/encoder.go:94-104 | different random draws select differently |
| LtEncoders.SelectsAll | lt/encoder.go:94-104 | every list of different entries is selected by some draws, so uniform draws sample uniformly |
| Simulators.Simulator.ScheduleMessage | des/simulator.go:52-61 | queues one message with the sender, the payload, the destination that was named, or else the sender, the arrival and the next number |
| Simulators.Simulator.DeliverNextMessage | des/simulator.go:63-73 | delivers the least message by arrival and number to the module that its sender named, with the payload, and schedules exactly what that module answers; the time reversal panic happens if and only if a queued message is overdue, and never without negative delays |
| Simulators.Simulator.DeliveredAsAsked | des/simulator.go:52-61 | every delivered message has the sender, destination and payload that were asked for, and arrived its delay after it was scheduled |
| Simulators.Simulator.RunUntil | des/simulator.go:40-44 | every event up to t is delivered, and at most one after it, exactly when the clock ends after t; every delivered event was handled, and exactly the answers were scheduled |
| Simulators.Simulator.Run | des/simulator.go:46-50 | when it finishes every scheduled message was delivered and handled, in order, and exactly the answers were scheduled |
| Simulators.Simulator.DeliveredIsCounted | des/simulator.go:28-30 | the counter of delivered events counts them |
| Simulators.Simulator.FirstInFirstOut | des/simulator.go:87-94 | of two messages the one sent first arrives first unless its delay is longer |

## Left out

- Windows.CodingWindow.AddHashedSymbol: for a symbol added after the first coded symbol it states only that the window
  is stale, which makes every later coded symbol pass through unchanged; the content of such a window is not
  described.
- Decoders.Decoder.TryDecode: states nothing about a call that reads a lying cell; it need not end. What one round
  does then is stated by DecodeEntry.
- Senders.Sender.TryFillSendWindow: the send window is a real number instead of a floating-point one.
- Senders.Sender.OnTransaction: a transaction enters a link's buffer at most once, which newsim/module.go enforces
  before.
- Generator.GapIsCeiling: exact arithmetic; the floating-point formula can round the jump of a tiny state to zero.
- Generator.RandomMapping.NextIndex: the same; a rounded jump of zero is not in the contract.
- Generator.IndexAdvances: the same.
- Generator.GeneratorAdvances: meets the hypothesis of the codec for the exact generator, not for the rounded one.
- Simulators.Simulator.Run: takes a bound on the number of steps, because handlers can send messages for ever; it
  tells when the bound was reached. The same holds for `RunUntil`.
- Simulators.Simulator.DeliverNextMessage: the queue is a set from which the least message is taken; the binary heap
  of Go's container/heap is not part of this model. The codec's own heap is modelled in full.
- LtDecoders.Decoder.StoreNewTransaction: compares transaction data by value; for pointer types the code compares
  pointers.
- LtEncoders.Encoder.ProduceCodeword: the degree and the random draws are parameters; where the code panics it returns
  false.
- The 64-bit and 32-bit integer ranges of counts, indices and times; only hashes and generator states wrap around.
- Slices as shared memory, and the permission of XOR to change its receiver: symbols are values.
- Freeing memory by setting pointers to nil, and the unused field currentBlockSize.
- Degree distributions, the hash functions, and every probability: of decoding, of accidents, and the expected
  overhead.
- Servers with many peers, metrics and the pull protocol (newsim/module.go, newsim/pull.go).
- The packages iblt and ldpc, which repeat the peeling of lt; simulator, node, testbed, experiments, microbenchmarks.
