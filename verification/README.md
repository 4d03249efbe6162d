# A verified model of nps

nps is an intranet-penetration proxy: a server relays traffic over multiplexed tunnels to clients behind NAT.
This project models its hardest logic in Dafny and proves what that logic keeps.

| files | part of the system |
|---|---|
| `MuxPackets`, `MuxWord`, `MuxStream`, `MuxInvariant`, `MuxTheorems`, `MuxProgress`, `MuxZeroWindow`, `MuxWindow` | flow control and byte stream of one multiplexed connection |
| `Ring`, `BufChain`, `PriorityQueue` | the queues of the multiplexer |
| `Codec` | the packet format and the buffered writer |
| `Rate` | the byte-rate limiter |
| `DomainTrie`, `DomainNames`, `HostRouting`, `RouteOrder` | the domain index and the routing of requests to hosts |
| `TaskPasswords` | the tunnels and the index of their passwords |
| `Pool`, `NodeSelection` | the swap-remove pool and the choice of a node |
| `TargetList`, `Health`, `HealthLimits` | targets, round robin and health checking from client counter to server rotation |
| `LogBuffer` | the circular log buffer |

Concurrent code appears twice. As a transition system every load, compare-and-swap, queue operation and blocking
point of every goroutine is a step of its own, and the theorems range over all interleavings (`MuxStream`, `Ring`,
`Rate`). As methods the retry loops keep their own form, with the values that other goroutines store in between as
parameters, and each is proved to have the effect of one such step (`MuxWindow`, `Rate.Limiter`).
Clocks, random draws, probe results, the order in which a Go map is ranged over and the outcome of looking at a
connection are parameters.

What the proofs found about the code:

- The "read > send" branch of `SetSize` and both 31-bit overflow branches are dead code in every run
  (`CreditConserved`, `OverflowBranchesDead`).
- A sender blocked on a positive window is always released if its peer goes on reading (`SenderReleased`,
  `ServedRunsEnd`). If calcSize should ever compute a window of 0, a Write can end up waiting with nothing under way,
  and then nothing ever wakes it (`HelplessReached`, `HelplessForever`, `HelplessMeansZero`).
- The offset of a Write is a 32-bit number. A Write hands over its whole buffer exactly when the buffer is shorter
  than 2^32 bytes; a longer one is cut short without an error, sends nothing at a multiple of 2^32, or panics when the
  end of a slice wraps round (`WritesHandOver`, `LongWriteLost`, `PanicExact`, `DrainedMeansDelivered`).
- A tunnel record edited in place before `UpdateTask` leaves its old password's hash in the index, so the index finds
  a tunnel that the full scan does not. The scan in turn finds a tunnel without a password under the hash of the empty
  one, and the index never does (`EditStaleExactly`, `LookupIsScan`).
- `bytesToNsCeil` overflows for large requests at large rates and then charges nothing; above 9223372036 bytes it
  charges 292 years whatever the rate. Its result is the ceiling, cut off at the largest int64, exactly when a request
  up to that limit does not overflow and a larger one really takes that long (`CeilingExact`). Either mistake breaks
  the rate bound: the first in a Get, at every rate and size that overflows, the second in a refund
  (`OverflowAlwaysFails`, `BoundFailsOnOverRefund`).
- The domain index finds every name that a pattern matches exactly when the pattern, outer white space aside, has no
  leading star, is `*` or `*.*`, or is `*.` followed by something that begins with neither a star nor white space
  (`IndexableExact`).
- `NewHost` refuses a route that an "all" route of the same name and location covers, but accepts an "all" route beside
  an existing "http" one; which of the two serves a request then depends on the order of the index
  (`TwinsDependOnOrder`). The choice is the same in every order exactly when at most one accepted candidate has the
  greatest rank (`OrderFreeByRank`).
- A health report that is only part of a configured line puts a target nobody configured into the rotation
  (`StrayReport`), but never disturbs a configured one (`OutExactlyWhileFailing`).
- Health checking takes a configured target out of use exactly while it fails, in every run, if and only if the text
  has no full-width colon and no line twice (`IntendedExactly`). Before the first pick has rewritten the text, a down
  report about a target is lost if the text, full-width colons and all, does not contain its name (`ReportLost`). A down
  report about another target at that time sets the list, after which no pick rewrites the text; a target written with
  a full-width colon is then out of use although its checks succeed, and for good if the text does not contain its name
  (`TargetHidden`, `OutForGood`, `FullWidthHidden`). A line that stands twice stays in use while it fails
  (`CopyInUse`).
- `Dequeue` of the pool keeps push order within a batch, but an element pushed between its dequeues can overtake the
  rest of the batch (`LatePushExactly`).
- `Next` of the pool returns element 0 twice when its counter passes 2^60 (`RoundRobinExact`).
- The comment on the status branches of bridge/health.go has the two directions the wrong way round; the model follows
  the code.

## Model

| member | source | states |
|---|---|---|
| MuxWord.UnpackPack | lib/mux/conn.go:152-171 | unpacking a packed window word gives back size, counter and wait bit, up to the 31-bit masks |
| MuxWord.SameWord | lib/mux/conn.go:152-171 | two packed words are equal exactly when their contents are, so a compare-and-swap on words compares contents |
| MuxWord.UnpackPackHalves | lib/mux/queue.go:418-429 | head and tail survive packing, up to 32 bits |
| MuxWord.AddComplement | lib/mux/queue.go:318-326 | the atomic 64-bit add of the complement subtracts from the length half, modulo 2^32, and leaves the wait half alone |
| MuxWord.AdvanceTail | lib/mux/queue.go:467-499 | the atomic add that ends popTail advances the tail by one, modulo 2^32, and leaves the head alone, also at wrap-around |
| MuxWord.NextSizeIsRingSize | lib/mux/queue.go:552-586 | twice a ring size, capped at the limit, is again a power of two of at most 2^30 |
| MuxWord.IndexTestsExact | lib/mux/queue.go:433-499 | the full and empty tests on wrapped 32-bit indices hold exactly when the unwrapped distance is the size or 0 |
| MuxWord.SlotOfWrapped | lib/mux/queue.go:433-499 | masking the wrapped index gives the slot of the unwrapped one, because the size divides 2^32 |
| MuxInvariant.StartInv | lib/mux/conn.go:197-206 | the invariant (credit, bounds, lengths, wake-ups, bytes in order) holds for two new windows |
| MuxInvariant.KeepWrite | lib/mux/conn.go:62-74 | starting a Write keeps the invariant |
| MuxInvariant.KeepSendLoad | lib/mux/conn.go:570-591 | the drained test against the length cut to 32 bits, the window check of WriteTo, and raising the wait bit keep the invariant |
| MuxInvariant.KeepSendCommit | lib/mux/conn.go:593-617 | cutting the segment and counting it as sent, or panicking, keep the invariant |
| MuxInvariant.CutCells | lib/mux/conn.go:609-613 | what was cut before, followed by the slice sent, marked by its part flag, is what has been cut after |
| MuxInvariant.PartExact | lib/mux/conn.go:609-611 | the part flag, although it compares a length cut to 32 bits, is up exactly while the offset stays below the 32-bit length |
| MuxInvariant.DrainedHandsOver | lib/mux/conn.go:571-574 | a drained buffer has been cut to its end exactly when it is shorter than 2^32 |
| MuxInvariant.KeepSendEmit | lib/mux/conn.go:653-672 | handing the segment to the session keeps the invariant |
| MuxInvariant.KeepSendWake | lib/mux/conn.go:619-646 | leaving the wait for a window keeps the invariant |
| MuxInvariant.AckFits | lib/mux/conn.go:492-515 | no acknowledgement on its way carries more than is outstanding |
| MuxInvariant.KeepAckApply | lib/mux/conn.go:492-534 | applying any outstanding acknowledgement, in any order, keeps the invariant |
| MuxInvariant.KeepAckSignal | lib/mux/conn.go:536-545 | the wake-up of the sender keeps the invariant |
| MuxInvariant.KeepDeliver | lib/mux/mux.go:490-503 | taking the next segment off the session keeps the invariant |
| MuxInvariant.KeepResize | lib/mux/conn.go:218-288 | any window that calcSize may compute keeps the invariant |
| MuxInvariant.KeepRecvLoad | lib/mux/conn.go:290-302 | loading the receive word keeps the invariant |
| MuxInvariant.KeepRecvLen | lib/mux/conn.go:208-216 | reading the queue length keeps the invariant |
| MuxInvariant.KeepRecvCas | lib/mux/conn.go:302-318 | receiveWindow.Write's three outcomes and its retry keep the invariant |
| MuxInvariant.KeepPushCount | lib/mux/queue.go:274-290 | adding to the queue length keeps the invariant and does not wrap |
| MuxInvariant.KeepPushChain | lib/mux/queue.go:274-290 | entering the element into the chain keeps the invariant |
| MuxInvariant.KeepPushSignal | lib/mux/queue.go:328-335 | the rendezvous with a sleeping reader keeps the invariant |
| MuxInvariant.KeepRecvAck | lib/mux/conn.go:320-327 | sending the acknowledgement keeps the invariant |
| MuxInvariant.KeepReadCall | lib/mux/conn.go:50-60 | starting a Read keeps the invariant |
| MuxInvariant.KeepReadTop | lib/mux/conn.go:340-346 | the test for a used-up element keeps the invariant |
| MuxInvariant.KeepPopCheck | lib/mux/queue.go:292-316 | going to sleep on length 0, or trying to take, keeps the invariant |
| MuxInvariant.KeepPopTake | lib/mux/queue.go:318-326 | taking an element out of the chain keeps the invariant |
| MuxInvariant.KeepPopUncount | lib/mux/queue.go:318-326 | subtracting its length keeps the invariant and does not wrap |
| MuxInvariant.KeepReadCopy | lib/mux/conn.go:360-364 | copying to the caller's buffer keeps the invariant |
| MuxInvariant.KeepStatusLoad | lib/mux/conn.go:378-383 | sendStatus loading the word keeps the invariant |
| MuxInvariant.KeepStatusLen | lib/mux/conn.go:384-386 | sendStatus reading the queue length keeps the invariant |
| MuxInvariant.StatusFits | lib/mux/conn.go:378-415 | sendStatus never takes its overflow branch and splits the credit exactly between the word and the acknowledgement |
| MuxInvariant.KeepStatusCas | lib/mux/conn.go:384-410 | every outcome of sendStatus and its retry keep the invariant |
| MuxInvariant.KeepReadAck | lib/mux/conn.go:388-394 | sending that acknowledgement keeps the invariant |
| MuxInvariant.KeepReadNext | lib/mux/conn.go:370-375 | going on to the next segment, or returning, keeps the invariant |
| MuxTheorems.ExecKeeps | lib/mux/conn.go:290-674 | every enabled step of every actor keeps the invariant |
| MuxTheorems.Reachable | lib/mux/conn.go:290-674 | the invariant holds after every interleaving |
| MuxTheorems.CreditConserved | lib/mux/conn.go:492-563 | in every run the sender's count is segment bytes in flight, queued or half read, plus the receiver's count, plus credit on its way back; SetSize never rejects |
| MuxTheorems.NoCreditLost | lib/mux/conn.go:378-415 | with nothing unread and no acknowledgement pending, nothing is outstanding |
| MuxTheorems.BlockedSenderHasHelp | lib/mux/conn.go:565-591 | a sender blocked on a positive window has a wake-up due, an unread segment or an acknowledgement coming |
| MuxProgress.NeverStuck | lib/mux/conn.go:565-646 | while the sender is blocked on a positive window and the reader is inside Read, some actor can step without a new call or window |
| MuxProgress.StepShrinks | lib/mux/conn.go:290-646 | every step of any actor while the sender stays blocked, retries included, lowers a bound on the work left |
| MuxProgress.BlockedRunsEnd | lib/mux/conn.go:290-646 | so no schedule keeps the sender blocked for more than that many steps |
| MuxProgress.BudgetShrinks | lib/mux/conn.go:290-646 | the same with Reads of at least one byte among the steps: steps and Reads together lower a bound that counts the unread bytes |
| MuxProgress.ServedRunsEnd | lib/mux/conn.go:290-646 | so no schedule of steps and Reads keeps the sender blocked for longer than that bound |
| MuxProgress.SenderReleased | lib/mux/conn.go:565-646 | from every reachable state boundedly many own steps and Reads lead to a state in which the sender is not blocked or its window is 0 |
| MuxProgress.HelplessKept | lib/mux/conn.go:565-646 | every step, Writes, Reads and new windows included, keeps a blocked sender with no wake-up, acknowledgement, segment or credit under way in that state |
| MuxProgress.HelplessForever | lib/mux/conn.go:565-646 | so nothing ever releases it |
| MuxProgress.HelplessMeansZero | lib/mux/conn.go:565-591 | in every run a sender is in that state only with a window of 0 |
| MuxZeroWindow.HelplessReached | lib/mux/conn.go:290-328 | a run with a window of 0 reaches that state: one byte is sent, queued, read and acknowledged, and the next Write blocks |
| MuxTheorems.OverflowBranchesDead | lib/mux/conn.go:384-410 | the stored read count stays below 2^30 and the overflow branches of sent and sendStatus are unreachable, the latter on the stored word and on the snapshot sendStatus has loaded |
| MuxTheorems.BoundedBuffering | lib/mux/conn.go:478-484 | bytes at the receiver never exceed the largest window the sender ever held, and the length field is exact |
| MuxTheorems.NoLostWakeup | lib/mux/queue.go:274-335 | a sleeping reader has its wait bit up on an empty queue or is owed a signal, and an owed signal finds it asleep |
| MuxTheorems.WritesHandOver | lib/mux/conn.go:565-617 | every finished Write handed over a prefix of its buffer, all of it exactly when it is shorter than 2^32; only a longer one can panic |
| MuxTheorems.PanicExact | lib/mux/conn.go:612 | the slice panics exactly when its end does not fit in 32 bits |
| MuxTheorems.LongWriteLost | lib/mux/conn.go:571-574 | a Write of a multiple of 2^32 bytes sends nothing and returns |
| MuxTheorems.ReadsArePrefixOfWrites | lib/mux/conn.go:340-376 | bytes read are a prefix of the bytes handed over, in order and once, and no Read spans two Writes; with buffers shorter than 2^32 they are a prefix of the bytes written |
| MuxTheorems.DrainedMeansDelivered | lib/mux/conn.go:340-376 | with nothing left to send or read, everything handed over has been read, and that is everything written exactly when every buffer was shorter than 2^32 |
| MuxWindow.Cell64.Cas | lib/mux/conn.go:520-526 | succeeds exactly when no other word was stored in between; a failure leaves the other word, a success the packed one |
| MuxWindow.SendWindow.SetSize | lib/mux/conn.go:492-534 | the retry loop acts as one atomic update on the word of its last pass and wakes the sender exactly when that clears the wait bit |
| MuxWindow.SendWindow.Sent | lib/mux/conn.go:547-563 | the retry loop acts as one atomic addition to the last word loaded |
| MuxWindow.SendWindow.AwaitRoom | lib/mux/conn.go:574-591 | the loop goes on exactly while the word it loads has no room, blocks with the wait bit up after each compare-and-swap that was not spoiled, and ends with the remaining window of the word it last loaded |
| MuxWindow.SendWindow.Cut | lib/mux/conn.go:593-613 | the segment is the next slice, its size the least of segment limit, rest and window, its part flag up exactly below the 32-bit length; it panics exactly when the end does not fit in 32 bits |
| MuxWindow.SendWindow.WriteTo | lib/mux/conn.go:565-617 | one segment of legal size is cut and counted in the word last loaded |
| MuxWindow.SendWindow.WriteFull | lib/mux/conn.go:648-674 | whatever windows are granted, the segments concatenate to a prefix of the buffer of which only the last byte ends a message, and to all of it exactly when it is shorter than 2^32; only a longer one can panic |
| MuxWindow.ReceiveWindow.Write | lib/mux/conn.go:290-328 | the retry loop acts as one step of the transition system, queues the element and returns the right acknowledgement |
| MuxWindow.ReceiveWindow.SendStatus | lib/mux/conn.go:378-415 | the retry loop acts as one atomic status update on the last word and length it loaded |
| MuxWindow.ReceiveWindow.ReadFromQueue | lib/mux/conn.go:340-376 | from what is queued and what arrives while it waits, returns exactly the next unread bytes up to the buffer's size or the first message end, and leaves the rest unread |
| Ring.FullExact | lib/mux/queue.go:433-481 | the full and empty tests are exact across wrap-around |
| Ring.KeepReserve | lib/mux/queue.go:433-452 | the producer's compare-and-swap keeps the ring invariant |
| Ring.KeepWrite | lib/mux/queue.go:453-462 | the late slot write keeps it |
| Ring.KeepTake | lib/mux/queue.go:467-490 | emptying the tail slot keeps it and returns the oldest item |
| Ring.KeepAdvance | lib/mux/queue.go:491-499 | advancing the tail keeps it |
| Ring.PopsInReservationOrder | lib/mux/queue.go:433-499 | with any number of producers, popped items are the reserved ones in order, each once; an empty ring has delivered all |
| Ring.FreeSlotsAreNil | lib/mux/queue.go:433-499 | slots outside [tail, head) are nil in every interleaving |
| Ring.RefusalsExact | lib/mux/queue.go:433-481 | push refuses exactly on a full ring; pop makes progress exactly when the oldest item has been written |
| BufChain.Elt.PushHead | lib/mux/queue.go:433-462 | appends to the ring's contents, refusing exactly when full |
| BufChain.Elt.PopTail | lib/mux/queue.go:467-499 | removes the oldest item, failing exactly when empty |
| BufChain.Chain.constructor | lib/mux/queue.go:543-550 | a new chain stands for the empty queue |
| BufChain.Chain.Grow | lib/mux/queue.go:564-586 | links a ring of twice the size, up to the limit, that holds the item, and disturbs nothing |
| BufChain.Chain.PushHead | lib/mux/queue.go:552-586 | the queue grows by exactly the item at its end, whether or not a ring is added |
| BufChain.Chain.PopTail | lib/mux/queue.go:588-626 | returns and removes the first item of the queue; fails exactly on the empty queue; dropping rings loses nothing |
| PriorityQueue.PriorityQueue.Push | lib/mux/queue.go:46-61 | the packet joins the end of its class |
| PriorityQueue.PriorityQueue.TryPop | lib/mux/queue.go:116-152 | serves the class the specification chooses and updates the starvation counter |
| PriorityQueue.ClassFifo | lib/mux/queue.go:46-152 | over every run, any selection within one class leaves in push order with nothing lost |
| PriorityQueue.ConnectionInOrder | lib/mux/queue.go:46-152 | data, acknowledgements and close of one connection never overtake each other |
| PriorityQueue.EmptyHandedOnlyWhenEmpty | lib/mux/queue.go:116-152 | a pop fails exactly when all classes are empty |
| PriorityQueue.LowWaitsAtMostEight | lib/mux/queue.go:116-152 | at most 8 middle packets are served while low ones wait |
| PriorityQueue.MiddleWaitsAtMostFive | lib/mux/queue.go:116-152 | at most 5 low packets are served while middle ones wait, for every 8-bit counter value |
| Codec.DecodeExact | lib/mux/netpackager.go:151-202 | decoding gives a packet and a rest exactly when the input is that legal packet's encoding followed by that rest |
| Codec.EncodedDecodes | lib/mux/netpackager.go:151-202 | every legal packet, negative ids and empty contents included, decodes to itself whatever follows |
| Codec.DecodedEncodes | lib/mux/netpackager.go:173-202 | whatever decodes is the encoding of the result |
| Codec.StreamRoundTrip | lib/mux/netpackager.go:73-117 | any list of legal packets decodes from its concatenated encoding to the same list with nothing left |
| Codec.StreamUnique | lib/mux/netpackager.go:87-117 | a byte stream that decodes is the encoding of the packets it decodes to |
| Codec.ReceivedExact | lib/mux/netpackager.go:87-117 | every stream splits into the encodings of the packets received and a rest that does not begin with a packet; the rest is empty exactly when the whole stream decodes |
| Codec.FlushWriter.Write | lib/mux/flush.go:24-39 | what is on the wire and in the buffer grows by exactly the bytes written, in order |
| Codec.FlushWriter.Flush | lib/mux/flush.go:41-50 | everything written is on the wire |
| Codec.Packager.Set | lib/mux/netpackager.go:133-149 | the fields stand for the given packet; an oversized content becomes empty |
| Codec.Packager.Pack | lib/mux/netpackager.go:151-171 | the bytes placed in the buffer and written are the packet's encoding |
| Codec.Reader.UnPack | lib/mux/netpackager.go:173-202 | consumes exactly one encoding and yields its packet, or fails exactly when decoding does |
| Codec.WriteSession | lib/mux/mux.go:243-286 | the wire carries the encodings of the packets sent, wherever the flushes fall |
| Codec.ReadSession | lib/mux/mux.go:374-479 | reads the packets of any stream up to its end or its first undecodable bytes |
| Codec.Session | lib/mux/mux.go:243-286 | packets sent with any flush points are received as sent, with nothing left over |
| Rate.CeilingExact | lib/rate/rate.go:325-334 | for every request the charge is the ceiling, cut off at the largest int64, if and only if up to 9223372036 bytes the sum bytes·1e9 + rate − 1 fits and above that rate·(2^63 − 2) is below bytes·1e9; otherwise it is not positive, or too large |
| Rate.FairExact | lib/rate/rate.go:325-334 | exactly when the charge covers the bytes, and exactly when it exceeds them by less than a nanosecond |
| Rate.LargeRequestOvercharged | lib/rate/rate.go:329-331 | a concrete request worth one second is charged 292 years |
| Rate.OverflowIsFree | lib/rate/rate.go:325-334 | a concrete overflowing request leaves the arrival time unchanged |
| Rate.BytesPerSecExact | lib/rate/rate.go:336-367 | the measured rate is never overstated, and is the rounded-down quotient, saturated, if and only if the remainder can be scaled or the coarser estimate agrees |
| Rate.Limiter.constructor | lib/rate/rate.go:87-109 | a positive limit starts with a full burst |
| Rate.Limiter.Get | lib/rate/rate.go:227-272 | the retry loop acts as one atomic advance of the arrival time it last loaded and returns the wait that follows |
| Rate.Limiter.ReturnBucket | lib/rate/rate.go:196-225 | the retry loop acts as one atomic refund, never below a full burst |
| Rate.Reachable | lib/rate/rate.go:196-272 | the accounting invariant holds after every interleaving of calls, overflow and saturation included |
| Rate.CostCoversBytes | lib/rate/rate.go:196-272 | what the arrival time has moved by covers the bytes returned, up to one nanosecond of rate per refund |
| Rate.RateBound | lib/rate/rate.go:196-272 | in every run in which returned Gets were charged enough and no refund too much, bytes returned minus bytes refunded are at most rate × (elapsed + 2 s + 200 µs + 1 ns per refund), saturated arrival times included |
| Rate.BurstPassesAtOnce | lib/rate/rate.go:227-272 | a request within two seconds' worth of a fresh limiter does not wait if and only if it is at most 9223372036 bytes |
| Rate.BoundFailsOnOverflow | lib/rate/rate.go:325-334 | a run with an overflowing request exceeds the bound |
| Rate.OverflowAlwaysFails | lib/rate/rate.go:325-334 | for every rate and every size up to 9223372036 whose charge overflows, enough Gets of that size exceed the bound |
| Rate.BoundFailsOnOverRefund | lib/rate/rate.go:196-225 | a run with a refund that is charged too much exceeds the bound |
| DomainTrie.HasPair | lib/index/host.go:140-154 | the walk answers whether the pair is stored |
| DomainTrie.AddExact | lib/index/host.go:33-58 | adding changes exactly one (path, id) pair |
| DomainTrie.RemoveExact | lib/index/host.go:69-96 | removing changes exactly one pair, pruning included |
| DomainTrie.RemoveFromExact | lib/index/host.go:60-67 | the same for the whole tree, emptied or not |
| DomainTrie.LookupExact | lib/index/host.go:98-126 | a lookup returns exactly the ids stored at a prefix of the query |
| DomainTrie.AddCanonical | lib/index/host.go:33-58 | adding keeps the tree free of empty nodes |
| DomainTrie.RemoveFromCanonical | lib/index/host.go:60-96 | so does removing |
| DomainTrie.PairsDetermineTree | lib/index/host.go:9-96 | canonical trees with the same pairs are equal |
| DomainTrie.RemoveUndoesAdd | lib/index/host.go:27-67 | removing a newly added pair restores the tree |
| DomainTrie.AddUndoesRemove | lib/index/host.go:27-67 | adding back a removed pair restores the tree |
| DomainNames.SplitDomain | lib/index/host.go:128-138 | the labels of the trimmed domain from the top-level one down |
| DomainNames.ReverseInPlace | lib/index/host.go:133-136 | the in-place swap loop reverses |
| DomainNames.NormalizeIs | lib/index/host.go:167-172 | normalising trims, lower-cases and strips one "*." and one "*" |
| DomainNames.IndexableFinds | lib/index/host.go:98-205 | an indexable pattern's path is a prefix of the path of every name it matches, white space or not |
| DomainNames.NotIndexableMisses | lib/index/host.go:98-205 | any other pattern matches a given name whose lookup misses it |
| DomainNames.IndexableExact | lib/index/host.go:98-205 | for every pattern, the index finds all names it matches if and only if it is indexable |
| HostRouting.StoreKeepsIndexExact | lib/file/db.go:321-338 | storing keeps the index exact if and only if the id is new or keeps its path |
| HostRouting.IndexAddExact | lib/index/host.go:179-191 | the index gains exactly the pair |
| HostRouting.IndexRemoveExact | lib/index/host.go:193-205 | the index loses exactly the pair |
| HostRouting.HostDb.IsHostExist | lib/file/db.go:279-296 | true exactly on a clash of name, location and scheme with another record; only empty locations change |
| HostRouting.HostDb.NewHost | lib/file/db.go:321-338 | stores with defaults exactly when there is no clash; index and records then agree if and only if the id is new or keeps its path; otherwise nothing moves |
| HostRouting.HostDb.DelHost | lib/file/db.go:269-277 | record and index entry go together |
| HostRouting.HostDb.Rename | web/api/hosts.go:160-184 | succeeds exactly when nothing changes or there is no clash; then the record changes and its index entry moves, otherwise neither |
| HostRouting.CandidatesComplete | lib/file/db.go:514-517 | every stored host whose indexable pattern matches is among the looked-up ids |
| HostRouting.ExactIsLongest | lib/file/db.go:537-572 | no matching indexable pattern is longer than the exact name, so the exact rule respects the ranking |
| HostRouting.Admit | lib/file/db.go:528-555 | the tests on one candidate accept exactly what the full scan accepts |
| HostRouting.Select | lib/file/db.go:519-579 | the loop with its best-so-far variables computes the fold over the candidates in their order |
| HostRouting.ChosenIsBest | lib/file/db.go:519-579 | for candidates in any order, the fold leads to an accepted host, with none ranked above it if the accepted hosts are indexable, or to nothing exactly when none is accepted |
| HostRouting.TieMeansSameRoute | lib/file/db.go:556-578 | accepted hosts of equal rank have the same name and location |
| HostRouting.BestIsUnique | lib/file/db.go:519-579 | without two hosts of the same name and location for the scheme the result does not depend on the order |
| RouteOrder.OrderFreeExactly | lib/file/db.go:519-579 | for any candidates the result is the same in every order if and only if none is accepted or one of them wins against every other in both orders |
| RouteOrder.OrderFreeByRank | lib/file/db.go:519-579 | when the hosts that accept the request are indexable: if and only if none is accepted or exactly one accepted candidate has the greatest rank |
| RouteOrder.TwinsDependOnOrder | lib/file/db.go:279-296 | an "all" route is admitted beside an "http" one, but not the other way round, and the two orders give two different results |
| HostRouting.HostDb.GetInfoByHost | lib/file/db.go:502-585 | any result is stored and accepted; when the hosts that accept the request are indexable it succeeds exactly when the full scan accepts some host, and the result has the greatest (location length, domain length, exact) |
| TaskPasswords.FirstFreeIsFree | lib/file/db.go:150-158 | the redraw loop ends with a password whose hash is free or the tunnel's own |
| TaskPasswords.DeleteAgreesExactly | lib/file/db.go:227-235 | deleting keeps the other tunnels indexed if and only if none has the deleted one's hash |
| TaskPasswords.UpdateAgrees | lib/file/db.go:179-219 | creating or updating repairs the tunnel's own entry and keeps all others, also after an edit in place |
| TaskPasswords.RunAgrees | lib/file/db.go:131-235 | after every run of creations, replacements, edits in place and deletions each stored password is indexed under its owner, and the hash of the empty one is not in the index |
| TaskPasswords.EachOpensItsOwn | lib/file/db.go:238-247 | so each password opens its own tunnel and no two tunnels share one |
| TaskPasswords.ScanHitFound | lib/file/db.go:238-258 | a tunnel with a password that the scan finds is the one the index finds |
| TaskPasswords.LookupIsScan | lib/file/db.go:238-258 | for every hash and every order of the scan the two answers agree if and only if the entry is not stale and it is not the hash of the empty password while some tunnel has none |
| TaskPasswords.FreshRecordsLeaveNothing | lib/file/db.go:131-219 | creating, replacing and deleting leave no stale entry |
| TaskPasswords.EditLeavesOldHash | web/api/tunnels.go:185-188 | after an edit in place no entry is stale if and only if there was no old password or the one it ends with has its hash; the old hash still finds the tunnel |
| TaskPasswords.EditStaleExactly | web/api/tunnels.go:185-188 | on what the caller wrote: as long as no random draw has the old hash, no entry is stale if and only if there was no old password or the one written has its hash; a taken, an emptied and a random password all leave one |
| TaskPasswords.TaskDb.Claim | lib/file/db.go:150-158 | the loop stores the first free password and its entry, or is still redrawing when none of the draws is free |
| TaskPasswords.TaskDb.NewTask | lib/file/db.go:131-177 | the new state is the specified one |
| TaskPasswords.TaskDb.UpdateTask | lib/file/db.go:179-219 | the same, for a fresh record and for the stored one, and index agreement is restored |
| TaskPasswords.TaskDb.DelTask | lib/file/db.go:227-235 | the new state is the specified one |
| TaskPasswords.TaskDb.GetTaskByMd5Password | lib/file/db.go:238-247 | returns the stored tunnel the index names, or nothing |
| TaskPasswords.TaskDb.GetTaskByMd5PasswordOld | lib/file/db.go:249-258 | returns a tunnel with that hash exactly when there is one; if it has a password the index agrees |
| Pool.WithoutInverse | lib/pool/pool.go:185-193 | swap-remove keeps list and position map inverse |
| Pool.RoundRobinBeforeReset | lib/pool/pool.go:119-131 | n calls of Next on n members return each once below the reset point |
| Pool.RoundRobinExact | lib/pool/pool.go:119-131 | exactly when that happens for n ≥ 2, reset included |
| Pool.BatchIsFifo | lib/pool/pool.go:79-107 | a batch pushed into an empty pool is dequeued in push order despite the swaps |
| Pool.LatePushExactly | lib/pool/pool.go:79-107 | an element pushed between the dequeues of a batch comes out after the rest of it if and only if none has been dequeued yet or at most one is left |
| Pool.Pool.Add | lib/pool/pool.go:31-38 | appends a new member, ignores a present one |
| Pool.Pool.RemoveAt | lib/pool/pool.go:185-206 | exactly that member goes, list and map stay inverse, the head stays in range |
| Pool.Pool.Remove | lib/pool/pool.go:40-49 | exactly that member goes |
| Pool.Pool.Pop | lib/pool/pool.go:58-68 | returns and removes the last element |
| Pool.Pool.Dequeue | lib/pool/pool.go:79-107 | returns the first of what the pool would be drained to and leaves the rest of it |
| Pool.Pool.Next | lib/pool/pool.go:119-131 | returns the next of the round-robin picks and leaves the later ones |
| Pool.Pool.Random | lib/pool/pool.go:133-140 | returns the member drawn |
| NodeSelection.GivenUpForCause | bridge/client.go:414-441 | a node is given up exactly when some look saw it offline with both grace windows closed |
| NodeSelection.Client.constructor | bridge/client.go:281-292 | a new client has the one node |
| NodeSelection.Client.AddNode | bridge/client.go:294-314 | pool members stay the nodes; the last node becomes the added one unless an online old-version one is kept |
| NodeSelection.Client.AddFile | bridge/client.go:331-339 | files only ever point to live nodes |
| NodeSelection.Client.RemoveFile | bridge/client.go:341-345 | exactly that file goes |
| NodeSelection.Client.RemoveNode | bridge/client.go:543-559 | the node and its files go, the last node moves on to a member or becomes empty |
| NodeSelection.Client.GetNodeByFile | bridge/client.go:347-378 | returns the file's node only if online and removes it only offline outside the grace window |
| NodeSelection.Client.CheckNode | bridge/client.go:380-447 | for any observations it ends within twice the number of nodes in rounds, returns only a node just seen not offline, gives up only nodes seen offline outside both grace windows, and fails only with no node left or the grace checks used up |
| NodeSelection.Client.GetNode | bridge/client.go:449-466 | returns only a live node that its last look saw not offline, gives up nodes only for cause; in round-robin mode the next pick of the pool if it is online |
| NodeSelection.Client.RemoveOfflineNodes | bridge/client.go:494-541 | removes exactly the other nodes seen offline, outside grace, out of retries and not back online, and counts them |
| TargetList.ContainsPart | bridge/health.go:43 | substring test |
| TargetList.LinesAreContained | bridge/health.go:43-46 | every configured line passes the server's containment test whatever the line endings |
| TargetList.RemoveFirstExact | lib/common/util.go:231-239 | from a list without repeats exactly the value goes |
| TargetList.RemoveArrVal | lib/common/util.go:231-239 | removes the first occurrence |
| TargetList.Trimmed | lib/common/util.go:207-217 | trims every line and drops empty ones |
| TargetList.PicksVisitEachOnce | lib/file/obj.go:465-475 | n picks from n ≥ 2 targets visit each once wherever the index stood |
| TargetList.Target.GetRandomTarget | lib/file/obj.go:448-476 | rewrites full-width colons before the first pick; fails exactly when no target is usable, otherwise picks a usable one, the next in turn from two on, also after the list shrank |
| Health.Checker.CheckOne | client/health.go:191-203 | one probe leaves the counter and sends the report the specification gives |
| Health.Checker.DoCheck | client/health.go:159-205 | counters and reports are those the specification gives for the probes in order |
| Health.NextTimeExact | client/health.go:148-153 | the next time is the first multiple of the interval after the old time that lies beyond now |
| Health.Reschedule | client/health.go:121-157 | exactly the due entries move, and all lie beyond now |
| Health.Tunnel.Receive | bridge/health.go:40-95 | one report moves the target as specified |
| Health.DownExact | bridge/health.go:40-55 | a down report, whatever it names, takes exactly the configured target of that name out of the rotation |
| Health.UpExact | bridge/health.go:73-84 | an up report, whatever it names, puts exactly the configured target of that name back, copies on the removed list notwithstanding |
| Health.StrayReport | bridge/health.go:40-84 | a down and an up report leave only configured targets if and only if the report names a whole line or nothing in the text |
| Health.ExecKeeps | client/health.go:191-203 | every probe, delivery and pick keeps the end-to-end invariant, whatever the probes name |
| Health.RunKeeps | client/health.go:191-203 | it holds after every run |
| Health.OutExactlyWhileFailing | client/health.go:191-203 | for distinct lines without full-width colons and in every run: with no report under way for it, a configured target is out of use exactly while its current run of failures has reached the limit |
| HealthLimits.PlainLines | lib/file/obj.go:448-451 | the lines of the rewritten text are the rewritten lines of the text |
| HealthLimits.PartOfLine | bridge/health.go:43 | what the containment test finds within one line stands in a configured line |
| HealthLimits.FirstReportCounts | bridge/health.go:43-52 | before the first pick a down report takes its target out of use if and only if the text contains its name as written |
| HealthLimits.OtherReportHides | bridge/health.go:43-52 | before the first pick a down report about one target takes another out of use if and only if the other's name is no line of the text as written |
| HealthLimits.OutForGood | lib/file/obj.go:448-451 | a target out of the list whose name the text does not contain stays out of use in every continuation |
| HealthLimits.ReportLost | bridge/health.go:43 | a target whose name the text does not contain as written is still in use after failing up to the limit and the report of it |
| HealthLimits.TargetHidden | bridge/health.go:43-52 | the first report about one target puts another, which never failed and whose name is no line as written, out of use |
| HealthLimits.CopyInUse | bridge/health.go:43-52 | a line that stands twice is still in use after failing up to the limit and the report of it |
| HealthLimits.IntendedExactly | client/health.go:191-203 | in every run every configured target is out of use exactly while it fails, if and only if the text has no full-width colon and no line twice; the same if all probes name targets in use |
| HealthLimits.FullWidthMissed | bridge/health.go:43 | a target written with a full-width colon is in use under a name the text does not contain |
| HealthLimits.FullWidthHidden | bridge/health.go:45-52 | with a：1 and b:2 configured, a first report about b:2 takes a:1 out of use for good |
| LogBuffer.LastOfLast | lib/logs/logger.go:45-69 | bytes a write pushes out are never needed again |
| LogBuffer.BufferWriter.constructor | lib/logs/logger.go:35-43 | empty, with the wanted capacity or the default |
| LogBuffer.BufferWriter.Write | lib/logs/logger.go:45-69 | the contents become the last bytes of what was held followed by what is written, for every size |
| LogBuffer.BufferWriter.GetAndClear | lib/logs/logger.go:71-91 | returns the contents in order and empties the buffer |
| LogBuffer.HeldIsLastPending | lib/logs/logger.go:45-91 | over every run a reader gets exactly the last bytes written since the previous read, as many as fit |

## Left out

- Closing, timeouts and deadlines of multiplexed connections, write back-pressure and buffer pools.
- The floating-point estimate in calcSize: any resulting window is allowed.
- Connection ids, connection set-up and ping handling of the session.
- Several consumers of one ring, and producers that push while the chain of rings grows; the chain's `prev` link, which is never followed, and its starving flag, which only delays a concurrent pusher.
- Condition variables around the priority queue.
- Start, Stop and changes of limit of the rate limiter, and its measurement loop.
- Rate.RateBound: for Gets charged enough and refunds not charged too much, because an overflowing Get always breaks the bound in the end (OverflowAlwaysFails) and an overcharged refund can (BoundFailsOnOverRefund), and for the first 292 years, less 200 µs, on the nanosecond clock, because a saturated arrival time no longer delays a Get after that.
- MuxWindow.SendWindow.WriteFull: the words that other goroutines store are required to end with room for the next segment; a writer that never gets room does not return.
- MuxWindow.ReceiveWindow.ReadFromQueue: what is queued and arrives is required to answer the Read; one that nothing answers does not return.
- MuxProgress.SenderReleased: up to a window of 0, because HelplessForever shows that a sender blocked there need not be released. Whether the estimate in calcSize can be 0 is not modelled.
- White space and letter case beyond ASCII in host names and target lines.
- Certificate fields, JSON persistence and the remaining fields of hosts and tunnels; the proxy flags set beside a tunnel's mode.
- HostRouting.HostDb.GetInfoByHost: completeness and ranking are stated when the hosts that accept the request are indexable, because IndexableExact shows that others are missed.
- TaskPasswords.TaskDb.NewTask: requires that the random draws reach a free password, as the loop does not end otherwise; the same holds for UpdateTask.
- TaskPasswords.RunAgrees: requires that no password hashes like the empty one; the hash is otherwise arbitrary.
- Concurrent changes to a client's nodes during CheckNode, and the node objects themselves with their connections: nodes are their ids.
- Health.OutExactlyWhileFailing: for texts without full-width colons and repeated lines, because IntendedExactly shows that every other text has a run that fails.
- TaskPasswords.EditStaleExactly: random draws that hash like the old password are covered by EditLeavesOldHash only.
- Health entries with a zero interval, the heap of next times, and the probes themselves.
- Cryptography, TLS, QUIC, KCP, WebSocket, DNS, NTP, P2P hole punching, HTTP handlers and the web interface.
