# A Dafny model of SuperCache

SuperCache is a replicated, versioned in-memory cache. This project models the parts of it whose correctness is not
visible from any single function, and proves what they promise:

* **The store** (`pkg/store`): a map, a recency list and a byte count updated in place, with tombstones and structures
  protected from eviction, and hash values whose decoded form runs ahead of the stored bytes. `Memory.dfy` is the class;
  `Stores.dfy` and `Structures.dfy` say what each method does to the store's value; `Eviction.dfy`, `Tombstones.dfy`,
  `HashRefinement.dfy` and `TopKRuns.dfy` prove what holds over whole runs.
* **Replication** (`pkg/engine`, `internal/peer`): `LastWriter.dfy` is last-writer-wins on one key, `TimedDelivery.dfy` the
  same with mutations that expire, `Protocol.dfy` the protocol as a state machine over its atomic steps, `Versions.dfy` the
  version counters, `Hints.dfy` the hint queue, `Fanout.dfy` the fan-out to a peer and the flusher of its hints,
  interleaved, over a network that loses, refuses, repeats and delays calls and answers, `LocalApply.dfy` a Put on one node
  among other writers, `SizeErrors.dfy` when its size error is wrong, and `Routing.dfy` its path through nodes that disagree
  about the ring.
* **The ring** (`internal/ring`): `Ring.dfy`. Replica lists are characterised without the ring, as the ranking of the
  peers by clockwise distance.
* **Sketches and codecs**: `SpaceSaving.dfy` and `TopK.dfy`, `Hll.dfy`, `Cms.dfy`, `Stream.dfy`, `Json.dfy`,
  `HashCodec.dfy`, over `Uvarint.dfy`, `Decimal.dfy` and `Ordering.dfy`.
* **The load guard** (`pkg/protect`): `LoadGuard.dfy` with `Allow` as one step, `GuardRaces.dfy` with its critical
  sections interleaved, `GuardPairs.dfy` with the two guards a load passes.

Where the source updates an object in place the model is a class (`Memory`, `Table`, `VersionCounters`, `HintQueue`,
`HashRing`, `Log`, `Guard`) or a method on an array (HyperLogLog, Count-Min), and each method is proved equal to a function
on the object's value. The theorems are about those functions. `byte` and `uint64` are bounded integers with wrap-around
written out; byte shifts of the HyperLogLog are done on 8- and 16-bit vectors; time and tokens of the guard are reals.
Hash functions are parameters: nothing depends on which one is used.

Some claims one would like to make are false of the code. For each, the model keeps the code as it is and states exactly
when the claim holds:

| claim | holds if and only if | member |
|---|---|---|
| a minted version was never minted before | the minting node's counter or live copy has reached the highest minted version (not so after pruning, or on a second minter) | `Protocol.FreshIff`, with `Protocol.PruningBreaksAgreement` and `Protocol.SecondMinterBreaksAgreement` |
| a negative fill leaves a tombstone standing | its version does not exceed the tombstone's, or its size is refused | `Tombstones.NegativeFillOpensGate`, with `Tombstones.ResurrectionThroughNegative` |
| a deleted key stays empty for Get, whatever arrives (without a size limit) | no put or negative fill that can be read on arrival comes while no tombstone of its version or a higher one stands | `Tombstones.StaysEmptyIff`, with `Tombstones.ResurrectionThroughNegative` |
| the newest mutation a key received is the one it keeps | nothing arrives after its last delivery when it has expired | `TimedDelivery.NewestStaysIff`, with `TimedDelivery.ExpiryDivides` |
| two stores whose newest mutation of a key is the same put both show it | it has not expired | `TimedDelivery.StoresAgreeIff`, with `TimedDelivery.ExpiryDivides` |
| a hash install over a live entry does not lose the key | the version gate refuses it or the blob decodes | `StoreRuns.InstallLosesKey`, with `StoreRuns.CutOffBlobLosesKey` |
| a table started over a tombstone is permanent when no expiry is given | the tombstone was | `TopKRuns.TableInheritsTombstoneExpiry`, with `TopKRuns.TableDiesWithTombstone` |
| replaying the one hint that is kept for a key does what replaying all of them would | it is a delete, has not expired by then, or came last | `Hints.CoalescingIsLosslessIff`, with `Hints.ExpiredHintHidesOlder` |
| popping a hint after its replay loses nothing | the peer's entry, or a send that has failed meanwhile, is as new as the hint that is popped (not so if a newer one took its place during the replay, or if the peer has lost what was replayed) | `Fanout.PopLosesIff`, with `Fanout.CoalescedDuringReplayIsLost` and `Fanout.ForgottenBeforePopIsLost` |
| a step of the fan-out or the flusher loses nothing | the copy that it takes away or fails to place (an expired entry overwritten by an older call, a put refused by size, a hint pushed out, not kept or popped, an entry the peer drops) is not the last one | `Fanout.LosesIff`, with `Fanout.RefusedIsLost` and `Fanout.ExpiryBringsBackOlder` |
| at every moment all that was sent to a peer is in its entry, pending, or covered by something newer | until something expires, with hints kept, none pushed out and no entry refused: no pop took the last copy of a newer hint; in general: no step took a last copy | `Fanout.InTimeCompleteIff`, `Fanout.CompleteIff`, with `Fanout.CoalescedDuringReplayIsLost` |
| such a peer, with nothing pending, shows what the owner does that applied the same mutations | nothing reached the owner after the last delivery of the newest one when that had expired | `Fanout.DrainedPeerAgreesIff` |
| every peer is on some replica list | each has a vnode hash that no other peer listed later has | `Ring.EveryPeerReachedIff`, with `Ring.CollisionHidesPeer` |
| the order in which peers are given leaves no trace | no two of them share a vnode hash | `Ring.OrderIrrelevantIff` |
| ids of a stream increase | no append finds the sequence exhausted | `Stream.MintIncreasesIff`, `Stream.RunMintsIncreasing`, `Stream.WrappingBreaksOrder` |
| a snapshot decodes to its log | the log is within the hard cap | `Stream.SnapshotRoundTripIff` |
| writing a deleted JSON node back restores the document | it was an object field or the last array element | `Json.SetUndoesDelIff` |
| concurrent callers that find the breaker not closed keep to one load between reports | there is no rate limit | `GuardRaces.OneProbeIff` |
| concurrent callers, those included that found it closed, keep to n loads between reports (without a rate limit) | no more than n are past the check or may still pass it | `GuardRaces.LetInIff` |
| a probe of the process-wide guard is resolved in the end | no keyspace guard refuses the last caller between the two while the probe is out and no load is under way | `GuardPairs.StuckIff`, with `GuardPairs.LongerTimeoutStrands` |
| a Put is committed by at most one node | the answer to a passed-on call is not lost between two commits | `Routing.TwoCommitsIff`, with `Routing.LostReplyCommitsTwice` |
| a Put that is not too large, with nobody else at the key once its accept was tried, does not report the size error | nothing as new was there, or it was a tombstone that lasts to the second look, or a value that lasts to the first and is not evicted | `SizeErrors.WrongWhenLeftAloneIff`, with `SizeErrors.ExpiryMisleads` and `SizeErrors.EvictionMisleads` |

Two comments in the source differ from its code, and the model follows the code. The default burst of the rate limiter is
documented as the whole part of the rate, at least one; that is what `New` starts with, but the bucket then fills up to the
rate itself. `ApproxWireBytes` of a hash is not approximate: it is the encoded length.

A Put that fails says that its entry exceeds the byte budget. As long as nobody else gets at the key between
the steps of the call this is exact (`LocalApply.FailsIffTooLarge`, whatever happens to other keys). If others were there
before the accept only, `SizeErrors.WrongWhenLeftAloneIff` says exactly when it is wrong. If they are there afterwards too,
it takes an act or an expiry to make it wrong (`SizeErrors.WrongTakesAnAct`; `SizeErrors.TakesIff` gives the acts), and each
kind does: a removal (`LocalApply.SpuriousSizeError`), an expiry, an eviction, and a put over a tombstone between the looks
(`SizeErrors.PutBetweenLooksMisleads`).

## Model

| member | source | states |
|---|---|---|
| `Stores.RemoveValid` | pkg/store/memory.go:447-455 | removing an element leaves the list a duplicate-free listing of the map and `bytes` the sum of costs, so the clamp at zero never fires |
| `Stores.InstallValid` | pkg/store/memory.go:206-233 | putting an item at the front keeps listing and byte sum exact |
| `Stores.VictimIndex` | pkg/store/memory.go:436-445 | the scan from the back yields the last unprotected position, or -1 exactly when all are protected |
| `Stores.EvictDrops` | pkg/store/memory.go:419-432 | eviction removes only unprotected entries and changes no survivor |
| `Eviction.EvictIsMinimal` | pkg/store/memory.go:419-445 | what evictLocked removes is the shortest least-recent run of unprotected entries that reaches the budget, or all of them |
| `Eviction.NewestSurvives` | pkg/store/memory.go:419-432 | an unprotected most recent entry outlives eviction if and only if it fits together with the protected entries |
| `Eviction.AcceptedEntrySurvives` | pkg/store/memory.go:187-234 | a plain entry that AcceptIfNewer took is present afterwards if and only if its cost plus the protected costs fits maxBytes |
| `MemoryStore.Memory.constructor` | pkg/store/memory.go:74-89 | a new store is empty, with its limits, and valid |
| `MemoryStore.Memory.RemoveElement` | pkg/store/memory.go:447-455 | in place, removes one key and keeps the store valid |
| `MemoryStore.Memory.LruVictim` | pkg/store/memory.go:436-445 | the loop finds the least recent unprotected entry |
| `MemoryStore.Memory.EvictLocked` | pkg/store/memory.go:419-432 | the loop computes the minimal eviction |
| `MemoryStore.Memory.Set` | pkg/store/memory.go:149-185 | refuses exactly an entry larger than the budget, else installs and evicts |
| `MemoryStore.Memory.AcceptIfNewer` | pkg/store/memory.go:187-234 | installs exactly when no live entry has an equal or higher version and the size fits |
| `MemoryStore.Memory.AcceptNegative` | pkg/store/memory.go:236-277 | fills only absences, and only with a higher version |
| `MemoryStore.Memory.Delete` | pkg/store/memory.go:279-288 | removes the key and reports whether it was there |
| `MemoryStore.Memory.DeleteIfVersion` | pkg/store/memory.go:290-322 | installs a tombstone with its expiry unless a live entry is newer |
| `MemoryStore.Memory.Peek` | pkg/store/memory.go:124-147 | drops an expired entry, flushes a lagging blob, returns tombstones and keeps recency |
| `MemoryStore.Memory.Get` | pkg/store/memory.go:91-122 | as Peek, but a tombstone is a miss and a hit becomes most recent |
| `MemoryStore.Memory.PeekVersion` | pkg/store/memory.go:396-409 | the version of a live entry without flushing |
| `MemoryStore.Memory.FlushHash` | pkg/store/hash.go:202-215 | rewrites the blob from the dirty cache and nothing else |
| `MemoryStore.Memory.HMutateLocked` | pkg/store/hash.go:151-200 | edits, creates or refuses as specified, on decoded fields with a lagging blob |
| `MemoryStore.Memory.HSet` | pkg/store/hash.go:7-13 | sets one field |
| `MemoryStore.Memory.HDel` | pkg/store/hash.go:15-40 | removes one field, with no effect on missing, expired or newer-deleted keys |
| `MemoryStore.Memory.HInstall` | pkg/store/hash.go:97-125 | version gate first, then the old entry goes, then the blob is decoded |
| `MemoryStore.Memory.HPeekLocked` | pkg/store/hash.go:127-149 | decodes once and keeps the result |
| `MemoryStore.Memory.HGet` | pkg/store/hash.go:42-50 | reads a field of the decoded hash |
| `MemoryStore.Memory.InsertHashLocked` | pkg/store/hash.go:217-229 | installs a hash item under its size limit |
| `MemoryStore.Memory.TopKAdd` | pkg/store/topk.go:15-44 | one observation through the blob, at the local version plus one |
| `MemoryStore.Memory.TopKReplaceLocked` | pkg/store/topk.go:48-72 | rewrites the live table, keeping the expiry already there when none is given |
| `MemoryStore.Memory.TopKInsertLocked` | pkg/store/topk.go:75-85 | starts a table with one observation |
| `MemoryStore.Memory.TopKInstall` | pkg/store/topk.go:155-182 | last writer wins, and a blob that does not decode is refused before anything changes |
| `StoreRuns.StepLocal` | pkg/store/memory.go:91-455 | every operation keeps the store valid and disturbs no other key's protected entry |
| `StoreRuns.InstallLosesKey` | pkg/store/hash.go:97-125 | an install over a live entry, with its expiry ahead, leaves no entry if and only if its version is higher and its blob does not decode, and succeeds if and only if its version is higher and its blob decodes |
| `StoreRuns.CutOffBlobLosesKey` | pkg/store/hash.go:97-125 | one cut-off byte under a newer version loses any live entry |
| `Tombstones.StepGated` | pkg/store/memory.go:187-322 | no apply or negative fill at or below the delete's version, no delete and no foreign eviction opens the gate while the tombstone stands |
| `Tombstones.NoResurrection` | pkg/store/memory.go:91-122 | after a delete at version d, no run of applies and negative fills at or below d, deletes, reads and work on other keys makes Get return a value before the tombstone expires |
| `Tombstones.NegativeFillOpensGate` | pkg/store/memory.go:236-277 | a negative fill leaves the tombstone standing if and only if its version does not exceed it or its size is refused |
| `Tombstones.ResurrectionThroughNegative` | pkg/store/memory.go:236-277 | a family of runs in which a newer, short-lived negative fill lets a late put back in |
| `Tombstones.StaysEmptyIff` | pkg/store/memory.go:91-322 | over every run of applies, negative fills, deletes and reads of the key, with any work on other keys, Get stays empty throughout if and only if no act opens the gate, judged by the version and the end of the tombstone that stands there by then |
| `Tombstones.DeleteShutsGate` | pkg/store/memory.go:290-322 | a delete that is taken shuts that gate at its version until its tombstone lapses |
| `HashRefinement.FlushKeepsBytes` | pkg/store/hash.go:202-215 | a flush leaves the byte count unchanged, because the approximate size was exact |
| `HashRefinement.SetRefines` | pkg/store/hash.go:151-200 | HSet on the store is the field update on a plain map with version and expiry |
| `HashRefinement.DelRefines` | pkg/store/hash.go:15-40 | HDel likewise |
| `HashRefinement.InstallRefines` | pkg/store/hash.go:97-125 | HInstall likewise, with the loss of the key on a bad blob |
| `HashRefinement.HashRefinesFieldMap` | pkg/store/hash.go:127-229 | over every run of hash operations, writes, deletes and reads of the key, with any work on other keys and any size limit, reads and peeked blobs are those of a plain field map, a delete marker or a raw value; only a raw value may be evicted |
| `HashRefinement.WriteRefines` | pkg/store/memory.go:149-234 | Set and AcceptIfNewer of a whole entry, with any size limit, are refused by size or version or replace the field map by what the entry decodes to; only a raw value may be evicted at once |
| `HashCodec.HashRoundTrip` | pkg/hashx/hashx.go:101-179 | Decode inverts Encode on every field map |
| `HashCodec.ConsumePairInverts` | pkg/hashx/hashx.go:141-162 | one record is read back whatever follows it |
| `HashCodec.EncodeSize` | pkg/hashx/hashx.go:101-130 | the encoded length is the sum of record sizes, whatever the order |
| `HashCodec.All` | pkg/hashx/hashx.go:82-98 | enumerating the map in any order and sorting gives the one sorted listing |
| `HashCodec.EncodeFields` | pkg/hashx/hashx.go:101-117 | the loop writes the canonical encoding |
| `HashCodec.DecodeFields` | pkg/hashx/hashx.go:165-179 | the consuming loop computes Decode, rejecting any malformed record |
| `HashCodec.ApproxWireBytes` | pkg/hashx/hashx.go:120-130 | the sum equals the encoded length exactly |
| `Uvarint.UvarintRoundTrip` | pkg/hashx/hashx.go:101-162 | every 64-bit number survives its variable-length encoding, whatever follows |
| `Uvarint.UvarintSize` | pkg/hashx/hashx.go:132-139 | the shift loop computes the encoded width |
| `SpaceSaving.VictimUnique` | pkg/topkx/add.go:44-53 | least count with ties broken on item bytes picks one item, whatever the slot order |
| `SpaceSaving.SpaceSavingBounds` | pkg/topkx/add.go:15-53 | after any stream of N accepted observations: counts sum to N, each stored count is between the true frequency f and f + min, unstored items have f at most min, and k·min is at most N |
| `SpaceSaving.HeavyHittersStored` | pkg/topkx/add.go:15-41 | every item seen more than N/k times is in the table |
| `TopK.New` | pkg/topkx/topkx.go:35-40 | a fresh empty table, and none for a capacity below one |
| `TopK.Table.MinSlot` | pkg/topkx/add.go:44-53 | the scan finds the victim |
| `TopK.Table.AddItem` | pkg/topkx/add.go:15-41 | slots and index, updated in place, follow Space-Saving on the count map; a rejected observation changes nothing |
| `TopK.Table.List` | pkg/topkx/list.go:10-25 | the canonical chart: count descending, then item |
| `TopK.Table.EncodeTable` | pkg/topkx/encode.go:10-25 | writes the rows of the chart |
| `TopK.Decode` | pkg/topkx/encode.go:30-68 | the loop accepts exactly well-formed rows within capacity and without duplicates; no table for a capacity below one |
| `TopK.TableRoundTrip` | pkg/topkx/encode.go:10-68 | decoding an encoded table gives the same counts |
| `TopK.DecodedTable` | pkg/topkx/encode.go:30-68 | whatever blob decodes stands for a table within capacity, with counts that fit |
| `TopK.SlotOrderIrrelevant` | pkg/topkx/encode.go:10-25 | equal count maps encode to equal bytes whatever the slot order |
| `TopK.WorstEncodedSize` | pkg/topkx/encode.go:72-86 | computes the size bound |
| `TopK.EncodedSizeBound` | pkg/topkx/encode.go:72-77 | no table of at most k items of at most maxItem bytes encodes past the bound |
| `TopK.TopkApply` | pkg/store/topk.go:89-107 | decode, add and encode as specified, with the too-large and rejected cases |
| `TopK.PipelineIsOneTable` | pkg/store/topk.go:89-107 | re-encoding around every observation gives the bytes of one long-lived table |
| `TopKRuns.StoreRunIsOneTable` | pkg/store/topk.go:15-182 | in the store, however observations, installs, deletes and removals of the key, with or without expiries, mix with work on other keys, the key holds, while its time lasts, a blob that decodes to one table that took them all in order, at its version, or the delete marker that ended it |
| `TopKRuns.ReadFindsTable` | pkg/store/memory.go:91-122 | so a read at any later time finds that table, or that it was deleted or its time is up |
| `TopKRuns.PermanentTable` | pkg/store/topk.go:48-85 | without expiries it is the table of all observations ever, at the version that is their number modulo 2^64 |
| `TopKRuns.TableInheritsTombstoneExpiry` | pkg/store/topk.go:60-62 | a table over a tombstone, given no expiry, is permanent if and only if the tombstone was |
| `TopKRuns.TableDiesWithTombstone` | pkg/store/topk.go:60-62 | an observation without expiry that is reported as taken, and is gone when the tombstone's time is up |
| `LastWriter.StoreRefinesSlot` | pkg/store/memory.go:187-322 | on one key, AcceptIfNewer, AcceptNegative and DeleteIfVersion are the slot functions, up to size refusals and eviction of unprotected entries |
| `LastWriter.DeliverNewest` | pkg/store/memory.go:187-322 | any order, any repeats: what remains is the newest mutation, a tombstone winning ties |
| `LastWriter.Convergence` | pkg/engine/engine.go:785-811 | a replica that received any part including a newest mutation ends with the entry of one that received all |
| `LastWriter.CommuteIff` | pkg/store/memory.go:187-322 | two mutations commute on every slot if and only if they are not different puts of one version |
| `LastWriter.StoreRunDelivers` | pkg/store/memory.go:91-322 | in every run of a store without size limit, with expiries, lapsing tombstones, reads and work on other keys, the entry of a key is what delivering its mutations at their times leaves |
| `LastWriter.StoresConverge` | pkg/engine/engine.go:785-811 | two such stores hold the same entry if one received some of the other's mutations, a newest among them, whatever order, repeats, reads and other work |
| `TimedDelivery.NewestStaysIff` | pkg/store/memory.go:187-322 | whatever the order, the repeats and the expiries, the newest mutation is shown in the end if and only if no delivery after its last one comes when it has expired |
| `TimedDelivery.StoreShowsNewestIff` | pkg/store/memory.go:91-322 | in every run of a store, with reads and work on other keys, a look from the last event on finds the newest mutation if and only if that has not expired |
| `TimedDelivery.StoresAgreeIff` | pkg/engine/engine.go:785-811 | two stores whose newest mutations are the same put both show it if and only if it has not expired |
| `TimedDelivery.ExpiryDivides` | pkg/store/memory.go:187-234 | after that they may differ: a late older put is shut out, or finds the newer one expired and is taken |
| `Protocol.StepInv` | pkg/engine/engine.go:785-811 | every step keeps each stored, pending and sent copy accounted for by a minted version and mutation |
| `Protocol.FreshIff` | pkg/engine/engine.go:902-916 | a mint is new if and only if the node's seed has reached the highest version minted anywhere |
| `Protocol.SeededRunAgrees` | pkg/engine/engine.go:902-925 | in every run, with any number of minters and with pruning, copies of one version agree as long as each mint is so seeded |
| `Protocol.OwnerRunAgrees` | pkg/engine/cluster.go:106-141 | with one stable owner that keeps its counter, in every interleaving of mint, commit, fan-out, duplicate or late delivery, replay, repair, expiry and eviction, two copies of one version have the same value or are both tombstones |
| `Protocol.LiveVersionNeverDecreases` | pkg/store/memory.go:187-322 | no step but a drop makes a node hold an older version while its copy is live |
| `Protocol.PruningBreaksAgreement` | pkg/engine/engine.go:930-949 | a run in which a pruned counter mints version 1 twice with different values |
| `Protocol.SecondMinterBreaksAgreement` | pkg/engine/cluster.go:98-101 | a run in which a node that cannot reach the owner mints the owner's version |
| `Versions.VersionCounters.NextVersion` | pkg/engine/engine.go:902-916 | returns one more than the largest of counter, floor and live stored version, records it and prunes |
| `Versions.VersionCounters.ObserveVersion` | pkg/engine/engine.go:918-925 | raises the counter to an observed version, never lowers it |
| `Versions.VersionCounters.Prune` | pkg/engine/engine.go:930-949 | over the cap exactly cap counters stay, and counters of stored keys go only when no others are left |
| `Versions.MintExceedsSeen` | pkg/engine/engine.go:902-916 | below the 64-bit maximum a minted version exceeds the counter, the floor and the live version |
| `Hints.EnqueueValid` | internal/peer/hints.go:31-92 | an enqueue keeps `order` a duplicate-free listing of at most hintMax ids, and pending Bloom adds newer than a pending tombstone of their key |
| `Hints.RunValid` | internal/peer/hints.go:31-176 | so does every run of enqueues and pops |
| `Hints.MergeDeliversIff` | internal/peer/hints.go:178-183 | at any time and for every replica, delivering the hint that coalescing keeps equals delivering both, if and only if the held one is a delete, unexpired, beaten or the same |
| `Hints.CoalescingIsLosslessIff` | internal/peer/hints.go:24-92 | in every run the pending hint of a key is the newest of all absorbed ones, and replaying it at any time gives every replica what delivering all of them in order gives, if and only if it is a delete, unexpired by then, or came last |
| `Hints.ExpiredHintHidesOlder` | internal/peer/hints.go:72-92 | the failing case: an expired put hides an older one that would have been taken |
| `Hints.ItemHintsAreLossy` | internal/peer/hints.go:24-29 | of two set-item hints of one key only one is kept |
| `Hints.TombstoneDropsAllAdds` | internal/peer/hints.go:56-71 | an arriving tombstone leaves no Bloom add of its key pending, newer ones included |
| `Hints.HintQueue.EnqueueHint` | internal/peer/hints.go:31-92 | map and order edited in place follow the queue function; nothing is kept when hints are off, the pool is closed or the peer has no address |
| `Hints.HintQueue.PopHint` | internal/peer/hints.go:155-176 | removes one id from map and order, at the head or by scan |
| `Hints.HintQueue.Flush` | internal/peer/hints.go:123-137 | peek, replay and pop by id, with anything enqueued during each replay, follow the queue function |
| `Hints.UndisturbedFlushDrains` | internal/peer/hints.go:123-176 | with nothing enqueued meanwhile the oldest hints go, in order and once each, and exactly the rest stays pending |
| `Fanout.StepInv` | internal/peer/transport.go:317-410 | every step keeps the queue valid and everything held, pending, in hand or failed among what was sent |
| `Fanout.CompleteIff` | internal/peer/transport.go:317-410 | in every run, whatever is lost, refused, repeated or late and however sends and the flusher interleave, all that was sent is covered at every moment if and only if no step took a last copy |
| `Fanout.LosesIff` | internal/peer/hints.go:31-176 | each step, on the world before it: a mutation is lost if and only if the step takes away or fails to place the last copy, which an older call over an expired entry, a size refusal, a hint pushed out or not kept, a pop and a dropped entry can do |
| `Fanout.DropNeedsFull` | internal/peer/hints.go:72-92 | only a full queue, and a hint of another id, pushes a pending hint out |
| `Fanout.PopLosesIff` | internal/peer/hints.go:123-137 | the pop after an unlocked replay loses something if and only if neither the peer's entry nor a failed send is as new as the hint it removes |
| `Fanout.PopLosesNewer` | internal/peer/hints.go:123-137 | while the peer still has what was replayed, that is if and only if a newer hint took the place of the replayed one and there is no other copy of it |
| `Fanout.ForgottenBeforePopIsLost` | internal/peer/hints.go:123-137 | a run in which the peer loses its entry between the replay and the pop, and the popped hint was the last copy |
| `Fanout.RefusedIsLost` | internal/peer/transport.go:317-341 | a put that the peer refuses by size is answered without error, and leaves neither an entry nor a hint |
| `Fanout.CoalescedDuringReplayIsLost` | internal/peer/hints.go:72-137 | a run in which a send that fails during the replay of its key's older hint is popped with it, for good |
| `Fanout.QuietCompleteIff` | internal/peer/transport.go:317-410 | over every run without the other ways to lose, all that was sent is covered at every moment if and only if no pop took the last copy of a newer hint |
| `Fanout.InTimeCompleteIff` | internal/peer/transport.go:317-410 | until something expires, with hints kept, none pushed out and none refused, no older call arrives over an expired entry, and so the same holds |
| `Fanout.ExpiryBringsBackOlder` | internal/peer/hints.go:123-137 | a run in which a newer put has expired and the replay of an older hint brings the older value back |
| `Fanout.DrainedHoldsNewest` | internal/peer/transport.go:361-410 | a peer with everything covered and nothing pending holds the newest mutation sent |
| `Fanout.DrainedPeersAgree` | internal/peer/transport.go:361-410 | two such peers that were sent the same mutations show the same |
| `Fanout.DrainedPeerAgreesIff` | internal/peer/transport.go:361-410 | it shows what an owner does that applied the same mutations, with their expiries, in any order, if and only if nothing reached the owner after the last delivery of the newest one when that had expired |
| `Fanout.DrainedPeerAgrees` | internal/peer/transport.go:361-410 | so they agree as long as nothing has expired at the owner |
| `Fanout.DrainedRunAgrees` | internal/peer/transport.go:317-410 | over whole runs, with puts that expire and tombstones that lapse: in time, without mishap and without such a pop, a drained peer agrees with the owner |
| `LocalApply.AckIsSecured` | pkg/engine/cluster.go:106-141 | putLocalApply reports success only if it committed, and then has the entry if it fits beside what may not be evicted, or a look found an equal or newer version, whatever other writers did in between |
| `LocalApply.CommitIsStored` | pkg/engine/cluster.go:118-124 | after a commit the store holds exactly the minted entry if and only if it fits beside the protected entries |
| `LocalApply.FailsIffTooLarge` | pkg/engine/cluster.go:106-141 | with a version minted by nextVersion and nobody else at the key, whatever happens to other keys between the steps, it fails if and only if the entry alone exceeds the budget, and success is a commit |
| `LocalApply.SpuriousSizeError` | pkg/engine/cluster.go:124-136 | with others at the key it can report the size error on a store without limit |
| `SizeErrors.WrongWhenLeftAloneIff` | pkg/engine/cluster.go:124-136 | whatever happened before the accept, with nobody at the key after it, the size error is wrong if and only if something as new was there, and it was a tombstone lapsed by the second look, or a value expired by the first or evicted |
| `SizeErrors.TakesIff` | pkg/store/memory.go:91-455 | exactly which acts take away what stood there: those that leave no entry, and those that write an older version |
| `SizeErrors.WrongTakesAnAct` | pkg/engine/cluster.go:124-136 | whoever is at the key, a wrong size error takes such an act, an expiry, or a value put over a tombstone between the looks |
| `SizeErrors.ExpiryMisleads` | pkg/engine/cluster.go:124-136 | an expiry alone makes it wrong, on a store without limit |
| `SizeErrors.EvictionMisleads` | pkg/engine/cluster.go:124-136 | so does an entry of another key that pushes out what came first |
| `SizeErrors.PutBetweenLooksMisleads` | pkg/engine/cluster.go:124-136 | and so does a value that replaces a tombstone between the looks, although it is there in the end |
| `Routing.HopBounded` | pkg/engine/cluster.go:58-104 | at most one further forward, and applies on different nodes of the route only |
| `Routing.HopForced` | pkg/engine/cluster.go:58-104 | fan-out is forced exactly where the ring names another owner |
| `Routing.HopBacked` | pkg/engine/cluster.go:58-104 | a success is some apply's success |
| `Routing.PutBounded` | pkg/engine/cluster.go:195-228 | for arbitrary, disagreeing and changing ring views and lost calls a Put makes at most two forwards and two applies |
| `Routing.AckedPutIsHeld` | pkg/engine/cluster.go:58-228 | some node that applied an acknowledged Put committed it, and has it if it fits beside what may not be evicted, or held an equal or newer version |
| `Routing.AppliersAre` | pkg/engine/cluster.go:58-104 | exactly which nodes apply a Put, in order, and when it is exactly one |
| `Routing.TwoCommitsIff` | pkg/engine/cluster.go:58-104 | two nodes commit one Put if and only if the answer to a passed-on call is lost after the second committed and the first then commits too |
| `Routing.LostReplyCommitsTwice` | pkg/engine/cluster.go:58-104 | two fresh nodes both commit one Put when the first passes it on and the answer is lost |
| `Routing.SettledPut` | pkg/engine/cluster.go:195-228 | with a settled owner, an answering network and nobody else at the key, a Put succeeds if and only if the entry alone is not too large; exactly the owner applies it, and holds it afterwards if it fits beside what may not be evicted |
| `Ring.BuildValid` | internal/ring/ring.go:46-65 | any list of peers, with repeats and empty ids, gives sorted keys, each owned by a peer with such a vnode |
| `Ring.WalkRanks` | internal/ring/ring.go:153-180 | with distinct vnode hashes the walk meets every peer, nearest first by clockwise distance |
| `Ring.ReplicasAreNearest` | internal/ring/ring.go:111-180 | replica lists have no duplicates, length min(n, peers), start with the owner and are prefixes of each other |
| `Ring.ReplicasBeatOthers` | internal/ring/ring.go:153-180 | every peer left out is farther than every peer taken |
| `Ring.IsReplicaAgrees` | internal/ring/ring.go:135-151 | IsReplica, with its shortcut for n at least the number of peers, is membership in the replica list |
| `Ring.OrderIrrelevant` | internal/ring/ring.go:46-65 | with distinct vnode hashes replica lists do not depend on the order of SetPeers |
| `Ring.OrderIrrelevantIff` | internal/ring/ring.go:46-65 | for every list of distinct named peers, all its rearrangements give the same owners if and only if no two peers share a vnode hash |
| `Ring.JoinMovesMinimally` | internal/ring/ring.go:46-82 | after a join every new replica list without the joiner is a prefix of the old one, and the owner is unchanged or the joiner |
| `Ring.EveryPeerReachedIff` | internal/ring/ring.go:46-65 | for any list, with repeats and empty ids, the full replica list has every peer if and only if each has a vnode hash that no other peer listed later has |
| `Ring.CollisionHidesPeer` | internal/ring/ring.go:57-61 | a hash under which the last peer hides the first from every list |
| `Ring.HashRing.constructor` | internal/ring/ring.go:27-36 | an empty ring with 64 vnodes unless a positive number is asked for |
| `Ring.HashRing.SetPeers` | internal/ring/ring.go:46-65 | the rebuilt fields are those of the given membership, and the generation moves on |
| `Ring.HashRing.Owner` | internal/ring/ring.go:68-82 | the owner of the first key at or after the hash, wrapping around |
| `Ring.HashRing.ReplicasLocked` | internal/ring/ring.go:153-180 | the wrapping walk with its set of seen ids computes the replica list |
| `Ring.HashRing.ReplicasExcept` | internal/ring/ring.go:118-132 | the replica list without one id, the rest kept in order |
| `Ring.HashRing.IsReplica` | internal/ring/ring.go:135-151 | the loop and its shortcut decide membership |
| `Decimal.ItoaLoop` | internal/ring/ring.go:195-207 | the digit loop writes the decimal text |
| `Decimal.DecimalRoundTrip` | pkg/stream/codec.go:43-59 | a 64-bit number is parsed back from its text |
| `Hll.SetRegIsAnUpdate` | pkg/hllx/hllx.go:122-151 | SetReg changes register i to the low six bits and no other register, across byte boundaries and at the last byte; out of range nothing |
| `Hll.SetReg` | pkg/hllx/hllx.go:137-151 | the bytes rewritten in place are those of that update |
| `Hll.RegistersDetermineBytes` | pkg/hllx/hllx.go:122-134 | blobs with equal registers are equal bytes |
| `Hll.RankIsFirstSetBit` | pkg/hllx/hllx.go:66-77 | the rank is the position of the first set bit of the low fifty, 51 if none, so the cap at 63 never fires |
| `Hll.Add` | pkg/hllx/hllx.go:61-81 | in place; no effect on a wrong size or an empty item |
| `Hll.AddRaises` | pkg/hllx/hllx.go:61-81 | an add raises the item's register to its rank and leaves the others |
| `Hll.SketchOfItems` | pkg/hllx/hllx.go:61-81 | after any adds each register is the greatest rank of the items hashed to it |
| `Hll.OrderAndRepeatsIrrelevant` | pkg/hllx/hllx.go:61-81 | streams with the same set of items give the same bytes |
| `Hll.Merge` | pkg/hllx/hllx.go:108-119 | the loop, also with both slices the same, and the size error |
| `Hll.MergeTakesMax` | pkg/hllx/hllx.go:108-119 | register by register the greater of the two |
| `Hll.MergeIsUnion` | pkg/hllx/hllx.go:108-119 | merging the sketches of two streams gives the bytes of the sketch of both together |
| `Cms.WriteIsAnUpdate` | pkg/cmsx/cmsx.go:82-84 | a cell written reads back, and no other cell shares its bytes |
| `Cms.ColumnSumFits` | pkg/cmsx/cmsx.go:71-80 | the sum behind a column does not wrap |
| `Cms.ColumnsDiffer` | pkg/cmsx/cmsx.go:71-80 | the step between rows is odd, so an item's four columns are all different |
| `Cms.Columns` | pkg/cmsx/cmsx.go:71-80 | the loop computes one column per row |
| `Cms.Incr` | pkg/cmsx/cmsx.go:87-108 | checks every row before writing any; each error leaves the sketch as it was |
| `Cms.Query` | pkg/cmsx/cmsx.go:111-124 | the least of the item's four cells; zero for a wrong size or empty item |
| `Cms.CellIsSum` | pkg/cmsx/cmsx.go:87-108 | after any increments a cell is the sum of the accepted ones whose column in that row it is |
| `Cms.RowsConserveTotal` | pkg/cmsx/cmsx.go:87-108 | each row sums to the accepted total |
| `Cms.QueryBounds` | pkg/cmsx/cmsx.go:111-124 | Query is at least the item's true total and at most the total of all |
| `Cms.QueryExact` | pkg/cmsx/cmsx.go:111-124 | and exact if in one row no other accepted item shares the cell |
| `Cms.RefusedIff` | pkg/cmsx/cmsx.go:96-101 | an increment is refused, changing nothing, if and only if some cell of its item would pass the 64-bit maximum |
| `Cms.InboxRoundTrip` | pkg/cmsx/cmsx.go:127-151 | the payload gives back the amount that will be added and the item; only an empty item is refused |
| `Stream.CompareIsOrder` | pkg/stream/codec.go:110-124 | cmpID is a strict total order |
| `Stream.MintIncreasesIff` | pkg/stream/codec.go:160-171 | a minted id is newer than the last, even with the clock behind, if and only if the sequence is not exhausted |
| `Stream.RunMintsIncreasing` | pkg/stream/codec.go:160-218 | over every run of appends, trims, deletes and reloads ids increase past all earlier ones, removed ones included, and the log stays sorted and within the cap |
| `Stream.WrappingBreaksOrder` | pkg/stream/codec.go:160-171 | and do not if an append finds the sequence exhausted |
| `Stream.RunKeepsOrMints` | pkg/stream/codec.go:173-218 | nothing appears in a log that was not there or minted |
| `Stream.DelKeepsValid` | pkg/stream/codec.go:206-218 | delete takes out exactly the entry with the id |
| `Stream.TrimKeepsNewest` | pkg/stream/codec.go:193-204 | what a trim drops is older than all it keeps |
| `Stream.AppendEndsWithEntry` | pkg/stream/codec.go:173-191 | an accepted append ends with its entry, at the length its trims allow |
| `Stream.SnapshotRoundTripIff` | pkg/stream/codec.go:255-315 | DecodeSnapshot inverts Encode if and only if the log is within the hard cap |
| `Stream.RangeIsStretch` | pkg/stream/codec.go:220-237 | in a sorted log a range is one contiguous stretch: exactly the entries within the bounds |
| `Stream.ReverseIsMirror` | pkg/stream/codec.go:238-249 | the uncounted reverse range is the mirror image |
| `Stream.IdRoundTrip` | pkg/stream/codec.go:43-59 | ParseID inverts FormatID |
| `Stream.IdBound` | pkg/stream/codec.go:75-148 | a written id bounds inclusively, behind a parenthesis exclusively, which only a start may have |
| `Stream.MillisBound` | pkg/stream/codec.go:93-102 | a bound of bare milliseconds takes in the whole millisecond on either side |
| `Stream.Log.constructor` | pkg/stream/codec.go:41-41 | an empty log |
| `Stream.Log.Append` | pkg/stream/codec.go:173-191 | mints, appends and trims in place, or reports a full log |
| `Stream.Log.Trim` | pkg/stream/codec.go:193-204 | in place; a negative length does nothing, zero empties |
| `Stream.Log.Del` | pkg/stream/codec.go:206-218 | the filtering loop |
| `Stream.Log.Range` | pkg/stream/codec.go:220-249 | both scans, stopping at the clamped count |
| `Stream.Log.Encode` | pkg/stream/codec.go:255-275 | the loop writes the snapshot |
| `Stream.DecodeSnapshot` | pkg/stream/codec.go:277-315 | a fresh log exactly for well-formed blobs with nothing left over |
| `Json.Walk` | pkg/jsonx/jsonx.go:206-228 | the loop follows the path; a JSON null found is a value, a missing node is not |
| `Json.Clone` | pkg/jsonx/jsonx.go:177-202 | a copy built node by node is the same document |
| `Json.SetThenGet` | pkg/jsonx/jsonx.go:232-315 | after a successful Set, at and below the path one reads the new value |
| `Json.SetElsewhere` | pkg/jsonx/jsonx.go:232-315 | every path not comparable with it reads as before |
| `Json.SetWhatWasRead` | pkg/jsonx/jsonx.go:232-301 | writing back what was read changes nothing |
| `Json.SetTwice` | pkg/jsonx/jsonx.go:232-315 | the second of two writes to one path is all that counts |
| `Json.SetsCommute` | pkg/jsonx/jsonx.go:232-315 | two writes that each succeed on incomparable paths succeed and agree in either order |
| `Json.SetSucceedsIff` | pkg/jsonx/jsonx.go:232-315 | Set succeeds if and only if the path leads to a node, or to one that a new key or the next index opens and the rest is keys; ErrIndex if and only if an index on the way is out of range |
| `Json.SetMakesNoArray` | pkg/jsonx/jsonx.go:303-315 | outside the value written, an array now was an array before |
| `Json.DelIff` | pkg/jsonx/jsonx.go:319-373 | Del removes something if and only if the path can be read, else returns the document as it was |
| `Json.DelKey` | pkg/jsonx/jsonx.go:355-372 | a deleted key is absent with all below it, and incomparable paths read as before |
| `Json.DelIndex` | pkg/jsonx/jsonx.go:337-354 | a deleted index moves later elements down by one, and paths off the array read as before |
| `Json.DelUndoesSet` | pkg/jsonx/jsonx.go:232-373 | deleting what was just created or appended gives the document back |
| `Json.SetUndoesDelIff` | pkg/jsonx/jsonx.go:232-373 | writing a deleted value back restores the document if and only if it was a field or the last element |
| `Json.SetPayloadRoundTrip` | pkg/jsonx/jsonx.go:376-400 | DecodeSet inverts EncodeSet, empty path and empty document included |
| `LoadGuard.Guard.constructor` | pkg/protect/protect.go:55-71 | the initial bucket, the default timeout and a closed breaker |
| `LoadGuard.Guard.Check` | pkg/protect/protect.go:141-173 | the breaker check in place |
| `LoadGuard.Guard.Take` | pkg/protect/protect.go:175-201 | refill up to the cap, then take one token or refuse |
| `LoadGuard.Guard.Release` | pkg/protect/protect.go:92-101 | frees the probe slot of a half-open breaker |
| `LoadGuard.Guard.Admit` | pkg/protect/protect.go:74-88 | the sections of Allow in order, the probe released when the limiter refuses |
| `LoadGuard.Guard.Succeeded` | pkg/protect/protect.go:112-121 | closes the breaker and clears the count |
| `LoadGuard.Guard.Failed` | pkg/protect/protect.go:124-139 | opens at the threshold, and always from half-open |
| `LoadGuard.PermitsBounded` | pkg/protect/protect.go:175-201 | in any run of a new guard at nondecreasing times, permits between two instants are at most burst plus rate times elapsed |
| `LoadGuard.EarnedPermitGranted` | pkg/protect/protect.go:175-201 | a request that comes once a whole permit has been earned is let through |
| `LoadGuard.OneProbe` | pkg/protect/protect.go:74-173 | with serialised calls, once the breaker is not closed at most one request is let through before the next report |
| `LoadGuard.OpenRejects` | pkg/protect/protect.go:155-158 | none is until the open timeout has run out |
| `LoadGuard.FailureStartsWait` | pkg/protect/protect.go:124-158 | a failure that leaves the breaker open restarts the wait, and a request is turned away by the breaker exactly until it ends |
| `LoadGuard.LimitedProbeFreesSlot` | pkg/protect/protect.go:81-86 | a probe refused by the limiter does not block the next one |
| `LoadGuard.ClosedIff` | pkg/protect/protect.go:112-139 | in every run the breaker is closed if and only if fewer than threshold failures followed the last success |
| `GuardRaces.BudgetSpent` | pkg/protect/protect.go:74-101 | interleaved and without a limiter, of callers that find the breaker not closed at most one beyond those under way is let through between reports |
| `GuardRaces.LetInIff` | pkg/protect/protect.go:74-101 | counting callers that found it closed too: at most n loads are let through before the next report, in every interleaving, if and only if n covers those past the check and the one that may still pass it |
| `GuardRaces.LimiterBreaksProbe` | pkg/protect/protect.go:74-101 | for every rate, burst and threshold a timely run in which two probes are let through without a report |
| `GuardRaces.OneProbeIff` | pkg/protect/protect.go:74-101 | interleaved callers that find the breaker not closed keep to one load between reports if and only if there is no rate limit |
| `GuardRaces.LoadsBounded` | pkg/protect/protect.go:74-201 | however the sections of concurrent callers and reports interleave, loads let through between two instants are at most burst plus rate times elapsed |
| `GuardPairs.StickIsStrand` | pkg/engine/engine.go:371-418 | one step leaves the process-wide guard waiting for nobody if and only if it is the refusal of the last caller between the guards while the probe is out and no load is under way |
| `GuardPairs.StuckIff` | pkg/engine/engine.go:371-418 | in every run of entering, refused, loading and reporting callers of any keyspaces it ends up so if and only if some step did that |
| `GuardPairs.StuckForever` | pkg/engine/engine.go:371-382 | from then on no load of any keyspace gets through, whatever happens |
| `GuardPairs.LongerTimeoutStrands` | pkg/engine/engine.go:371-382 | a single failed load is enough when the keyspace's breaker stays open longer than the process-wide one |

## Left out

- MemoryStore.Memory.Get: each store call reads the clock once; the source may read it again within a call.
- MemoryStore.Memory.HSet: decoded hashes are values, so sharing of one decoded hash between readers is not modelled.
- LastWriter.Convergence: for entries without expiry, as is LastWriter.StoresConverge; with expiries the exact conditions are TimedDelivery.NewestStaysIff and TimedDelivery.StoresAgreeIff.
- TimedDelivery.StoreShowsNewestIff: for a store without size limit, as are LastWriter.StoreRunDelivers and Tombstones.StaysEmptyIff; with one, plain entries may be refused or evicted at any time. Eviction itself is in Eviction.EvictIsMinimal.
- TimedDelivery.StoresAgreeIff: for a newest put; a tombstone gets its end from each store's own clock.
- Protocol.OwnerRunAgrees: one key; the pruned and the second-minter cases are covered by Protocol.SeededRunAgrees and its two counterexamples.
- Fanout.CompleteIff: plain puts and deletes of one key; item-level mutations share their key's hint and are lossy (Hints.ItemHintsAreLossy).
- HashRefinement.HashRefinesFieldMap: negative fills and top-K operations on a hash key are left out.
- SizeErrors.WrongTakesAnAct: one way only; with others at the key after the accept, what was taken away may be put back before the look.
- LocalApply.FailsIffTooLarge: validation of key and value, the choice of the expiry and the fan-out after a commit are outside the call.
- GuardPairs.StuckIff: each Allow is one step; its own races are in GuardRaces.
- Hints.EnqueueValid: hint ids are structured values, which is the source's id as long as names hold no NUL byte.
- LoadGuard.PermitsBounded: tokens and times are reals, not rounded floating-point numbers, and Allow reads one clock.
- Ring.ReplicasAreNearest: assumes distinct vnode hashes between peers; without them, Ring.EveryPeerReachedIff and Ring.OrderIrrelevantIff say what is left.
- Json.Clone: documents are values, so that the copy shares nothing with the original, and that Set and Del edit the copy and never their argument, is not stated.
- Json paths and documents as text: ParsePath and the JSON parser and printer.
- Calls on nil receivers, which the source turns into no-ops or errors, and the difference between nil and empty byte slices.
- Hash functions (FNV-1a and the splitmix finaliser) and anything that depends on their quality; HyperLogLog's floating-point count.
- Set, sorted set, geo, list, counter, bitmap, Bloom, vector and Count-Min store wrappers: near twins of the hash and top-K ones.
- Data source loads, singleflight and warm-up.
- Delete routing and its fallback to a second coordinator; what that can break is Protocol.SecondMinterBreaksAgreement.
- Membership and gossip, gRPC, TLS, admin HTTP, command line, metrics, tracing, statistics counters, configuration parsing.
- The `pkg/*/eng` packages: not part of this model.
