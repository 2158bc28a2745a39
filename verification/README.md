# NetBlast connection tables: a Dafny model

This project models the hash tables at the heart of the NetBlast load balancer and proves what they keep.
All of them are open-addressed, probe linearly, and never delete.

* The **DRAMBlast table** (`l2fwd/libsashstore/dramblast.c`) inserts with a 16-byte compare-and-swap, looks up whole
  bursts four slots at a time through a 64-entry ring, and does get-or-insert over a burst.
* The **asynchronous reference table** (`docs/cas_kht.hpp`, with `DRAMHiT_2025` inserts, `DRAMHiT_2025_INLINED` lookups,
  `CAS_SIMD` and `BUCKETIZATION`) lets each call finish work that earlier calls submitted, through two rings.
* The **Maglev connection table** (`hashmap.c`, `maglev.c`) is the simple form: one packet, one slot at a time.
* Around them: the forwarding loop's burst body (`main.c`), the flow hash (`hash.c`, `packettool.c`) and the Maglev
  lookup-table fill (`conshash.c`).

Each table is modelled in the form it has in C or C++: a class over an array of slots, with rings that are arrays with
head and tail counters, and loops with invariants. Each method is proved against functions on the slot sequence, and
these against the finite map the table stands for (`Probing.ToMap`). The concurrent behaviour is a transition system
in `Concurrent.dfy`: any number of calls, each with a program counter, one memory access a step, in any order. The
two lookups and inserts share one table there; a run that uses only some of them is a run of the system.

| File | Contents |
|---|---|
| `Masks.dfy` | power-of-two masks and 32-bit counters as remainder arithmetic |
| `Probing.dfy` | slots, probe paths, the table invariant, the map, slot-by-slot insert and lookup, counting |
| `Buckets.dfy` | the eight-lane cache line and its comparison masks, bucket-by-bucket lookup |
| `Pipeline.dfy` | the pop, visit, answer-or-re-push discipline: conservation, no overtaking, exact cost |
| `Ring.dfy` | the request ring |
| `GetOrInsert.dfy` | get-or-insert on maps: one packet, a sequence of packets, a burst |
| `Dramblast.dfy`, `Maglev.dfy`, `CasTable.dfy` | the three tables |
| `InsertQueue.dfy`, `FindQueue.dfy` | why the reference table's two queues end in the right map and the right answers |
| `Capacity.dfy`, `Simulation.dfy` | the capacity bound and its tightness; bursts against packets |
| `Concurrent.dfy`, `Runs.dfy` | the interleaved system, and theorems on all its runs |
| `Moments.dfy` | the moment in a run at which each insert and each lookup takes effect |
| `Solo.dfy` | one call alone in the interleaved system ends as the sequential operation does |
| `FlowHash.dfy`, `ConsHash.dfy`, `Forwarder.dfy` | flow hash, lookup-table fill, burst body |

The CRC is an uninterpreted function of the key, held by each table. Table lengths are powers of two, of at least four
slots for the bucketed tables and at most 2^32, as `main.c:434-450` admits. Prefetches have no effect on meaning.
In the concurrent system the 64-byte load is four key-lane reads in any order, at any moments.

Where code and documentation differ, the code is followed:

* `fnv_1a` calls `fnv_1_multi` (`hash.c:20-22`), so a node's offset and skip come from one hash.
* `populate_lut` returns before the fill loop (`conshash.c:25`); `ConsHash.PopulateLut` is the code as it runs, and
  `ConsHash.FillTable` is the loop behind the return.
* The fast lookup path writes from the start of the result array while it advances `vp.first`
  (`docs/cas_kht.hpp:578, 683`); `FindBatch` states both, so the two agree exactly when `vp.first` was 0.

Some properties hold under a condition, and the condition is exact:

* A bucketed lookup of an absent key says ABSENT if a hole lies before the last bucket of the key's path, and
  TABLE_FULL otherwise (`Buckets.FindMeaning`).
* With at most len - 4 distinct keys nothing gives up (`Runs.CapacityInRuns`); at len - 3 a lookup can
  (`Capacity.BoundIsTight`).
* The reference table has no probe bound: an insert ends if and only if its key is stored or a hole exists
  (`InsertQueue.ResolvableIff`), and likewise a lookup (`FindQueue.AnswerableIff`).
* A node's walk covers the lookup table if and only if its skip is nonzero (`ConsHash.CoversIff`); the skips of the
  three nodes in the source are (`ConsHash.NodeSkips`).

## Model

| member | source | states |
|---|---|---|
| Masks.MaskIsMod | l2fwd/libsashstore/dramblast.c:89 | `x & (len - 1)` is the remainder by a power of two, for every x. |
| Masks.AlignIsFloor | l2fwd/libsashstore/dramblast.h:58 | The mask `~0x3` rounds a table index down to the start of its four-slot bucket. |
| Masks.BucketMask | docs/cas_kht.hpp:114-115 | `HT_BUCKET_MASK` picks a multiple of four below the capacity: remainder first, then rounding down. |
| Masks.RingDistance | l2fwd/libsashstore/dramblast.c:27-31 | `(head - tail) & (size - 1)` on 32-bit counters is the number of steps from tail to head round the ring, wrap-around included. |
| Probing.HoleMeansAbsent | l2fwd/libsashstore/dramblast.c:195-196 | A probe that has passed only other keys and meets an empty slot has proved that its key is nowhere in the table. |
| Probing.FillKeeps | l2fwd/libsashstore/dramblast.c:106-114 | Claiming the first empty slot of the path keeps the table invariant (no key twice, no hole before a key, empty slots zero), moves no key, and adds exactly one binding to the map. |
| Probing.UpdateKeeps | l2fwd/libsashstore/dramblast.c:116-119 | Overwriting the value of the slot that holds the key keeps the invariant and changes exactly that binding. |
| Probing.PassedCount | l2fwd/libsashstore/dramblast.c:121-128 | A probe past n slots has met n different keys other than its own: with its own, at least n + 1 keys are in play. |
| Probing.InsertMeaning | l2fwd/libsashstore/dramblast.c:92-131 | Insert is map update; it fails exactly when the table is full of other keys, and then changes nothing. |
| Probing.LookupMeaning | l2fwd/libsashstore/hashmap.c:54-70 | Slot-by-slot lookup finds a key exactly when the map has it, with the map's value. |
| Buckets.CompareMeaning | l2fwd/libsashstore/dramblast.c:159-169 | The masked eight-lane comparison is nonzero exactly when one of the four keys matches; its lowest set bit is the first matching key's lane and the next lane that slot's value. |
| Buckets.VisitPasses | l2fwd/libsashstore/dramblast.c:186-194 | A bucket with neither the key nor a hole is four more slots passed, so re-queuing at the next bucket loses nothing. |
| Buckets.TrackPasses | l2fwd/libsashstore/dramblast.c:173-203 | A lookup leaves behind only full buckets of other keys and stops at the first bucket that decides. |
| Buckets.VisitsMeaning | l2fwd/libsashstore/dramblast.c:173-203 | How many buckets a lookup visits: every slot of those before the last one visited is taken by another key, and the last one has the key or a hole, or ends the path. |
| Buckets.FindMeaning | l2fwd/libsashstore/dramblast.c:134-207 | FOUND with the stored value if and only if the key is in the map; ABSENT if and only if it is not and one of the first len/4 - 1 buckets of its path has a hole; TABLE_FULL otherwise. |
| Buckets.FindAgreesWithLookup | l2fwd/libsashstore/dramblast.c:156-203 | Bucket-wise lookup finds exactly what slot-wise probing finds. |
| Rings.Ring.Count | l2fwd/libsashstore/dramblast.c:27-31 | The masked difference is the number of queued items, except that a completely full ring reads as empty. |
| Rings.Ring.Push | l2fwd/libsashstore/dramblast.c:33-45 | Appends to the queue and writes no array slot but the one at head. |
| Rings.Ring.Pop | l2fwd/libsashstore/dramblast.c:47-56 | Removes the oldest item and returns the slot that still holds it. |
| Pipeline.PushKeeps | l2fwd/libsashstore/dramblast.c:146-153 | Submitting a request keeps conservation, order and the cost account. |
| Pipeline.PopKeeps | l2fwd/libsashstore/dramblast.c:155-203 | Popping, with an answer or a re-push, keeps them too: each submitted request is queued or answered once, no due request has been overtaken, and pops made plus visits owed equal the visits needed. |
| Pipeline.Drained | l2fwd/libsashstore/dramblast.c:143-206 | Once the queue is empty the answers are a permutation of the requests, none came out before an earlier one needing no more visits, and the pops are exactly the sum of the visits. |
| Pipeline.Occupancy | l2fwd/libsashstore/dramblast.c:139-147 | Queued plus answered is submitted. |
| Pipeline.InvExtend | docs/cas_kht.hpp:652-678 | Submitting further requests changes nothing for those in flight. |
| Dramblast.HomeAligned | l2fwd/libsashstore/dramblast.c:80-90 | Every key's home is the remainder of its CRC by the table length, rounded down to a multiple of four. |
| Dramblast.Table.Hash | l2fwd/libsashstore/dramblast.c:80-90 | The two masks compute that home. |
| Dramblast.NextBucket | l2fwd/libsashstore/dramblast.c:189-191 | The masked step by four is the next bucket of the path, round the end of the table. |
| Dramblast.Table.constructor | l2fwd/libsashstore/dramblast.c:285-317 | A zeroed table with an empty 64-entry ring stands for the empty map. |
| Dramblast.Table.CompareAndSwap | l2fwd/libsashstore/dramblast.c:108-113 | Writes the pair if and only if the slot was wholly zero, and says whether it did. |
| Dramblast.Table.InsertOne | l2fwd/libsashstore/dramblast.c:92-131 | The loop computes the insert of `Probing.InsertMeaning`, error returns included, and keeps the table valid; key 0 is refused with -1 and changes nothing. |
| Dramblast.Table.FillQueue | l2fwd/libsashstore/dramblast.c:145-153 | Submits in order until the ring holds 63 or no request is left. |
| Dramblast.Table.VisitBucket | l2fwd/libsashstore/dramblast.c:156-202 | Match before probe bound before hole: the four outcomes of one visit, from the lane masks. |
| Dramblast.Table.ProbeOne | l2fwd/libsashstore/dramblast.c:155-203 | One pop answers its request with the outcome of its whole lookup or re-queues it at the next bucket; the ring never exceeds 63 and its item is read before its slot is reused. |
| Dramblast.Table.FindBatchSync | l2fwd/libsashstore/dramblast.c:134-207 | Every request gets exactly one result, under its own id: FOUND with the stored value if and only if its key is in the map, else ABSENT if and only if a hole lies before the last bucket of its path, else TABLE_FULL; a later request comes out first only if it needs strictly fewer bucket visits, equal keys come out in input order; exactly the sum of visits in pops, at most args_len * len/4; the ring is empty again. |
| Dramblast.AnswersMeaning | l2fwd/libsashstore/dramblast.h:18-23 | The three statuses, told apart by the map and the holes alone. |
| Dramblast.SameKeysInOrder | docs/dramblast_analysis.md:545-547 | Two lookups of one flow are answered in the order they were submitted, whatever is re-queued between. |
| Dramblast.Table.Settle | l2fwd/libsashstore/dramblast.c:223-241 | One result's fix-up: a definite miss is stored under, and told, `backends[k % 65537]`, or in a full table told 0 with nothing stored; TABLE_FULL is told 0 and FOUND its value, the table untouched. |
| Dramblast.Table.ProcessFrames | l2fwd/libsashstore/dramblast.c:210-244 | Get-or-insert of a burst: every `ret` entry of the burst is set to its reply and no other, old bindings stay, and new ones are the backends of definitely absent keys whose insert succeeded. |
| Dramblast.ZeroNeverAbsent | l2fwd/libsashstore/dramblast.c:165-202 | A lookup of key 0 matches the first hole and so is never ABSENT; no insert of key 0 is tried. |
| GetOrInsert.ServeMiss | l2fwd/libsashstore/dramblast.c:227-231 | Inserting one more definite miss keeps the account of a partly served burst, repeats of a key included. |
| GetOrInsert.ServeAllMeaning | l2fwd/libsashstore/maglev.c:14-40 | Packet by packet with room: the map gains exactly the new keys, each with entry `k % 65537` of the lookup table, and each reply is what the final map holds. |
| Capacity.LookupDecides | l2fwd/libsashstore/dramblast.c:175-184 | With at most len - 4 keys in play, the looked-up one included, no lookup is TABLE_FULL. |
| Capacity.InsertSucceeds | l2fwd/libsashstore/dramblast.c:127-128 | With at most len keys in play no insert fails. |
| Capacity.FourSlotsNeverDefinite | l2fwd/libsashstore/dramblast.c:175-184 | In a four-slot table every miss is TABLE_FULL. |
| Capacity.BoundIsTight | l2fwd/libsashstore/dramblast.c:175-184 | At every length, len - 4 colliding inserts from a zeroed table make the lookup of one more key TABLE_FULL with holes left. |
| Maglev.HomeIsRemainder | l2fwd/libsashstore/hashmap.c:32-35 | A key's home is the remainder of its CRC by the capacity, not aligned to buckets. |
| Maglev.ConnTrack.constructor | l2fwd/libsashstore/maglev.c:42-57 | A zeroed connection table stands for the empty map. |
| Maglev.ConnTrack.Insert | l2fwd/libsashstore/hashmap.c:26-52 | The counting loop computes the same insert as DRAMBlast's, from a home that need not start a bucket; key 0 is refused with -1. |
| Maglev.ConnTrack.Get | l2fwd/libsashstore/hashmap.c:54-70 | Returns the key's slot exactly when slot-by-slot lookup finds the key. |
| Maglev.ConnTrack.ProcessKey | l2fwd/libsashstore/maglev.c:23-39 | A stored flow is told its value; a new one is stored under, and told, `lookup[k % 65537]`, or in a full table told 0; hash 0 is told 0; nothing else changes. |
| Maglev.ConnTrack.ProcessFrame | l2fwd/libsashstore/maglev.c:14-40 | The same, from the frame's flow hash; hash 0 is answered 0 without touching the table. |
| Simulation.ReplyIsStored | l2fwd/libsashstore/dramblast.c:227-240 | After a burst each reply is exactly what the table now holds for that key, or 0; a definite miss stays unstored only in a full table. |
| Simulation.BurstMeaning | l2fwd/libsashstore/dramblast.c:210-244 | Old bindings stay; a new binding is `lut[k % 65537]` for a burst key that was definitely absent, and every such key is bound unless the table ends full; each reply is the old value, else the new one, else 0; equal keys get equal replies. |
| Simulation.BurstSimulation | l2fwd/libsashstore/dramblast.c:210-244 | Within len - 4 keys a burst leaves the same map and gives the same replies as serving its packets one by one. |
| Simulation.ServeBoth | l2fwd/libsashstore/maglev.c:14-40 | From equal maps, one burst through DRAMBlast and the same keys one by one through Maglev give equal replies (the old value, or entry `k % 65537`) and equal maps (the old keys and the burst's), ready for the next burst. |
| Concurrent.TaskStable | l2fwd/libsashstore/dramblast.c:92-131 | What a call in progress knows about its path stays true under any other thread's writes. |
| Concurrent.InsertStepKeeps | l2fwd/libsashstore/dramblast.c:103-131 | Every step of an insert (read, compare-and-swap, re-read, store, advance) keeps the table invariant and its own knowledge. |
| Concurrent.LanesPass | docs/cas_kht.hpp:1008-1038 | From lanes loaded at any moments: a match is still a match, and with none, all slots before the first empty lane are passed for good. |
| Concurrent.SnapshotStepKeeps | docs/cas_kht.hpp:1018-1068 | Skipping ahead by an outdated snapshot skips only taken slots of other keys. |
| Concurrent.ReferenceStepKeeps | docs/cas_kht.hpp:1002-1127 | Every step of the reference insert, its slot-by-slot walk to the bucket end and re-queuing included, keeps the invariant: no duplicate, no gap. |
| Concurrent.LateFinds | l2fwd/libsashstore/dramblast.c:156-203 | A lookup started after its key was stored that has loaded a bucket without the key saw no hole in it, and it was not the last. |
| Concurrent.FindStepKeeps | l2fwd/libsashstore/dramblast.c:156-203 | Every step of a lookup keeps its knowledge; a late one can only end in FOUND. |
| Concurrent.ApplyKeeps | l2fwd/libsashstore/dramblast.c:92-244 | Any action of any thread keeps the system invariant and moves no stored key. |
| Runs.InsertSafety | l2fwd/libsashstore/dramblast.c:92-131 | In every run: no key in two slots, empty slots wholly zero, no hole between a key's home and its slot, keys never change once set, and every insert that returned 0 has its key in the table. |
| Runs.FindAfterInsert | l2fwd/libsashstore/dramblast.c:156-203 | In every run, a lookup started after some insert of its key returned 0 never ends in ABSENT or TABLE_FULL. |
| Runs.FoundWasWritten | l2fwd/libsashstore/dramblast.c:108-111 | In every run, a value found for k is one that some completed insert of k wrote. |
| Runs.SoloInsert | l2fwd/libsashstore/dramblast.c:92-131 | The interleaved insert run without interference is the sequential insert. |
| Runs.CapacityInRuns | l2fwd/libsashstore/dramblast.c:121-130 | With at most len - 4 distinct nonzero keys ever submitted, no lookup is TABLE_FULL and no insert fails, in any run. |
| Runs.FlowAffinity | l2fwd/libsashstore/dramblast.c:223-241 | With any number of lcores, every stored value is `lut[k % 65537]`; a packet is told that if its lookup hit or its insert succeeded and 0 otherwise, and its lookup surely hits if it started after the flow was stored. |
| Moments.StepEffect | l2fwd/libsashstore/dramblast.c:103-131 | A step leaves the table alone, or it is the one that makes its insert succeed and binds exactly that insert's key to its value. |
| Moments.MapIsHistory | l2fwd/libsashstore/dramblast.c:92-131 | In every run the table's map is what the inserts leave when played one at a time, in the order of the steps at which they succeeded. |
| Moments.InsertMoment | l2fwd/libsashstore/dramblast.c:108-119 | Every insert that succeeded did so at a step of its own, in its own time. |
| Moments.FoundMoment | l2fwd/libsashstore/dramblast.c:165-172 | A lookup that found v read it at a moment when the map bound its key to v. |
| Moments.AbsentMoment | l2fwd/libsashstore/dramblast.c:186-202 | A lookup that said ABSENT had read an empty slot, in a bucket other than the last of its path, at a moment when its key was not in the map. |
| Moments.FullForGood | l2fwd/libsashstore/dramblast.c:174-183 | Once a lookup has said TABLE_FULL, all buckets of its path but the last are full of other keys for the rest of the run. |
| Solo.SoloFind | l2fwd/libsashstore/dramblast.c:156-203 | In any reachable state, whatever the order of its loads, a lookup that nobody disturbs ends in FOUND with the map's value, ABSENT or TABLE_FULL exactly as the sequential one. |
| Solo.SoloFindEnds | l2fwd/libsashstore/dramblast.c:156-203 | Such a lookup can always go on to its end. |
| Solo.SoloInsertRun | l2fwd/libsashstore/dramblast.c:92-131 | From any reachable state an insert left alone ends as map update, or fails in a table full of other keys. |
| Solo.SoloReference | docs/cas_kht.hpp:1002-1127 | From any reachable state with its key stored or a hole left, a reference insert left alone ends as map update. |
| Solo.SoloPacket | l2fwd/libsashstore/dramblast.c:223-241 | A packet served alone is told its flow's stored value; a definitely absent flow is stored under, and told, `lut[k % 65537]`; if its lookup gives up it is told 0 and nothing changes. |
| InsertQueue.OverlayResolve | docs/cas_kht.hpp:204-222 | Resolving the first pending insert of a key does not change what the pending inserts, played in submission order, lead to. |
| InsertQueue.BucketInsertMeaning | docs/cas_kht.hpp:1018-1068 | One bucket visit either performs the map update or shows the bucket full of other keys. |
| InsertQueue.ResolvableIff | docs/cas_kht.hpp:204-222 | Some bucket resolves an insert if and only if its key is stored or the table has a hole. |
| InsertQueue.FrontIsFirst | docs/cas_kht.hpp:204-222 | Despite re-queuing, an insert that takes effect is the earliest pending one of its key. |
| InsertQueue.ResolveKeeps | docs/cas_kht.hpp:1025-1031 | An insert that takes effect keeps the queue invariant, with the map updated. |
| InsertQueue.AgainKeeps | docs/cas_kht.hpp:1048-1067 | With room for all submitted keys, a re-queued insert has another bucket to visit and keeps its place among the inserts of its key. |
| InsertQueue.Flushed | docs/cas_kht.hpp:432-441 | With nothing pending the map is that of all submitted inserts in submission order. |
| InsertQueue.ReplayMeaning | docs/cas_kht.hpp:432-441 | In-order inserts leave each key with the value last submitted for it. |
| InsertQueue.ReplayKeys | docs/cas_kht.hpp:432-441 | They leave no other key. |
| InsertQueue.FlushedMeaning | docs/cas_kht.hpp:432-441 | In the flushed table's slots each submitted key stands with its last value, key 0 in the separate slot, and no other key stands. |
| CasTable.HomeAligned | docs/cas_kht.hpp:1195-1199 | The submitted home is a bucket start inside the table. |
| CasTable.BucketMaskIsHome | docs/cas_kht.hpp:660-663 | The inlined lookup's mask gives the same home as the insert path's two-step rounding. |
| CasTable.CasHashTable.constructor | docs/cas_kht.hpp:69-117 | A zeroed table over two empty rings, nothing submitted. |
| CasTable.CasHashTable.Snapshot | docs/cas_kht.hpp:1018-1036 | The two masks give the first slot with the key and the first hole of the bucket. |
| CasTable.CasHashTable.TryInsert | docs/cas_kht.hpp:1073-1100 | From any slot of the bucket on: claims the first empty slot or overwrites the key's own, whichever comes first, or reports the bucket walked off. |
| CasTable.CasHashTable.InsertBranched | docs/cas_kht.hpp:1002-1127 | One attempt: the bucket visit of `BucketInsert`, with exactly one re-queued entry at the next bucket when it fails. |
| CasTable.CasHashTable.InsertOne | docs/cas_kht.hpp:1129-1148 | The same, with key 0 in its separate slot. |
| CasTable.CasHashTable.PopOnce | docs/cas_kht.hpp:210-221 | One round keeps all submissions accounted for and has strictly less work left. |
| CasTable.CasHashTable.PopInsertQueue | docs/cas_kht.hpp:204-222 | Terminates, with exactly one pending insert fewer. |
| CasTable.CasHashTable.AddToInsertQueue | docs/cas_kht.hpp:1188-1218 | Appends one submission at its home bucket. |
| CasTable.CasHashTable.InsertBatch | docs/cas_kht.hpp:243-258 | Records the whole batch as submitted, in order, keeping the queue invariant and the ring within size - 1. |
| CasTable.CasHashTable.FlushInsertQueue | docs/cas_kht.hpp:432-441 | After any batches, a flush leaves in the slots exactly the keys ever submitted, each with the value last submitted for it: the in-order map. |
| FindQueue.EmittedMeaning | docs/cas_kht.hpp:609-613 | A lookup emits a result exactly if its key is in the map, with the map's value and its own id. |
| FindQueue.AnswerableIff | docs/cas_kht.hpp:609-649 | Some bucket answers a lookup if and only if its key is stored or the table has a hole. |
| FindQueue.HoleDecides | docs/cas_kht.hpp:615-649 | With a hole in the table the buckets alone decide, as with a visit bound. |
| FindQueue.PopFinds | docs/cas_kht.hpp:597-650 | One pass of `retry` answers the oldest lookup or re-queues it at its next bucket, with strictly fewer visits left. |
| FindQueue.FindCounts | docs/cas_kht.hpp:570-684 | Submitted lookups are answered or queued, each once, and none is answered before an earlier one with no more buckets to visit. |
| CasTable.CasHashTable.AddToFindQueue | docs/cas_kht.hpp:1156-1186 | Appends one lookup at its home bucket. |
| CasTable.CasHashTable.FindOnce | docs/cas_kht.hpp:588-650 | One pass over the ring, with the hit it emits, if any. |
| CasTable.CasHashTable.ResolveOne | docs/cas_kht.hpp:587-650 | The retry loop ends, having answered exactly one earlier lookup. |
| CasTable.CasHashTable.FindBatch | docs/cas_kht.hpp:570-684 | The ring holds size - 1 lookups before and after; a batch answers exactly as many earlier lookups as it submits; the result array gets exactly their hits, in order, and vp.first grows by their number. |
| FlowHashing.FnvMulti | l2fwd/libsashstore/hash.c:12-18 | The byte loop computes the FNV fold. |
| FlowHashing.StepKeepsState | l2fwd/libsashstore/hash.c:14-15 | Different states stay different through a step: the prime is invertible modulo 2^64. |
| FlowHashing.StepKeepsByte | l2fwd/libsashstore/hash.c:14-15 | Different bytes, sign-extended, lead to different states. |
| FlowHashing.OneByteChangesHash | l2fwd/libsashstore/hash.c:12-18 | Inputs that differ in exactly one byte hash differently, from any starting state. |
| FlowHashing.SignExtendMeaning | l2fwd/libsashstore/hash.c:15 | A byte from 0x80 on enters the XOR as its signed value modulo 2^64. |
| FlowHashing.HighByteHash | l2fwd/libsashstore/hash.c:12-18 | The hash of the single byte 192. |
| FlowHashing.FlowHash | l2fwd/libsashstore/packettool.c:49-81 | 0 unless byte 14 says IPv4 and byte 23 TCP or UDP; otherwise the three chained calls are one fold over bytes 26 to 33, byte 23, and the four bytes after the IPv4 header. |
| FlowHashing.OthersHashToZero | l2fwd/libsashstore/packettool.c:53-65 | Any other frame has flow key 0. |
| FlowHashing.KeyOfBytes | l2fwd/libsashstore/packettool.c:67-80 | The table key of an IPv4 TCP or UDP frame is that fold over its raw bytes. |
| FlowHashing.FlowSeparation | l2fwd/libsashstore/packettool.c:49-81 | Two IPv4 TCP or UDP frames that agree on addresses, protocol and ports hash equally; if they differ there in exactly one byte they hash differently, whatever their header lengths. |
| ConsHash.Prime | l2fwd/libsashstore/conshash.h:10 | The table size 65537 has no divisor but 1 and itself. |
| ConsHash.NoZeroDivisor | l2fwd/libsashstore/conshash.c:10-14 | A product of two numbers that are not multiples of the table size is none either. |
| ConsHash.WalkSteps | l2fwd/libsashstore/conshash.c:10-14 | A node's walk starts at its offset and goes on by its skip, round the table. |
| ConsHash.PermInjective | l2fwd/libsashstore/conshash.c:10-14 | With a nonzero skip the first 65537 slots of a node's walk are all different. |
| ConsHash.CoversIff | l2fwd/libsashstore/conshash.c:5-14 | A node's walk visits every slot if and only if its skip is nonzero. |
| ConsHash.NodeSkips | l2fwd/libsashstore/conshash.c:5-8 | Offsets and skips of the three nodes; all skips are nonzero. |
| ConsHash.NextFree | l2fwd/libsashstore/conshash.c:39-43 | The inner loop ends, within the first 65537 steps, at the first free slot of the node's walk. |
| ConsHash.FillTable | l2fwd/libsashstore/conshash.c:28-51 | The fill ends having claimed every slot exactly once, the nodes taking turns, each claim the first slot of the node's walk not claimed before, with next[i] <= 65537. |
| ConsHash.SharesBalanced | l2fwd/libsashstore/conshash.c:37-51 | The filled table gives the three nodes 21846, 21846 and 21845 slots. |
| ConsHash.PopulateLut | l2fwd/libsashstore/conshash.c:17-25 | As it runs: every entry is 0xff. |
| Forwarder.RewriteKeepsFlow | l2fwd/main.c:256-261 | The eight-byte store and the source-address copy over its spill leave the low six bytes of the answer, least significant first, and the port's address; nothing else changes, so the flow hash stays. |
| Forwarder.DeliveredMeaning | l2fwd/main.c:309-315 | Byte by byte: what an answered packet carries after the burst, and that an unanswered one is as it came. |
| Forwarder.AnswersMeaning | l2fwd/main.c:306-345 | A packet's answer is what its flow was bound to before the burst, else entry `k % 65537` of the lookup table, else 0; old bindings stay and only flows of the burst are new. |
| Forwarder.AnsweredCounts | l2fwd/main.c:335-345 | Forwarded packets are counted one for one. |
| Forwarder.Lcore.Compact | l2fwd/main.c:322-331 | Picks exactly the packets with a flow hash, in order, with id equal to position. |
| Forwarder.Lcore.Scatter | l2fwd/main.c:336-343 | Rewrites exactly the picked packets that got a nonzero answer, each with its own, and counts them. |
| Forwarder.Lcore.RunDramblast | l2fwd/main.c:317-345 | Every packet ends up rewritten with what the table now holds for its own flow, or untouched if that is nothing; the table learns only the burst's flows, from its lookup table. |
| Forwarder.Lcore.RunMaglev | l2fwd/main.c:306-316 | The same statement for the packet-by-packet mode, with its counters. |
| Forwarder.Lcore.RunNone | l2fwd/main.c:346-352 | Every packet gets the placeholder address 0xff. |
| Forwarder.Lcore.ServeBurst | l2fwd/main.c:298-371 | After every burst received equals forwarded plus unmapped and equals sent plus dropped; forwarded counts the answered packets; packets carry only answers for their own flows, old bindings or lookup-table entries. |

## Left out

- Device setup, port and queue configuration, option parsing, statistics printing, packet generation and scripts: I/O and plumbing.
- Memory mapping, huge pages, allocation sizes, prefetch hints, timers and fences: no effect on meaning.
- CRC32 itself: each table holds an arbitrary function of the key.
- Tables of one or two slots, which the option check admits: a bucket load would read past them.
- Weak memory effects below single 8-byte reads and writes and the 16-byte compare-and-swap: steps of the concurrent system are atomic and seen by all.
- The rings in the concurrent system: each queued request is a call of its own there, which covers every order a ring can give.
- CasTable.CasHashTable.FindBatch: states the fast path only; the slow path that fills the ring is represented by `AddToFindQueue`, and flushing lookups is not modelled.
- CasTable.CasHashTable.InsertBatch: states termination and order for at most as many distinct nonzero keys as slots, since with more the loop runs on (`InsertQueue.ResolvableIff`).
- The inlined insert copy, rehash probing (UNIFORM_HT_SUPPORT), the aggregating value type and the DRAMHiT_2023 variants of the reference table: other configurations.
- Lookups of key 0 in the reference table: its lookup paths treat that key inconsistently.
- Forwarder.Lcore.ServeBurst: models one receive port per lcore; the cycle counter and the per-port table of counters are not represented.
- The sashstore mode and its hash map: the mode is rejected at start-up.
- Bytes beyond a frame's end: the flow hash assumes the frame holds what it reads.
