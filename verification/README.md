# Verified models of the node's algorithmic cores

This project models the parts of the node that are algorithms of their own:
the address manager, the stack of coin caches with its anchors and nullifiers,
the parallel check queue, the selection of packages for a block, the cuckoo
cache, partial Merkle trees, big unsigned integers and compact targets, the
block tree with its skip list, the rolling bloom filter, database
transactions, Bech32 and Base58.  For each of them it proves what the rest of
the node relies on.

Most parts have two layers.  A value layer describes states as datatypes and
operations as functions, and proves the properties as lemmas: invariants kept
by every operation and hence by every run, refinement of one flat map or set,
round trips, exactness.  An object layer has the program's own form: classes
with the program's fields and arrays, methods with its loops, each proved to
do on the object what the function does on the value.

Hash functions, randomness and clocks are functions or parameters of the
model, so that every statement holds for all of them.  32-bit and 64-bit
arithmetic is written out where it can wrap; where a comment or a lemma says
that it cannot, that is proved.

The files, by subject:

- `AddrManState`, `AddrManOps`, `AddrManProofs`, `AddrManRuns`,
  `AddrManCounts`, `AddrManStorage`, `AddrManLoad`, `AddrManRoundTrip`,
  `AddrManRepeats`, `AddrManOutcomes`, `AddrManFailures`, `AddrMan`: the
  address manager: its state and invariant, its operations, their proofs, whole
  runs, counters, the stored form, its round trip and its repeated addresses,
  what each operation means for its entry, runs on which a promise fails, and
  the object with its tables.
- `CoinStack`, `ShieldStack`, `CacheTraffic`, `CoinsViewCache`: stacks of
  caches for coins, nullifiers and anchors as values, what they spare the views
  below, and the cache objects.
- `CheckQueue`, `CheckQueueObject`: the check queue as a protocol of critical
  sections taken by any number of threads in any order, and the code of the
  critical sections.
- `PackageSelection`, `BlockAssembler`, `AssemblyFailures`: packages of
  transactions and the totals recorded for them, the selection loop with its
  shielded branches, and pools on which a promise of it fails.
- `CuckooTable`, `CuckooDrops`, `PackedFlags`, `CuckooCache`: the cuckoo cache
  as a value, when it drops elements, its packed flags, and the object.
- `PartialMerkle`: partial Merkle trees and their packed form.
- `BaseUint`, `Compact`: integers of any number of limbs, and compact targets.
- `BlockChain`: the block tree, skip pointers and the active chain.
- `RollingBloom`: the rolling bloom filter.
- `DbTransaction`: the order of keys, transactions and their iterator.
- `Bech32`, `Bech32Field`, `Base58`: the two text encodings, and the field over
  which the first one computes its checksum.
- `Arith`, `Bits`, `Positional`, `SetFacts`, `SetSum`, `Options`: shared
  mathematics.

Some results say that a promise does not hold as it stands.  Each comes with an
exact condition and an input on which it fails:

- Marking an address good at a time that is not positive can leave an entry
  that the consistency check objects to: `AddrManRuns.GoodTimes`,
  `AddrManFailures.GoodSpoilsTimes`.
- Add_ can answer true for an address that it drops again:
  `AddrManRuns.AddAnswer`, `AddrManFailures.AddForgets`.
- A stored table that repeats an address can load into an inconsistent one:
  `AddrManRepeats.LoadExactlyByStream`, `AddrManLoad.RepeatSpoilsIndex`.
- Flushing does not always preserve the best anchor or the removal of the
  empty root: `AnchorStack.FlushAllowedExactly`, `AnchorStack.FlushLosesBest`,
  `AnchorStack.FlushRestoresEmptyRoot`.
- Fee totals of prioritised transactions drift during package selection,
  because a record is made with the modified fee and updated with the plain
  one: `PackageSelection.FeesStayExact`, `AssemblyFailures.FeesDrift`.
- A package that breaks off at a shielded transaction is deducted from the
  records as if all of it were in the block, and a later package can then pass
  the size test without fitting: `PackageSelection.BreakSpoilsExactly`,
  `AssemblyFailures.LimitIsPassed`.
- A record whose package breaks off at its first transaction stays, and the
  selection loop can go on choosing it without end:
  `BlockAssembly.BlockAssembler.Turn`, `AssemblyFailures.LoopNeverEnds`.
- The comment on the first displacement in the cuckoo cache says that it goes
  to the first slot; the code takes the second, and so does the model.

## Model

| member | source | states |
|---|---|---|
| `AddrManClass.AddrMan.Find` | src/addrman.cpp:79-90 | Finds exactly the ids that the address index holds. |
| `AddrManClass.AddrMan.Create` | src/addrman.cpp:92-102 | Enters an entry under the next id in all three indexes. |
| `AddrManClass.AddrMan.SwapRandom` | src/addrman.cpp:104-122 | Exchanges two places of the random order; together with AddrManOps.SwapRandom the order and the recorded positions stay inverse to each other. |
| `AddrManOps.SwapRandom` | src/addrman.cpp:104-122 | The random order stays a permutation of the entries with exact positions, and nothing but positions changes. |
| `AddrManOps.SwapRandomKeepsTables` | src/addrman.cpp:104-122 | All index invariants survive the exchange. |
| `AddrManClass.AddrMan.Delete` | src/addrman.cpp:124-136 | The in-place deletion is the deletion on states. |
| `AddrManOps.Delete` | src/addrman.cpp:124-136 | Exactly one entry goes, every other entry keeps all but its position, and the random order stays exact. |
| `AddrManOps.DeleteKeepsTables` | src/addrman.cpp:124-136 | Deleting an unreferenced entry keeps all index invariants. |
| `AddrManProofs.DeleteKeepsInv` | src/addrman.cpp:124-136 | Deleting an unreferenced new entry keeps the whole invariant, counters included. |
| `AddrManClass.AddrMan.ClearNew` | src/addrman.cpp:138-151 | Clearing a slot in the array is ClearNew on states; the assertion on the reference count cannot fail. |
| `AddrManOps.ClearNew` | src/addrman.cpp:138-151 | Empties exactly one slot of the new table, touches no tried slot, and drops at most the entry that was in it. |
| `AddrManProofs.ClearNewKeepsInv` | src/addrman.cpp:138-151 | Clearing any slot keeps the whole invariant. |
| `AddrManClass.AddrMan.RemoveFromNew` | src/addrman.cpp:155-168 | The scan over all buckets with its early exit removes every slot that holds the entry. |
| `AddrManProofs.UnlinkKeepsInv` | src/addrman.cpp:155-168 | Taking an entry out of all new buckets leaves a reference count of zero and keeps the rest of the invariant. |
| `AddrManClass.AddrMan.EvictTried` | src/addrman.cpp:174-197 | Moving the previous holder of a tried slot back to its home slot in the new table, step by step in the arrays. |
| `AddrManProofs.MakeRoomKeepsInv` | src/addrman.cpp:174-197 | Making room in a tried slot keeps the invariant (with one entry in between the tables). |
| `AddrManClass.AddrMan.MakeTried` | src/addrman.cpp:153-202 | The whole move to the tried table, in place; none of its assertions can fail. |
| `AddrManProofs.MakeTriedKeepsInv` | src/addrman.cpp:153-202 | Moving an entry to the tried table keeps the whole invariant. |
| `AddrManRuns.MakeTriedEffect` | src/addrman.cpp:153-202 | The entry's tried slot is filled, none is emptied, the evicted entry stays known, and only new entries can be dropped. |
| `AddrManClass.AddrMan.Good` | src/addrman.cpp:204-256 | Good_ in place is Good on states and keeps the invariant. |
| `AddrManProofs.GoodKeepsInv` | src/addrman.cpp:204-256 | For every service, time and setting the whole invariant is kept. |
| `AddrManRuns.GoodTimes` | src/addrman.cpp:204-256 | The times stay in order if and only if nothing matches, or the time is positive, or it is zero and the entry stays new. |
| `AddrManOutcomes.GoodOutcome` | src/addrman.cpp:204-256 | A match is renewed and nothing else loses its history; a new entry takes its tried slot if that is free or may be taken, its holder becoming new, and otherwise becomes one of at most ten candidates. |
| `AddrManFailures.GoodSpoilsTimes` | src/addrman.cpp:204-256 | From the empty table, one announcement and then marking it good at a time that is not positive leaves the times out of order. |
| `AddrManClass.AddrMan.Add` | src/addrman.cpp:258-329 | Add_ in place, with its answer, is Add on states and keeps the invariant. |
| `AddrManClass.AddrMan.Announce` | src/addrman.cpp:272-280 | What a repeated announcement changes in an entry. |
| `AddrManClass.AddrMan.Doubled` | src/addrman.cpp:294-299 | The loop computes a power of two that exceeds one exactly when the entry is already referenced. |
| `AddrManClass.AddrMan.PlaceInNew` | src/addrman.cpp:307-327 | Taking, replacing or leaving the slot of the announced bucket. |
| `AddrManProofs.AddKeepsInv` | src/addrman.cpp:258-329 | Every announcement keeps the whole invariant. |
| `AddrManRuns.AddAnswer` | src/addrman.cpp:258-329 | The answer is true exactly for a routable unknown address; it is then known exactly when its slot was free or its holder replaceable, so it can be true for an address that is dropped again. |
| `AddrManOutcomes.AddNew` | src/addrman.cpp:258-329 | The entry of an address that was not known holds what was announced, less the penalty, and no history. |
| `AddrManOutcomes.AnnouncementOutcome` | src/addrman.cpp:272-280 | A repeated announcement only adds services, and moves the time only when it is behind by more than an hour or a day. |
| `AddrManOutcomes.AddAgain` | src/addrman.cpp:258-329 | A known address gets one more slot exactly when the announcement is news, the entry is new and in fewer than eight slots, the dice say so, and the slot is free or its holder terrible. |
| `AddrManOutcomes.TerribleCases` | src/addrman.cpp:44-62 | The reasons for which an entry is terrible, with their times in seconds, and the cases in which it is not. |
| `AddrManOutcomes.TerribleStays` | src/addrman.cpp:44-62 | An entry that is terrible, and not for a time in the future, stays so until it is touched. |
| `AddrManOutcomes.GoodIsNotTerrible` | src/addrman.cpp:44-62 | A success makes an entry good whatever failed before. |
| `AddrManFailures.AddForgets` | src/addrman.cpp:258-329 | Two announcements that meet in one slot: the second is answered true and its address is not known afterwards. |
| `AddrManClass.AddrMan.Attempt` | src/addrman.cpp:331-351 | Attempt_ in place is Attempt on states and keeps the invariant. |
| `AddrManProofs.AttemptKeepsInv` | src/addrman.cpp:331-351 | Recording an attempt keeps the invariant. |
| `AddrManOutcomes.AttemptOutcome` | src/addrman.cpp:331-351 | Which fields an attempt changes, and when it counts as a failure. |
| `AddrManOutcomes.FailuresCountOnce` | src/addrman.cpp:331-351 | However often an address fails, it counts once as long as no connection to any address succeeds. |
| `AddrManClass.AddrMan.Connected` | src/addrman.cpp:509-527 | Connected_ in place, keeping the invariant. |
| `AddrManProofs.ConnectedKeepsInv` | src/addrman.cpp:509-527 | Recording a connection keeps the invariant. |
| `AddrManOutcomes.ConnectedOutcome` | src/addrman.cpp:509-527 | A connection leaves a recorded time at most twenty minutes behind, and moves it only for that. |
| `AddrManClass.AddrMan.SetServices` | src/addrman.cpp:529-545 | SetServices_ in place, keeping the invariant. |
| `AddrManProofs.SetServicesKeepsInv` | src/addrman.cpp:529-545 | Changing services keeps the invariant. |
| `AddrManOutcomes.SetServicesOutcome` | src/addrman.cpp:529-545 | On an exact match the services are replaced and nothing else changes. |
| `AddrManClass.AddrMan.Resolve` | src/addrman.cpp:551-603 | One collision candidate, decided in place. |
| `AddrManClass.AddrMan.ResolveCollisions` | src/addrman.cpp:547-604 | The loop over a copy of the candidates is the same as resolving them one after the other, and keeps the invariant. |
| `AddrManOutcomes.ResolveWithoutRival` | src/addrman.cpp:553-566 | A candidate that is unknown or not valid is given up; one whose slot is free takes it. |
| `AddrManOutcomes.ResolveWithRival` | src/addrman.cpp:566-592 | A rival connected to in the last four hours stays; one tried in the last four hours is replaced after a minute; one not tried is replaced forty minutes after the candidate's own success; otherwise nothing changes. |
| `AddrManOutcomes.LiveHolderStays` | src/addrman.cpp:547-604 | Resolving all candidates leaves every live entry in its tried slot. |
| `AddrManRuns.ResolveAllKeepsInv` | src/addrman.cpp:547-604 | Resolving all candidates keeps the invariant. |
| `AddrManClass.AddrMan.SelectTriedCollision` | src/addrman.cpp:606-631 | Answers with the tried entry that holds the candidate's slot; it exists, so no lookup under -1 happens. |
| `AddrManClass.AddrMan.BringForward` | src/addrman.cpp:493-495 | One step of the partial shuffle. |
| `AddrManClass.AddrMan.GetAddr` | src/addrman.cpp:477-507 | The addresses are those of sampled entries that are distinct, all wanted, at most the limit, and all wanted ones if the limit is not reached; the invariant is kept. |
| `AddrManRuns.SampleResult` | src/addrman.cpp:477-507 | The same of the sampling function, for every sequence of random numbers. |
| `AddrManOutcomes.SampleFirst` | src/addrman.cpp:488-494 | The first entry looked at is the one that the first draw selects. |
| `AddrManOutcomes.SampleSizeIs` | src/addrman.cpp:477-485 | The number asked for is the percentage rounded down, or the maximum. |
| `AddrManRuns.StepKeepsInv` | src/addrman.cpp:400-474 | Every public operation keeps the invariant that the consistency check tests. |
| `AddrManRuns.RunConsistent` | src/addrman.cpp:400-474 | After every run of operations at positive times the consistency check finds nothing. |
| `AddrManRuns.StepTimes` | src/addrman.cpp:400-474 | Operations at positive times keep a last-try time on every entry that needs one. |
| `AddrManCounts.CountersAddUp` | src/addrman.cpp:405-406 | nNew plus nTried is the number of entries and of places in the random order. |
| `AddrManCounts.CountersWithinCapacity` | src/addrman.cpp:400-474 | The counters never exceed the number of slots of their tables. |
| `AddrManRuns.StepStable` | src/addrman.cpp:153-256 | No operation empties a tried slot, and an id never changes its address. |
| `AddrManRuns.RunStable` | src/addrman.cpp:547-631 | Over every run tried slots stay filled, ids keep their addresses, and every known collision candidate has a filled tried slot. |
| `AddrManRuns.StepKeepsCollisionsOk` | src/addrman.cpp:243-249 | Every candidate still known has its tried slot taken, after every operation. |
| `AddrManRuns.TriedBucketsOfGroup` | src/addrman.cpp:17-25 | All addresses of one group reach at most eight tried buckets. |
| `AddrManRuns.NewBucketsOfSourceGroup` | src/addrman.cpp:27-36 | All announcements from one source group reach at most sixty-four new buckets. |
| `AddrManClass.AddrMan.Clear` | src/addrman.h:568-590 | Clearing gives the empty state; the collision candidates are left alone. |
| `AddrManClass.AddrMan.constructor` | src/addrman.h:592-595 | A new object is the empty state. |
| `AddrManClass.AddrMan.WriteEntries` | src/addrman.h:384-403 | The two loops write new entries, then tried ones, each in the order of the map. |
| `AddrManClass.AddrMan.WriteBuckets` | src/addrman.h:404-417 | Every new bucket is written as the list of its entries' numbers. |
| `AddrManClass.AddrMan.Serialize` | src/addrman.h:363-425 | The object writes exactly the stream that Save describes. |
| `AddrManClass.AddrMan.ReadNew` | src/addrman.h:473-481 | The loop that reads new entries. |
| `AddrManClass.AddrMan.ReadTried` | src/addrman.h:483-502 | The loop that reads tried entries and counts the lost ones. |
| `AddrManClass.AddrMan.ReadBuckets` | src/addrman.h:504-517 | The loop that collects the bucket of each entry. |
| `AddrManClass.AddrMan.SettleNew` | src/addrman.h:528-548 | Putting entries into the stored or the recomputed bucket. |
| `AddrManClass.AddrMan.PruneNew` | src/addrman.h:550-560 | Deleting entries that found no slot. |
| `AddrManClass.AddrMan.Unserialize` | src/addrman.h:428-566 | Accepts exactly the streams whose format and counts are in range and that hold as many records as they announce; the state is Load of the stream, and satisfies the invariant if and only if no stored entry that finds a place shares its address with another one that is read. |
| `AddrManLoad.LoadExactly` | src/addrman.h:428-566 | For every complete stream the loaded state satisfies the invariant if and only if, before pruning, no entry with a slot shares its address with another one; everything but the index by address is right in any case. |
| `AddrManRepeats.LoadTriedIs` | src/addrman.h:483-502 | A tried entry is entered if and only if it is the first in the stream for its slot. |
| `AddrManRepeats.SettleAllIs` | src/addrman.h:504-551 | Which new entries get a slot, and which one, by a recursion over the stream alone. |
| `AddrManRepeats.LoadExactlyByStream` | src/addrman.h:428-566 | So the exact condition for the invariant is one on the stored table: no entry that finds a place shares its address with another one that is read. |
| `AddrManLoad.RepeatSpoilsIndex` | src/addrman.h:428-566 | A stream with a new and a tried entry of one network address is accepted and gives a state that violates the invariant. |
| `AddrManRoundTrip.SavedIsComplete` | src/addrman.h:363-425 | What is written is accepted by the reader. |
| `AddrManRoundTrip.HeaderIs` | src/addrman.h:375-383 | The format, compatibility and bucket numbers at the head of a stored table, and the bounds on what is accepted. |
| `AddrManRoundTrip.SavedIsDistinct` | src/addrman.h:363-425 | What is written repeats no address. |
| `AddrManRoundTrip.RoundTrip` | src/addrman.h:363-566 | Loading what was saved under the same asmap loses no entry: same key, counts, stored fields and tried slots up to renumbering, and every new entry gets one of the slots it held. |
| `CoinStack.Flatten` | src/coins.h:136-145 | One map that shows the same unspent coin as the stack for every outpoint. |
| `CoinStack.FetchShowsSame` | src/coins.cpp:66-92 | Reading through any number of layers changes nothing visible and keeps the meaning of both flags. |
| `CoinStack.AddShows` | src/coins.cpp:94-116 | Adding under the documented condition does not throw, keeps the flags right, and shows exactly the new coin at exactly that outpoint. |
| `CoinStack.AddSafeExactly` | src/coins.cpp:94-116 | Adding neither throws nor misplaces a FRESH flag if and only if overwriting is allowed or no unspent coin is visible. |
| `CoinStack.SpendShows` | src/coins.cpp:133-147 | Spending hides exactly one outpoint and keeps the flags right. |
| `CoinStack.UncacheShows` | src/coins.cpp:323-330 | Dropping an unmodified entry changes nothing visible. |
| `CoinStack.MergeAll` | src/coins.cpp:246-298 | What becomes of every entry when a child is written to it. |
| `CoinStack.WriteShows` | src/coins.cpp:240-307 | Writing a child never throws, and the parent then shows what the child showed, with right flags. |
| `CoinStack.FlushShows` | src/coins.cpp:309-321 | A flush changes nothing visible, above or below. |
| `CoinStack.StepRefines` | src/coins.cpp:66-330 | Every operation on any stack is the operation on one flat map, throws nothing and keeps the flags right. |
| `CoinStack.RunRefines` | src/coins.cpp:66-330 | So does every sequence of allowed operations on a stack of any depth. |
| `CoinStack.FlushDownShows` | src/coins.cpp:309-321 | Flushed layer by layer, the database itself holds what the top showed. |
| `CacheTraffic.ReadIsKept` | src/coins.cpp:66-85 | A coin that is found is kept, clean, and fresh exactly if it is spent; nothing is kept of one that is not found. |
| `CacheTraffic.ReadAgain` | src/coins.cpp:66-85 | Reading again changes nothing in any layer. |
| `CacheTraffic.MadeAndSpent` | src/coins.cpp:94-150 | A coin that is made and spent in one cache leaves no trace, and a flush writes nothing of it. |
| `CacheTraffic.MadeAndSpentBelow` | src/coins.cpp:94-298 | Nor does one that is made in a cache, flushed to the next one, and spent there. |
| `CacheTraffic.UncacheDrops` | src/coins.cpp:323-330 | An entry is dropped exactly if it has nothing to write down, and no other one is touched. |
| `CacheTraffic.CoinsFlushed` | src/coins.cpp:309-321 | A flush leaves the cache empty, and a second one writes nothing. |
| `CacheTraffic.NewCachesAreRight` | src/coins.cpp:94-321 | A database, and a new cache on any view with right flags, have right flags. |
| `NullifierStack.AskShowsSame` | src/coins.cpp:446-458 | Asking for a nullifier leaves answers behind but changes none. |
| `NullifierStack.SetAllShows` | src/coins.cpp:550-559 | Marking a transaction's nullifiers marks exactly those. |
| `NullifierStack.FlushShows` | src/coins.cpp:218-238 | Flushing preserves the visible set, above and below. |
| `NullifierStack.RunRefines` | src/coins.cpp:446-559 | Every sequence of operations on any stack behaves as one flat set. |
| `CacheTraffic.AskIsKept` | src/coins.cpp:446-458 | An answer is kept, and asking again changes nothing in any layer. |
| `CacheTraffic.NullifiersFlushed` | src/coins.cpp:218-238 | A flush leaves the cache of nullifiers empty, and a second one writes nothing. |
| `AnchorStack.ShownTreeHasRoot` | src/coins.cpp:422-444 | A tree shown for a root hashes to that root. |
| `AnchorStack.GetAnchorShowsSame` | src/coins.cpp:422-444 | Reading an anchor changes no anchor and no best anchor. |
| `AnchorStack.GetBestShowsSame` | src/coins.cpp:561-565 | Reading the best anchor changes nothing visible. |
| `AnchorStack.PushShows` | src/coins.cpp:460-500 | Pushing makes the tree's root the best anchor and adds exactly it. |
| `AnchorStack.PopShows` | src/coins.cpp:511-548 | Popping removes exactly the former best anchor and restores the given one. |
| `AnchorStack.PushThenPop` | src/coins.cpp:460-548 | Pushing a tree whose root is new and popping back restores anchors and best anchor. |
| `AnchorStack.FlushShows` | src/coins.cpp:185-216 | A flush preserves the visible anchors if and only if it goes to a cache or the empty root is still an anchor. |
| `AnchorStack.FlushBest` | src/coins.cpp:300-321 | A flush preserves the best anchor if and only if the child knew one, or sits on the database, or the two caches below agree on it. |
| `AnchorStack.FlushAllowedExactly` | src/coins.cpp:300-321 | A flush is invisible, in the anchors and in the best anchor, if and only if FlushAllowed holds. |
| `AnchorStack.FlushLosesBest` | src/coins.cpp:300-321 | A cache that never asked for its best anchor, above one where a tree was pushed: flushing the upper one loses the pushed best anchor. |
| `AnchorStack.FlushRestoresEmptyRoot` | src/coins.cpp:185-216 | Over an empty database the empty root is popped away, and the flush brings it back. |
| `AnchorStack.StepRefines` | src/coins.cpp:422-565 | Each allowed operation acts as the operation on the flat set; the assertion of a pop holds. |
| `AnchorStack.RunRefines` | src/coins.cpp:422-565 | Every sequence of operations, pops of the empty root included, whose flushes are those that FlushAllowed describes, behaves on any stack as one flat set with a best anchor. |
| `AnchorStack.RunNeverAsserts` | src/coins.cpp:511-548 | Wherever such a run has got to, the assertion of the pop that comes next holds. |
| `CacheTraffic.AnchorIsKept` | src/coins.cpp:422-444 | An anchor that is found is kept, and reading again changes nothing in any layer. |
| `CacheTraffic.BestIsKept` | src/coins.cpp:561-565 | The best anchor is kept where it was read. |
| `CacheTraffic.AnchorsFlushed` | src/coins.cpp:185-216 | A flush leaves the cache of anchors empty, and a second one writes nothing. |
| `CoinsViews.CoinsDb.GetCoin` | src/txdb.cpp:51-54 | Finds exactly the stored coins. |
| `CoinsViews.CoinsDb.GetAnchor` | src/sapling/sapling_txdb.cpp:13-23 | Knows the empty tree and exactly the stored ones. |
| `CoinsViews.CoinsDb.BatchWrite` | src/txdb.cpp:77-144 | Applies the dirty coins, anchors and nullifiers of a child and its block, as the stack models say. |
| `CoinsViews.CoinsDb.WriteCoins` | src/txdb.cpp:107-130 | The loop stores dirty unspent coins and erases dirty spent ones, in any order. |
| `CoinsViews.CoinsDb.WriteAnchors` | src/sapling/sapling_txdb.cpp:57-77 | The loop stores or erases dirty anchors but never the empty tree. |
| `CoinsViews.CoinsDb.WriteNullifiers` | src/sapling/sapling_txdb.cpp:37-54 | The loop adds and removes exactly the dirty nullifiers. |
| `CoinsViews.CoinsCache.FetchCoin` | src/coins.cpp:66-82 | The recursion down the caches mutates every cache on the way as the stack model says, and nothing else. |
| `CoinsViews.CoinsCache.GetCoin` | src/coins.cpp:84-92 | Answers with the first entry found from the top. |
| `CoinsViews.CoinsCache.AccessCoin` | src/coins.cpp:151-159 | The coin it gives is unspent exactly when the view shows one. |
| `CoinsViews.CoinsCache.HaveCoin` | src/coins.cpp:161-165 | True exactly when the view shows an unspent coin. |
| `CoinsViews.CoinsCache.AddCoin` | src/coins.cpp:94-116 | Ignores outputs that can never be spent, refuses exactly where the node throws, and otherwise is AddCoin of the stack. |
| `CoinsViews.CoinsCache.SpendCoin` | src/coins.cpp:133-147 | Is SpendCoin of the stack and hands out the coin. |
| `CoinsViews.CoinsCache.Uncache` | src/coins.cpp:323-330 | Is Uncache of the stack. |
| `CoinsViews.CoinsCache.GetBestBlock` | src/coins.cpp:173-178 | Finds the nearest known block and leaves it behind on the way. |
| `CoinsViews.CoinsCache.GetSaplingAnchorAt` | src/coins.cpp:422-444 | Is GetAnchor of the stack, with its answer. |
| `CoinsViews.CoinsCache.GetNullifier` | src/coins.cpp:446-458 | Is Ask of the stack, with its answer. |
| `CoinsViews.CoinsCache.SetNullifiers` | src/coins.cpp:550-559 | The loop marks exactly the given nullifiers. |
| `CoinsViews.CoinsCache.GetBestAnchor` | src/coins.cpp:561-565 | Finds the best anchor and leaves it behind on the way. |
| `CoinsViews.CoinsCache.PushAnchor` | src/coins.cpp:460-500 | Is Push of the stack. |
| `CoinsViews.CoinsCache.PopAnchor` | src/coins.cpp:511-548 | Succeeds exactly when the tree of the current best anchor is there, as the node asserts, and is then Pop of the stack. |
| `CoinsViews.CoinsCache.MergeCoin` | src/coins.cpp:247-298 | One turn of the merge loop: fails exactly where the node throws, and is otherwise the merge of the two entries. |
| `CoinsViews.CoinsCache.MergeCoins` | src/coins.cpp:246-298 | The merge loop, in any order, fails exactly if some pair of entries makes the node throw, and otherwise gives the merge of the two maps. |
| `CoinsViews.CoinsCache.MergeAnchors` | src/coins.cpp:185-216 | The anchor merge loop gives the merge of the two maps. |
| `CoinsViews.CoinsCache.MergeNullifiers` | src/coins.cpp:218-238 | The nullifier merge loop gives the merge of the two maps. |
| `CoinsViews.CoinsCache.BatchWrite` | src/coins.cpp:240-307 | Fails exactly where the node throws; otherwise takes over a child's coins, anchors, nullifiers, best anchor and block. |
| `CoinsViews.CoinsCache.Flush` | src/coins.cpp:309-321 | Is Flush of all three stacks; no exception is thrown when the flags are right; the best block shown survives if and only if it was known here or nothing below changes it. |
| `CheckQueue.BatchSize` | src/checkqueue.h:105 | A batch has at least one check and no more than are queued. |
| `CheckQueue.BatchSizeIs` | src/checkqueue.h:105 | It is the largest number that leaves every thread its share, within the maximum, but at least one. |
| `CheckQueue.TakeBackKeepsAll` | src/checkqueue.h:106-112 | Taking a batch off the back loses and doubles nothing, for every way of weighing checks. |
| `CheckQueue.TakeBackAt` | src/checkqueue.h:106-112 | The batch is the end of the queue, last check first. |
| `CheckQueue.ExecutedAll` | src/checkqueue.h:116-120 | Nothing of a batch is skipped when nothing failed. |
| `CheckQueue.ExecutedSome` | src/checkqueue.h:116-120 | What is executed is part of the batch, and if a check of the batch fails then one that is executed does. |
| `CheckQueue.VerdictRight` | src/checkqueue.h:86-95 | With nothing left to do the flag is the conjunction of all checks added since the last verdict and of those executed; none was executed twice, and if it is true none was skipped. |
| `CheckQueue.ProceedKeepsInv` | src/checkqueue.h:83-115 | Returning, waiting or taking a batch keeps the protocol invariant. |
| `CheckQueue.ReportedMid` | src/checkqueue.h:74-80 | Handing a batch back keeps it, and notifies the master when it was the last. |
| `CheckQueue.WokenMid` | src/checkqueue.h:97-98 | So does waking up, notified or not. |
| `CheckQueue.StartedMid` | src/checkqueue.h:81-84 | So does the start of another worker. |
| `CheckQueue.AddedKeepsInv` | src/checkqueue.h:141-153 | So does adding checks; a sleeping worker is notified if there is one. |
| `CheckQueue.RunKeepsInv` | src/checkqueue.h:64-122 | The invariant holds after every interleaving of any number of workers and the master. |
| `CheckQueue.RunJudges` | src/checkqueue.h:135-153 | The verdicts split the stream of added checks: none is judged twice, none left out. |
| `CheckQueue.IdleUntilAdd` | src/checkqueue.h:159-163 | The queue is idle from a verdict until the next check is added. |
| `CheckQueue.IdleMeans` | src/checkqueue.h:159-163 | It reports idle if and only if nothing is queued, no thread holds a batch, and all that was added since the last verdict has passed. |
| `CheckQueue.NeverStuck` | src/checkqueue.h:64-122 | While the master waits some thread is at work or has been notified. |
| `CheckQueue.EveryRun` | src/checkqueue.h:64-163 | All of this for every run from the start: right verdicts with each check executed at most once and for a good one exactly once, exact counters, no lost wake-up, no deadlock, idle after a verdict. |
| `CheckQueue.IdleWakeChangesNothing` | src/checkqueue.h:97-98 | A spurious wake-up with nothing queued changes nothing at all. |
| `CheckQueue.WaitIsBounded` | src/checkqueue.h:135-138 | Between two calls of the master only a bounded number of steps can do anything. |
| `CheckQueue.DoingIs` | src/checkqueue.h:64-122 | A step counts exactly if it hands a batch back, or is a wake-up that is notified or finds work. |
| `CheckQueue.WaitReturns` | src/checkqueue.h:135-138 | Every call of Wait returns: after that many steps that do something the verdict has been given, and until then there is always such a step to take. |
| `CheckQueueObject.Queue.Add` | src/checkqueue.h:141-153 | The loop over the new checks is the step of the protocol, and so is the choice to notify no worker, one or all. |
| `CheckQueueObject.Queue.Report` | src/checkqueue.h:74-80 | The first half of a critical section is the step of the protocol, with its notification. |
| `CheckQueueObject.Queue.Continue` | src/checkqueue.h:83-115 | The second half is the step of the protocol, whichever way it ends. |
| `CheckQueueObject.Queue.Take` | src/checkqueue.h:108-112 | The loop takes the last checks, last first. |
| `CheckQueueObject.Queue.IsIdle` | src/checkqueue.h:159-163 | True exactly when nothing is queued, no thread holds a batch, and all that was added since the last verdict has passed. |
| `CheckQueueObject.RunBatch` | src/checkqueue.h:116-120 | The result is the conjunction with the flag read before; nothing is called after a failure. |
| `PackageSelection.NeedDeduct` | src/blockassembler.cpp:325-347 | The room a package needs shrinks by exactly the ancestor that entered the block. |
| `PackageSelection.DeductTracks` | src/blockassembler.cpp:325-347 | Recorded sizes and sigops stay exact for transactions that never failed, and never too small for the others. |
| `PackageSelection.DeductAllTracks` | src/blockassembler.cpp:325-347 | So do they when a whole package that entered the block is deducted, in any order. |
| `PackageSelection.RecordsDoNotWrap` | src/blockassembler.h:118-127 | The unsigned subtractions cannot wrap while no package has broken off. |
| `PackageSelection.FeesStayExact` | src/blockassembler.h:118-127 | A right fee total stays right if and only if the record is new or the deducted transaction carries no priority. |
| `PackageSelection.PrioritisedFeesDrift` | src/blockassembler.h:118-127 | For every child of two selected transactions of which the later is prioritised the recorded fees are wrong. |
| `PackageSelection.RecordPays` | src/blockassembler.cpp:456-459 | If what is left of every package pays, whatever is in the block, then every record pays, exact or not, as long as there are no priorities. |
| `AssemblyFailures.FeesDrift` | src/blockassembler.h:118-127 | A well-formed pool of three transactions on which it happens. |
| `PackageSelection.BreakRecord` | src/blockassembler.cpp:486-506 | When only a part of a package enters the block, the record of every transaction outside it becomes too small by exactly those of its ancestors that were left behind. |
| `PackageSelection.BreakSpoilsExactly` | src/blockassembler.cpp:486-506 | So an exact record is still large enough if and only if the ancestors left behind have no size and no sigops. |
| `PackageSelection.TidyKeepsEnough` | src/blockassembler.cpp:486-506 | If that is so for all, no record anywhere becomes too small. |
| `PackageSelection.AncestorCountsLess` | src/blockassembler.h:86-96 | An ancestor has a smaller ancestor count. |
| `PackageSelection.AppendPackage` | src/blockassembler.cpp:366-375 | Appending a package sorted by ancestor count keeps parents before children. |
| `PackageSelection.BlockedStays` | src/blockassembler.cpp:349-357 | A package that does not fit, or is not final, stays so whatever is added later. |
| `BlockAssembly.BlockAssembler.constructor` | src/blockassembler.cpp:172-183 | A new block is empty with the reserved space taken. |
| `BlockAssembly.BlockAssembler.OnlyUnconfirmed` | src/blockassembler.cpp:273-284 | Removes exactly what is in the block. |
| `BlockAssembly.BlockAssembler.TestPackage` | src/blockassembler.cpp:286-293 | True exactly when both limits stay strictly unreached. |
| `BlockAssembly.BlockAssembler.TestPackageFinality` | src/blockassembler.cpp:297-304 | True exactly when all transactions are final. |
| `BlockAssembly.BlockAssembler.AddToBlock` | src/blockassembler.cpp:306-323 | All running totals grow by the one transaction, and the lists of fees and sigops go with the transactions. |
| `BlockAssembly.BlockAssembler.DeductFromDescendants` | src/blockassembler.cpp:329-345 | The loop over descendants, with insertion or update, is the deduction on records. |
| `BlockAssembly.BlockAssembler.UpdatePackagesForAdded` | src/blockassembler.cpp:325-347 | The nested loops deduct every transaction of the package once from each of its descendants outside the package. |
| `BlockAssembly.BlockAssembler.SkipMapTxEntry` | src/blockassembler.cpp:358-364 | While no package has broken off, what is skipped is on record or settled, and what is not skipped has totals in the pool that are exact for the present block. |
| `BlockAssembly.BlockAssembler.SortForBlock` | src/blockassembler.cpp:366-375 | The package in an order of non-decreasing ancestor count, each transaction once. |
| `BlockAssembly.BlockAssembler.AddSorted` | src/blockassembler.cpp:486-503 | Adds a prefix of the sorted transactions that ends at the first shielded one that is refused, with exact totals, within the room for shielded ones. |
| `BlockAssembly.BlockAssembler.AddPackage` | src/blockassembler.cpp:480-503 | The package enters the block parents first, up to the first shielded transaction that is refused; the records of what entered are dropped, the totals are exact, and nothing enters if and only if the first transaction is refused. |
| `BlockAssembly.BlockAssembler.Try` | src/blockassembler.cpp:444-507 | Everything that holds between turns is kept whichever way the test ends; while no package breaks off, the package is in the block or blocked for good; otherwise the turn has made progress or has stalled. |
| `BlockAssembly.BlockAssembler.AddPackageTxs` | src/blockassembler.cpp:387-508 | For any number of turns: the block grows by an ancestor-closed, parents-first list of final transactions with exact totals, within the room for shielded ones. If no package breaks off, the limits hold, no turn stalls, the loop ends within a stated number of turns, and what is left out on completion is blocked. If one does, some transaction outside the block is still refused; the limits hold unless records were spoiled, and only stalled turns keep the loop from ending. Nothing breaks off if there is room for all shielded transactions, and nothing is spoiled if packages with shielded transactions stand apart. Selection ends early only at a transaction outside the block with totals that do not pay, and never if what is left of every package pays, no fee has a priority and no package breaks off; otherwise every turn asked for is taken, and each is one that Turn describes. |
| `BlockAssembly.BlockAssembler.Turn` | src/blockassembler.cpp:401-507 | A turn brings the loop closer to its end, unless the record it chose passes all tests and the first transaction of its package is refused; then the block is unchanged. What it adds belongs to a package whose record pays. It asks to stop only at a transaction outside the block whose totals do not pay. |
| `BlockAssembly.FoundUnderpaid` | src/blockassembler.cpp:456-459 | The totals that do not pay are exact, or those of a package that is blocked anyway, while no package has broken off. |
| `BlockAssembly.NeverRefused` | src/blockassembler.cpp:488-499 | If there is room for all shielded transactions of the pool none is ever refused. |
| `BlockAssembly.RefusedStaysOut` | src/blockassembler.cpp:488-499 | A transaction that is refused at some point is not in anything that is added from then on. |
| `BlockAssembly.ApartIsTidy` | src/blockassembler.cpp:486-506 | If nothing outside a package with a shielded transaction needs any of it, a break leaves no record too small. |
| `BlockAssembly.StallsAgain` | src/blockassembler.cpp:486-506 | A turn that stalled leaves the record it chose as it was, and can be repeated. |
| `BlockAssembly.StallsForever` | src/blockassembler.cpp:401-507 | So from the first stalled turn on there are runs with any number of further turns in which nothing enters the block, the fee test included. |
| `BlockAssembly.StallIsFinal` | src/blockassembler.cpp:401-507 | If all descendants of the package belong to it, a stalled turn changes nothing at all, so that the loop does not end whatever the order of scores. |
| `AssemblyFailures.LoopNeverEnds` | src/blockassembler.cpp:401-507 | In maintenance, with a plain parent and its shielded child that both pay enough, for every minimum fee: after the parent is added the child's record is all that is left, it passes the fee test, and the turn that looks at it changes nothing. |
| `AssemblyFailures.LimitIsPassed` | src/blockassembler.cpp:486-506 | A pool of four transactions that pay enough, for every minimum fee, on which a package that breaks off lets a later one through the fee and size tests that does not fit. |
| `PackedFlags.BitLaws` | src/cuckoocache.h:92-116 | Setting or clearing one bit of a byte changes that bit and no other. |
| `PackedFlags.BitFlags.constructor` | src/cuckoocache.h:61-69 | All flags start set, whatever the size. |
| `PackedFlags.BitFlags.Set` | src/cuckoocache.h:92-95 | Exactly one flag becomes set. |
| `PackedFlags.BitFlags.Unset` | src/cuckoocache.h:103-106 | Exactly one flag becomes clear. |
| `PackedFlags.BitFlags.Test` | src/cuckoocache.h:113-116 | Reads one flag. |
| `CuckooTable.InsertExchanges` | src/cuckoocache.h:368-416 | The kept elements after an insertion are the old ones plus the new one minus at most one, namely the one dropped at the end. |
| `CuckooDrops.InsertPresent` | src/cuckoocache.h:374-383 | An element that is there already is kept and marked, and nothing moves or is dropped. |
| `CuckooDrops.InsertFree` | src/cuckoocache.h:385-393 | A new element with a free slot goes into the first one, and nothing else changes. |
| `CuckooDrops.NextIs` | src/cuckoocache.h:408 | Where an element without a free slot goes: the slot after the one emptied for it, or its second one. |
| `CuckooDrops.DisplaceDrops` | src/cuckoocache.h:385-415 | Something is dropped if and only if no element that comes to hand has a free slot; then no free slot is used up, and otherwise exactly one is. |
| `CuckooDrops.DisplaceConserves` | src/cuckoocache.h:385-415 | The elements of the table and the one in hand are afterwards those of the table and the one that is out. |
| `CuckooDrops.InsertDrops` | src/cuckoocache.h:368-416 | The same for a whole insertion: exactly when it drops, and what becomes of elements and free slots. |
| `CuckooDrops.InsertAtDepthOne` | src/cuckoocache.h:368-416 | With a single displacement the element takes its second slot, and what was there is dropped. |
| `CuckooDrops.InsertStores` | src/cuckoocache.h:264-453 | In any state of a run an element that is there or has a free slot is stored, is found at once, and nothing is dropped. |
| `CuckooDrops.FirstInsertStores` | src/cuckoocache.h:264-453 | The first insertion into a new table is stored, whatever the element. |
| `CuckooTable.InsertPlaces` | src/cuckoocache.h:368-416 | Every kept element stays at one of its eight slots, and no element is in two slots. |
| `CuckooTable.InsertFresh` | src/cuckoocache.h:368-416 | The inserted element and all that were kept with the mark of the current epoch are so afterwards, except the one dropped. |
| `CuckooTable.DisplaceFresh` | src/cuckoocache.h:385-415 | The epoch mark travels with its element through every displacement. |
| `CuckooTable.InsertLive` | src/cuckoocache.h:368-416 | An insertion adds at most one element to the current epoch. |
| `CuckooTable.AgeSpares` | src/cuckoocache.h:280-286 | Ageing keeps exactly the elements that were kept with the mark of the current epoch. |
| `CuckooTable.KeptIsFound` | src/cuckoocache.h:443-453 | Every kept element is found. |
| `CuckooTable.EraseIsLazy` | src/cuckoocache.h:418-453 | Erasing leaves every element findable and touches no other one. |
| `CuckooTable.EraseForgets` | src/cuckoocache.h:443-453 | An erased element is kept no more and its slot is free; without the wish to erase nothing changes. |
| `CuckooTable.EpochCheckKeeps` | src/cuckoocache.h:264-296 | The epoch check keeps the table right and loses nothing of the current epoch; ageings are at least an epoch of insertions apart. |
| `CuckooDrops.ScanIs` | src/cuckoocache.h:264-296 | When a scan takes place, when it ages the table, that it leaves fewer live elements than an epoch holds, and how far off the next one is. |
| `CuckooTable.SurvivesAnEpoch` | src/cuckoocache.h:264-453 | An element inserted in the current epoch is still kept and found after any run of up to an epoch of insertions, ageing included, unless it was erased or dropped in it. |
| `CuckooTable.EveryRun` | src/cuckoocache.h:264-453 | After every run kept elements are at home and found, and so is everything inserted since the last but one ageing that was not erased or dropped; the current epoch has at most a sixteenth more elements than its size, and ageings are an epoch apart. |
| `CuckooCache.Cache.constructor` | src/cuckoocache.h:315-329 | A new table is empty; the epoch size is 45 percent of the slots rounded down but at least one, as far as 32 bits reach. |
| `CuckooCache.Cache.EpochCheck` | src/cuckoocache.h:264-296 | The countdown, the counting loop and the ageing loop are the epoch check on tables. |
| `CuckooCache.Cache.AgeAll` | src/cuckoocache.h:281-285 | The ageing loop in place. |
| `CuckooCache.Cache.DisplaceFrom` | src/cuckoocache.h:385-415 | The displacement loop in place, with the second slot first. |
| `CuckooCache.Cache.Insert` | src/cuckoocache.h:368-416 | The whole insertion in place. |
| `CuckooCache.Cache.Contains` | src/cuckoocache.h:443-453 | The lookup, with its answer and its optional erasure. |
| `PartialMerkle.NodeExists` | src/merkleblock.h:70-74 | The width formula: a node exists exactly when its leftmost leaf does. |
| `PartialMerkle.Children` | src/merkleblock.cpp:59-75 | A node's leaves are shared out exactly among its one or two children. |
| `PartialMerkle.LevelIs` | src/merkleblock.cpp:59-75 | The hashes computed by height and position are those of the levels that arise by pairing up neighbours, a last one with itself. |
| `PartialMerkle.RootIsByLevels` | src/merkleblock.cpp:59-75 | So the root is the one that pairing up level by level gives. |
| `PartialMerkle.ExtractBuilt` | src/merkleblock.cpp:77-125 | Extracting what was built for a node gives its hash and its matches and reads no further, wherever it stands in the stream. |
| `PartialMerkle.HashCount` | src/merkleblock.cpp:77-94 | The hashes stored for a node are at most its leaves, at most one more than matches times height, and at most its bits. |
| `PartialMerkle.SizeBound` | src/merkleblock.h:41-45 | So an honest tree is within the promised sizes. |
| `PartialMerkle.RoundTrip` | src/merkleblock.cpp:15-176 | Built from any transactions and any mask, packed into bytes and back, a tree is accepted and yields the merkle root and exactly the matched transactions in order. |
| `PartialMerkle.PaddingRefused` | src/merkleblock.cpp:144-176 | An accepted tree with anything appended is refused, unless that is bits within its last byte, which make no difference. |
| `PartialMerkle.Sound` | src/merkleblock.cpp:96-125 | Any stream whose extraction arrives at a node's true hash yields leaves of that node in order, for a combining function without collisions. |
| `PartialMerkle.AcceptedIsSound` | src/merkleblock.cpp:144-176 | Whatever tree is accepted with the true root lists transactions of the block in order. |
| `PartialMerkleTrees.BitsToBytes` | src/merkleblock.cpp:15-22 | Every bit is at its place, and padding is zero. |
| `PartialMerkleTrees.BytesToBits` | src/merkleblock.cpp:24-31 | Every bit is read from its place. |
| `PartialMerkleTrees.PartialMerkleTree.CalcHeight` | src/merkleblock.cpp:133-136 | The loop finds the first level with one node. |
| `PartialMerkleTrees.PartialMerkleTree.TraverseAndBuild` | src/merkleblock.cpp:77-94 | Appends the bits and hashes of a node. |
| `PartialMerkleTrees.PartialMerkleTree.TraverseAndExtract` | src/merkleblock.cpp:96-125 | The recursion with its counters and failure flag is the extraction on streams. |
| `PartialMerkleTrees.PartialMerkleTree.ExtractMatches` | src/merkleblock.cpp:144-176 | All refusals and the result are those of the model; a tree that was bad before has no root. |
| `PartialMerkleTrees.PartialMerkleTree.constructor` | src/merkleblock.cpp:127-140 | The object holds the built tree. |
| `PartialMerkleTrees.PartialMerkleTree.Receive` | src/merkleblock.h:90-98 | A received tree has the unpacked bits. |
| `BaseUint.Uint.AddAssign` | src/arith_uint256.h:137-147 | The sum, exact modulo two to the number of bits, for any number of limbs. |
| `BaseUint.Uint.Increment` | src/arith_uint256.h:175-182 | Plus one, exact modulo two to the number of bits. |
| `BaseUint.Uint.Negated` | src/arith_uint256.h:79-86 | The negation modulo two to the number of bits. |
| `BaseUint.Uint.SubAssign` | src/arith_uint256.h:149-153 | The difference, exact modulo two to the number of bits. |
| `BaseUint.Uint.MulSmall` | src/arith_uint256.cpp:64-73 | The product with one limb, exact modulo two to the number of bits. |
| `BaseUint.Uint.AddRow` | src/arith_uint256.cpp:79-86 | One row of the multiplication, up to multiples of the modulus; the 64-bit sums do not wrap. |
| `BaseUint.Uint.MulAssign` | src/arith_uint256.cpp:76-89 | The product, exact modulo two to the number of bits. |
| `BaseUint.NoOverflow` | src/arith_uint256.cpp:64-89 | The intermediate 64-bit sums fit, and their carry fits in a limb. |
| `BaseUint.Uint.CompareTo` | src/arith_uint256.cpp:118-127 | The sign of the result is the order of the values. |
| `BaseUint.Uint.Bits` | src/arith_uint256.cpp:215-227 | The position of the highest bit, between the two powers of two. |
| `Bits.BitsOfBoth` | src/arith_uint256.cpp:30-61 | Every bit of the recursive or and and of two numbers is the disjunction or conjunction of their bits. |
| `Bits.OrIsPlus` | src/arith_uint256.cpp:30-61 | A number below a power of two and a multiple of that power are combined by or as by addition. |
| `Bits.AndPower` | src/arith_uint256.cpp:277-286 | A mask with a single bit tests that bit. |
| `Bits.AndMask` | src/arith_uint256.cpp:277 | A mask of low ones keeps the remainder. |
| `BaseUint.LeftOrs` | src/arith_uint256.cpp:37-42 | The parts that meet in a limb when shifting left have no bits in common. |
| `BaseUint.RightOrs` | src/arith_uint256.cpp:54-59 | Nor do those that meet when shifting right. |
| `BaseUint.Uint.ShiftLeft` | src/arith_uint256.cpp:30-44 | With the node's shifts and bitwise ors in place: multiplication by a power of two modulo two to the number of bits, for every shift. |
| `BaseUint.Uint.ShiftRight` | src/arith_uint256.cpp:47-61 | With the node's shifts and bitwise ors in place: floor division by a power of two, for every shift. |
| `BaseUint.Uint.SetBit` | src/arith_uint256.cpp:108 | Setting a bit that is clear by a bitwise or adds its power of two. |
| `BaseUint.DivisionStep` | src/arith_uint256.cpp:105-112 | One step of long division keeps dividend = quotient times divisor plus remainder, with the remainder bounded. |
| `BaseUint.Uint.DivAssign` | src/arith_uint256.cpp:92-115 | The floor quotient, exactly; refused exactly for a zero divisor. |
| `Compact.OverflowExact` | src/arith_uint256.cpp:274-292 | The overflow flag is set exactly when the number is at least two to the 256. |
| `Compact.ExactIs` | src/arith_uint256.cpp:274-292 | A word stands for its mantissa times 256 to the power of its size less three, rounded down. |
| `Compact.NegativeExactly` | src/arith_uint256.cpp:285-286 | The sign flag is set exactly for a number other than zero whose sign bit is set. |
| `Compact.PackedSign` | src/arith_uint256.cpp:294-316 | A number packed as a negative one is read back as such, unless it is zero. |
| `Compact.KnownWords` | src/test/arith_uint256_tests.cpp:740-830 | Words whose value and flags are known. |
| `Compact.MantissaRange` | src/arith_uint256.cpp:304-311 | The assertion on the mantissa holds. |
| `Compact.Unpacked` | src/arith_uint256.cpp:312-314 | Taking a packed word apart gives back size, mantissa and sign. |
| `Compact.RoundedForm` | src/arith_uint256.cpp:274-315 | Packing and reading back cuts off low bytes and nothing else, without overflow or sign. |
| `Compact.RoundedIsLargest` | src/arith_uint256.cpp:274-315 | The result is the largest number any word can express that is not above the original. |
| `Compact.Repacked` | src/arith_uint256.cpp:294-315 | It packs to the same word again. |
| `Compact.RoundedMonotone` | src/arith_uint256.cpp:274-315 | This rounding is monotone and idempotent. |
| `CompactTargets.BytesOfBits` | src/arith_uint256.cpp:296 | The byte count computed from the bit count is the length of the number in bytes. |
| `CompactTargets.PackCompact` | src/arith_uint256.cpp:294-315 | GetCompact on limbs computes the packed word. |
| `CompactTargets.UnpackCompact` | src/arith_uint256.cpp:274-292 | With the node's masks and shifts: the number and both flags of a word, whose meaning ExactIs, NegativeExactly and OverflowExact state. |
| `BlockChain.InvertLowestOne` | src/chain.cpp:74-75 | Clearing the lowest one gives a smaller number. |
| `BlockChain.InvertIsAnd` | src/chain.cpp:74-75 | Clearing the lowest one is the bitwise and of a number with the number before it. |
| `BlockChain.GetSkipHeight` | src/chain.cpp:77-87 | The skip height is strictly below the height. |
| `BlockChain.SkipIs` | src/chain.cpp:78-86 | An even height loses its lowest one; an odd one keeps its last bit and loses the two lowest others. |
| `BlockChain.LowestOne` | src/chain.cpp:74-75 | What is cleared is the largest power of two that divides the number. |
| `BlockChain.BlockIndex.OnTop` | src/chain.cpp:116-120 | A new block with its skip pointer keeps the tree well formed. |
| `BlockChain.BlockIndex.GetAncestor` | src/chain.cpp:89-112 | The walk over skip pointers ends at the ancestor that plain steps reach, and answers null exactly outside the range. |
| `BlockChain.AtAt` | src/chain.cpp:89-112 | An ancestor's ancestor is an ancestor. |
| `BlockChain.LastCommonAncestor` | src/chain.cpp:337-353 | The two branches agree exactly up to the height of the answer; the assertion holds even for unrelated trees. |
| `BlockChain.Chain.SetTip` | src/chain.cpp:14-25 | Every entry is the new tip's ancestor at that height, although rewriting stops at the first entry that is right. |
| `BlockChain.Chain.FindFork` | src/chain.cpp:56-65 | The block's ancestors in the chain are exactly those up to the answer's height. |
| `BlockChain.Chain.GetLocator` | src/chain.cpp:27-54 | Starts at the block, or at the tip if none is given, goes down by one block at first and then by doubling steps, ends at height zero, and names only ancestors; empty exactly if there is nowhere to start. |
| `RollingBloom.FastMod` | src/bloom.cpp:271-273 | The result is the floor of the product divided by two to the 32, and in range. |
| `RollingBloom.NextEpoch` | src/bloom.cpp:277-282 | A new generation begins exactly when the current one is full. |
| `RollingBloom.WipeRight` | src/bloom.cpp:283-291 | Wiping the reused generation number forgets exactly what is three generations old. |
| `RollingBloom.InsertedCell` | src/bloom.cpp:275-304 | What every cell holds after one more insertion. |
| `RollingBloom.RecentContained` | src/bloom.cpp:312-324 | Every key of the current and the two previous generations is contained, whatever came after. |
| `RollingBloom.LastKeyMarked` | src/bloom.cpp:275-304 | The key inserted last has the mark of the current generation in all of its cells. |
| `RollingBloom.ContainsExactly` | src/bloom.cpp:312-324 | A key is contained if and only if each of its cells was last set by a key that is not yet forgotten. |
| `RollingBloom.LastKeysContained` | src/bloom.h:96-112 | In particular the last two generations' worth of keys. |
| `RollingBloom.LastNContained` | src/bloom.h:96-112 | A filter made for N keys contains the last N keys inserted. |
| `RollingBloomFilters.RollingBloomFilter.constructor` | src/bloom.cpp:235-262 | A new filter is empty; a generation holds half of the keys it is made for, rounded up, and there are enough cells for the bits asked for. |
| `RollingBloomFilters.RollingBloomFilter.Reset` | src/bloom.cpp:332-340 | Forgets everything and goes on with new hash functions. |
| `RollingBloomFilters.RollingBloomFilter.Wipe` | src/bloom.cpp:283-291 | The loop with its masks clears exactly the cells of one generation. |
| `RollingBloomFilters.RollingBloomFilter.SetCell` | src/bloom.cpp:301-302 | Writes the generation into exactly one cell. |
| `RollingBloomFilters.RollingBloomFilter.Insert` | src/bloom.cpp:275-304 | Keeps every cell what the history of insertions says. |
| `RollingBloomFilters.RollingBloomFilter.Contains` | src/bloom.cpp:312-324 | True for every key among the last ones that the filter is made for. |
| `KeyOrder.Total` | src/dbwrapper.h:540-548 | The byte order on keys is total. |
| `KeyOrder.LessIs` | src/dbwrapper.h:540-548 | A key is smaller if it ends where they part, or has the smaller byte there. |
| `KeyOrder.MergeSorted` | src/dbwrapper.h:441-528 | Merging two sorted runs without common keys gives a sorted run of all keys. |
| `DbTransactions.Transaction.Write` | src/dbwrapper.h:597-610 | The view changes at exactly one key; writes and deletes stay disjoint; the memory account stays exact. |
| `DbTransactions.Transaction.Erase` | src/dbwrapper.h:663-673 | The view loses exactly one key; the memory account stays exact. |
| `DbTransactions.Transaction.Read` | src/dbwrapper.h:619-636 | Answers from the parent overlaid with the edits. |
| `DbTransactions.Transaction.Exists` | src/dbwrapper.h:644-655 | True exactly for the keys of that view. |
| `DbTransactions.Transaction.Clear` | src/dbwrapper.h:675-680 | No edits are left. |
| `DbTransactions.Transaction.Commit` | src/dbwrapper.h:682-691 | The target becomes itself overlaid with the edits, which are then gone. |
| `DbTransactions.Transaction.GetMemoryUsage` | src/dbwrapper.h:698-710 | The exact sum of the held sizes, never negative. |
| `DbTransactions.TransactionIterator.SkipDeletedAndOverwritten` | src/dbwrapper.h:504-513 | Skips only hidden keys of the parent. |
| `DbTransactions.TransactionIterator.DecideCur` | src/dbwrapper.h:515-528 | The current side is the one with the smaller key. |
| `DbTransactions.TransactionIterator.SeekToFirst` | src/dbwrapper.h:414-420 | What is to come is sorted and consists of exactly the keys of the view. |
| `DbTransactions.TransactionIterator.Seek` | src/dbwrapper.h:428-434 | The same, from a key on. |
| `DbTransactions.TransactionIterator.GetKey` | src/dbwrapper.h:478-488 | The first key to come. |
| `DbTransactions.TransactionIterator.Next` | src/dbwrapper.h:441-455 | Moves on by exactly one key. |
| `DbTransactions.AllKeys` | src/dbwrapper.h:414-455 | A walk to the end visits exactly the keys of the view, in order, each once. |
| `Bech32Checksum.StepLinear` | src/bech32.cpp:66-88 | One step of the checksum is linear: adding inputs adds outputs. |
| `Bech32Field.StepCoeff` | src/bech32.cpp:76-86 | In the field with 32 elements, one step moves the coefficients up, puts the new value last, and adds the multiple of 29x^5 + 22x^4 + 20x^3 + 21x^2 + 29x + 18 for the one that falls out. |
| `Bech32Field.PolyModIsRemainder` | src/bech32.cpp:33-88 | The checksum is the remainder of the input's polynomial modulo x^6 + 29x^5 + 22x^4 + 20x^3 + 21x^2 + 29x + 18. |
| `Bech32Field.DivisionUnique` | src/bech32.cpp:33-88 | Quotient and remainder are determined. |
| `Bech32Field.AcceptedIsOne` | src/bech32.cpp:114-121 | A sequence of values is accepted exactly if that remainder is one. |
| `Bech32Field.FiveTimesTwentySix` | src/bech32.cpp:49-55 | An example of a product and of a sum in that field. |
| `Bech32Checksum.StepNonZero` | src/bech32.cpp:66-88 | A step maps no remainder but zero to zero. |
| `Bech32Checksum.RunLinear` | src/bech32.cpp:33-90 | The whole checksum is linear. |
| `Bech32Checksum.WindowDetected` | src/bech32.cpp:114-121 | Two inputs that differ only inside six consecutive symbols have different checksums, at any length. |
| `Bech32.BurstRefused` | src/bech32.cpp:158-188 | A text that was accepted is refused when up to six consecutive characters after the separator are replaced by others than the separator, unless only their case changes. |
| `Bech32Checksum.ChecksumAccepted` | src/bech32.cpp:124-135 | The created checksum is accepted, for every input. |
| `Bech32Checksum.ChecksumUnique` | src/bech32.cpp:114-135 | And it is the only one of six symbols that is. |
| `Bech32.SymbolFacts` | src/bech32.cpp:17-30 | Every value has its own printable character, not a capital and not the separator. |
| `Bech32.ReverseFacts` | src/bech32.cpp:20-30 | Every accepted character, lower-cased, is the character of its value. |
| `Bech32.CharsetLow` | src/bech32.cpp:16 | The characters of the values 0 to 15. |
| `Bech32.CharsetMiddle` | src/bech32.cpp:16 | The characters of the values 16 to 23. |
| `Bech32.CharsetHigh` | src/bech32.cpp:16 | The characters of the values 24 to 31. |
| `Bech32.KnownText` | src/test/bech32_tests.cpp:27-46 | The text of an empty message with prefix a is a12uel5l, and it is accepted. |
| `Bech32.DecodeEncoded` | src/bech32.cpp:143-188 | Decoding gives back prefix and values, for every good prefix and all values up to the length limit. |
| `Bech32.EncodeDecoded` | src/bech32.cpp:143-188 | Encoding what was decoded gives back the text in lower case. |
| `Bech32.ComputePolyMod` | src/bech32.cpp:33-90 | The loop computes the checksum. |
| `Bech32.ExpandHRP` | src/bech32.cpp:99-111 | The loop expands the prefix. |
| `Bech32.MakeChecksum` | src/bech32.cpp:124-135 | The loop splits the remainder into six symbols. |
| `Bech32.Encode` | src/bech32.cpp:143-155 | The encoded text, or the empty one exactly when a value has more than five bits. |
| `Bech32.Decode` | src/bech32.cpp:158-188 | All refusals and the result are those of the model. |
| `Base58.EncodeFits` | src/base58.cpp:83-84 | The encoder's buffer holds every number of that many bytes, for every length. |
| `Base58.DecodeFits` | src/base58.cpp:37-38 | The decoder's buffer holds every number of that many characters, for every length. |
| `Base58.MulAdd` | src/base58.cpp:48-57 | In place, the number becomes mul times itself plus add, and the carry left over is zero. |
| `Base58.EncodeBase58` | src/base58.cpp:73-111 | The encoded text. |
| `Base58.DecodeBase58` | src/base58.cpp:23-71 | All refusals and the result are those of the model. |
| `Base58.AlphabetIs` | src/base58.cpp:21 | The characters are the digits and letters without 0, I, O and l. |
| `Base58.SymbolsIncrease` | src/base58.cpp:21 | They are in the order of their codes. |
| `Base58.SpacesIgnored` | src/base58.cpp:23-71 | Spaces before and after a text make no difference. |
| `Base58.DecodeEncoded` | src/base58.cpp:23-111 | Decoding gives back the bytes that were encoded if the limit allows their length or there are none, and is refused otherwise. |
| `Base58.EncodeDecoded` | src/base58.cpp:23-111 | Encoding what was decoded gives back every accepted text without spaces. |

## Left out

- Address manager: the random walk of Select_ and GetChance, the decoding of asmap files, and the logging.
- Address manager files: byte formats, negative counts in a file, what is left in memory when loading fails half way (callers discard it), and formats older than the current one except for their effect on bucketing; nIdCount does not wrap.
- Coin caches: the accounting of memory use, AddCoins and the other functions built on the cache, crash recovery with head blocks and partial batches of the database.
- Check queue: how condition variables work inside; a notification is modelled as waking one sleeping thread or all of them, and any thread may also wake up without one.
- BlockAssembly.BlockAssembler.AddPackageTxs: runs any given number of turns, because the loop need not end; the score order is replaced by an arbitrary choice, which covers every order; records are integers, so it does not model the wrap-around of the unsigned totals that can follow when one has become too small.
- BlockAssembly.BlockAssembler.Try: fees only decide when the selection ends; the remark that everything later pays less is not modelled.
- CuckooCache.Cache.constructor: takes the depth as given; the computation of a base-two logarithm in floating point is not modelled.
- Cuckoo cache: concurrent lookups that erase.
- PartialMerkle.AcceptedIsSound: assumes that the sender states the right number of transactions and that the combining hash has no collisions.
- Partial Merkle trees: CMerkleBlock and the matching against a bloom filter.
- Big integers: bitwise operators, decrement, hexadecimal text and conversion to double.
- Block tree: FindEarliestAtLeast and the proof-of-stake variant of Tip; the number of steps of a skip walk.
- Rolling bloom filter: the choice of the number of bits and hash functions from a rate, in floating point; the plain bloom filter.
- Database transactions: reading a value back with another type than it was written with; LevelDB itself, which is a map here.
- Bech32: conversion between groups of bits of other sizes.
- Base58: the checksummed variants, and the refusal of text with embedded zero characters by the string overload.
- Integer overflow of lengths and counters beyond what fits in memory.
