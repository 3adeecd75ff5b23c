# A verified model of a Komodo node's core data structures

This project models the parts of a Komodo (Zcash, Bitcoin) node that are algorithms in their own
right, and proves what they promise: the address manager and its file format, the layered coins
cache with its anchors and the serialized form of coins, the parallel check queue, 256-bit arithmetic with the chain
order built on it, the block index with its skip list, the Bech32, Base58 and JSON codecs, and the
rolling Bloom filter.

Where the program edits an object in place, the model has a class with the same fields whose methods
are proved equal to functions on values; the laws are then proved about those functions, for every
input and over every run.

| files | what they model |
|---|---|
| AddrTables, AddrInvariant, AddrRuns, AddrLaws, AddrMan | the stochastic address manager: the six cross-linked tables, the invariant, all runs, what each event does in plain numbers, the object |
| AddrStore, AddrStoreLaws, AddrFiles, AddrDisk | the address manager's file: writing, reading, that nothing is lost, and files of other versions |
| AddrCheck, AddrFaults | the debug checker: what exactly it accepts, what it overlooks, what its answers say |
| CoinsLayers, CoinsInvariant, CoinsRuns, CoinsLaws, CoinsView | stacked write-back caches of coins and nullifiers over a database |
| AnchorLayers, AnchorRuns, AnchorsView | the anchors of a shielded pool in the same stacked caches |
| CheckQueue, CheckQueueWork | the queue of verifications shared by a master and workers, as a state machine |
| Limbs, LimbShifts, BaseUint | 256-bit numbers as arrays of 32-bit limbs |
| Compact, ChainPower | the compact number format; the order on chains by work and stake |
| BlockChain, SkipSteps | skip pointers, the active chain, fork search, locators; how many steps the skip list takes |
| Bech32, Bech32Laws, Bech32Errors, Base58 | address encodings; which errors the Bech32 checksum detects |
| Streams, Compressor, ScriptForms, CoinsCodec | variable-length integers, compact amounts and scripts, serialized coins |
| Bloom, BloomLaws | Bloom filters and the rolling pair |
| Json, JsonLaws, JsonBuffers | JSON text: grammar, round trip and what escapes stand for; the printer and parser on their buffers |
| KnownAnswers | answers worked out in the program's own tests and comments, byte for byte |
| Common | shared types |

Hashes, random draws, clocks, address classification and public-key arithmetic are parameters: a
result holds for all of them. `keys.Sound()` is the one assumption about public keys: expanding a
compressed key gives 65 bytes, and gives back every valid uncompressed key from its first half and its
parity.

## Where the code is not what it seems

These are facts about the code that the proofs brought out. The model follows the code.

- `CAddrMan::Good_` and `Attempt_` keep the debug invariant exactly for positive, respectively non-negative,
  times (`GoodConsistent`, `AttemptConsistent`).
- `CAddrMan::Add_` answers true for every new address, also when the address is not stored;
  `AddStores` says exactly when it is. `Clear` leaves `mapInfo` and `mapAddr` filled, so reading a file is
  modelled for an unused manager.
- `Check_` accepts exactly the states in `Checked`; ids out of range and addresses indexed without an entry
  are overlooked, and a missing index entry for id 0 is silently made (`CheckedAndOverlooked`, `Check`).
- `CCoinsViewCache::Flush` writes a null best block over the one below if the child never had one
  (`FlushBestBlock` says exactly when the best block is kept), and likewise a null best anchor (`FlushBestAnchor`).
- `BatchWriteAnchors` turns the `entered` flag of an anchor the parent knows without copying the tree, so the tree
  shown is the right one only as far as roots have one tree (`FlushKeepsTrees`). An anchor entered a second time is
  gone after one `PopAnchor` (`PopUndoesPush` says exactly when going back undoes an entry), and the empty tree taken
  out of view comes back with a flush to the database (`FlushKeepsAnchors`).
- `base_uint::operator*=` gives zero when a number is multiplied by itself in place (`Number.Mul`). The binary
  operator copies first and is not affected.
- The chain order by work and stake is not transitive, and equality is not either (`NotTransitive`);
  `LessExactly` and `TransitiveUnless` say exactly when. It still has no cycles (`NoCycles`). From 2^240 on
  the scaling drops bits (`ScalingKeeps`).
- Serialized coins come back exactly if version and height are not negative and every amount and script has a
  compact form (`CoinsRoundTrip`). An amount whose compact form is cut to 64 bits never comes back
  (`AmountRoundTrip`, `LargeAmountLost`); scripts over 10000 bytes become one invalid opcode (`ScriptRoundTrip`).
- An escape in a JSON string with a digit that is not hexadecimal is not refused but read as a zero byte, where the
  string ends (`BadDigits`).
- The comment on variable-length integers gives wrong bytes for 16511 and 65535 (src/serialize.h:353-354); the code
  writes FF 7F and 82 FE 7F (`Integers`).
- A rolling Bloom filter asked to remember more than 2^31 keys (and fewer than 2^32) remembers fewer, because
  twice the number overflows (the constructor's contract). For exactly 2^31 keys the doubled number overflows to zero,
  and for no keys it is zero: the program then divides by zero, so the constructor's precondition excludes these two.

## Model

| member | source | states |
|---|---|---|
| AddrMan.AddrMan.constructor | src/addrman.h:452-475 | a new manager is empty and keeps the full invariant |
| AddrMan.AddrMan.Create | src/addrman.cpp:102-112 | the new entry is last in the random order and indexed under its address; nothing else changes |
| AddrMan.AddrMan.SwapRandom | src/addrman.cpp:114-132 | two places of the random order are exchanged together with the entries' back pointers |
| AddrMan.AddrMan.Delete | src/addrman.cpp:134-146 | the entry leaves all three indexes and the count of new entries drops by one |
| AddrMan.AddrMan.ClearNew | src/addrman.cpp:148-161 | a new slot is emptied; its occupant disappears exactly if that was its last slot |
| AddrMan.AddrMan.MakeTried | src/addrman.cpp:163-209 | the entry leaves all new buckets and takes its tried slot, whose occupant goes back to its home slot in the new table; no assertion fires |
| AddrMan.AddrMan.FindBucket | src/addrman.cpp:237-252 | the search around the ring of buckets succeeds exactly if the entry has a new slot |
| AddrMan.AddrMan.Good | src/addrman.cpp:211-258 | the effect of a reported success; keeps the invariant for positive times, and the case that no bucket is found does not occur |
| AddrMan.AddrMan.Register | src/addrman.cpp:269-302 | a known entry is refreshed or a new one made, and the cases in which hearing of an address stops early |
| AddrMan.AddrMan.GiveSlot | src/addrman.cpp:304-324 | the entry takes the slot its source points at if it may, else it is dropped if it has no other |
| AddrMan.AddrMan.Add | src/addrman.cpp:260-326 | the effect and the answer of hearing of an address; keeps the invariant |
| AddrMan.AddrMan.Attempt | src/addrman.cpp:328-345 | the effect of a connection attempt; keeps the invariant for times not negative |
| AddrMan.AddrMan.Connected | src/addrman.cpp:510-528 | the effect of being connected; keeps the invariant |
| AddrMan.AddrMan.GetAddr | src/addrman.cpp:489-508 | a sample without repetition and without terrible entries, of at most 23 percent and 2500, each with the entry's address, services and time; if it is shorter it has every entry that is not terrible |
| AddrInvariant.DeleteLoose | src/addrman.cpp:134-146 | deleting an entry without slots keeps permutation, slots and counts of all others |
| AddrInvariant.ClearNewLoose | src/addrman.cpp:148-161 | emptying a new slot is always possible and keeps the invariant between the steps |
| AddrInvariant.EvictLoose | src/addrman.cpp:181-203 | sending a tried occupant home keeps the invariant, loses no one but the occupant of its home slot, and leaves it one new slot |
| AddrInvariant.MakeTriedLoose | src/addrman.cpp:163-209 | promotion keeps the invariant and every entry but the ones displaced |
| AddrInvariant.NewEntryHasSlot | src/addrman.cpp:237-252 | every new entry of a consistent manager is in some new bucket, so the bail-out cannot be reached |
| AddrInvariant.GoodConsistent | src/addrman.cpp:211-258 | reporting success keeps the full invariant if and only if the address is unknown or the time is positive |
| AddrInvariant.AddConsistent | src/addrman.cpp:260-326 | hearing of any address with any penalty, time and random draw keeps the full invariant |
| AddrInvariant.AttemptConsistent | src/addrman.cpp:328-345 | an attempt keeps the full invariant if and only if the address is unknown or the time is not negative |
| AddrInvariant.ConnectedConsistent | src/addrman.cpp:510-528 | being connected keeps the full invariant |
| AddrInvariant.SwapConsistent | src/addrman.cpp:114-132 | shuffling keeps the full invariant |
| AddrRuns.Run | src/addrman.cpp:412-486 | every run of operations from an empty manager ends in a state with the full invariant |
| AddrRuns.RunCounts | src/addrman.cpp:417-449 | after every run the random order, both indexes and the two counters have matching sizes, and every new entry has between one and eight slots, as many as its reference count |
| AddrRuns.GoodLoses | src/addrman.cpp:163-258 | an address is lost by a reported success if and only if its only new slot is the home slot of the entry evicted from tried |
| AddrRuns.AddStores | src/addrman.cpp:297-326 | a new address is known afterwards if and only if its slot is free or its occupant gives way |
| AddrRuns.AddLoses | src/addrman.cpp:260-326 | an address is lost by hearing of another if and only if that gets as far as taking a slot, and the slot is the only one of the address, whose entry is terrible |
| AddrLaws.TerribleExactly | src/addrman.cpp:51-72 | which entries are worth keeping, in seconds and attempts |
| AddrLaws.SlotsHashed | src/addrman.cpp:28-49 | which hashes pick the tried slot, the new bucket and the new slot |
| AddrLaws.TriedSpread | src/addrman.cpp:28-33 | all services of one network group share eight tried buckets |
| AddrLaws.NewSpread | src/addrman.cpp:35-42 | all sources of one network group point at 64 new buckets |
| AddrLaws.RunBounded | src/addrman.h:148-156 | after every run at most 16384 tried and 65536 new entries, every slot within 256 or 1024 buckets of 64 |
| AddrLaws.EventFacts | src/addrman.cpp:211-345 | the whole effect of every event on the times, services and attempts of every entry; new entries are fresh |
| AddrLaws.AttemptsCounted | src/addrman.cpp:211-345 | over every run the attempt counter of an entry counts the attempts since its last success |
| AddrLaws.HeardAgain | src/addrman.cpp:269-324 | a known address gets the slot its announcer points at if and only if it is not tried, newer, has n < 8 slots, 2^n divides the draw, and the slot is free or its occupant terrible; no other slot changes |
| AddrLaws.OneDraw | src/addrman.cpp:291-296 | of the draws for an entry exactly one goes on |
| AddrLaws.HeardFirst | src/addrman.cpp:297-326 | a new address takes the slot its source points at if that is free, or its occupant terrible or listed elsewhere; no other slot changes |
| AddrLaws.SuccessMoves | src/addrman.cpp:163-258 | a success moves the entry from all new slots to its tried slot and the one there to the slot its own source points at; no other slot changes |
| AddrStore.PickedExactly | src/addrman.h:312-329 | the entries written as new or tried are exactly those with slots in that table, each once |
| AddrStore.EverythingPicked | src/addrman.h:312-329 | in a consistent manager every entry is written once, and the counts written are right, so neither assertion fires |
| AddrStore.BucketRead | src/addrman.h:417-432 | reading the indices of a bucket fills exactly the slots that were filled, and all of them |
| AddrStore.StoreRoundTrip | src/addrman.h:296-450 | reading what was written into a fresh manager consumes exactly it and gives the same manager up to ids, random order and last tries, again consistent; nothing is lost or pruned |
| AddrStore.RenumberedConsistent | src/addrman.h:434-449 | the manager read back keeps the full invariant |
| AddrDisk.Serialize | src/addrman.h:296-344 | the stream written, entries in ascending order of ids, and that it restores the manager whatever follows it |
| AddrDisk.Clear | src/addrman.h:452-470 | tables, random order and counters are emptied; the entries and the address index are not |
| AddrDisk.ReadTriedEntries | src/addrman.h:395-414 | tried entries are entered into their own slots, collisions are lost and taken off the count |
| AddrDisk.TakeHeader | src/addrman.h:346-372 | the six fields of the header, or a failure |
| AddrDisk.Unserialize | src/addrman.h:346-450 | for any stream: fails exactly where the program throws, else builds the tables read; the random order is a permutation whatever was read |
| AddrStoreLaws.Header | src/addrman.h:296-312 | the six fields at the head of a file |
| AddrStoreLaws.FlippedBack | src/addrman.h:308-364 | the bucket count is written with one bit of 32 flipped, and flipping it again gives it back |
| AddrStoreLaws.KeptOfEntry | src/addrman.h:66-82 | what of an entry comes back from a file, and that the last try does not |
| AddrStoreLaws.OlderFile | src/addrman.h:363-444 | from a file of another version or bucket count the first entry at each slot its sources point at is kept there, and no other |
| AddrFiles.AnyFile | src/addrman.h:346-444 | after reading any file at all every slot belongs to its occupant's hash, reference counts are exact, no entry is without a slot; exactly when the counters and the address index are right |
| AddrFiles.AnyFileConsistent | src/addrman.h:346-444 | a file gives a consistent manager if and only if its tried count is not negative, no entry read has the address of another one kept, and the times of success fit |
| AddrCheck.CheckedAndOverlooked | src/addrman.cpp:412-486 | the invariant holds if and only if the checker accepts and nothing it overlooks is wrong |
| AddrCheck.PermutationFollows | src/addrman.cpp:417-439 | from the sizes and each entry's place alone it follows that the random order is a permutation |
| AddrCheck.ScansDone | src/addrman.cpp:451-481 | nothing is left over after both table scans if and only if every entry is where it belongs with the right count |
| AddrCheck.Check | src/addrman.cpp:412-486 | the checker returns zero exactly for the states it accepts, in particular for every consistent manager with a key; every other answer names the fault found |
| AddrFaults.EntryFaults | src/addrman.cpp:420-436 | what each answer about an entry's success and reference count says |
| AddrFaults.PlaceFaults | src/addrman.cpp:437-444 | what each answer about an entry's address, place and times says |
| AddrFaults.SlotFaults | src/addrman.cpp:452-478 | what each answer about a slot says |
| AddrFaults.CountFaults | src/addrman.cpp:417-450 | what each answer about the counters and the key says |
| AddrFaults.LeftFaults | src/addrman.cpp:480-484 | what each answer about entries left over says |
| AddrFaults.BlamedIsBroken | src/addrman.cpp:412-486 | what the checker finds fault with is not consistent, but for the null key, and is never also accepted |
| CheckQueue.BatchSize | src/checkqueue.h:120-132 | a thread takes at least one check and at most all |
| CheckQueue.BatchIsFair | src/checkqueue.h:119-124 | a batch is as large as the batch size and a fair share among all threads allow, but one check at least |
| CheckQueue.NextInv | src/checkqueue.h:84-142 | every critical section of every thread keeps the invariant |
| CheckQueue.RunInv | src/checkqueue.h:84-173 | the invariant holds after every interleaving, and the history counts what was added and run since the last verdict |
| CheckQueue.VerdictIsRight | src/checkqueue.h:106-115 | a verdict is true exactly if all checks pass, true only if each ran exactly once, and leaves the queue idle |
| CheckQueue.RanAtMostOnce | src/checkqueue.h:136-140 | no check is run more often than it was added |
| CheckQueue.WaitIsCorrect | src/checkqueue.h:84-173 | in every interleaving of a master and any number of workers, with spurious wake-ups, `Wait` returns true exactly if every check added since the last `Wait` passes |
| CheckQueue.CountersAreExact | src/checkqueue.h:84-142 | whenever the mutex is free the three counters are exact; a master asleep without notification has a worker at work |
| CheckQueue.IdleBetweenBatches | src/checkqueue.h:179-183 | with nothing added since the last verdict the queue is idle, so the controller's assertion holds |
| CheckQueue.WaitCanReturn | src/checkqueue.h:84-142 | no deadlock: from every state with the master in `Wait` some schedule of threads working off their batches makes it return, without a spurious wake-up |
| CheckQueueWork.AddNotifies | src/checkqueue.h:158-171 | adding one check notifies one worker, adding more notifies all, and nobody else |
| CheckQueueWork.FinishNotifies | src/checkqueue.h:94-101 | a worker that finishes the last check notifies the master, and no other end of a batch notifies anyone |
| CheckQueueWork.AddedIsWorkedOff | src/checkqueue.h:84-171 | a sleeping worker that Add notifies can work the whole queue off alone, without the master |
| CoinsInvariant.FetchOk | src/coins.cpp:118-134 | pulling coins through the layers keeps the invariant and everything visible |
| CoinsInvariant.FetchNullifierOk | src/coins.cpp:183-206 | asking for a nullifier keeps the invariant and everything visible |
| CoinsInvariant.OpenOk | src/coins.cpp:359-378 | opening a session hands out the visible coins and keeps the invariant |
| CoinsInvariant.CloseOk | src/coins.cpp:723-735 | closing it makes exactly the coins left visible and changes nothing else |
| CoinsInvariant.CleanupPruned | src/coins.h:137-143 | cleaning up drops exactly the spent outputs at the end, and coins are pruned if and only if nothing is left |
| CoinsInvariant.SetNullifierOk | src/coins.cpp:335-348 | marking a nullifier changes that nullifier only |
| CoinsInvariant.MergeOk | src/coins.cpp:499-532 | writing one child entry into the parent keeps the parent's flags right and shows what the child showed; an entry unknown to the parent and not pruned is FRESH, so the assertion holds |
| CoinsInvariant.FlushOk | src/coins.cpp:490-555 | a flush keeps the invariant and everything visible, now also in the layer below |
| CoinsInvariant.FlushBestBlock | src/coins.cpp:540-555 | exactly when a flush keeps the best block |
| CoinsInvariant.FetchBestOk | src/coins.cpp:398-412 | reading the best block makes every layer asked remember it and keeps the invariant |
| CoinsInvariant.FlushAfterBestBlockRead | src/coins.cpp:546-555 | once the best block has been read, a flush keeps it |
| CoinsLaws.MergedExactly | src/coins.cpp:499-532 | entry by entry, what a parent holds after a child has been written into it, with both flags |
| CoinsLaws.MergedMarksExactly | src/coins.cpp:436-455 | nullifier by nullifier, the same |
| CoinsLaws.WrittenExactly | src/txdb.cpp:176-210 | what the database holds after a layer has been written to it |
| CoinsLaws.OpenedExactly | src/coins.cpp:359-378 | the entry handed out for modification and its flags |
| CoinsLaws.ClosedExactly | src/coins.cpp:718-735 | what is left of the entry and of the memory counted after a modification |
| CoinsLaws.FetchedExactly | src/coins.cpp:118-134 | what a lookup enters in the cache asked, its flags and its memory, and that nothing else changes |
| CoinsLaws.FetchedMarkExactly | src/coins.cpp:183-206 | the answer about a nullifier is remembered as no change |
| CoinsRuns.StepRefines | src/coins.cpp:118-555 | every operation on the caches is the operation on plain maps, layer by layer |
| CoinsRuns.RunRefines | src/coins.cpp:118-555 | every run on the caches is the run on plain maps, layer by layer |
| CoinsRuns.CachesRefinePlainMaps | src/coins.cpp:504-518 | for every run from any database the top of the stack shows exactly the plain map, and the memory counter is exact between sessions |
| CoinsView.CoinsViewDB.BatchWrite | src/txdb.cpp:176-215 | dirty coins are stored, or erased when pruned; dirty nullifiers likewise; the best block if not null |
| CoinsView.CoinsViewCache.FetchCoins | src/coins.cpp:118-134 | the layers after a lookup, and its answer |
| CoinsView.CoinsViewCache.GetCoins | src/coins.cpp:350-357 | the visible coins |
| CoinsView.CoinsViewCache.GetNullifier | src/coins.cpp:183-206 | the visible answer, remembered in every layer asked |
| CoinsView.CoinsViewCache.SetNullifiers | src/coins.cpp:335-348 | exactly the nullifiers of the transaction are marked |
| CoinsView.CoinsViewCache.ModifyCoins | src/coins.cpp:359-378 | the coins handed out and the layer with its session |
| CoinsView.CoinsViewCache.EndModify | src/coins.cpp:723-735 | the layer after the session, and the memory counted |
| CoinsView.CoinsViewCache.BatchWrite | src/coins.cpp:490-544 | the layer is the merge of its own entries with the child's, and its memory is counted |
| CoinsView.CoinsViewCache.Flush | src/coins.cpp:546-555 | the stack after a flush; the same coins and nullifiers visible before and after, above and below |
| AnchorLayers.FetchOk | src/coins.cpp:137-181 | looking up an anchor changes no answer of any layer |
| AnchorLayers.PushAnchorOk | src/coins.cpp:208-239 | the tree becomes an anchor and the best one, unless it is that already; all others stay |
| AnchorLayers.PopAnchorOk | src/coins.cpp:280-310 | the best anchor is taken out of view and the root given is the best; all others stay |
| AnchorLayers.PopUndoesPush | src/coins.cpp:208-310 | going back undoes an entry if and only if the tree was the best anchor or no anchor before |
| AnchorLayers.MergeOk | src/coins.cpp:457-488 | one entry written into the parent: its tree is still that of its root, and it shows what the child showed |
| AnchorLayers.FlushOk | src/coins.cpp:457-555 | a flush keeps in every layer each entry's tree that of its root, and shows every anchor from the layer below |
| AnchorLayers.FlushKeepsAnchors | src/txdb.cpp:157-174 | a flush keeps exactly the same anchors if and only if it does not go to the database or the empty tree was in view |
| AnchorLayers.FlushKeepsTrees | src/coins.cpp:457-488 | the same for the trees, where roots have one tree |
| AnchorLayers.FlushBestAnchor | src/coins.cpp:414-555 | exactly when a flush keeps the best anchor |
| AnchorLayers.FetchedExactly | src/coins.cpp:137-158 | what a lookup of an anchor enters in the cache asked |
| AnchorLayers.MergedExactly | src/coins.cpp:457-488 | entry by entry, what a parent holds after a child has been written into it |
| AnchorRuns.StepRefines | src/coins.cpp:137-555 | every operation does to the anchors of every layer what it would do to plain sets of roots |
| AnchorRuns.AnchorsArePlainSets | src/coins.cpp:137-555 | after every run a view shows exactly the anchors and the best one that plain sets would hold, each with a tree of that root |
| AnchorRuns.PopNeverFails | src/coins.cpp:261-310 | as long as going back leads to anchors only, the assertion that the best anchor is found holds |
| AnchorsView.AnchorDB.GetAnchorAt | src/txdb.cpp:68-77 | the tree stored, and always the empty one |
| AnchorsView.AnchorDB.BatchWrite | src/txdb.cpp:157-213 | changed anchors are stored or erased, the empty tree never stored, and a best anchor written unless null |
| AnchorsView.AnchorCache.GetAnchorAt | src/coins.cpp:137-158 | the tree of an anchor, remembered in every layer asked |
| AnchorsView.AnchorCache.GetBestAnchor | src/coins.cpp:414-430 | the best anchor, remembered in every layer asked |
| AnchorsView.AnchorCache.EnterAnchor | src/coins.cpp:208-239 | the object does what `PushAnchor` says |
| AnchorsView.AnchorCache.LeaveAnchor | src/coins.cpp:280-310 | the object does what `PopAnchor` says |
| AnchorsView.AnchorCache.BatchWrite | src/coins.cpp:457-488 | the loop over the child's entries merges all of them |
| AnchorsView.AnchorCache.Flush | src/coins.cpp:546-555 | the changes go to the layer below or the database and the cache is emptied |
| BaseUint.Number.Add | src/arith_uint256.h:150-160 | addition modulo 2^256 |
| BaseUint.Number.Complement | src/arith_uint256.h:84-90 | bitwise complement is 2^256 - 1 less the value |
| BaseUint.Number.Increment | src/arith_uint256.h:188-195 | increment modulo 2^256 |
| BaseUint.Number.Sub | src/arith_uint256.h:92-99 | subtraction modulo 2^256, as addition of the negated number |
| BaseUint.Number.CompareTo | src/arith_uint256.cpp:125-139 | the order of the limbs is the order of the numbers |
| BaseUint.Number.Bits | src/arith_uint256.cpp:192-204 | the number of bits, exactly |
| BaseUint.Number.ShiftLeft | src/arith_uint256.cpp:37-51 | multiplication by a power of two modulo 2^256, for any shift |
| BaseUint.Number.ShiftRight | src/arith_uint256.cpp:54-68 | floor division by a power of two, for any shift |
| BaseUint.ProductFits | src/arith_uint256.cpp:75-93 | a product of two limbs with a carry and an old limb never overflows the 64-bit accumulator |
| BaseUint.Number.MulSmall | src/arith_uint256.cpp:71-80 | multiplication by 32 bits modulo 2^256 |
| BaseUint.Number.Mul | src/arith_uint256.cpp:83-96 | multiplication modulo 2^256; zero for the number itself as operand |
| BaseUint.Number.Div | src/arith_uint256.cpp:99-122 | the exact floor quotient for every nonzero divisor, in a terminating loop; an error for zero |
| BaseUint.Number.GetLow64 | src/arith_uint256.h:260-264 | the value modulo 2^64 |
| LimbShifts.ShiftLeftValue | src/arith_uint256.cpp:37-51 | limbs combined from two neighbours make up the number shifted left |
| LimbShifts.ShiftRightValue | src/arith_uint256.cpp:54-68 | limbs combined from two neighbours make up the number shifted right |
| Compact.RoundTrip | src/arith_uint256.cpp:224-265 | reading a written number loses less than one part in 2^15 and never grows it |
| Compact.SecondRoundTrip | src/arith_uint256.cpp:224-265 | a number that came from a compact form survives unchanged |
| Compact.OverflowIsExact | src/arith_uint256.cpp:237-240 | the overflow test is exact for every size and mantissa |
| Compact.SetCompact | src/arith_uint256.cpp:224-242 | value, sign and overflow of any 32-bit word |
| Compact.GetCompact | src/arith_uint256.cpp:244-265 | the size, mantissa and sign written for any number |
| KnownAnswers.Read256 | src/test/arith_uint256_tests.cpp:412-540 | numbers read from compact words |
| KnownAnswers.Written256 | src/test/arith_uint256_tests.cpp:412-540 | compact words of numbers |
| ChainPower.Trichotomy | src/chain.cpp:93-124 | exactly one of less, equal and greater holds, and less-or-equal agrees |
| ChainPower.LessProduct | src/chain.cpp:104-113 | below 2^240 a smaller chain has the smaller product of work and stake |
| ChainPower.LessGrows | src/chain.cpp:104-113 | a rank that every step up the order raises, zeroes included |
| ChainPower.NoCycles | src/chain.cpp:104-113 | no sequence of ever greater chains leads back |
| ChainPower.EqualStakes | src/chain.cpp:93-113 | with equal stakes the order is the order on work |
| ChainPower.NotTransitive | src/chain.cpp:93-124 | examples of chains for which neither equality nor less is transitive |
| ChainPower.LessExactly | src/chain.cpp:93-113 | less and equal below 2^240 in terms of which chain has more of what and of two shares |
| ChainPower.TransitiveUnless | src/chain.cpp:93-124 | two steps up never lead down, and lead strictly up unless the outer chains are equal in shares |
| ChainPower.ScalingDropsBits | src/chain.cpp:93-102 | an example of a chain with work 2^240 that compares equal to one with work 1 |
| ChainPower.ScalingKeeps | src/chain.cpp:93-102 | a share is that of the lowest 240 bits, and the scaling is exact if and only if there are no others |
| ChainPower.ScalableBelow | src/chain.cpp:93-102 | nothing is dropped if and only if work and stake are below 2^240 |
| ChainPower.Compare | src/chain.cpp:93-124 | the comparisons computed on limbs are the relations on numbers |
| BlockChain.SkipHeight | src/chain.cpp:133-141 | the skip pointer goes strictly down |
| BlockChain.BlockIndex.GetAncestor | src/chain.cpp:143-168 | the skip list finds exactly the block that walking parent by parent finds, for every height, and nothing for heights outside; with all skip pointers set it takes `Jumps` steps |
| BlockChain.BlockIndex.BuildSkip | src/chain.cpp:175-179 | the tree stays well formed, and with all skip pointers below set this one is set too |
| BlockChain.WalkIsPath | src/chain.cpp:143-168 | walking the parents is indexing the path from genesis |
| BlockChain.EarlyStop | src/chain.cpp:28-38 | below the first agreeing entry everything already agrees |
| BlockChain.Chain.SetTip | src/chain.cpp:28-38 | the chain is the whole path to the tip although the loop stops early, and the block is the tip |
| BlockChain.Chain.FindFork | src/chain.cpp:69-77 | the highest block common to both, or null if there is none |
| BlockChain.Chain.GetLocator | src/chain.cpp:41-67 | exactly the scheduled ancestors from the start block, or the last block of the chain, to genesis, strictly lower each time, at most 12 plus the logarithm of the height |
| BlockChain.LocatorGaps | src/chain.cpp:41-67 | from entry to entry one block eleven times, then 2, 4, 8 and so on, or down to genesis |
| BlockChain.LocatorFacts | src/chain.cpp:41-67 | a locator starts at the block given, ends with genesis, lists only blocks of that block's path, and at most 12 and the logarithm of its height |
| BlockChain.Log2Exactly | src/chain.cpp:41-67 | the logarithm in the bound is that of base two, rounded down |
| BlockChain.Chain.Tip | src/chain.h:596-598 | the last block, or null |
| SkipSteps.LookupBound | src/chain.cpp:130-168 | from any height up to 2^k the skip list takes at most k*k + 1 steps to any height below |
| SkipSteps.ComeDown | src/chain.cpp:133-168 | down to a boundary it takes at most two steps for each bit set above it |
| SkipSteps.Diverted | src/chain.cpp:151-158 | a skip pointer is passed over only for one of the predecessor that is at least as good |
| SkipSteps.LowestCleared | src/chain.cpp:130-141 | from 2^j (2a + 1) an even height skips back to 2^j 2a |
| SkipSteps.OddSkipsTwo | src/chain.cpp:133-141 | an odd height loses its two lowest bits above the last |
| Bech32.StepLinear | src/bech32.cpp:80-92 | the checksum step is linear over exclusive or |
| Bech32.StepInjective | src/bech32.cpp:80-92 | the checksum step loses nothing: only a zero state is taken to zero |
| Bech32.PolyLinear | src/bech32.cpp:37-94 | remainders of sequences of equal length add up under exclusive or |
| Bech32.BurstDetected | src/bech32.cpp:37-125 | of two value sequences of any length under one prefix that differ only within six consecutive places at most one verifies |
| Bech32.ChecksumVerifies | src/bech32.cpp:118-139 | a created checksum always verifies |
| Bech32.RoundTrip | src/bech32.cpp:147-192 | decoding an encoding gives back prefix and values if and only if the format can carry them |
| Bech32.SpellingIsUnique | src/bech32.cpp:147-192 | encoding what was decoded gives back the text in lower case |
| Bech32.CharsetInverse | src/bech32.cpp:13-25 | the two tables are inverse and avoid the separator and upper case |
| Bech32.PolyModLoop | src/bech32.cpp:37-94 | the loop computes the remainder |
| Bech32.ExpandHRP | src/bech32.cpp:103-115 | three high bits of every character, a zero, and five low bits, each pair giving back the character |
| Bech32.CreateChecksum | src/bech32.cpp:128-139 | six values below 32 that make the whole verify |
| Bech32.Encode | src/bech32.cpp:147-159 | the encoded text, empty for a value of 32 or more, and when it decodes back |
| Bech32.Decode | src/bech32.cpp:162-192 | the meaning of every accepted text and empty for all others; accepted texts encode back |
| Bech32Laws.Alphabet | src/bech32.cpp:13 | the characters of the 32 values |
| Bech32Laws.ValueOf | src/bech32.cpp:16-25 | a character stands for a value if and only if it is the value's own in either case |
| Bech32Laws.Shortest | src/test/bech32_tests.cpp:28-45 | the shortest text, "a12uel5l", written and read |
| Bech32Errors.ThreeErrorsDetected | src/bech32.cpp:37-125 | of two value sequences under one prefix that differ in at most three places, all within 1023, at most one verifies |
| Bech32Errors.MistypedRefused | src/bech32.cpp:46-192 | two accepted texts with the same prefix that differ in at most three letters differ only in case |
| Bech32Errors.EvalStep | src/bech32.cpp:60-92 | a checksum step multiplies the polynomial's value at each of three consecutive powers by that power and adds the new coefficient: they are roots of the generator |
| Bech32Errors.NoneComesBack | src/bech32.cpp:43-49 | multiplying by the field element fewer than 1023 times brings back no element but zero |
| Bech32Errors.ThreeIndependent | src/bech32.cpp:43-49 | three error values at different places within 1023 cancel at the three roots only if all are zero |
| Base58.ConvertBack | src/base58.cpp:36-115 | base conversion with leading zeroes kept is undone by the reverse conversion |
| Base58.EncodeFits | src/base58.cpp:91 | the encoding buffer has room for every number of its length |
| Base58.DecodeFits | src/base58.cpp:48 | the decoding buffer has room for every text of its length |
| Base58.MultiplyAdd | src/base58.cpp:55-62 | multiplying in place and adding a digit, the carry included |
| Base58.DecodeEncode | src/base58.cpp:36-115 | decoding undoes encoding for every byte string |
| Base58.EncodeDecode | src/base58.cpp:36-115 | encoding undoes decoding up to surrounding spaces |
| Base58.CheckAccepts | src/base58.cpp:127-151 | exactly the texts that spell data with its checksum are accepted, and they give that data |
| Base58.EncodeBase58 | src/base58.cpp:82-115 | the encoded text; the carry assertion never fires |
| Base58.DecodeBase58 | src/base58.cpp:36-80 | the decoded bytes or a refusal, for every C string; the carry assertion never fires |
| Base58.EncodeBase58Check | src/base58.cpp:127-134 | the text, and that it decodes back |
| Base58.DecodeBase58Check | src/base58.cpp:136-151 | accepts exactly the spellings of data with its checksum |
| KnownAnswers.Digits58 | src/base58.cpp:33-34 | the alphabet |
| KnownAnswers.Text58Three | src/test/data/base58_encode_decode.json:4 | the text of three bytes |
| Streams.VarIntRoundTrip | src/serialize.h:374-403 | an integer of the type is read back and exactly its bytes are consumed |
| Streams.SignedRoundTrip | src/serialize.h:374-403 | a signed integer is read back if and only if it is not negative; its bytes are consumed either way |
| Streams.SignedExactly | src/serialize.h:358-400 | a pattern of 32 bits read as the signed number that differs from it by a multiple of 2^32 |
| Streams.WriteVarInt | src/serialize.h:374-389 | the bytes written; the temporary buffer is never overrun |
| Streams.TakeVarInt | src/serialize.h:391-403 | the integer read with the type's wrap-around, or a failure at the end of the stream |
| Compressor.ExpandCompact | src/compressor.cpp:148-200 | expanding undoes compacting for every amount |
| Compressor.CompactExpand | src/compressor.cpp:148-200 | compacting undoes expanding for every number: a bijection |
| Compressor.AmountRoundTrip | src/compressor.cpp:157-200 | in 64 bits an amount comes back if and only if its compact form fits, as it does up to (2^64-9)/9 |
| Compressor.FormRoundTrip | src/compressor.cpp:157-200 | in 64 bits a compact form comes back if and only if its amount fits |
| Compressor.CutIsLost | src/compressor.cpp:157-200 | no amount whose compact form is cut comes back by accident |
| Compressor.LargeAmountLost | src/compressor.cpp:157-200 | an amount that is lost |
| Compressor.CompressAmount | src/compressor.cpp:157-174 | the loop computes the compact form in 64 bits, which can be undone if and only if nothing was cut |
| Compressor.DecompressAmount | src/compressor.cpp:176-200 | the loop computes the amount in 64 bits, which can be undone if and only if nothing was cut |
| Compressor.SpecialRoundTrip | src/compressor.cpp:27-146 | every script of the six special forms comes back from its compact form |
| Compressor.ScriptRoundTrip | src/compressor.h:73-104 | a script is read back, consuming exactly its bytes, if and only if it is within the size limit |
| Compressor.OutRoundTrip | src/compressor.h:121-133 | an output is read back, consuming exactly its bytes, if and only if its amount and script have compact forms |
| Compressor.ScriptCompressor.Serialize | src/compressor.h:73-83 | the bytes of a script and when they can be read back |
| Compressor.ScriptCompressor.Unserialize | src/compressor.h:85-104 | the script read, the overlong and the failing cases included |
| ScriptForms.TagsRead | src/compressor.cpp:94-146 | the script of each of the six tags, byte for byte |
| ScriptForms.LengthsRead | src/compressor.h:85-104 | an ordinary script behind its length and six, and an overlong one |
| ScriptForms.TagsWritten | src/compressor.cpp:27-92 | which scripts are written in 21 and 33 bytes, and as what |
| ScriptForms.LengthsWritten | src/compressor.h:73-83 | every other script is written behind its length and six |
| ScriptForms.ShortForm | src/compressor.cpp:148-174 | the compact form of an amount with up to eight zeroes at the end |
| ScriptForms.LongForm | src/compressor.cpp:148-174 | the compact form of an amount with nine zeroes or more |
| CoinsCodec.MaskRead | src/coins.h:220-231 | a mask that does not end in a zero byte is read back from its count of bytes that are not zero |
| CoinsCodec.AvailabilityExact | src/coins.h:192-231 | flags and mask state exactly which outputs are unspent |
| CoinsCodec.HeaderRead | src/coins.h:184-220 | the header code separates into the three flags and the count |
| CoinsCodec.CoinsRoundTrip | src/coins.h:181-241 | unspent outputs are read back without the spent ones at the end, consuming exactly their bytes, if and only if version and height are not negative and every amount and script has a compact form |
| CoinsCodec.SpentExactly | src/coins.h:230-237 | of the outputs read, those not available are spent, and those read with amount -1 |
| CoinsCodec.CoinsRecord.CalcMaskSize | src/coins.cpp:36-52 | the length of the mask and its number of bytes that are not zero |
| CoinsCodec.CoinsRecord.Serialize | src/coins.h:181-207 | the bytes written; the assertion about the header holds |
| CoinsCodec.CoinsRecord.Unserialize | src/coins.h:210-241 | the coins read, or a failure |
| CoinsCodec.CoinsRecord.Cleanup | src/coins.h:138-143 | the spent outputs at the end are dropped |
| CoinsCodec.CoinsRecord.Spend | src/coins.cpp:54-61 | exactly the output asked for becomes spent, and the last one left is unspent |
| KnownAnswers.FirstExample | src/coins.h:62-76 | the first example of the serialized form |
| KnownAnswers.SecondExample | src/coins.h:77-94 | the second example, with a mask of two bytes |
| KnownAnswers.Integers | src/serialize.h:335-356 | the table of examples of variable-length integers, corrected |
| Bloom.Filter.InsertedHolds | src/bloom.cpp:76-87 | inserting a key adds its bits and no others |
| Bloom.Filter.ContainsExact | src/bloom.cpp:103-117 | a filter contains exactly the keys all of whose bits belong to keys it holds |
| Bloom.BloomFilter.Insert | src/bloom.cpp:76-87 | the loop sets exactly the key's bits |
| Bloom.BloomFilter.ContainsKey | src/bloom.cpp:103-117 | the loop tests exactly the key's bits |
| Bloom.RollingBloomFilter.constructor | src/bloom.cpp:234-245 | a new filter holds nothing and remembers as many keys as asked for, if twice their number does not overflow |
| Bloom.RollingBloomFilter.Insert | src/bloom.cpp:247-259 | across wrap-arounds each of the two filters holds exactly the last keys of its span |
| Bloom.RollingBloomFilter.ContainsKey | src/bloom.cpp:267-273 | every one of the last N keys inserted is contained; any other answer of true is due to fewer than 2N keys |
| BloomLaws.InsertedBits | src/bloom.cpp:64-87 | bit by bit, what inserting a key sets: for each hash function the bit that its seeded hash picks |
| BloomLaws.ContainedBits | src/bloom.cpp:64-117 | a key is contained if and only if all the bits its hash functions pick are set |
| BloomLaws.SeedsDiffer | src/bloom.cpp:64-68 | no two hash functions have the same seed |
| Json.StringTrip | src/cJSON.c:666-914 | a printed string is read back, all escapes included |
| Json.ValueTrip | src/cJSON.c:1162-1672 | a printed value at any depth is read back or refused for its depth, leaving exactly what follows |
| Json.RoundTrip | src/cJSON.c:1296-1672 | parsing a printed tree, formatted or not, gives the same tree if it is nested at most 1000 deep and fails otherwise |
| JsonLaws.StringRead | src/cJSON.c:666-792 | every string of plain bytes, short escapes, codes in digits of either case and surrogate pairs is read as what its pieces stand for |
| JsonLaws.Utf8Exactly | src/cJSON.c:585-663 | a character is written as exactly the bytes that RFC 3629 has for it |
| JsonLaws.LoneSurrogate | src/cJSON.c:545-600 | half a surrogate pair spoils the string |
| JsonLaws.LettersOnly | src/cJSON.c:712-767 | any other letter after a backslash spoils the string |
| JsonLaws.BadDigits | src/cJSON.c:508-541 | a code with a bad digit reads as zero |
| JsonLaws.TrailingText | src/cJSON.c:952-1000 | whitespace before a text does not matter; what follows it matters only if the text must end there, and then it must be whitespace |
| KnownAnswers.SampleText | src/cJSON.c:1296-1672 | a sample on one line, byte for byte |
| KnownAnswers.SampleFormatted | src/cJSON.c:1296-1672 | the sample with line breaks and tabs |
| JsonBuffers.ParsedSurvives | src/cJSON.c:1162-1672 | whatever a text parses to can be printed and parsed again |
| JsonBuffers.PrintBuffer.PrintString | src/cJSON.c:795-914 | the escaped string is written, and the length computed beforehand is the number of bytes written |
| JsonBuffers.PrintBuffer.PrintArray | src/cJSON.c:1390-1449 | the text of an array at the offset |
| JsonBuffers.PrintBuffer.PrintObject | src/cJSON.c:1561-1672 | the text of an object with its indentation |
| JsonBuffers.PrintTree | src/cJSON.c:1039-1110 | the text of a tree, and what it parses to |
| JsonBuffers.ParseHex4 | src/cJSON.c:508-541 | four hexadecimal digits |
| JsonBuffers.Utf16ToUtf8 | src/cJSON.c:545-663 | the bytes of one or two escaped code units, or a failure |
| JsonBuffers.ParseBuffer.UnescapeRange | src/cJSON.c:712-767 | the inside of a string with its escapes resolved |
| JsonBuffers.ParseBuffer.ReadString | src/cJSON.c:666-792 | the string at the offset |
| JsonBuffers.ParseBuffer.ReadValue | src/cJSON.c:1162-1215 | the value at the offset, and the depth restored |
| JsonBuffers.ParseText | src/cJSON.c:952-1035 | the tree that a text spells; never nested too deeply, and it prints to a text that parses to it |

## Left out

- AnchorsView.AnchorCache.Flush: the memory counted for cached trees is not modelled; the two pools are two objects, as nothing connects them. How trees are hashed is a parameter.
- `HaveCoins`, `AccessCoins`, `GetValueIn`, `GetPriority` and the statistics of the coins view.
- `SetBackend` and any use of a lower cache layer while a layer on top of it is open.
- `Select_` and `GetChance` of the address manager: floating point and an unbounded random search.
- The width of `nIdCount` and `nAttempts`: they are unbounded in the model.
- Service bits are a set in the model, as or-ing is the only operation on them.
- AddrStore.StoreRoundTrip: a stream is a sequence of typed values; the bytes of an address record are not modelled.
- AddrDisk.Unserialize: a stream that announces a negative number of new entries is refused in the model, while the program would go on with negative ids; a manager that was used before is not read into.
- AddrMan.AddrMan.GetAddr: the distribution of the sample is not modelled, only which samples can occur.
- CheckQueue.WaitIsCorrect: threads are not interrupted, and `fQuit` keeps the value it starts with, because nothing in the program sets it.
- BaseUint.Number.CompareTo: the guard against operands at invalid addresses is not modelled.
- BaseUint.Number.Div: `getdouble`, the hexadecimal conversions and the signed helpers beside division are not modelled.
- SkipSteps.LookupBound: the figure of 110 steps for 2^18 blocks, found by simulation, is not proved; the bound is 325.
- Bech32Errors.ThreeErrorsDetected: that four errors within 89 places are detected, for which this code was picked among those of its kind, is not proved; errors in the prefix are not considered.
- Base58.EncodeBase58: the counter of leading zeroes is unbounded in the model.
- CoinsCodec.CoinsRecord.Serialize: an output with the amount -1 is the null output whatever its script; interest fields are not serialized and not modelled.
- Bloom.RollingBloomFilter.constructor: the size and the number of hash functions come from floating-point formulas and are parameters.
- `IsRelevantAndUpdate` and `UpdateEmptyFull` of the Bloom filter.
- Json.ValueTrip: numbers, raw items and missing strings or names are not part of the model; a text with a number is refused.
- JsonBuffers.ParseBuffer.ReadValue: a number is refused where the program reads it as floating point.
- JsonBuffers.ParseText: a text with a number is refused where the program accepts it.
- Streams.SignedRoundTrip: a signed integer that overflows while it is read is taken to wrap around.
- JsonBuffers.PrintTree: output buffers grow as needed and allocation succeeds; text of more than 2^31 bytes is not refused.
- Block files, the script interpreter, networking, wallets and all RPC code.
