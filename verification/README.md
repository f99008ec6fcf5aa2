# Verified model of the DATUM gateway

A Dafny model of the parts of this mining gateway where a mistake would be expensive and hard to
see: hand-offs between threads, the duplicate-share table, the merkle branches, the construction of
the coinbase and the CHIRP lottery payout, the DATUM protocol's job cache and framing, the address
codecs, targets and difficulty, client slots, and the supplier Carousel.  `dafny verify
dfyconfig.toml` checks the whole project.

## How the program is modelled

* **Threads** (`VersionedQueue`, `SubmitBlock`, `EmptyBarrier`) are step systems: a state, one step
  per lock region or wait, and theorems about every state that any sequence of enabled steps
  reaches.  Any number of producers, callers and stratum threads takes part.  What the barrier
  promises is in `BarrierPromise`, when it can open in `BarrierLiveness`, runs that break the promise
  in `BarrierExamples`.  `QueueAnswers` and `SubmitCalls` keep an account of all calls from the outside
  and compare it with the state.
* **Objects changed in place** (`Dupes.Table`, `JobCache.Jobs`, `Framing.Connection`,
  `Vardiff.Miner`, `ChirpRegistry.Registry`, `ClientSlots.Thread`, `Carousel.Rotation`) are classes
  whose methods say what the new state is; pointers into an arena are positions in a sequence.  The
  duplicate table is `DupeIndex` (bucket chains), `DupeArena` (sort and cleanup), `DupePatch` and
  `DupeFill` (the insertion that fills the table) and `Dupes` (the table itself).
* **Loops over buffers** (merkle levels, base58 carries, long division, bit regrouping, both
  coinbase passes, the split) are methods with loops, proved equal to a mathematical function about
  which the actual theorems are stated.
* **Hashes, the library sort, recv, clocks and the random key u^(1/w)** are parameters.  Double
  SHA-256 is any function with a 32-byte result; the address theorem also assumes that it does not
  map 21 zero bytes to a value that starts with four zero bytes.  A sort is any function that
  returns an ordered arrangement of its input.
* Weights, work and shares of the payout are real numbers; satoshi values are integers with their
  64-bit wrap-around written out where it matters.  Hexadecimal text in the coinbaser is modelled
  as the bytes it spells.

## What turned out not to hold

* The guard of 16383 transactions does not protect the merkle scratch area: it is long enough for
  exactly the templates of up to 16371 transactions (`Merkle.ScratchFits`, `Merkle.GuardIsTooWide`).
* A share that fills the duplicate table and goes to the front of its bucket has its old slot
  written into the index, and the old head into that slot's link, after the cleanup moved everything.
  The table stays well-formed exactly when the table will grow and the sort will leave the new share
  last, with the old head in its place as the next of the bucket (`DupeFill.FillRightExactly`).
  Otherwise the new share can be taken for new again (`DupeFill.FillFoundExactly`; for a formerly empty
  bucket whenever some share in the table is older, `DupeFill.NewerIsLost`), or the chain can close into
  a circle, so that a later check does not end (`DupeFill.FillHangsExactly`, again in terms of the shares
  before the call).  `DupeExamples.NewShareIsMissed` and `DupeExamples.CheckDoesNotEnd` are runs that do
  this, for a table of any size and any sort.
* The empty-work barrier fails its promise in two places.  The flag can go up while a thread start is
  in progress, when the thread that is not counted yet stands in for a missing one
  (`BarrierPromise.RaiseIsExact`, `BarrierExamples.UncountedStarterOpensBarrierEarly`); and that
  thread, not waited for, can read the flag of a later job and send the full work of an earlier one,
  since the reading does not compare jobs (`BarrierPromise.CheckIsExact`,
  `BarrierExamples.StrangerReadsFlagOfLaterJob`).  A run keeps the promise if and only if no raise and
  no reading is of this kind (`BarrierPromise.PromiseKeptExactly`).
* A thread that reads its first job after an empty-work job was published never reports it.  The flag
  can still go up for that job exactly when as many threads can report it as are active
  (`BarrierLiveness.FlagCanGoUpExactly`; it cannot in `BarrierExamples.LateReaderHoldsFlagDown`).
* The verifier script knows nothing of the byte budget.  It agrees with the gateway exactly when the
  drawn winners fit the budget or the cut does not show in what is due
  (`ChirpVerifier.VerifierAgreesExactly`); on 490 equal winners with P2PKH addresses it disagrees
  (`VerifierExample.MembersDisagree`).
* The bytes of the coinbase that are not payouts are taken for 119 and the scripts; they are 122, and
  124 from 253 outputs on (a comment counts 123).  A coinbase keeps to the maximum of its type exactly
  when its outputs leave 3 or 5 bytes of the room (`CoinbaseSize.WithinMaximum`); a coinbase of the type
  of at most 500 bytes can have 503 (`CoinbaseSize.ThreeTooMany`).
* A difficulty is doubled or quickly raised in 64 bits.  It stays a power of two and rises as it should
  exactly when the double, or the fourfold and something of the product, is left in the word
  (`Vardiff.DoublingIsExact`, `Vardiff.QuickIsExact`).
* Where both the size and the weight limit of a template bind, the room left by size is overwritten by
  the room left by weight; both limits are kept exactly when this does not happen
  (`Payout.FitRespectsLimits`, `Payout.SizeLimitOverrun`).
* A share message that does not fit the send buffer is dropped with no error to the caller, after the
  nonce and the header key moved on; what follows is unreadable until the next connection
  (`JobCache.EveryShareResolves` is for the shares the server reads).
* A comment says that the Carousel set is capped after sorting; the code caps before, so beyond 4096
  fresh suppliers the set follows the order of the directory (`Carousel.OrderFreeUpToCap`).
* The miners' sum in the coinbase wraps at 64 bits; the transaction pays exactly the coinbase value
  if and only if the sum stays below 2^64 (`Coinbase.PaysExactly`).
* Applying a supplier's template keeps coinbase value minus fees exactly when our own value covers
  our own fees or there are none (`Carousel.SwapKeepsSubsidy`).
* A header that arrives as one byte and then two makes the protocol client give up
  (`Framing.Connection.Turn`).
* The size check before the merkle context counts 62 bytes where 69 are written; the 32768-byte
  buffer makes this harmless (`JobCache.Jobs.BuildMessage`).

## Model

| member | source | states |
|---|---|---|
| `VersionedQueue.NothingLostOrReordered` | src/datum_queue.c:124-252 | In every reachable state, items handled, then those being drained, then those in the active buffer are exactly the accepted items in order of acceptance, and no buffer overflows |
| `VersionedQueue.StaleSnapshotNeverWrites` | src/datum_queue.c:133-173 | A producer that is about to write holds the current version of the active buffer, so none writes with a stale snapshot |
| `VersionedQueue.SwapResetDropsNothing` | src/datum_queue.c:227-231 | The "just in case" reset at a swap always finds the offline buffer empty |
| `VersionedQueue.NoDeadlock` | src/datum_queue.c:124-252 | While any thread is inside a call, some thread inside a call can take a step |
| `VersionedQueue.RunKeepsInv` | src/datum_queue.c:85-252 | Every interleaving of producers and the processor keeps lock exclusion, version honesty and the account of items |
| `QueueAnswers.AnsweredExactly` | src/datum_queue.c:124-175 | In every run the calls that were told success are exactly the accepted items, in the order of acceptance, and every other call is still inside or was told failure |
| `QueueAnswers.AnswerIsHonest` | src/datum_queue.c:133-175 | A step that returns success has put the caller's item last into the active buffer; no other step of a producer changes a buffer |
| `QueueAnswers.RefusedOnlyWhenFull` | src/datum_queue.c:156-168 | A call is told failure only with a full active buffer or after losing the race 9999999 times, and it has written nothing |
| `QueueAnswers.EveryRunIsNoted` | src/datum_queue.c:124-252 | The account can be kept of every run |
| `SubmitBlock.ConsumedExactlyOnceInOrder` | src/datum_submitblock.c:129-198 | Accepted blocks are submitted exactly once, in order, each with its own hash; what is not yet submitted is in the slot |
| `SubmitBlock.SignalOnlyReachesConsumer` | src/datum_submitblock.c:183-198 | A trigger writes only into an empty slot, and when it signals no other caller is in the wait set, so no signal is absorbed |
| `SubmitBlock.NeverStuck` | src/datum_submitblock.c:129-198 | While a caller is inside a call or a block is pending, some step other than a new call or a spurious wake-up is enabled |
| `SubmitBlock.PendingBlockCanBeConsumed` | src/datum_submitblock.c:129-173 | From every reachable state a few such steps empty the slot |
| `SubmitCalls.ReturnedExactly` | src/datum_submitblock.c:129-198 | In every run the blocks of the triggers that have returned are the accepted ones in order, that is the submitted ones and the one in the slot; every other trigger is still inside with its block |
| `SubmitCalls.BeginEnters` | src/datum_submitblock.c:183-187 | A trigger with a request and a hash of at most 255 characters enters with its block; any other does nothing |
| `SubmitCalls.TestAccepts` | src/datum_submitblock.c:189-197 | A trigger that finds the slot free is done and its block is accepted and in the slot; one that does not waits |
| `BarrierPromise.EmptyEverywhereBeforeFull` | src/datum_stratum.c:437-528 | In every run whose raises and readings meet their conditions, a thread about to send a type-2 job's full work does so after the flag was raised for that very job and every thread active then has sent its empty work |
| `BarrierPromise.PromiseKeptExactly` | src/datum_stratum.c:437-528 | A run keeps the promise at every raise and every reading of the flag if and only if each of them meets its condition |
| `BarrierPromise.RaiseIsExact` | src/datum_stratum.c:281-290 | A raise finds that every active thread has sent the empty work if and only if no thread is being started, or it has not reported, or there is a report to spare, or the missing report is on its way |
| `BarrierPromise.CheckIsExact` | src/datum_stratum.c:99-106 | A reading of the raised flag gives leave for a job that all active threads have sent if and only if the reader was not being started at the raise, or its job is the one of the flag or was raised for before; every other reader is on the flag's job |
| `BarrierPromise.StepIsExact` | src/datum_stratum.c:89-106 | The same for any step of any thread |
| `BarrierPromise.LeaveIsGiven` | src/datum_stratum.c:99-106 | A reading gives leave exactly under a raised flag; the thread can then send the full work of its job, once |
| `BarrierPromise.QuietRunIsSafe` | src/datum_sockets.c:400-443 | Runs in which the flag is not raised during a thread start meet all conditions |
| `EmptyBarrier.ReadyMeansAllSent` | src/datum_stratum.c:281-290 | When the flag goes up between thread starts, every active thread has reported the barrier's job, each counted once |
| `BarrierLiveness.FlagCanGoUpExactly` | src/datum_stratum.c:378-384 | In every reachable state with a published job and the flag down, some continuation raises the flag for that job if and only if at least as many threads have reported or can still report it as are active |
| `BarrierLiveness.StaysDown` | src/datum_stratum.c:281-290 | With fewer such threads no continuation raises the flag before the next reset |
| `BarrierLiveness.LateStarterNeverReports` | src/datum_stratum.c:377-385 | A thread that reads its first job after the job was published is not among them, before or after it reads, whether or not it was counted as active first, and neither step adds one |
| `BarrierExamples.UncountedStarterOpensBarrierEarly` | src/datum_sockets.c:400-443 | A run in which a started but not yet counted thread opens the barrier early |
| `BarrierExamples.StrangerReadsFlagOfLaterJob` | src/datum_stratum.c:99-106 | A run in which every raise is right and a thread that was being started at the raise gets leave for the full work of an earlier job that an active thread never sent |
| `BarrierExamples.LateReaderHoldsFlagDown` | src/datum_sockets.c:439-443 | A run in which the only thread is counted, a type-2 job is published, and the thread then reads its first job: the flag cannot go up for it |
| `EmptyBarrier.RunKeepsCountInv` | src/datum_stratum.c:89-97 | In every run the counter is the number of distinct threads that sent the empty work of the current barrier job |
| `DupeIndex.LinkKeepsIndex` | src/datum_stratum_dupes.c:169-196 | Linking one item in at its place keeps every bucket acyclic, sorted by nonce and complete for its low 16 bits |
| `DupeIndex.FindShare` | src/datum_stratum_dupes.c:305-352 | The walk finds a duplicate if and only if the identical tuple is recorded anywhere, and otherwise the place to insert |
| `DupeIndex.FindPlace` | src/datum_stratum_dupes.c:169-196 | The relink walk stops at the first item with a greater nonce |
| `DupeArena.FindFirstLessThan` | src/datum_stratum_dupes.c:101-133 | The binary search returns the first stale position of the sorted arena, or -1 if nothing is stale |
| `DupeArena.SortAndCut` | src/datum_stratum_dupes.c:220-243 | After sort and search the arena holds all shares and has grown by a quarter if at least 95% are fresh, and otherwise exactly the fresh ones |
| `DupeArena.CutArena` | src/datum_stratum_dupes.c:226-243 | The three tests on the first stale position amount to comparing the number of fresh shares with 95% of the table |
| `DupeArena.RecordedCount` | src/datum_stratum_dupes.c:249-278 | The recorded shares are as many as the used slots exactly when no share is recorded twice |
| `Dupes.Table.constructor` | src/datum_stratum_dupes.c:51-76 | A new table is well-formed and empty |
| `Dupes.Table.Reorganize` | src/datum_stratum_dupes.c:153-202 | From any old links, relinking ends with every bucket rebuilt over exactly the used items |
| `Dupes.Table.Cleanup` | src/datum_stratum_dupes.c:204-247 | A cleaned full table is well-formed and holds all shares if it grew, otherwise exactly those whose job timestamp is not below the cutoff |
| `Dupes.Table.Add` | src/datum_stratum_dupes.c:249-278 | One slot is filled and spliced in after the given item; a table this fills is cleaned up |
| `Dupes.Table.CheckForDupe` | src/datum_stratum_dupes.c:280-358 | The answer is whether the tuple was recorded; a new one is recorded and the table stays well-formed; a filling insertion keeps what the cleanup retains, and at the front of a bucket it is right, loses the share or traps later checks exactly as could be said before |
| `Dupes.Table.FillFront` | src/datum_stratum_dupes.c:297-319 | The filling insertion at the front of a bucket: what is retained, and whether the table is well-formed, which later checks do not end and whether the share is found again, in terms of the state before |
| `Dupes.Table.WriteFront` | src/datum_stratum_dupes.c:297-319 | The late writes are applied to the table as the cleanup left it |
| `Dupes.Table.CheckOne` | src/datum_stratum_dupes.c:280-358 | One check answers and changes the contents like a set of tuples that forgets stale ones when full, and keeps the table well-formed if and only if it does not end in a misplaced late write |
| `Dupes.Table.CheckAll` | src/datum_stratum_dupes.c:280-358 | A whole run of checks, cleanups and growth included, answers like that set, to its end or to the first misplaced late write |
| `DupePatch.PatchKeepsIndex` | src/datum_stratum_dupes.c:297-319 | The late write leaves a well-formed index if and only if it writes what is there already |
| `DupePatch.PatchRightExactly` | src/datum_stratum_dupes.c:297-319 | That is, if and only if the slot holds the first share of the bucket and the old head's position the second |
| `DupePatch.HangsExactly` | src/datum_stratum_dupes.c:309-319 | A check that starts at the patched slot does not end if and only if the new link leads back to the slot and no share on that circle stops the walk |
| `DupePatch.FoundExactly` | src/datum_stratum_dupes.c:297-319 | A check of the lowest nonce of the bucket from the patched head finds it if and only if the slot holds it, or the old head's position does and the slot does not stop the walk; it does not end if and only if a circle runs on; otherwise it answers that the share is new |
| `DupeFill.FillRightExactly` | src/datum_stratum_dupes.c:297-319 | The table is well-formed after a filling front insertion if and only if, as known before the call, it will grow and the sort leaves the new share last and the old head in place as the next of the bucket |
| `DupeFill.FillHangsExactly` | src/datum_stratum_dupes.c:309-319 | A later check in the bucket does not end if and only if, as known before the call, the table will grow and the sort leaves shares of one bucket in the old head's place and in the last slot, in this order, with nothing between them to stop the walk |
| `DupeFill.FillFoundExactly` | src/datum_stratum_dupes.c:297-319 | For both paths, a second check of the new share finds it, does not end, or answers that it is new, each if and only if a condition known before the call holds |
| `DupeFill.NewerIsLost` | src/datum_stratum_dupes.c:297-303 | Where the bucket was empty, a filling share newer than any other share in the table is taken for new when it comes again |
| `DupeFill.PlaceAtFront` | src/datum_stratum_dupes.c:305-319 | An insertion is at the front exactly when the bucket is empty or its head has a greater nonce; the new share is then the lowest of its bucket |
| `DupeExamples.NewShareIsMissed` | src/datum_stratum_dupes.c:297-303 | For a table of any size and any sort, a run of checks that fills it after which the last share is recorded and a second check of it answers that it is new |
| `DupeExamples.CheckDoesNotEnd` | src/datum_stratum_dupes.c:309-319 | For a table of any size and any sort, a run of checks that fills it after which a check of another share does not end |
| `DupeExamples.EnvSorts` | src/datum_stratum_dupes.c:220-221 | Insertion sort is a descending sort for any job times |
| `DupeExamples.OneEnv` | src/datum_stratum_dupes.c:204-221 | So there are a sort and job times for both runs |
| `Merkle.BranchesGiveRoot` | src/datum_stratum.c:2106-2128 | For every transaction list and every coinbase hash, folding the branches gives the root of the full tree with odd-level duplication |
| `Merkle.BranchCount` | src/datum_stratum.c:2171-2230 | The number of branches is the ceiling of log2(txn_count + 1) |
| `Merkle.BranchesFit` | src/datum_stratum.c:2150-2154 | Any template that passes the guard has at most 14 branches |
| `Merkle.ScratchFits` | src/datum_stratum.c:2144-2154 | The 16384 scratch rows suffice if and only if there are at most 16371 transactions |
| `Merkle.GuardIsTooWide` | src/datum_stratum.c:2150-2154 | The largest template the guard admits needs 16394 rows |
| `Merkle.StoredLevelsNeedRows` | src/datum_stratum.c:2171-2228 | Conversely, storing all levels takes that many rows, so the bound is exact |
| `Merkle.AreasDisjoint` | src/datum_stratum.c:2224-2226 | No two levels share a scratch row |
| `Merkle.HashLevel` | src/datum_stratum.c:2181-2223 | One level writes exactly the next level's hashes into its own rows and nothing else |
| `Merkle.CalculateBranches` | src/datum_stratum.c:2130-2230 | The branch array holds the branches of the specification and the scratch rows hold every level intact; a duplicate at i = 0 never happens |
| `Merkle.RootFromBranches` | src/datum_stratum.c:2106-2128 | The root calculation is the fold of the branches over the coinbase hash |
| `Merkle.JobRoot` | src/datum_stratum.c:2106-2249 | Both loops together give the root of the full tree |
| `Base58.EncodeBase58` | src/thirdparty_base58.c:210-254 | The carry loops produce the base-58 form with one '1' per leading zero byte, or refuse a buffer that is too short |
| `Base58.DecodeBase58` | src/thirdparty_base58.c:104-178 | The word loops produce the number as exactly n bytes, and refuse foreign characters and numbers of more than n bytes |
| `Base58.RoundTrip` | src/thirdparty_base58.c:104-254 | Decoding an encoded byte string gives it back |
| `Base58.BufferSize` | src/thirdparty_base58.c:220-222 | The 138/100 size bound holds every number and leaves the top digit free before the last byte |
| `Base58.LeadingOnes` | src/thirdparty_base58.c:199-206 | The text starts with exactly as many '1' as the bytes have leading zeros |
| `Base58.OverflowTest` | src/thirdparty_base58.c:129-150 | The two overflow tests fire exactly when the digits so far need more than n bytes |
| `Base58.AddByte` | src/thirdparty_base58.c:224-236 | One byte: the digit buffer becomes 256 times itself plus the byte, although the loop stops early |
| `ScriptVectors.OneCharacter` | src/thirdparty_base58.c:88-254 | Each single byte below 58 but zero is written as its character of the alphabet and read back |
| `ScriptVectors.GenesisScript` | src/thirdparty_base58.c:50-85 | The address of the first block decodes to the P2PKH script of its key hash, for any hash function with its checksum |
| `LinearChecksum.DigitsAddUp` | src/thirdparty_segwit_addr.c:27-35 | For any linear step, appended digits add up in the checksum state |
| `LinearChecksum.Closes` | src/thirdparty_segwit_addr.c:81-87 | Digits of plain state plus constant bring the state to the constant |
| `Bech32Checksum.StepLinear` | src/thirdparty_segwit_addr.c:27-35 | The checksum step is linear over GF(2) |
| `Bech32Checksum.ChecksumCloses` | src/thirdparty_segwit_addr.c:81-87 | The six digits the encoder appends make the whole string sum to the encoding's constant |
| `Bech32Vectors.StandardVectors` | src/thirdparty_segwit_addr.c:27-41 | The checksum reproduces a test vector of BIP-173 and one of BIP-350, which fixes generator and constants |
| `Bech32Vectors.StandardTexts` | src/thirdparty_segwit_addr.c:43-43 | Those digits spell the strings the standards print |
| `AddressVectors.AlphabetText` | src/thirdparty_segwit_addr.c:43-153 | The string of BIP-173 with every character of the alphabet is written for the values 0 to 31 and read back |
| `AddressVectors.SampleText` | src/thirdparty_segwit_addr.c:43-153 | So is the P2WPKH address of BIP-173 |
| `ScriptVectors.ExampleScript` | src/datum_utils.c:405-457 | That address pays to the witness program the standard prints |
| `BitGroups.ConvertPadded` | src/thirdparty_segwit_addr.c:155-175 | With padding, the accumulator loop regroups the same number shifted to whole groups, overflow of the accumulator included |
| `BitGroups.ConvertUnpadded` | src/thirdparty_segwit_addr.c:155-175 | Without padding, it refuses exactly left-over bits that are a whole group or not zero |
| `BitGroups.RegroupRoundTrip` | src/thirdparty_segwit_addr.c:155-175 | Bytes regrouped 8 to 5 and back are unchanged |
| `Segwit.Bech32RoundTrip` | src/thirdparty_segwit_addr.c:56-153 | Whatever the encoder accepts, the decoder gives back, with the encoding and the prefix |
| `Segwit.Bech32IsSound` | src/thirdparty_segwit_addr.c:27-90 | The program's checksums satisfy what the round trip needs |
| `Segwit.EncodeBech32` | src/thirdparty_segwit_addr.c:56-90 | The encoding loops compute the specified text or its refusal |
| `Segwit.DecodeBech32` | src/thirdparty_segwit_addr.c:92-153 | The decoding loops compute the specified result with every refusal |
| `Segwit.EncodesExactly` | src/thirdparty_segwit_addr.c:56-90 | The encoder accepts exactly printable prefixes without upper-case letters and five-bit values of at most 90 characters in all |
| `Segwit.DecodesExactly` | src/thirdparty_segwit_addr.c:92-153 | The decoder accepts exactly 8 to 90 characters in one case, printable before the separator and of the alphabet behind it, with a checksum |
| `Segwit.DecodedSeparates` | src/thirdparty_segwit_addr.c:100-110 | What it accepts has a separator with a character before it and six behind |
| `Segwit.UpperReadsAlike` | src/thirdparty_segwit_addr.c:112-140 | Upper-case text reads like its lower-case form |
| `Segwit.MixedIsRefused` | src/thirdparty_segwit_addr.c:112-152 | Text in both cases is refused |
| `Address.SegwitRoundTrip` | src/thirdparty_segwit_addr.c:177-208 | Every allowed witness program survives encoding and decoding |
| `Address.ScriptRoundTrip` | src/datum_utils.c:405-528 | P2PKH, P2SH, P2WPKH, P2WSH and P2TR scripts survive being written as an address and read back |
| `Address.P2pkhRoundTrip` | src/thirdparty_base58.c:50-85 | The P2PKH case, through base58 and its checksum |
| `Address.P2shRoundTrip` | src/thirdparty_base58.c:50-85 | The P2SH case; such an address starts with '3' and is never taken for bech32 |
| `Address.WitnessScriptRoundTrip` | src/datum_utils.c:405-528 | The witness cases |
| `Address.VersionDecides` | src/thirdparty_base58.c:50-85 | A base58 text with a good checksum decodes to a P2PKH script for version 111, to a P2SH script for 5 and 196, and to nothing for any other but 0 |
| `AddressSize.ScriptFits` | src/datum_chirp.c:131-138 | An output to a decodable address never takes more bytes than chirp_output_bytes charges |
| `AddressSize.ChargeIsExact` | src/datum_chirp.c:131-138 | The addresses of the five standard scripts are charged exactly the bytes of their outputs |
| `AddressSize.WitnessSize` | src/datum_utils.c:405-457 | A witness script is at most 34 bytes, and 22 for a bc1 address of up to 44 characters |
| `AddressSize.Base58Size` | src/thirdparty_base58.c:50-85 | A base58 script is at most 25 bytes, and 23 for an address that starts with '3' |
| `TxFormat.GenerationRead` | src/datum_coinbaser.c:208-336 | Any reader of the transaction format gets back what was written |
| `TxFormat.VarintRead` | src/datum_utils.c:299-318 | Every variable-length integer is written in its shortest form and read back |
| `TxFormat.Spelled` | src/datum_utils.c:299-318 | The bytes of an output of fifty bitcoins and of integers at the ends of the short forms, as they are |
| `Coinbase.CountPass` | src/datum_coinbaser.c:218-246 | The first pass counts exactly the selection, and how many of it are meant for coinb1 |
| `Coinbase.WritePass` | src/datum_coinbaser.c:266-302 | The second pass writes that same selection, each output once, in order, split between the halves |
| `Coinbase.SelectionFits` | src/datum_coinbaser.c:231-246 | The selection keeps order, fits the room and, as a 64-bit sum, the coinbase value |
| `CoinbaseSelection.ChosenExactly` | src/datum_coinbaser.c:231-246 | An output is chosen if and only if it fits the room and the money that the choices before it leave, and these left at least 30 bytes and some money |
| `CoinbaseSelection.LeadingExactly` | src/datum_coinbaser.c:232-237 | As many leading choices are meant for coinb1 as its room takes; one more would be too much |
| `CoinbaseSelection.FrontRoomIs` | src/datum_coinbaser.c:220-224 | That room is 104 bytes less the input script |
| `Coinbase.Generate` | src/datum_coinbaser.c:208-336 | For every extranonce, coinb1, extranonce and coinb2 parse as one transaction: the selection in order, the extranonce in its place, an output of what is left to the pool's script if and only if something is left and else a worthless OP_RETURN, and the witness commitment with value 0; in the special layout exactly the choices with an index below the number meant for coinb1 are in it, within its room |
| `Coinbase.FrontFits` | src/datum_coinbaser.c:220-246 | The outputs that the second pass puts into coinb1 fit the room the first pass counted with |
| `Coinbase.ValuesPaid` | src/datum_coinbaser.c:304-335 | The outputs sum to the coinbase value plus 2^64 for every wrap of the miners' sum |
| `Coinbase.PaysExactly` | src/datum_coinbaser.c:231-335 | They sum to exactly the coinbase value if and only if the miners' sum stays below 2^64, as it does when no single output could wrap it |
| `Coinbase.NoWrap` | src/datum_coinbaser.c:231-246 | Without such outputs the true sum never exceeds the coinbase value |
| `Coinbase.WrapExample` | src/datum_coinbaser.c:231-246 | An example where it wraps |
| `CoinbaseSize.SizeIs` | src/datum_coinbaser.c:716-740 | The exact number of bytes of the coinbase |
| `CoinbaseSize.WithinMaximum` | src/datum_coinbaser.c:716-751 | It keeps to the maximum of its type if and only if the outputs leave 3 bytes of the room, or 5 from 253 outputs on |
| `CoinbaseSize.ThreeTooMany` | src/datum_coinbaser.c:742-744 | An example with 503 bytes for the type of at most 500 |
| `ChirpDraw.WeightedDraw` | src/datum_chirp.c:112-125 | The loop, sort and copy compute the draw |
| `ChirpDraw.DrawIsUnique` | src/datum_chirp.c:105-125 | With distinct keys the draw depends neither on the order of the candidates nor on the sort |
| `ChirpDraw.DrawIsTop` | src/datum_chirp.c:112-125 | The draw is the top n by key among candidates of positive weight |
| `Sorting.SortedIsUnique` | src/datum_chirp.c:106-120 | For an order that tells elements apart there is one sorted arrangement |
| `ChirpSplit.BudgetPass` | src/datum_chirp.c:147-147 | The budget loop keeps the longest front of the winners within 14800 bytes, all of them exactly when they fit |
| `ChirpSplit.WinnersWithinDistributable` | src/datum_chirp.c:148-157 | The rounded payouts of the winners never exceed the distributable part |
| `ChirpSplit.Split` | src/datum_chirp.c:140-161 | The split keeps a fee of total times bps over 10000 for the pool, pays every fitting winner its part by weight of the rest, rounded down, if that is at least 1000, once and in order, and leaves the pool the fee, what is due to the others and less than a satoshi per winner; a single winner gets the whole rest |
| `ChirpSplit.SplitIsFair` | src/datum_chirp.c:140-161 | The same of the function that the two implementations compute |
| `ChirpSplit.OnlyWinner` | src/datum_chirp.c:148-157 | A single winner gets all that the fee leaves, if that is at least 1000 |
| `ChirpSplit.NothingDue` | src/datum_chirp.c:148-157 | Of nothing, nobody is paid |
| `ChirpSplit.Recompute` | tools/verify_chirp_block.py:54-107 | The verifier computes the same split over all drawn winners |
| `ChirpVerifier.VerifierAgrees` | tools/verify_chirp_block.py:89-107 | When the drawn winners fit the budget, the verifier reproduces payouts and pool total for every candidate set in any order |
| `ChirpVerifier.VerifierAgreesExactly` | tools/verify_chirp_block.py:89-107 | For any draw with distinct addresses the verifier agrees if and only if the winners fit the budget, or every winner cut is below the minimum and every other is due the same or below the minimum either way |
| `ChirpVerifier.CutWinnerShows` | tools/verify_chirp_block.py:89-107 | One winner beyond the budget that is due the minimum makes the two disagree |
| `ChirpVerifier.FullHouseDisagrees` | tools/verify_chirp_block.py:89-107 | On any draw of 490 equal winners with addresses that start with '1', and 490000 satoshis or more after the fee, the payouts differ |
| `VerifierExample.MembersDisagree` | tools/verify_chirp_block.py:89-107 | 490 members of equal weight with addresses of P2PKH scripts: with any keys, any sort and any such total, all are drawn and the payouts differ |
| `VerifierExample.MembersDiffer` | src/datum_chirp.h:22-32 | These addresses are pairwise different |
| `VerifierExample.MemberAddress` | src/datum_chirp.h:22-32 | Each of them decodes to its member's script and fits the 127 characters of a candidate's address |
| `ChirpVerifier.BytesPerWinner` | src/datum_chirp.c:131-147 | Up to 344 winners always fit, from 478 on they never do |
| `Payout.FillWinners` | src/datum_chirp_glue.c:277-285 | The winner loop lists every payout with a decodable address; its limit of 500 is never reached |
| `Payout.SelectsAll` | src/datum_coinbaser.c:231-246 | With room to spare and enough money the selection takes every output |
| `Payout.FitsWhole` | src/datum_coinbaser.c:338-367 | A template with room for a coinbase of max bytes leaves max minus the fixed bytes for outputs |
| `Payout.FitRespectsLimits` | src/datum_coinbaser.c:338-367 | Where the limits leave room for the fixed part, the coinbase keeps to both if and only if not both bind with the weight leaving more |
| `Payout.SizeLimitOverrun` | src/datum_coinbaser.c:338-367 | An example: 10000 bytes are offered where the size limit leaves 1000 |
| `Payout.NothingTrimmed` | src/datum_coinbaser.c:735-752 | With room for 16000 bytes, coinbase type 4 trims no lottery output |
| `Payout.WinnersArePaid` | src/datum_chirp.c:140-161 | Every winner of the draw that fits the byte budget, is due the minimum and has a decodable address is paid its floored part by weight, once, in the order of the draw, and nobody else is |
| `Payout.DrawAndFill` | src/datum_chirp_glue.c:257-285 | Draw, split and fill list snapshot and supplier and then exactly these outputs of the winners drawn from the candidates, within the byte budget and the coinbase value |
| `Payout.LotteryCoinbase` | src/datum_chirp_glue.c:243-289 | End to end: for any candidates the transaction carries the snapshot's commitment, the supplier's part of the whole value, and the output of every winner that is owed one, in full, of what supplier and fee leave; the rest, which is at least the fee, goes to the pool's script |
| `Payout.AllPaidOut` | src/datum_coinbaser.c:304-335 | Read back, the outputs are that whole list, then what is left to the pool's script or a worthless OP_RETURN, then the witness commitment, and pay the coinbase value |
| `JobCache.ShareResolves` | src/datum_protocol.c:1340-1531 | After a share's message the server holds context and coinbase of the share's own job, and the gateway's flags are true of the server |
| `JobCache.EveryShareResolves` | src/datum_protocol.c:129-153 | So in every run of new jobs, shares, lost messages and reconnects, for every share the server reads, late shares of an older job in the slot included |
| `JobCache.CarriesOrCached` | src/datum_protocol.c:1423-1503 | A message carries each thing the share needs or the server already has it for this job, and nothing is sent twice in a row |
| `JobCache.RunKeepsKnowledge` | src/datum_protocol.c:1592-1602 | In every run, as long as no message of the connection was lost, the flags claim nothing the server does not hold |
| `JobCache.Jobs.SetupJob` | src/datum_protocol.c:129-153 | A new job takes the next slot in turn and leaves the flags alone |
| `JobCache.Jobs.ForgetServer` | src/datum_protocol.c:1592-1602 | A reconnect drops the flags of all slots and keeps the job pointers |
| `JobCache.Jobs.BuildMessage` | src/datum_protocol.c:1340-1531 | The builder sends exactly the parts of the specification, updates exactly the slot, and with the real buffer never fails a length check |
| `Framing.SentIsFramed` | src/datum_protocol.c:230-267 | The reference decoding of what a peer with the same key chain sent is exactly the messages it sent |
| `Framing.DeliveredIsPrefix` | src/datum_protocol.c:1828-1963 | Whatever recv returns, the messages delivered are a prefix of the reference decoding of the whole stream |
| `Framing.NothingLost` | src/datum_protocol.c:1828-1963 | Between messages, with the stream read to its end, all of it was delivered |
| `Framing.Complete` | src/datum_protocol.c:1941-1950 | A complete body is the next message of the reference |
| `Framing.Unmasked` | src/datum_protocol.c:1882-1887 | A header is unmasked once, with the key of its own position in the feedback chain |
| `Framing.Connection.HeaderRest` | src/datum_protocol.c:1836-1861 | The continuation of a split header, given up exactly when one byte is followed by two |
| `Framing.Connection.Turn` | src/datum_protocol.c:1828-1963 | One readable event that brings bytes keeps the account of the stream, and gives up exactly on a header that comes as one byte and then two |
| `Framing.Connection.Serve` | src/datum_protocol.c:1828-1963 | Any number of events with any sizes deliver a prefix, and everything at the end of the stream |
| `Target.TargetFromDiff` | src/datum_utils.c:74-92 | The long division over 64-bit words gives exactly floor(0xFFFF * 2^208 / diff) |
| `Target.ShiftRight` | src/datum_pow.c:75-88 | The byte and bit shifts in place divide the 256-bit number by 2^bits |
| `Target.Blake2bShareTarget` | src/datum_pow.c:90-96 | The target is floor((2^224 - 1) / 2^bits), refused exactly from 224 bits on |
| `Target.FloorPoT` | src/datum_utils.c:131-141 | The exponent of the largest power of two not above the argument |
| `Vardiff.StoredTarget` | src/datum_stratum.c:1717-1739 | The stored target is exact for the difficulty, by either proof of work |
| `Vardiff.RoundDown` | src/datum_utils.c:107-109 | The largest power of two not above the argument |
| `Vardiff.Miner.constructor` | src/datum_stratum.c:1962-1985 | A subscribed miner starts with a power of two at or above its floors |
| `Vardiff.Miner.StepDown` | src/datum_stratum.c:841-848 | The difficulty becomes the largest of its half and its two floors, and the counters restart |
| `Vardiff.DoublingIsExact` | src/datum_stratum.c:906-911 | Shifted in 64 bits, a power of two becomes a higher one if and only if its double fits |
| `Vardiff.QuickIsExact` | src/datum_stratum.c:871-878 | A quick rise computed in 64 bits is at least fourfold and a power of two if and only if the fourfold fits and the word holds something of the product |
| `Vardiff.Miner.Update` | src/datum_stratum.c:817-915 | Where a rise that is due fits 64 bits: the difficulty is raised quickly, doubled or lowered exactly when that is due, to exactly the value that is due, the counters restart exactly then, and otherwise nothing changes; it stays a power of two at or above its floors; the mutual recursion with notify terminates |
| `Vardiff.Miner.Accept` | src/datum_stratum.c:1485-1490 | An accepted share is counted and the same verdict, with it, is carried out |
| `Vardiff.Miner.QuickRise` | src/datum_stratum.c:866-887 | A quick change goes to the product rounded down to a power of two, or the fourfold if that is more, is announced at once and keeps its own exact target |
| `Vardiff.Miner.Notify` | src/datum_stratum.c:1691-1739 | After a notify the difficulty is the updated one, raised to the pool's minimum for a pool job, it is announced, and the exact target for it is stored |
| `ChirpRegistry.Prune` | src/datum_chirp.c:30-38 | The in-place compaction keeps exactly the shares since the cutoff and adds up their work |
| `ChirpRegistry.PruneTracks` | src/datum_chirp.c:30-38 | With query times that do not go back, the pruned shares give the work of the full history inside the window |
| `ChirpRegistry.RecordTracks` | src/datum_chirp.c:40-53 | Tenure is the sum of the gaps between consecutive shares below 3600 seconds |
| `ChirpRegistry.WindowIs` | src/datum_chirp.c:30-38 | The shares in the window are exactly those of the last 86400 seconds, in order |
| `ChirpRegistry.TenureIs` | src/datum_chirp.c:40-46 | Each share adds the seconds since the one before, if less than 3600, and nothing else |
| `ChirpRegistry.RestoredAnswersSame` | src/datum_chirp_glue.c:33-94 | A save and a later load leave every later answer unchanged, also after further shares |
| `ChirpRegistry.Load` | src/datum_chirp_glue.c:33-72 | The load loop restores every saved member |
| `ChirpRegistry.Registry.Record` | src/datum_chirp.c:40-53 | A share is added to the history of its address and to no other |
| `ChirpRegistry.Registry.Stats` | src/datum_chirp.c:85-88 | Work and tenure are those of the full history |
| `ChirpRegistry.Registry.Restart` | src/datum_chirp_glue.c:33-94 | A restart keeps every member answering for its full history |
| `ChirpRegistry.Registry.Candidates` | src/datum_chirp.c:64-83 | Who is eligible and with which weight depends on the full histories alone |
| `ChirpRegistry.EligibleQualify` | src/datum_chirp.c:64-83 | The candidates are exactly the members with enough tenure and enough work in the window, in the order of the registry |
| `ChirpRegistry.EligibleWeights` | src/datum_chirp.c:75-79 | Each has the weight of its tenure and its work |
| `ChirpRegistry.WeightRange` | src/datum_chirp.c:75-77 | A weight is between 0 and 1, and 1 exactly at full tenure and full work |
| `ChirpRegistry.WeightGrows` | src/datum_chirp.c:75-77 | More tenure or more work never weighs less |
| `ChirpRegistry.WeightIsMean` | src/datum_chirp.c:75-77 | Below both full values it is the mean of the two ratios |
| `ClientSlots.Thread.SearchNext` | src/datum_sockets.c:516-537 | The circular search finds a free slot if there is another one |
| `ClientSlots.Thread.Assign` | src/datum_sockets.c:476-551 | A client gets a slot exactly when there is room, it was free, no other slot changes, and the fallback scan is never needed |
| `ClientSlots.Thread.Leave` | src/datum_sockets.h:177-190 | After a client leaves, the count is right and the hint names a free slot |
| `ClientSlots.AllOccupied` | src/datum_sockets.c:484-489 | The count is the number of slots exactly when none is free |
| `Carousel.EachExactlyOnce` | src/datum_blocktemplates.c:791-794 | Any n consecutive cycles schedule each of n suppliers exactly once |
| `Carousel.SetIgnoresOrder` | src/datum_blocktemplates.c:741-759 | Up to 4096 fresh suppliers, the set depends neither on directory order nor on the sort |
| `Carousel.OrderFreeUpToCap` | src/datum_blocktemplates.c:741-759 | The set is independent of directory order if and only if there are at most 4096 |
| `Carousel.CapFollowsOrder` | src/datum_blocktemplates.c:741-759 | Beyond that, another order of the same directory serves another set |
| `Carousel.Collect` | src/datum_blocktemplates.c:742-751 | The scan keeps the first 4096 fresh names |
| `Carousel.FreshKeeps` | src/datum_blocktemplates.c:742-751 | The fresh names are exactly the listed ones that are fresh, in the order of the directory |
| `Carousel.ServedAreFresh` | src/datum_blocktemplates.c:742-759 | Every served name is listed and fresh, and up to 4096 every fresh one is served |
| `Carousel.ScheduledIsFresh` | src/datum_blocktemplates.c:752-794 | Whoever is picked is fresh, and nobody is served exactly when nobody is fresh |
| `Carousel.Rotation.Next` | src/datum_blocktemplates.c:727-794 | The cycle counter restarts with the previous block hash, and the pick is the supplier at start plus cycle |
| `Carousel.Rotation.Round` | src/datum_blocktemplates.c:727-794 | As many cycles in a row as there are suppliers pick every one of them exactly once |
| `Carousel.RotatedSet` | src/datum_blocktemplates.c:791-794 | The picks of such a round are a rotation of the served set |
| `Carousel.Swap` | src/datum_blocktemplates.c:546-590 | The swap takes over the supplier's usable transactions and sets the coinbase value to subsidy plus their fees |
| `Carousel.UsableKeeps` | src/datum_blocktemplates.c:566-580 | The swapped-in transactions are exactly those with an id and data, in order |
| `Carousel.SwapKeepsSubsidy` | src/datum_blocktemplates.c:557-586 | Coinbase value minus fees is unchanged if and only if our value covers our fees or there are none |

## Left out

- HTTP API, dashboard, web assets, JSON-RPC, getblocktemplate parsing, configuration parsing and the logger: interfaces to libraries that are not part of this model.
- SHA-256, BLAKE2b, SipHash, the encryption of the protocol and the bits of chirp_u01 and pow: arbitrary functions here; IEEE-754 rounding is not modelled.
- The header mask and the feedback function of the protocol keys: arbitrary functions in `Framing`, since the claim is about which key meets which header.
- full_wipe cleanup of the duplicate table, and shares of the SHA256d path over a recycled protocol slot.
- generate_coinbase_input and its tags: its result is any input script of at most 100 bytes.
- Coinbase type 0 and the subsidy-only coinbase: straight-line text without a selection.
- Epoll loops, timeouts, user names, fingerprinting beyond the high minimum difficulty, and the choice of a thread for a new client.
- EmptyBarrier.RunKeepsCountInv: for runs in which no thread is 256 jobs behind, where its job's memory would be reused, and in which job types 1 and 2 are published for new blocks only, as the template thread does.
- Dupes.Table.CheckForDupe: shares have a non-zero ntime and the table at least four slots, as the program needs; the 32-bit product in the growth of a table of more than 17 million slots is not modelled, nor is the move of the arena by realloc while a slot reference is held.
- Dupes.Table.CheckAll: stops at a misplaced late write; which checks of the damaged bucket end is DupeFill.FillHangsExactly, what they record after that is not modelled.
- Payout.FitRespectsLimits: only where the limits leave room for the fixed part; otherwise the program offers no room for outputs and the coinbase is over the limit in any case.
- JobCache.EveryShareResolves: a job pointer is not reused for another job while shares of the first are on their way.
- Framing.Connection.Turn: recv returning 0 or an error, and a handler that refuses a message, also end the connection; not modelled.
- Target.ShiftRight: the byte `x >> b | y << (8 - b)` is written as the sum of its two parts, which have no bit in common.
- Vardiff.Miner.Update: where a rise that is due does not fit 64 bits (Vardiff.DoublingIsExact, Vardiff.QuickIsExact) the new difficulty is zero, undefined or below the fourfold; what follows from that is not modelled.
- Carousel.EachExactlyOnce: cycles before the 32-bit counter wraps.
- Address.AddressToScript: for texts of b58check that are all zero bytes, where the program reads past its buffer, the model refuses.
- Address.ScriptToAddress: a witness script shorter than its length byte says gives "UNKNOWN" here, where the program reads past the script.
