# SorobanPulse: verified models of its core algorithms

This project models, in Dafny, the parts of SorobanPulse that carry real
invariants, and proves what they are for. Code that updates state step by step
is modelled as methods and classes proved against specification functions;
what the source promises is then proved about those functions, for all inputs
or all runs.

| Files | Part of the system |
|---|---|
| `EventSink.dfy` | What happens to one event on its way into the table: the guard that refuses it, the filters that take it for a duplicate, the idempotent insert. |
| `BackfillActions.dfy`, `Backfill.dfy` | The Galexie backfill as a crash-recovery protocol: any number of runs and workers interleave on one database, with failures, crashes, lost acknowledgements and live indexing in between. |
| `BackfillGuarantee.dfy`, `BackfillLosses.dfy` | Which keys a schedule can lose, the exact condition under which a successful run has stored its whole range, and what is lost without it. |
| `BackfillRecovery.dfy` | From every reachable state a new run can go through to Ok. |
| `BackfillWorker.dfy` | The worker code, proved to perform steps of the protocol while others act between any two of them. |
| `LedgerFiles.dfy`, `EventIds.dfy`, `EventPositions.dfy` | Cutting ranges into chunks, ledgers into files, files into object keys; numbering events, which event gets which number, and writing and parsing their ids. |
| `LeaderElection.dfy`, `AdvisoryLock.dfy` | Leader election over a reentrant session lock as a state machine over N replicas, and the lock instance as a class; the retry loop and `release` are proved to be runs of the state machine. |
| `Base58.dfy` | The in-place big-number encoder behind API keys. |
| `BloomFilter.dfy` | The rotating double-buffer filter and the per-ledger filter, against the exact history of calls. |
| `AccountEvents.dfy` | Keyset pagination over a growing table. |
| `WasmSections.dfy` | The LEB128 reader and custom-section scanner, against a writer of the WebAssembly binary format (WebAssembly Core Specification 1.0, sections 5.2.2, 5.5.2 and 5.5.3). |
| `ContractTracker.dfy` | The order-insensitive upsert and when it really is order-insensitive. |
| `EmailDigest.dfy` | Schedules, quiet hours and the notifier loop. |
| `JsonPath.dfy`, `PathGrammar.dfy`, `ContentFilter.dfy` | The content-filter path parser against the grammar of paths, tree walk and comparison operators. |
| `Percentile.dfy` | The interpolated percentile over the reals. |
| `Numerals.dfy`, `Texts.dfy`, `Options.dfy` | Shared: numerals, lexicographic order, trimming, option and result types. |

## Where the code and its documentation disagree

The model follows the code.

- `src/backfill.rs:44-45` promises that backfilled events take exactly the live
  insert path, and `src/backfill.rs:272-274` that stored rows match live ones. The
  program's only sink (`src/main.rs:157-163`) leaves events out without an
  error, and the range is completed all the same. It refuses every event whose
  data is neither an object nor null (`src/indexer.rs:998-1022`), while
  `events_from_ledger` always writes a string (`src/backfill.rs:268-270, 322`):
  such events are never stored in any schedule
  (`BackfillLosses.StringsAreNeverStored`), yet a run over them returns Ok with
  its checkpoint complete (`BackfillLosses.RefusedLedgerIsLost`). Even for
  acceptable events a false positive of the session filter
  (`src/indexer.rs:1137-1142`) loses one
  (`BackfillLosses.FalsePositiveIsLost`). There is no other way to lose one
  (`BackfillGuarantee.SkippedIsExplained`), so a successful run is complete
  exactly when the keys lost in these two ways are stored all the same
  (`BackfillGuarantee.OkRunIsCompleteIff`), and
  `BackfillLosses.OkRunsAreCompleteIffFirstsAccepted` says for which archives
  all successful runs without false positives are complete.
- `src/contract_tracker.rs:7-9` says replays in any order converge to the same
  row. They do exactly when nothing the row depends on is given twice with
  different values (`ContractTracker.ConvergesIffUnambiguous`); a newest event
  without a WASM hash already breaks it
  (`ContractTracker.HashlessUpdateBreaksConvergence`).
- `docs/advisory-lock-behavior.md:27-32` says an acquisition attempt never
  leaves an ambiguous state behind. A granted attempt that times out still
  leaves the lock held on the server after a successful retry and `release`
  (`LeaderElection.TimeoutLeavesLockBehind`);
  `LeaderElection.ReleaseFreesIffNoStray` says exactly when `release` frees
  it. The same document (lines 44-48) says a superseded leader can detect
  staleness. `is_current` looks at the process only, so it does not notice a
  lost session (`LeaderElection.LostLeaderStillCurrent`), nor an unlock whose
  reply was lost (`LeaderElection.LostReplyKeepsBelief`).
- `src/bloom_filter.rs:153-155` says rotation happens when the fill ratio
  exceeds the threshold and that 1.0 disables it. The code rotates when the
  threshold is reached, so 1.0 rotates at capacity
  (`BloomFilter.RotationIsNeverDisabled`).
- The zero-padded event ids sort as numbers for all ledgers up to L exactly when
  L is at most 2328306435 (`EventIds.SortedIffBelowBreak`). From a slot inside
  ledger 2328306436 on TOIDs have 20 digits; these sort among themselves, and a
  shorter one sorts before a 20-digit one exactly when it is at most a tenth of
  it (`EventIds.AcrossTheBreak`).
- `docs/backfill.md:31-33` says decoding is not implemented; `events_from_ledger`
  implements it.
- `src/xdr_validation.rs:11` asks for transaction hashes in lower case; the code
  takes hexadecimal digits of either case (`src/xdr_validation.rs:68-73`), and so
  does `EventSink.AcceptsIffRules`.
- `src/content_filter.rs:74-76` says a path that does not resolve evaluates to
  false; the operator `ne` evaluates to true for it, but not for a malformed
  path (`ContentFilters.NeIsNotEq`).

## Assumptions

A backfill file holds exactly the ledgers of its `file_bounds`, in any order.
The close time of a ledger is a representable instant, and a session filter
exists (both constructor parameters are valid constants); the backfill's sink
has no persistent filter, as `src/main.rs:157-163` builds it. Live indexing
stores events its own guard accepts. Each lock instance is used with one
database session. The two stores of a successful acquisition (`held`, then
`epoch`) are one step. An address index row carries the ledger of its event.
Where a theorem says so (`BackfillGuarantee.Structured`), a transaction belongs
to one ledger, and filter texts and content fingerprints tell keys apart.
`usize` has 64 bits. Regular expressions, float parsing and JSON printing are
parameters, as are clocks, file contents and failures.

## Model

| member | source | states |
|---|---|---|
| EventSink.TextNamesKey | src/bloom_filter.rs:182-184 | The texts under which the filters know valid keys are distinct for distinct keys |
| EventSink.InsertAddsFirstOfEachKey | src/indexer.rs:1265-1289 | Inserting a batch keeps every stored row and adds exactly the first event of each new key |
| EventSink.AcceptsIffRules | src/indexer.rs:1131-1222 | The guard accepts exactly events whose data is null or an object that decodes, whose topics decode, whose contract id is a C and 55 base-32 characters and whose hash is 64 hexadecimal digits, that are within the size limit and, where the tenant lists contracts, of a listed one |
| BackfillActions.ResumeAfterSave | src/backfill.rs:176-205 | A saved position is where its range resumes, unless it is past the end; other ranges resume where they did |
| BackfillActions.ActSound | src/backfill.rs:375-412 | Every atomic action of a worker, failures and lost acknowledgements included, keeps all checkpoint rows and the worker's own position backed by events that are stored or were left out by the sink, touches no other range's row, stores only accepted events of its range, and accounts for each row and ledger it adds |
| Backfill.InvariantAlways | src/backfill.rs:424-466 | The whole-system invariant holds after every interleaving of runs, workers, crashes and live stores |
| Backfill.NothingLost | src/backfill.rs:424-466 | When a run returns Ok, whatever came before or happened meanwhile, its whole range is stored if and only if every key the sink left an event of is stored; its ledger counter is the sum over its ranges of end + 1 minus the resume point |
| Backfill.NothingSpurious | src/indexer.rs:1131-1222 | Every stored row is an accepted event of some requested ledger under its own key, the first of that key unless one was left out, and the event counters of all runs plus unacknowledged rows add up to the size of the table |
| Backfill.CheckpointsTellTheTruth | src/backfill.rs:191-205 | Every checkpoint row visible at any time: completed holds exactly when next_ledger is past the end, and all ledgers from the range start up to next_ledger are stored if and only if every key left out among them is |
| Backfill.LoopsAdvance | src/backfill.rs:387-411 | Each turn of a worker's loop strictly decreases end + 1 - next |
| Backfill.WorkersTakeChunks | src/backfill.rs:133-146 | The workers of a run start on full chunks of the size asked for, 0 read as 1, the last one ending with the range |
| Backfill.SinkIsExact | src/backfill.rs:424-466 | After a successful run over everything asked for so far the table has exactly the keys of the range if and only if every key left out is stored, and its rows are first events except under keys left out |
| BackfillGuarantee.SkippedIsExplained | src/indexer.rs:1131-1222 | In every schedule, whatever its filters, runs, failures and crashes, a key is left out unstored only because a filter reported its text though it was never offered that text, because the guard refuses its first event, or because live indexing passed over its first event |
| BackfillGuarantee.DuplicateIsKept | src/bloom_filter.rs:86-115 | When a text was offered before to the filter, which all workers of a run share and another's newer ledger may have emptied since, this worker has stored its key, holds it in its transaction, or it is among the losses explained so far |
| BackfillGuarantee.FalseReportIffCovered | src/bloom_filter.rs:86-115 | In every reachable state a report is false exactly when the text was never offered to the run's filter and its bits are among those of the texts the filter remembers |
| BackfillGuarantee.OkRunIsCompleteIff | src/backfill.rs:424-466 | A run that returned Ok has stored its whole range if and only if every key of the range that was falsely reported or whose first event is refused is stored |
| BackfillGuarantee.CheckpointIsCompleteIff | src/backfill.rs:191-205 | The same for every checkpoint row and the ledgers it reports as done |
| BackfillGuarantee.NoSkips | src/indexer.rs:1131-1222 | When no filter reported falsely, live indexing stored first events, and the guard accepts the first event of every key, no event is left out unstored |
| BackfillGuarantee.CheckpointsAreComplete | src/backfill.rs:191-205 | Without false positives and with such a guard every checkpoint row is true of all events of its ledgers |
| BackfillGuarantee.SinkIsDedup | src/backfill.rs:424-466 | After a successful run over everything asked for so far the table is exactly the key-deduplicated content of the range if and only if the keys lost or passed over are stored with their first events |
| BackfillGuarantee.SinksConverge | src/backfill.rs:424-466 | Two histories over one range, with other chunk sizes, failures, crashes and reruns, the first without losses, end with equal tables if and only if the second has stored the first events of the keys it may have lost or passed over |
| BackfillGuarantee.CleanSinksAgree | src/backfill.rs:424-466 | In particular two such histories, both without losses, end with equal tables |
| BackfillLosses.RunsAlone | src/backfill.rs:375-466 | A run over one ledger, undisturbed, returns Ok, completes its row, and stores what passes filter and guard |
| BackfillLosses.OneEventStored | src/indexer.rs:1131-1222 | Such a run over a ledger of one event leaves exactly this event in the table if it obeys those rules, and an empty table otherwise |
| BackfillLosses.StringsAreNeverStored | src/indexer.rs:998-1022 | Events whose data is a string are never stored: the table is empty after every schedule |
| BackfillLosses.RefusedLedgerIsLost | src/backfill.rs:312-324 | Yet a run over such a ledger returns Ok with its row complete |
| BackfillLosses.FalsePositiveIsLost | src/indexer.rs:1137-1142 | With a false positive the second of two acceptable events is not stored, and the run returns Ok with its row complete |
| BackfillLosses.OkRunsAreCompleteIffFirstsAccepted | src/indexer.rs:1131-1222 | Every run that returns Ok, in any schedule without false positives, has stored its whole range if and only if the guard accepts the first event of every key |
| BackfillLosses.LedgerReportsTruly | src/bloom_filter.rs:86-115 | A bitmap with one bit per event of a ledger gives no false positive in any schedule of runs over that ledger |
| BackfillRecovery.Recovers | src/backfill.rs:375-466 | From every reachable state a new run over any range, with any chunk size, files and filters, reaches Ok by steps of its own in which nothing fails |
| BackfillWorker.StoreEvents | src/indexer.rs:1371-1387 | The loop over a batch offers every event in turn and commits once, or fails |
| BackfillWorker.ProcessFile | src/backfill.rs:391-402 | The loop over a file's ledgers passes over those outside [next, end] and stops at the first error |
| BackfillWorker.Checkpoint | src/backfill.rs:403-411 | After a file the position behind it is saved before its ledgers are counted |
| BackfillWorker.RunFile | src/backfill.rs:388-411 | One turn (fetch, store, checkpoint, count) is a sequence of protocol steps and moves strictly forward inside the range |
| BackfillWorker.RunRange | src/backfill.rs:375-412 | The whole worker, with others acting between any two of its actions, is part of a schedule; on success every event of its range is stored or was left out by the sink |
| LedgerFiles.ChunksPartition | src/backfill.rs:133-146 | Chunks are non-empty, at most the chunk size long, ordered, disjoint, and cover exactly the range |
| LedgerFiles.ChunksAreFull | src/backfill.rs:133-146 | The i-th chunk starts i chunk sizes after the start, and all but the last are full |
| LedgerFiles.SplitRange | src/backfill.rs:133-146 | The loop computes that partition for every range, ending at the largest u32 included, with saturating arithmetic and chunk size 0 read as 1 |
| LedgerFiles.FilesPartitionLedgers | src/backfill.rs:149-153 | A ledger lies in its own file, and two ledgers have the same bounds exactly when one lies in the file of the other |
| LedgerFiles.BoundsAreBlocks | src/backfill.rs:149-165 | Files are blocks of as many ledgers as the schema says, 0 read as 1, and partitions blocks of as many files, cut at the largest u32 |
| LedgerFiles.PartitionsRespectFiles | src/backfill.rs:160-165 | No file is spread over two partitions, and partitions are ordered as their files are |
| LedgerFiles.ObjectKeysSortNewestFirst | src/backfill.rs:155-173 | For every schema, keys are equal exactly for ledgers of one file and sort lexicographically in reverse of file order |
| LedgerFiles.ObjectKeyParts | src/backfill.rs:155-173 | A key names the partition directory, if there are partitions, and the file: eight capital hexadecimal digits of the inverted start, the bounds in decimal, a single one for a file of one ledger, and `.xdr.zst` or `.xdr` by compression |
| EventIds.UnpackToid | src/backfill.rs:296 | The bit fields of a TOID give back ledger, slot and operation, the latter two masked |
| EventIds.EventsFromLedger | src/backfill.rs:279-366 | The numbering loops, with ledger-wide and per-transaction counters, produce the specified list of events, skipped events using up a number |
| EventPositions.EmittedByPlace | src/backfill.rs:279-366 | Exactly the events of contracts that are not diagnostic are emitted, each once and in the order of their places, with their transaction's hash and success; a V3 event of transaction i (from 0) at place j under (ledger, i+1, 0) and j, an operation event under (ledger, i+1, operation) and its place, BeforeAllTxs and AfterAllTxs events under slots 0 and 0xFFFFF and the number of earlier ones in the ledger, an AfterTx event under (ledger, i+1, 0) and the size of operation 0 plus the number of earlier ones |
| EventIds.EventsFromDistinct | src/backfill.rs:299-364 | No two events of a ledger share TOID and index, AfterTx events and ledger-wide stages included |
| EventIds.IdsUniqueWithinLedger | src/backfill.rs:312-314 | The id texts of one ledger are distinct for fewer than 0xFFFFF transactions of at most 4096 operations |
| EventIds.IdsUniqueAcrossLedgers | src/backfill.rs:312-314 | Id texts of different ledgers are distinct |
| EventIds.ParseUndoesRpcId | src/toid.rs:27-46 | The id parser recovers ledger, transaction, operation and index exactly when the index fits an i32, and refuses the text otherwise |
| EventIds.ParsesExactly | src/toid.rs:27-46 | The parser accepts exactly a u64 numeral, a dash and an i32 numeral, and gives the bit fields of the first and the second |
| EventIds.RpcIdsSortAsNumbers | src/backfill.rs:314 | Below 10^19 and 10^10 the padded texts sort exactly as the pairs of numbers |
| EventIds.ToidsBelowTen19 | src/backfill.rs:296 | Every TOID of a ledger up to 2328306435 is below 10^19 |
| EventIds.TwentyDigitsSort | src/backfill.rs:314 | So do the texts of two 20-digit TOIDs |
| EventIds.AcrossTheBreak | src/backfill.rs:314 | A TOID below 10^19 sorts before a 20-digit one exactly when it is at most a tenth of it |
| EventIds.SortedIffBelowBreak | src/backfill.rs:296-314 | The ids of all ledgers up to L sort as numbers if and only if L is at most 2328306435, which is beyond 2^31 |
| EventIds.OrderBreaksInside | src/backfill.rs:296-314 | In the next ledger an AfterAllTxs event already sorts before one of the first transaction |
| LeaderElection.InvariantAlways | src/advisory_lock.rs:132-286 | In every state of every schedule the server counts, for each live session, exactly the client's belief, a grant in flight and grants nobody read |
| LeaderElection.AtMostOneLeader | src/advisory_lock.rs:163-231 | At most one replica holds on a live session, outside the tail of `release` and unless the server undid it with the reply lost, over all retries, timeouts, late grants, re-acquires and session losses |
| LeaderElection.AtMostOneHolder | src/advisory_lock.rs:163-286 | As long as no `release` has returned a database error, at most one replica has `held` set on a live session outside the tail of `release` |
| LeaderElection.LostReplyKeepsBelief | src/advisory_lock.rs:271-281 | From any state with an idle leader without unread grants, an unlock whose reply is lost lets another replica lead while the old token still reads as current |
| LeaderElection.BelievedLeaderIsRecordedIffLive | src/advisory_lock.rs:177-178 | A replica that believes it holds the lock, unless an unlock's reply was lost, is recorded by the server, with count at least 1, exactly while its session lives |
| LeaderElection.RetiredForever | src/advisory_lock.rs:119-121 | A released or superseded token is never current again and epochs never go back |
| LeaderElection.TokensIncrease | src/advisory_lock.rs:177-189 | Tokens of one instance strictly increase, and the newest one is current when issued |
| LeaderElection.BadReleaseIsHarmless | src/advisory_lock.rs:245-267 | Releasing a foreign or stale guard changes neither process nor server |
| LeaderElection.CleanCountIsOneIffHeld | src/advisory_lock.rs:132-150 | Without timeouts, lost unlock replies and double acquisition the server count is 1 when held and 0 otherwise |
| LeaderElection.ReleaseFreesIffNoStray | src/advisory_lock.rs:271-281 | A completed release leaves exactly the unread grants on the server, so it frees the lock exactly when there are none |
| LeaderElection.CarefulReleaseFrees | src/advisory_lock.rs:271-286 | For a caller whose attempts never timed out or errored and who acquired only when not holding, a completed release frees the lock, whatever others do |
| LeaderElection.CanAcquire | src/advisory_lock.rs:132-189 | An idle replica with a live session and a retry left can take a grantable lock from any reachable state, disturbing no other replica |
| LeaderElection.LostLeaderStillCurrent | src/advisory_lock.rs:119-121 | From any state with a leader, losing its session lets another replica lead while the old token still reads as current |
| LeaderElection.TimeoutLeavesLockBehind | src/advisory_lock.rs:212-230 | A concrete run in which a timed-out grant keeps the server lock after a successful retry and release |
| AdvisoryLocks.RetryLoopCounts | src/advisory_lock.rs:163-230 | Success raises the hold count by one plus one per unread grant; with every reply read, by exactly one on success and none on failure |
| AdvisoryLocks.RetryLoopErrors | src/advisory_lock.rs:163-236 | The loop fails exactly when no attempt gets a granting reply; it reports a timeout exactly when the last attempt timed out, and otherwise that acquisition failed |
| AdvisoryLocks.RetryLoopIsRun | src/advisory_lock.rs:163-231 | Whatever other replicas do between attempts, the retry loop is a run of the state machine with the same server and client outcome |
| AdvisoryLocks.ReleaseIsRun | src/advisory_lock.rs:245-286 | So is releasing the current guard, whether the unlock is confirmed, not handled, or handled with the reply lost |
| AdvisoryLocks.AdvisoryLock.Acquire | src/advisory_lock.rs:132-150 | A call during another is refused without effect; otherwise the flag is restored and the outcome is that of the retry loop; a new guard's token is current and every earlier one retired |
| AdvisoryLocks.AdvisoryLock.AcquireInner | src/advisory_lock.rs:152-236 | The loop over attempts computes the specified server state and error, and issues the next token on success |
| AdvisoryLocks.AdvisoryLock.Release | src/advisory_lock.rs:245-286 | Each error in its order; a foreign or stale guard has no effect, a failed unlock leaves `held` whether or not the server handled it, a confirmed one clears it |
| AdvisoryLocks.AdvisoryLock.WithLock | src/advisory_lock.rs:288-303 | Entered without the lock and with every reply read, it leaves the server without it unless the unlock was not handled, whatever the operation returns; the result is the acquisition's error, else the operation's, else the release's |
| Base58.CarryThrough | src/api_keys.rs:124-129 | The in-place inner loop multiplies the buffered number by 256 and adds the byte, keeping digits below 58 and the carry below 256 |
| Base58.Encode | src/api_keys.rs:118-140 | The encoder yields the canonical base58 text, never needing more digits than the capacity it reserves |
| Base58.DecodeEncoding | src/api_keys.rs:118-140 | A decoder gives back every byte string, leading zero bytes included |
| Base58.EncodingDecode | src/api_keys.rs:118-140 | Every base58 text is the encoding of what it decodes to |
| Base58.EncodingInjective | src/api_keys.rs:143-147 | No two byte strings share an encoding |
| Base58.EncodingLength | src/api_keys.rs:441-443 | One to 11/8 characters per byte, hence 32 to 44 for 32 bytes; the digits fit the reserved capacity |
| Base58.LettersSpellAlphabet | src/api_keys.rs:114-115 | Digit letters and the 58-character alphabet agree |
| BloomFilter.HitIsMembership | src/bloom_filter.rs:241-268 | A filter hits exactly the keys it took and those whose bits they cover |
| BloomFilter.LeastFullExists | src/bloom_filter.rs:203-209 | The least count that is due for rotation exists |
| BloomFilter.FullIsRatio | src/bloom_filter.rs:203-209 | A count is due for rotation exactly when its ratio to the capacity reaches the threshold |
| BloomFilter.RotationIsNeverDisabled | src/bloom_filter.rs:150-157 | Every allowed threshold rotates at capacity at the latest, 1.0 exactly there |
| BloomFilter.EventBloomFilter.WithFillThreshold | src/bloom_filter.rs:158-179 | Fails exactly for zero capacity or a rate outside (0, 1); keeps a threshold in [0.01, 1] and moves any other to the nearer end |
| BloomFilter.EventBloomFilter.MaybeRotate | src/bloom_filter.rs:203-237 | Rotates exactly when the ratio reaches the threshold; both filters keep covering the last two stretches of the history |
| BloomFilter.EventBloomFilter.Check | src/bloom_filter.rs:241-268 | Hits exactly when either generation does, and always for the last T inserted keys, T the least full count |
| BloomFilter.EventBloomFilter.Insert | src/bloom_filter.rs:273-283 | The history grows by the key, and the filter rotates exactly when that fills it |
| BloomFilter.EventBloomFilter.Seed | src/bloom_filter.rs:289-316 | A whole list is inserted before rotation is considered, once |
| BloomFilter.EventBloomFilter.CurrentRatio | src/bloom_filter.rs:319-322 | The ratio is below the threshold between calls |
| BloomFilter.EventBloomFilter.RecentKeysHit | src/bloom_filter.rs:203-237 | After any history of single inserts and seeds the last T keys are found |
| BloomFilter.EventBloomFilter.HitsRetainedOrCovered | src/bloom_filter.rs:241-268 | A hit means that the key is in the retained window or that the keys of one generation cover its bits; nothing older counts |
| BloomFilter.SessionBloomFilter.CheckAndSet | src/bloom_filter.rs:86-115 | Reports exactly the duplicates that an exact set cleared at each new maximum ledger would report, ledgers in any order, and the keys whose bits those remembered cover |
| AccountEvents.BuildPage | src/account_events.rs:130-147 | The row loop keeps the first `limit` rows and the cursor of the last one kept, if there was one row more |
| AccountEvents.PageSplits | src/account_events.rs:113-147 | A page is descending and splits what lies below its cursor into its items and exactly what lies below the next cursor |
| AccountEvents.WalkVisitsEverything | src/account_events.rs:94-149 | Following the cursors while rows are inserted gives strictly descending events, contains all initial matches, and only matches |
| AccountEvents.EveryMatchExactlyOnce | src/account_events.rs:94-149 | Every initially matching event is listed exactly once |
| AccountEvents.QuietWalkIsFullAnswer | src/account_events.rs:113-127 | Without inserts the pages concatenate to the full sorted answer |
| AccountEvents.CursorsAdvance | src/account_events.rs:130-148 | Each page with a cursor leaves strictly fewer matches below it than there were |
| AccountEvents.WalkEnds | src/account_events.rs:94-149 | For a database that does not change, every filter, page size and start, following the cursors comes to a last page |
| AccountEvents.CursorRoundTrip | src/account_events.rs:108-110 | A cursor text is read back as the position it was written for |
| AccountEvents.UuidRoundTrip | src/account_events.rs:109 | The hyphenated UUID text is read back |
| AccountEvents.UuidTextIsSmall | src/account_events.rs:140 | Ids are written with small hexadecimal letters |
| AccountEvents.GetAccountEvents | src/account_events.rs:94-149 | The handler refuses what is not a G, C or M address, an unknown role and an unreadable cursor, in this order; otherwise the page lists, newest first, exactly the next events after the cursor within the ledger bounds that have an index row with this address in position 1 for `topic1`, 2 for `topic2`, any for `any` or no role; it holds 50 events or the requested 1 to 200, and `next_cursor` names its last event when there are more |
| AccountEvents.RequestWalkLists | src/account_events.rs:94-149 | Requests that follow `next_cursor` list every event the first one asks for, newest first and once, and no other |
| AccountEvents.CursorTextsRead | src/account_events.rs:106-110 | A cursor is accepted exactly when it is a signed i64 numeral, a colon and a hyphenated UUID |
| AccountEvents.NextRequestContinues | src/account_events.rs:103-112 | Sending `next_cursor` back reads exactly the page after it, from the database as it then is |
| WasmSections.LebReadsPadded | src/contract_specs.rs:88-102 | A number written in one to six bytes, minimal or padded, is read back wherever it stands, to exactly its end |
| WasmSections.LebRefusesLong | src/contract_specs.rs:98-100 | Longer encodings are refused |
| WasmSections.LebInvertsEncoder | src/contract_specs.rs:88-102 | The reader inverts the LEB128 encoder exactly for numbers below 2^42 |
| WasmSections.Leb | src/contract_specs.rs:88-102 | The shifting loop computes that reading on arbitrary bytes |
| WasmSections.CustomSection | src/contract_specs.rs:105-133 | On arbitrary bytes the scanner terminates with every slice in bounds and computes the specified result |
| WasmSections.ScannerUndoesWriter | src/contract_specs.rs:104-133 | For any written module: the payloads of the name concatenated in order, or None when it does not occur |
| WasmSections.TruncatedTailIsIgnored | src/contract_specs.rs:115-117 | A section cut short at the end of the file changes nothing about the sections before it |
| WasmSections.NoMagicNoSection | src/contract_specs.rs:106-108 | What does not start with a zero byte and `asm` is refused |
| WasmSections.LongNameIsRefused | src/contract_specs.rs:119-126 | A custom section whose name does not fit into it refuses the whole module, whatever stands before and after |
| WasmSections.EndlessSizeIsRefused | src/contract_specs.rs:112-114 | So does a section size that does not end within six bytes |
| ContractTracker.Contracts.Record | src/contract_tracker.rs:144-183 | The upsert keeps each row the replay of its contract's events, touches no other row, and reports whether the contract was new |
| ContractTracker.ReplayExplained | src/contract_tracker.rs:157-168 | After any order and repetition, time and hash come from an event of the highest ledger where it has them, deployer and creation fields from events that carry them |
| ContractTracker.ReplayWon | src/contract_tracker.rs:144-183 | In every replay the last event that knows the deployer gives it, the last creation gives the creation fields, the last event of the highest ledger dates the row, and the hash is that of the last hashed event that was of the highest ledger when it came, or of the first hashed one when there is none |
| ContractTracker.ConvergesIffUnambiguous | src/contract_tracker.rs:7-9 | Replays of a set of events agree exactly when no field the row depends on is given twice with different values |
| ContractTracker.AmbiguousDiverges | src/contract_tracker.rs:157-168 | Otherwise two orderings without repetition already disagree |
| ContractTracker.OrdinaryHistoriesConverge | src/contract_tracker.rs:7-9 | With distinct ledgers, a hash on every event and at most one creation: hash and time of the highest ledger, fields of the creation |
| ContractTracker.HashlessUpdateBreaksConvergence | src/contract_tracker.rs:162-164 | Three updates of one contract whose replays differ |
| ContractTracker.TablesConverge | src/contract_tracker.rs:7-9 | Tables built from logs with the same unambiguous events per contract are equal |
| EmailDigest.QuietHoursAreCyclic | src/email.rs:164-184 | Membership in quiet hours is membership in a cyclic interval of minutes modulo 1440, across midnight too |
| EmailDigest.HhMmRoundTrip | src/email.rs:187-196 | Times written with any zero padding are read back |
| EmailDigest.Spawn | src/email.rs:391-458 | The loop produces the mails and buffer of the specified run, up to the closing of the channel |
| EmailDigest.EveryEventIsMailedOnce | src/email.rs:395-456 | In every run critical events are mailed singly in order, all other accepted events are in exactly one batch or pending in order, and nothing is pending after the close |
| EmailDigest.NoBatchIsEmpty | src/email.rs:403-405 | No mail is sent for nothing |
| EmailDigest.DigestsArePunctual | src/email.rs:401-421 | Every digest of a run was due against the digest before it and outside quiet hours |
| EmailDigest.DigestsKeepQuiet | src/email.rs:409-412 | No scheduled digest falls in the cyclic window that was configured |
| EmailDigest.DigestFrequency | src/email.rs:77-94 | At most one hourly digest per UTC hour and one daily digest per UTC day, not before its hour, even if the clock steps back |
| EmailDigest.TickLeavesNothingDue | src/email.rs:401-421 | After a tick outside quiet hours events are pending only if the schedule is not due since the last digest |
| EmailDigest.TickSends | src/email.rs:401-421 | In every run a tick mails and empties the buffer, if it holds anything, exactly when the clock does not show quiet hours and the schedule is immediate, or hourly and the hour since the epoch is past that of the last digest, or daily and its hour of the current UTC day is after the last digest and not after the tick; otherwise it does nothing |
| EmailDigest.EventArrives | src/email.rs:424-442 | An event of a contract that is not listed is ignored, a critical one mailed at once, any other buffered |
| EmailDigest.HhMmReads | src/email.rs:187-196 | A time is read exactly when it is two numbers around a colon, below 24 and 60, spaces around them ignored |
| EmailDigest.ConfiguredQuietHours | src/email.rs:160-184 | Quiet hours are the minutes shown by the clock from the first configured time up to the second, around the clock; a missing or unreadable time, or equal ones, turn them off |
| JsonPath.ParsePath | src/content_filter.rs:91-143 | The loops compute the specified segments or refuse the path |
| JsonPath.ParseInvertsPrint | src/content_filter.rs:88-90 | Parsing inverts printing in any mixture of dot keys, quoted bracket keys and indices |
| JsonPath.PathsAreTheRepresentable | src/content_filter.rs:91-143 | Some path parses to a list of segments exactly when each is representable |
| PathGrammar.PathsFollowGrammar | src/content_filter.rs:88-143 | A text is read as segments exactly when it is a dollar sign and one piece for each: a dot and a key without dots and opening brackets, or brackets around an index below 2^64 or a key, with spaces around it and quotes around the key ignored |
| Texts.AsciiSpaces | src/content_filter.rs:127 | Of the ASCII characters, tab to carriage return and the blank are trimmed |
| JsonPath.LongerPath | src/content_filter.rs:91-143 | Appending the text of a segment to a well-formed path appends the segment |
| JsonPath.Resolve | src/content_filter.rs:152-161 | The walk computes the node at the address, or nothing |
| JsonPath.OneStep | src/content_filter.rs:152-161 | A key leads to the field of that name of an object, an index to the element of an array, and neither anywhere else |
| JsonPath.PutThenAt | src/content_filter.rs:152-161 | A path reads the node put at its address |
| JsonPath.PutElsewhere | src/content_filter.rs:152-161 | And is unaffected by nodes put at diverging addresses |
| JsonPath.AtConcat | src/content_filter.rs:152-161 | A longer walk continues where its front part leads |
| JsonPath.PrintedPathReachesItsNode | src/content_filter.rs:77-86 | A printed path reaches exactly the addressed node |
| ContentFilters.Evaluate | src/content_filter.rs:77-86 | The filter computes the specified verdict |
| ContentFilters.NumericVerdict | src/content_filter.rs:164-214 | When the field, a number or a text, and the value read as floats, the six comparisons are those of the floats, infinities included, and a NaN satisfies only `ne` |
| ContentFilters.FiniteVerdict | src/content_filter.rs:164-214 | For finite floats they are the comparisons of the reals |
| ContentFilters.TextVerdict | src/content_filter.rs:187-214 | Otherwise they compare the text of the field, `true`, `false` and `null` included, with the value lexicographically |
| ContentFilters.PlainValues | src/content_filter.rs:187-198 | A boolean equals only its name and null only `null` |
| ContentFilters.TextSearches | src/content_filter.rs:163-222 | `contains` asks for an occurrence in the text of anything but an array, `matches` for a match of a well-formed pattern |
| ContentFilters.NoTarget | src/content_filter.rs:77-86 | Without a target only `ne` on a well-formed path is satisfied |
| ContentFilters.NeIsNotEq | src/content_filter.rs:78-84 | `ne` negates `eq` for exactly the well-formed paths, absent fields included |
| ContentFilters.OrderComplements | src/content_filter.rs:200-214 | `lte` negates `gt`, and `gte` negates `lt`, exactly when the path resolves and no NaN takes part |
| ContentFilters.EqIsBothBounds | src/content_filter.rs:187-214 | `eq`, with its own rules for booleans and text, is still `gte` and `lte` together; the ordering operators are exclusive and exhaustive on comparable operands |
| ContentFilters.ExchangedSidesReverse | src/content_filter.rs:200-205 | Exchanging a text field with the bound reverses the order |
| ContentFilters.ContainsIsEqAtSomeIndex | src/content_filter.rs:216-222 | `contains` on an array holds exactly when `eq` holds at the path with some index appended |
| ContentFilters.OccursIffSplit | src/content_filter.rs:219-220 | `contains` on text holds exactly when the text splits around the value |
| Percentiles.Evaluate | src/derived_metrics.rs:372-423 | The percentile arm answers the specified outcome, or an error for an empty series |
| Percentiles.AscendingIsUnique | src/derived_metrics.rs:421 | One bag of values has one ascending arrangement |
| Percentiles.PanicsIffAbove100 | src/derived_metrics.rs:438-454 | The evaluator indexes past the end exactly for percentiles above 100 of two points or more |
| Percentiles.AcceptedPercentilesHaveValues | src/derived_metrics.rs:101-113 | So no definition accepted by the parser does |
| Percentiles.AcceptedPercentiles | src/derived_metrics.rs:101-113 | The parser accepts exactly percentiles from 0 to 100, and keeps them |
| Percentiles.PermutationInvariant | src/derived_metrics.rs:419-423 | The order of the points does not matter |
| Percentiles.Extremes | src/derived_metrics.rs:436-454 | The 0th percentile is the minimum and the 100th the maximum |
| Percentiles.BetweenRanks | src/derived_metrics.rs:445-453 | Every percentile lies between the two neighbouring ranks |
| Percentiles.Interpolates | src/derived_metrics.rs:436-454 | From the percentile 100k/(n-1) to 100(k+1)/(n-1) of n points the value runs straight from the k-th to the next smallest point |
| Percentiles.MonotoneInP | src/derived_metrics.rs:438-454 | A higher percentile is never smaller, negative ones included |
| Percentiles.MonotoneInSeries | src/derived_metrics.rs:419-454 | Raising points of the series never lowers a percentile |

## Left out

- HTTP handlers, routing, metrics, logging, mail and network clients, and the user interface.
- The persistent filter in front of live inserts, encryption, compression, decoding and the columns derived from an event; an unparsable ledger close time, which fails the batch.
- SQL execution, XDR, JSON, base64 and zstd decoding: their results are parameters. Reading deployments out of events (`parse`, `collect_hashes` in src/contract_tracker.rs) is not modelled.
- The method `run` itself: starting a run is one step of the protocol, so its semaphore and the order of its joins are not modelled (any interleaving is allowed); the highest-ledger gauge is left out.
- Retries inside `fetch_file`: a fetch succeeds or fails.
- Future cancellation, panics inside `with_lock`, and several sessions on one lock instance.
- The instant between the stores of `held` and `epoch` in a successful acquisition.
- Concurrent callers of the event filter, whose rotation is not atomic across its two mutexes.
- The contract-existence index, saving, restoring and automatic sizing of the event filter, and the branches for a filter rebuild that fails, which cannot happen with accepted parameters; the session filter is modelled from a successful construction on.
- AccountEvents.UuidRoundTrip: covers the hyphenated form that cursors are written in, not the other spellings the UUID parser accepts.
- Deletion of events while pages are read.
- WasmSections.Leb: `|=` on disjoint bits is written as addition.
- Cron expressions: a custom schedule is an arbitrary condition on the two instants. Text of the mails, suppression and delivery failures are left out, as is any claim that a daily digest deferred by quiet hours across midnight is sent.
- `validate` of content filters, and the `matches` operator beyond its place in the verdict.
- Percentiles.Evaluate: over the reals, so NaN values, rounding and the non-finite check are not modelled; the library sort is a function.
- Other aggregations of derived metrics, and similarity and anomaly scores.
