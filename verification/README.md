# Nostr search node: a verified model

Dafny models of the parts of a Nostr search node whose correctness does not show in any single
function, with proofs of what they promise. The node scrapes relays day by day, takes uploaded
dumps, folds events into analyses, writes monthly search shards, answers queries over them and
streams report updates to a console.

`dafny verify dfyconfig.toml` checks every module.

| module | what it models |
|---|---|
| `ReqPagination`, `NegentropyWindows` | the two ways `scrape_day` reads a relay-day |
| `ScrapePlanner`, `ScrapePass`, `UsageCut` | which relay-days are drawn, the worker protocol of a pass, which relays are in scope |
| `Submission`, `SubmissionRuns` | upload jobs, their counters, and crashes and restarts |
| `AnalysisGraph`, `AnalysisRegistry`, `ReplayPasses` | dependency stages, resets, replay passes |
| `MonthShards`, `TopHits`, `SearchFanOut`, `ReaderCache` | month routing and pruning, top-k merging, parallel search, the reader cache |
| `ShardCommits`, `IdClaims` | commits under concurrent adds, and the id store against the index |
| `Tokenizer` | words and bigrams |
| `LmdbPages`, `LmdbWalk`, `LmdbTree`, `LmdbSound` | the LMDB page reader and the trees it reads, both ways |
| `MergePatch` | report deltas on the node and in the console |
| `Hll`, `Words64` | the distinct-count sketch and its 64-bit arithmetic |
| `Nip19`, `BitGroups`, `Bytes`, `Prelude` | NIP-19 decoding, bit regrouping, shared definitions |

Whatever a component meets outside itself (relays, clocks, randomness, the archive, the disk, the
scheduling of threads) is an arbitrary function, or a step of a state machine that may happen at any
time, so a theorem holds for every behaviour of it. Integers are unbounded; where the program's width
matters (the parked cursor, saturating products, `mix64`, ranks) it is written out.

## Where the code and its description differ

- Resetting an analysis between two passes of one plan can leave a finished analysis over a pending
  dependency, because `reset_analysis` does not replan: `ReplayPasses.StalePlanBreaksClosure`, with the exact
  condition in `ReplayPasses.AdvanceKeepsClosedIff`.
- A scrape pass is said to end only when no work is left anywhere. The in-flight set is read once by the
  planner and again by the loop, so a relay whose unit ends in between is left with work:
  `ScrapePass.BusyPlanCanEndEarly`, with the exact condition in `ScrapePass.EndLeavesNothingIff`.
- A job record on disk is said to let a restart continue where the job stopped. The upload handler changes the
  phase and writes the record in two steps, and a worker may claim and read in between; the record then skips
  lines that were never ingested: `SubmissionRuns.LateWriteLosesLines`. A record is right exactly when no line is
  in the batch as it is taken (`SubmissionRuns.CaptureIsRightIff`); `SubmissionRuns.UnclaimedIsQuiet` names the
  schedules in which that always holds.
- A bigram phrase is said to match only contiguous substrings. It can also match across a separator:
  `Tokenizer.PhraseAcrossSeparator`, with the exact condition in `Tokenizer.PhraseIsSubstringIff`.
- `merge_patch` is described as RFC 7386. It keeps nulls of a patch object that meets a non-object:
  `MergePatch.NullUnderNewKey`, with the exact condition in `MergePatch.NodeFollowsRfcIff`.
- For archive ingest, an id must not become pending once the checkpoint under way has committed its shard, which
  can be well before the commit as a whole returns: `IdClaims.ExtendDuringCommitRunsAhead`, with the exact
  condition in `IdClaims.StepIsSafeIff`.
- A comment in `hll.rs` speaks of 4096 registers; the code, and the model, have 16384.
- The planner is right for any `min_date`; day alignment is not needed.

## Model

| member | source | states |
|---|---|---|
| `ReqPagination.Paginate` | crates/nostrsearch-indexer/src/scrape.rs:1957-2001 | Against every relay that answers with the newest min(C, n) events (ties cut at will), the loop ends; what it hands on is stored, inside the day and never repeated; it returns Ok if and only if the last request was answered, and then, if no second strictly inside the day holds more than a page, every event with start < created_at < end was delivered, and those at `start` too if the window of the last request fits a page |
| `ReqPagination.Digest` | crates/nostrsearch-indexer/src/scrape.rs:1976-1998 | One page: its unseen events are delivered once, and the loop stops or moves `until` to a smaller (until, not yet delivered) pair that keeps everything newer delivered |
| `ReqPagination.Ask` | crates/nostrsearch-indexer/src/scrape.rs:1967-1975 | The page a round works on is an honest answer for that `until`, the second request after an empty page included; a failed request gives no page |
| `ReqPagination.TakeUnseen` | crates/nostrsearch-indexer/src/scrape.rs:1980-1981 | Splits a page into the events whose id was not held yet, each once, and the ids held afterwards |
| `ReqPagination.PageCovers` | crates/nostrsearch-indexer/src/scrape.rs:1977-1998 | A page of the newest events holds every stored event between its oldest second and `until`, and the whole window when that fits a page |
| `ReqPagination.EmptyEnds` | crates/nostrsearch-indexer/src/scrape.rs:1971-1979 | After an empty answer the day is complete as promised |
| `ReqPagination.StalePage` | crates/nostrsearch-indexer/src/scrape.rs:1981-1987 | A page without unseen events lets `until` drop by one second, or ends the loop, without losing an event |
| `ReqPagination.NewPage` | crates/nostrsearch-indexer/src/scrape.rs:1988-1998 | A page with unseen events keeps the invariant when `until` moves to its oldest second |
| `ReqPagination.OverflowingSecondCanHide` | crates/nostrsearch-indexer/src/scrape.rs:1965-1999 | The page-size hypothesis is exact: as soon as one second strictly inside the day holds more events than a page, some honest relay that always answers never shows one of them |
| `NegentropyWindows.Sync` | crates/nostrsearch-indexer/src/scrape.rs:1847-1947 | For every pattern of answers, splits and failures: accepted windows always tile a suffix of [start, end), newest first; on Done they tile the whole day and `seen` is their sum; the answers to the windows asked decide the outcome: Done if and only if every answer is a reconciliation and every accepted window was fetched, plain requests if and only if the last one is a refusal, or an error with nothing accepted, failure if and only if it is an error after an acceptance, or an accepted window that was not fetched; accepted windows carry their own answers; a window that could be split is only taken below the ceiling; reconciliations are at most the hour windows plus twice the floors that fit in the day |
| `NegentropyWindows.EndsEarly` | crates/nostrsearch-indexer/src/scrape.rs:1866-1946 | A last answer that is not fine, after windows that were, ends the loop with the outcome its kind and the windows taken so far call for |
| `NegentropyWindows.HourWindows` | crates/nostrsearch-indexer/src/scrape.rs:1849-1857 | The initial stack tiles [start, end) with windows of at most an hour, newest on top |
| `NegentropyWindows.HalvingPays` | crates/nostrsearch-indexer/src/scrape.rs:1890-1897 | Splitting the top window keeps the tiling and is paid for by the reconciliations its width still allows |
| `NegentropyWindows.PopPays` | crates/nostrsearch-indexer/src/scrape.rs:1864-1864 | Taking the top window off leaves a tiling of what is below it and frees one reconciliation |
| `NegentropyWindows.TilingCost` | crates/nostrsearch-indexer/src/scrape.rs:1851-1897 | Everything a tiling can still cost is bounded by its windows plus twice the floors in its length |
| `NegentropyWindows.HonestTotal` | crates/nostrsearch-indexer/src/scrape.rs:1898-1898 | If every window presents exactly its own events, the sum over a tiling is the number of events of the day |
| `NegentropyWindows.SlotsAreQuotient` | crates/nostrsearch-indexer/src/scrape.rs:1890-1897 | The floors that fit into a length are its quotient, so the bound is the day length over the floor |
| `NegentropyWindows.ZeroFloorNeverEnds` | crates/nostrsearch-indexer/src/scrape.rs:1890-1897 | The floor of at least one second is needed: with floor 0 a one-second window stays on top after any number of reconciliations |
| `ScrapePlanner.OpenDays` | crates/nostrsearch-indexer/src/scrape.rs:1562-1583 | Lists exactly the unrecorded days of a block, each once, oldest first, for any floor date, day-aligned or not |
| `ScrapePlanner.WalkRelay` | crates/nostrsearch-indexer/src/scrape.rs:1547-1593 | The block walk ends from any cursor; it reports no day if and only if every day of the relay is recorded, and then parks; a picked day is open and in the block of the newest open day; the new cursor is truthful and never moves back, and no block offset overflows |
| `ScrapePlanner.PlanBatch` | crates/nostrsearch-indexer/src/scrape.rs:1498-1599 | All cursors stay truthful and monotone; at most one unit per relay and `limit` in all; every unit goes to a drawable relay for a day less than a block older than its newest open day; below the limit no drawable relay with work is left out |
| `ScrapePlanner.ReadyIff` | crates/nostrsearch-indexer/src/scrape.rs:1522-1545 | Which relays can be drawn, in their fields: not in flight, not shown to be no relay, past the time until which they count as dead, and past a wait after failures that doubles from two minutes up to an hour |
| `ScrapePlanner.DayIff` | crates/nostrsearch-indexer/src/scrape.rs:1245-1259 | The days a relay can be asked for are the whole UTC days that have ended by now, from the configured floor on |
| `ScrapePlanner.BackoffTable` | crates/nostrsearch-indexer/src/scrape.rs:1462-1467 | The waits after one to five failures, and an hour from the sixth on |
| `ScrapePlanner.EmptyPlanMeansFinished` | crates/nostrsearch-indexer/src/scrape.rs:1486-1497 | A batch is empty if and only if every drawable relay is finished |
| `ScrapePlanner.ParkedIsFinished` | crates/nostrsearch-indexer/src/scrape.rs:1474-1481 | A parked cursor means exactly that the whole range is done |
| `ScrapePlanner.CursorsOutliveRecords` | crates/nostrsearch-indexer/src/scrape.rs:1474-1481 | As records only grow, truthful cursors stay truthful |
| `ScrapePlanner.MidnightShiftsBlocks` | crates/nostrsearch-indexer/src/scrape.rs:1245-1259 | Why the clock is fixed: across midnight a cursor stays truthful if and only if the day that just ended is recorded |
| `ScrapePass.StepKeepsInv` | crates/nostrsearch-indexer/src/scrape.rs:1112-1220 | Planning, taking permits, claiming, launching, recording, clearing, releasing and panicking each keep the protocol invariant, and records only grow |
| `ScrapePass.PassIsSafe` | crates/nostrsearch-indexer/src/scrape.rs:1112-1220 | In every reachable state: at most `concurrency` units, no two running units on one relay, and every cursor k implies that blocks 0..k are recorded |
| `ScrapePass.NoDayIsRecordedTwice` | crates/nostrsearch-indexer/src/scrape.rs:1112-1220 | Over a whole pass no relay-day is recorded twice, nor one an earlier pass had recorded |
| `ScrapePass.EndLeavesNothingIff` | crates/nostrsearch-indexer/src/scrape.rs:1144-1175 | When a pass ends after its last plan came back empty, no drawable relay has a day left if and only if the relays which that plan found busy are finished |
| `ScrapePass.BusyPlanCanEndEarly` | crates/nostrsearch-indexer/src/scrape.rs:1144-1175 | A run, for every clock with two days to scrape, in which the planner finds the relay busy, its unit records its day and ends before the loop looks, and the pass ends with the relay's other day left |
| `UsageCut.TopByUsageWeight` | crates/nostrsearch-indexer/src/scrape.rs:1364-1401 | Keeps exactly the relays that have fewer than `min_keep` relays above them or whose betters do not carry the wanted weight; below 100% with some weight the result is the shortest ranked prefix reaching floor(total*p/100), or `min_keep` entries if that is more; it descends by advertisers and then by url, and carries that share of the advertised weight; at 100% or zero weight every relay stays, except those shown to be none |
| `UsageCut.KeptCarriesShare` | crates/nostrsearch-indexer/src/scrape.rs:1383-1398 | What is kept carries at least floor(total*p/100) of the weight of the advertised relays, the product saturating at 64 bits |
| `UsageCut.LessAtFirstDifference` | crates/nostrsearch-indexer/src/scrape.rs:1380-1380 | Urls compare at their first difference, a prefix before its extensions |
| `UsageCut.CutLength` | crates/nostrsearch-indexer/src/scrape.rs:1390-1398 | Returns the length of the shortest non-empty prefix that carries the wanted weight |
| `UsageCut.OrderIsIrrelevant` | crates/nostrsearch-indexer/src/scrape.rs:1364-1401 | The kept set does not depend on the order of the input |
| `UsageCut.PercentileOnlyAdds` | crates/nostrsearch-indexer/src/scrape.rs:1364-1401 | The kept set only grows with the percentile |
| `UsageCut.LowerEntriesRemoveNothing` | crates/nostrsearch-indexer/src/scrape.rs:1364-1401 | Adding entries that rank below a kept relay never removes it |
| `UsageCut.RankedDescends` | crates/nostrsearch-indexer/src/scrape.rs:1380-1380 | The ranking is a permutation of its input, strictly descending by advertisers and then by url |
| `Submission.IngestBatch` | crates/nostrsearch-server/src/submit.rs:968-1021 | A successful batch moves the counters by exactly the class of each line: future if and only if dated past the slack of its own clock reading, new if and only if it is the first valid copy in the batch, unknown to the store and stored by the archive, duplicate otherwise; what is offered are exactly the valid ids the store does not know; it fails exactly when a save fails |
| `Submission.ScreenAll` | crates/nostrsearch-server/src/submit.rs:903-966 | Each line gets its verdict at its own clock reading and is counted; the kept list is exactly the valid lines, in order |
| `Submission.DropRepeats` | crates/nostrsearch-server/src/submit.rs:977-985 | A valid line becomes a duplicate if and only if an earlier valid line has its id; the survivors have distinct ids, and the same ids as before |
| `Submission.DropKnown` | crates/nostrsearch-server/src/submit.rs:987-1002 | A surviving line becomes a duplicate if and only if the store knows its id; exactly the unknown ids go on |
| `Submission.CountSaved` | crates/nostrsearch-server/src/submit.rs:1004-1020 | A surviving line is counted as new if and only if the archive stored it, else as duplicate; the first failed save fails the batch |
| `Submission.CountsAddUp` | crates/nostrsearch-server/src/submit.rs:903-1021 | Counts that tally the first `cursor` records add up: the non-blank records are the sum of the seven classes |
| `Submission.FlushAccounts` | crates/nostrsearch-server/src/submit.rs:868-901 | A flush turns counts plus a pending batch into counts that tally exactly the first `cursor` records, by the evidence of clock, store and archive |
| `Submission.HeldIsNotAccounted` | crates/nostrsearch-server/src/submit.rs:743-791 | With a line still in the batch the counters do not tally the first `cursor` records |
| `Submission.NewOnlyOnce` | crates/nostrsearch-server/src/submit.rs:977-985 | No id is counted as new twice in a batch |
| `Submission.BatchIsCounted` | crates/nostrsearch-server/src/submit.rs:903-1021 | The class of a line is borne out: a future one is dated past the earliest clock reading's slack, a duplicate was offered or known, a new one was stored |
| `Submission.ReadHolds` | crates/nostrsearch-server/src/submit.rs:743-791 | Reading a record advances the cursor and places it in the counts or in the batch, and nowhere else |
| `SubmissionRuns.Process` | crates/nostrsearch-server/src/submit.rs:743-791 | What the loop meets decides how it ends: stopped if and only if the server stops it and the last batch is saved; finished if and only if it is not stopped at the end of a readable file and every batch is saved; broken if and only if a record is unreadable or the archive fails on a valid id the store does not know. It is a run of the state machine from the claimed job on; every record written on the way tallies its own cursor; after success or a graceful stop the file holds what is in memory |
| `SubmissionRuns.UndisturbedFinishes` | crates/nostrsearch-server/src/submit.rs:743-791 | A job that is never stopped, on a readable file and with an archive that saves, is finished and has read every record |
| `SubmissionRuns.ReloadResumes` | crates/nostrsearch-server/src/submit.rs:650-681 | A restart resumes unfinished work whose upload is there at the cursor and counters on disk, gives up only work whose upload is gone, interrupts a half upload, and leaves what had ended as it was |
| `SubmissionRuns.Flush` | crates/nostrsearch-server/src/submit.rs:868-901 | Writes the job record only for a batch that was ingested, and then it tallies its cursor; in the state machine these are an ingest, a capture and a write; fails exactly when the archive fails on a valid id the store does not know |
| `SubmissionRuns.StepKeepsJob` | crates/nostrsearch-server/src/submit.rs:650-791 | Upload, claim, stop, read, flush, requeue, finish, fail, capture, write, crash and reload keep what the in-memory job promises |
| `SubmissionRuns.StepKeepsDisk` | crates/nostrsearch-server/src/submit.rs:224-259 | The same steps, with job records captured and written by separate threads, late, out of order or never, keep what every record on disk or under way promises |
| `SubmissionRuns.AccountingSurvives` | crates/nostrsearch-server/src/submit.rs:743-791 | At every point of every run whose upload writes are quiet, a job file in Queued, Processing or Done counts exactly its first `cursor` records, each non-blank one in exactly one class, and that class is borne out by the clock, the store and the archive |
| `SubmissionRuns.DoneOffersEverything` | crates/nostrsearch-server/src/submit.rs:683-715 | A Done job has read its whole file, and every signed, non-ephemeral event that no clock reading of the job puts in the future was offered to the archive or found known |
| `SubmissionRuns.CaptureIsRightIff` | crates/nostrsearch-server/src/submit.rs:224-259 | A job record taken for writing tallies its cursor if and only if the job is not Processing with lines still in its batch |
| `SubmissionRuns.UnclaimedIsQuiet` | crates/nostrsearch-server/src/submit.rs:366-371 | If no worker claims a job whose upload has not yet written its record, every upload write is quiet |
| `SubmissionRuns.LateWriteLosesLines` | crates/nostrsearch-server/src/submit.rs:593-606 | A run in which a worker claims and reads between the upload's phase change and its write; after a crash the job ends Done with an event neither offered nor known |
| `AnalysisRegistry.ComputeStages` | crates/nostrsearch-stats/src/registry.rs:367-423 | Succeeds if and only if every dependency is registered and the graph is acyclic; each analysis stands at the length of its longest dependency chain, and no stage is empty at the top |
| `AnalysisRegistry.Fixpoint` | crates/nostrsearch-stats/src/registry.rs:378-415 | At most one sweep per analysis; the result stages everything, or the dependencies are unregistered or cyclic |
| `AnalysisRegistry.Sweep` | crates/nostrsearch-stats/src/registry.rs:379-410 | A sweep stages only analyses whose dependencies are staged; an idle sweep leaves a set that only waits on itself |
| `AnalysisRegistry.Look` | crates/nostrsearch-stats/src/registry.rs:384-406 | One analysis: an unregistered dependency, an unstaged one, or the stage right above its dependencies |
| `AnalysisRegistry.Reset` | crates/nostrsearch-stats/src/registry.rs:655-684 | Clears exactly the named analysis and its transitive dependents and nothing for an unknown name |
| `AnalysisRegistry.FindDoomed` | crates/nostrsearch-stats/src/registry.rs:660-674 | The worklist ends and holds exactly the descendants of the named analysis |
| `AnalysisRegistry.Visit` | crates/nostrsearch-stats/src/registry.rs:663-674 | Visiting one name adds its direct dependents once |
| `AnalysisGraph.StuckIsCyclic` | crates/nostrsearch-stats/src/registry.rs:408-415 | A set of analyses each waiting on another member contains a cycle |
| `AnalysisGraph.LevelsAreLongestChains` | crates/nostrsearch-stats/src/registry.rs:367-423 | Levels one above the highest dependency are lengths of longest chains |
| `AnalysisGraph.LevelledIsAcyclic` | crates/nostrsearch-stats/src/registry.rs:367-423 | A graph that can be levelled has no cycle |
| `ReplayPasses.Pipeline.PlanReplay` | crates/nostrsearch-indexer/src/pipeline.rs:546-597 | Puts every analysis in a pass, each pending one after its pending dependencies; the pass count is the longest pending chain (at least 1) and never above the stage count |
| `ReplayPasses.Pipeline.PlanFullBackfill` | crates/nostrsearch-indexer/src/pipeline.rs:599-605 | Plans every analysis, one pass per stage |
| `ReplayPasses.Pipeline.AdvancePass` | crates/nostrsearch-indexer/src/pipeline.rs:607-630 | Marks exactly the current stage backfilled and says whether another pass is left |
| `ReplayPasses.Pipeline.ResetAnalysis` | crates/nostrsearch-indexer/src/pipeline.rs:255-271 | Resets a name and its dependents and leaves the plan under way as it is |
| `ReplayPasses.RunsRespectDependencies` | crates/nostrsearch-indexer/src/pipeline.rs:546-630 | Over every interleaving of reset, plan and advance in which no pass finishes on a plan older than the last reset, the pending set stays closed under dependents, and when a pass begins all transitive dependencies of what it rebuilds are backfilled |
| `ReplayPasses.AdvanceKeepsClosedIff` | crates/nostrsearch-indexer/src/pipeline.rs:607-630 | Exactly when finishing a pass keeps the pending set closed: if and only if no analysis of the stage waits on a pending one outside it |
| `ReplayPasses.StalePlanBreaksClosure` | crates/nostrsearch-indexer/src/pipeline.rs:255-271 | A run in which a reset between two passes of one plan leaves a finished report over a pending base |
| `ReplayPasses.ResetKeepsClosed` | crates/nostrsearch-stats/src/registry.rs:655-684 | A reset keeps the pending set closed under dependents |
| `ReplayPasses.FreshIsReady` | crates/nostrsearch-indexer/src/pipeline.rs:546-630 | On a plan newer than the last reset the current pass may begin |
| `ReplayPasses.LastPassFinishes` | crates/nostrsearch-indexer/src/pipeline.rs:607-630 | After the last pass of a fresh plan nothing is pending |
| `ReplayPasses.PassesAreLongestChain` | crates/nostrsearch-indexer/src/pipeline.rs:546-597 | The number of passes is the length of the longest pending chain |
| `ReplayPasses.ReplayIsNoLonger` | crates/nostrsearch-indexer/src/pipeline.rs:546-597 | Replanning never takes more passes than there are stages |
| `MonthShards.ShardHoldsTimestamp` | crates/nostrsearch-core/src/shard.rs:28-62 | The month a timestamp is routed to contains it |
| `MonthShards.OnlyOneShard` | crates/nostrsearch-core/src/shard.rs:28-62 | No other month does |
| `MonthShards.RoutingIsMonotone` | crates/nostrsearch-core/src/shard.rs:28-37 | Later timestamps go to the same or later months |
| `MonthShards.NewYearClosedForm` | crates/nostrsearch-core/src/shard.rs:46-67 | The month-by-month calendar agrees with the Gregorian day count of every year |
| `MonthShards.MonthClosedForm` | crates/nostrsearch-core/src/shard.rs:46-67 | The same at the first of every month, so every month has its Gregorian length |
| `MonthShards.StartOfMonth` | crates/nostrsearch-core/src/shard.rs:46-51 | The first second of a month in closed form |
| `MonthShards.LeapIff` | crates/nostrsearch-core/src/shard.rs:46-67 | A leap year by its number alone |
| `MonthShards.NameInDigits` | crates/nostrsearch-core/src/shard.rs:78-80 | A name is four digits of the year, a dash and two of the month |
| `MonthShards.ShardsInRange` | crates/nostrsearch-core/src/shard.rs:100-125 | Every month from the first to the last, in order, each once: exactly the months that own a timestamp of [since, until), from the earliest shard to now where a bound is open; none for an empty range |
| `MonthShards.PruningIsExact` | crates/nostrsearch-core/src/shard.rs:100-125 | For a non-empty range the planned shards are precisely those that own some timestamp of it |
| `MonthShards.TouchedIsPlanned` | crates/nostrsearch-core/src/shard.rs:100-125 | No timestamp of the range is routed to an unplanned shard |
| `MonthShards.NameRoundTrips` | crates/nostrsearch-core/src/shard.rs:78-86 | Parsing a shard's name gives the shard back |
| `SearchFanOut.Search` | crates/nostrsearch-server/src/registry.rs:266-399 | For every corpus, every [since, until), every split of shards among workers and every shard answer that is a top-k of its own matches, the returned sort keys equal the first `limit` keys of a sorted naive scan. In fields: text hits descend by score and metadata hits by creation time, ids ascending among equal times; there are as many hits as the smaller of `limit` and the satisfying documents; no satisfying document left out has a higher score, or time, than a hit; and no document comes back more often than the corpus has it |
| `SearchFanOut.TopIsBest` | crates/nostrsearch-server/src/registry.rs:382-398 | Hits whose keys are the top `limit` of the matching keys are best in the fields of the documents |
| `SearchFanOut.FanOutRefinesScan` | crates/nostrsearch-server/src/registry.rs:308-397 | The same refinement for any permutation of the planned shards |
| `SearchFanOut.GatheredSuffices` | crates/nostrsearch-server/src/registry.rs:325-358 | Per-shard top-k loses nothing of the global top-k |
| `SearchFanOut.DealingIsIrrelevant` | crates/nostrsearch-server/src/registry.rs:324-333 | The matching keys held by a list of shards depend only on which shards they are, not on how they were dealt |
| `SearchFanOut.PlannedHoldAll` | crates/nostrsearch-core/src/query.rs:199-220 | The planned shards together hold every match of the time range, each once |
| `SearchFanOut.GatheredFromDocs` | crates/nostrsearch-server/src/registry.rs:325-358 | However the shards are dealt, no document is gathered more often than the corpus has it |
| `SearchFanOut.Merge` | crates/nostrsearch-server/src/registry.rs:382-398 | Sorting and truncating the gathered hits gives their top `limit`, in order of score or of time and id, taken from the gathered ones without repetition |
| `SearchFanOut.Worker` | crates/nostrsearch-server/src/registry.rs:329-349 | A worker gathers the answers of its shards in order |
| `SearchFanOut.FanOut` | crates/nostrsearch-server/src/registry.rs:325-358 | All workers' hits, concatenated |
| `TopHits.TopIsUnique` | crates/nostrsearch-core/src/scoring.rs:106-118 | The top-k keys are determined by the multiset of keys |
| `TopHits.PartialTopSuffices` | crates/nostrsearch-core/src/scoring.rs:106-118 | Replacing a part by its own top-k does not change the top-k of the whole |
| `TopHits.TruncateIsTop` | crates/nostrsearch-core/src/scoring.rs:106-118 | Truncating a descending list gives its top-k |
| `ReaderCache.OpenShards.Lookup` | crates/nostrsearch-server/src/registry.rs:241-250 | A hit is touched and returned, a miss changes nothing |
| `ReaderCache.OpenShards.Insert` | crates/nostrsearch-server/src/registry.rs:251-263 | After every insert the cache is exactly the `max_open` most recently touched distinct ids, `used` has the same keys, the id just inserted is present, and the reader another thread inserted first is kept |
| `ReaderCache.OpenShards.EvictToCapacity` | crates/nostrsearch-server/src/registry.rs:189-203 | Evicts down to capacity and keeps the most recent ids |
| `ReaderCache.OpenShards.Victim` | crates/nostrsearch-server/src/registry.rs:189-203 | The victim is the least recently touched id |
| `ReaderCache.OpenShards.Touch` | crates/nostrsearch-server/src/registry.rs:183-187 | A touch makes the id the most recent one |
| `ReaderCache.RecentIsUnique` | crates/nostrsearch-server/src/registry.rs:181-204 | Being the n most recently touched ids determines the set |
| `ReaderCache.EvictKeepsMostRecent` | crates/nostrsearch-server/src/registry.rs:189-203 | Dropping the least recently touched member keeps the most recent ones |
| `ReaderCache.TouchHit` | crates/nostrsearch-server/src/registry.rs:183-187 | Touching a cached id keeps the set exact |
| `ReaderCache.InsertSize` | crates/nostrsearch-server/src/registry.rs:251-263 | Inserting a missing id and evicting gives the size an exact LRU has |
| `ReaderCache.NewestStays` | crates/nostrsearch-server/src/registry.rs:189-203 | The id touched last is never evicted |
| `ShardCommits.StepKeepsInv` | crates/nostrsearch-indexer/src/shard_writer.rs:165-196 | Over every step of adds and commits: an uncommitted document is counted since the last reset or held by an add that has not returned, and the counter is exact |
| `ShardCommits.CommitsAreDurable` | crates/nostrsearch-indexer/src/shard_writer.rs:185-196 | Under every interleaving a commit that returns Ok makes durable every document whose add returned before the commit was called |
| `ShardCommits.ZeroMeansDurable` | crates/nostrsearch-indexer/src/shard_writer.rs:185-190 | A zero counter means that every returned add is durable, so skipping is safe |
| `ShardCommits.DurableStays` | crates/nostrsearch-indexer/src/shard_writer.rs:165-196 | Nothing durable is lost |
| `IdClaims.LiveStoreIsNeverAhead` | crates/nostrsearch-server/src/node.rs:288-402 | Over every run of the live writer, with failed commits, evictions, failed recordings, crashes and restarts, each recorded id has a durable document |
| `IdClaims.LiveStepKeepsInv` | crates/nostrsearch-server/src/node.rs:86-112 | Noted ids are durable or queued, and durable once the commit has succeeded |
| `IdClaims.IngestStoreIsNeverAhead` | crates/nostrsearch-indexer/src/archive_ingest.rs:380-405 | For archive ingest the same, in every run of safe steps |
| `IdClaims.IngestStepKeepsInv` | crates/nostrsearch-indexer/src/archive_ingest.rs:542-557 | Indexing, claiming, shard-by-shard commits, closing and crashes keep the ingest invariant |
| `IdClaims.StepIsSafeIff` | crates/nostrsearch-indexer/src/archive_ingest.rs:542-557 | The hypothesis is exact: a step keeps the invariant if and only if it makes no id pending that the checkpoint under way will not catch, and drops no shard with a document that is indexed, not durable and queued nowhere else |
| `IdClaims.ExtendBeforeTakeRunsAhead` | crates/nostrsearch-indexer/src/archive_ingest.rs:542-557 | A run: ids made pending between commit and take are claimed without a durable document, and a crash makes the hole permanent |
| `IdClaims.ExtendDuringCommitRunsAhead` | crates/nostrsearch-indexer/src/shard_writer.rs:365-402 | A run: the window opens with the first committed shard, not with the end of the commit |
| `IdClaims.AddWhileClosingIsLost` | crates/nostrsearch-indexer/src/shard_writer.rs:405-432 | A run: a document added between the commit and the removal in `close_shard` is dropped, and its id claimed |
| `Tokenizer.Tokenize` | crates/nostrsearch-core/src/tokenizer.rs:68-153 | The scan emits exactly the tokens of the run decomposition: one per word run, overlapping bigrams per continua run, a unigram for a lone continua character, each with its byte offsets, index and source slice |
| `Tokenizer.FlushCont` | crates/nostrsearch-core/src/tokenizer.rs:87-121 | A buffered run becomes its unigram or bigrams |
| `Tokenizer.FlushWord` | crates/nostrsearch-core/src/tokenizer.rs:76-85 | A word run becomes one token |
| `Tokenizer.SubstringIsPhrase` | crates/nostrsearch-core/src/tokenizer.rs:7-26 | For every text and every stretch of two or more continua characters, the stretch's own tokens occur in the text's stream at consecutive positions, starting at the stretch's byte offset |
| `Tokenizer.PhraseIsSubstringIff` | crates/nostrsearch-core/src/tokenizer.rs:16-22 | A phrase match is a substring match if and only if its neighbouring tokens overlap |
| `Tokenizer.PhraseAcrossSeparator` | crates/nostrsearch-core/src/tokenizer.rs:16-22 | A phrase match that is not a substring: `xy yz` matches `xyz` |
| `Tokenizer.TokensAreSlices` | crates/nostrsearch-core/src/tokenizer.rs:68-153 | Every token is the non-empty source slice at its offsets and its position is its index |
| `Tokenizer.NothingIsLost` | crates/nostrsearch-core/src/tokenizer.rs:123-153 | Every word or continua character lies inside some token |
| `Tokenizer.SpansMoveOn` | crates/nostrsearch-core/src/tokenizer.rs:102-118 | Consecutive tokens overlap by one character or not at all |
| `Tokenizer.Utf8LenIsShortest` | crates/nostrsearch-core/src/tokenizer.rs:95-111 | Offsets count bytes of the shortest UTF-8 form |
| `LmdbPages.Open` | crates/nostrsearch-server/src/strfry.rs:75-120 | In the bytes of the file: succeeds if and only if the magic is at 16, the page size at 40 is a power of two in range, the file holds three pages and one of the two meta pages is usable (magic, last page and root inside the file); the record it takes holds depth, entries and root at 94, 120 and 128 of the usable meta page with the highest transaction id |
| `LmdbPages.NewestInBytes` | crates/nostrsearch-server/src/strfry.rs:56-113 | The newest usable record, as bytes of the file |
| `LmdbPages.OpenableInSlots` | crates/nostrsearch-server/src/strfry.rs:75-113 | The files that can be opened, as bytes of the file |
| `LmdbPages.NewestMeta` | crates/nostrsearch-server/src/strfry.rs:92-113 | The loop over the two slots finds the newest usable record, if any |
| `LmdbWalk.DescendPage` | crates/nostrsearch-server/src/strfry.rs:148-216 | The recursive program with its node loop computes the walk on which the results below are proved, on any bytes, with every slice in bounds |
| `LmdbWalk.DescendNodes` | crates/nostrsearch-server/src/strfry.rs:176-215 | The node loop does the same from the first node |
| `LmdbWalk.AnyBytesStayWithin` | crates/nostrsearch-server/src/strfry.rs:136-216 | On any bytes the walk ends; unless it stopped for exceeding the budget it has visited no more pages than the file has, and never more than twice as many |
| `LmdbWalk.PageStaysWithin` | crates/nostrsearch-server/src/strfry.rs:148-216 | A page visit keeps the budget and only appends entries |
| `LmdbWalk.LeafStaysWithin` | crates/nostrsearch-server/src/strfry.rs:218-251 | So does an overflow read |
| `LmdbTree.WalkRefinesTree` | crates/nostrsearch-server/src/strfry.rs:136-216 | For every file whose pages represent a tree with distinct pages and disjoint overflow spans, the walk succeeds if and only if the height is at most the declared depth plus one and at most 64, and then emits exactly the leaf entries in order and visits exactly the tree's pages |
| `LmdbTree.TreeIsWalked` | crates/nostrsearch-server/src/strfry.rs:148-216 | The same below any page, from any state with enough budget, with a depth error otherwise |
| `LmdbTree.ItemIsTaken` | crates/nostrsearch-server/src/strfry.rs:188-210 | A stored item comes out as its key, flags and value; an overflow value above the limit comes out as absent |
| `LmdbTree.OverflowDecodes` | crates/nostrsearch-server/src/strfry.rs:218-251 | A stored overflow value is found with its span and its bytes |
| `LmdbTree.ChildIsFollowed` | crates/nostrsearch-server/src/strfry.rs:185-187 | A branch node leads to its 48-bit child page |
| `LmdbTree.FlagsByValue` | crates/nostrsearch-server/src/strfry.rs:14-20 | Which bits the page and node flags are, by value |
| `LmdbTree.PageIsInFile` | crates/nostrsearch-server/src/strfry.rs:122-134 | Page p is the page size of bytes from p times the page size on |
| `LmdbTree.OverflowIsInFile` | crates/nostrsearch-server/src/strfry.rs:245-250 | An overflow value starts behind the header of its first page and runs on across pages |
| `LmdbTree.EmptyTableIsSkipped` | crates/nostrsearch-server/src/strfry.rs:140-142 | A table without entries, or without a root, is walked without reading a page |
| `LmdbSound.WalkReadsTreesIff` | crates/nostrsearch-server/src/strfry.rs:136-216 | On any bytes, the walk of a table that is not empty succeeds with given entries if and only if the file holds a tree, at the root, within the declared depth and the page budget, that has these entries in order: nothing malformed is read |
| `LmdbSound.TreeIsRead` | crates/nostrsearch-server/src/strfry.rs:148-216 | The same below any page: a page walked without error is the root of a represented tree |
| `LmdbSound.BigIsHeld` | crates/nostrsearch-server/src/strfry.rs:195-206 | An overflow node that is taken holds an overflow value |
| `LmdbSound.InlineIsHeld` | crates/nostrsearch-server/src/strfry.rs:207-212 | A node that is taken beside its value holds it |
| `LmdbSound.LeavesAreHeld` | crates/nostrsearch-server/src/strfry.rs:176-215 | Every node of a leaf page walked without error holds an item |
| `MergePatch.MergePatchNode` | crates/nostrsearch-stats/src/delta.rs:37-51 | Editing the target entry by entry, in any order, gives the recursive merge |
| `MergePatch.MergePatchConsole` | dashboard/src/reports.ts:18-30 | Filling the copy entry by entry gives the value of section 2 of RFC 7386, and `undefined` for a null patch |
| `MergePatch.NodeFollowsRfcIff` | crates/nostrsearch-stats/src/delta.rs:37-51 | The node's merge is that of RFC 7386 if and only if the patch's sub-objects are null-free wherever they meet a non-object |
| `MergePatch.RfcIsIdempotent` | dashboard/src/reports.ts:18-30 | Re-applying a patch changes nothing |
| `MergePatch.NodeIsIdempotentIff` | crates/nostrsearch-stats/src/delta.rs:37-51 | On the node, re-applying changes nothing if and only if the patch is compatible with the target |
| `MergePatch.StayInStepIff` | crates/nostrsearch-server/src/reports.rs:78-96 | A console seeded from the node holds the same value after every patch of a stream if and only if every patch is compatible with the value it arrives at and none is null |
| `MergePatch.NullFreeStreams` | crates/nostrsearch-stats/src/delta.rs:23-25 | Patches that delete nothing always keep both in step |
| `MergePatch.NullUnderNewKey` | crates/nostrsearch-stats/src/delta.rs:37-51 | A deletion under a new key: the node keeps the null, the RFC does not |
| `MergePatch.ApplyDeltas` | crates/nostrsearch-server/src/reports.rs:78-96 | After applying a list of deltas every report is its old snapshot run through exactly its own patches in order |
| `Hll.MixIsBijective` | crates/nostrsearch-stats/src/hll.rs:50-55 | `mix64` is one-to-one and onto the 64-bit words |
| `Hll.RankIsBounded` | crates/nostrsearch-stats/src/hll.rs:93-99 | Ranks lie between 1 and 51 |
| `Hll.RankIff` | crates/nostrsearch-stats/src/hll.rs:92-99 | The rank says where the highest bit of the lower fifty is, and is 51 for none |
| `Hll.IndexIsTop` | crates/nostrsearch-stats/src/hll.rs:91-92 | The register is the top fourteen bits |
| `Hll.HashIsOfEightBytes` | crates/nostrsearch-stats/src/hll.rs:87-89 | The hash mixes the first eight bytes, read little-endian |
| `Hll.LeadingZerosIff` | crates/nostrsearch-stats/src/hll.rs:95-99 | A rank says where the highest of the remaining bits is |
| `Hll.Sketch.Insert` | crates/nostrsearch-stats/src/hll.rs:86-107 | Raises exactly the key's register to its rank and returns whether anything changed |
| `Hll.Sketch.Merge` | crates/nostrsearch-stats/src/hll.rs:111-117 | Register-wise maximum, also with itself |
| `Hll.SketchIsUnique` | crates/nostrsearch-stats/src/hll.rs:57-66 | A key set has one sketch |
| `Hll.InsertAddsKey` | crates/nostrsearch-stats/src/hll.rs:86-107 | Inserting into the sketch of a set gives the sketch of the set with the key |
| `Hll.PresentKeyIsIgnored` | crates/nostrsearch-stats/src/hll.rs:86-107 | Inserting a key of the set changes nothing |
| `Hll.OrderAndRepeatsDoNotMatter` | crates/nostrsearch-stats/src/hll.rs:86-107 | Streams with the same keys, in any order with any repeats, give the same registers |
| `Hll.MergeIsUnion` | crates/nostrsearch-stats/src/hll.rs:111-117 | Merging sketches of two sets gives the sketch of their union |
| `Hll.MergeIsConcatenation` | crates/nostrsearch-stats/src/hll.rs:111-117 | Sketching streams apart and merging is sketching them together |
| `Hll.MergeIsSemilattice` | crates/nostrsearch-stats/src/hll.rs:111-117 | Merge is associative, commutative and idempotent on any registers |
| `BitGroups.RegroupIsIdentity` | crates/nostrsearch-core/src/bech32.rs:37-50 | Padding to groups of five bits and regrouping into eight is the identity on every byte string |
| `BitGroups.SpreadAt` | crates/nostrsearch-core/src/bech32.rs:41-43 | Bits of each value come highest first |
| `Nip19.DecodeHex` | crates/nostrsearch-core/src/bech32.rs:21-59 | The program with its bit and TLV loops returns what the specification says, `None` for every malformed input |
| `Nip19.PayloadBits` | crates/nostrsearch-core/src/bech32.rs:37-44 | The bit loop yields the five bits of every character, or nothing if one is outside the alphabet |
| `Nip19.FindSpecial` | crates/nostrsearch-core/src/bech32.rs:62-73 | The TLV loop finds the first type-0 record of 32 bytes |
| `Nip19.KeyRoundTrip` | crates/nostrsearch-core/src/bech32.rs:52-54 | For every 32-byte value, decoding its `npub` or `note` gives its hex |
| `Nip19.HexReadsBack` | crates/nostrsearch-core/src/bech32.rs:75-77 | Reading the two digits of each byte gives the byte back |
| `Nip19.TlvEntityRoundTrip` | crates/nostrsearch-core/src/bech32.rs:55-56 | For every well-formed record list, decoding its `nprofile` or `nevent` gives the hex of the first type-0 record of 32 bytes, and nothing if there is none |
| `Nip19.TlvRoundTrip` | crates/nostrsearch-core/src/bech32.rs:62-73 | Searching the encoding of a record list finds the list's first such record |
| `Nip19.CaseDoesNotMatter` | crates/nostrsearch-core/src/bech32.rs:25-40 | Entities that differ only in case decode alike |
| `Nip19.CapitalsDecodeAlike` | crates/nostrsearch-core/src/bech32.rs:25-40 | An entity in capitals decodes like the original |
| `Nip19.TrimIsExact` | crates/nostrsearch-core/src/bech32.rs:22-22 | Exactly the white space at either end is trimmed |

## Left out

- Tantivy, RocksDB, nostr-sdk, zstd and chrono: a commit makes queued documents durable, a dropped writer loses them, the calendar is Gregorian without an upper year; nothing inside them is modelled.
- Floating point: scores are opaque and totally ordered (no NaN); the HLL estimate, recency, `adaptive_percentile` and rate meters are not modelled.
- HTTP routing, authentication, relay websockets, the firehose, streaming endpoints, memory reporting and the dashboard apart from `mergePatch`.
- The `new` counters, `info.cap` and live progress of `scrape_day`; retries of rate-limited requests.
- NIP-11 probing, relay retirement, URL-shape heuristics and language detection: single branches or foreign calls.
- Search: a shard that fails to open or to answer, an open-ended `until`, the order of hits with equal keys, snippets and hydration.
- The live pipeline, which feeds every stage at once, exactly-once folding across a cancelled replay, and watermark bounds: the code promises none of the staging claims there.
- Exactly-once indexing in archive ingest: repeats within one batch and across concurrent chunks are possible in the code.
- The order in which `reset` reports names, and `reset_all`, which adds no cascade.
- Upload limits, file removal, spill files and the wire format of job records; a record on disk is its phase, cursor and counts.
- Callbacks of the LMDB walk that fail, and the table, dictionary and payload layers above it: they would add single branches.
- Object keys that JavaScript treats specially (`__proto__`), and the report hook around `mergePatch`.
- Bech32 checksums, which the code skips, and non-ASCII input.
- Update in place and aliasing of `merge_patch`, `plan_batch` and `run_pass`: the models take and return values or states of a state machine.
- ReqPagination.Paginate: events at second `start` itself are promised only when the last window fits a page, because the loop stops once a page reaches `start`.
- SubmissionRuns.AccountingSurvives: assumes that upload writes are quiet; the run that breaks it and the exact condition are above.
- SubmissionRuns.DoneOffersEverything: the same assumption.
- SubmissionRuns.StepKeepsDisk: phase, cursor and counts of one record are taken at one instant, and two threads writing the shared temporary file at once do not corrupt it.
- MonthShards.NameRoundTrips: for years and months that fit the 32-bit fields being parsed.
- IdClaims.IngestStoreIsNeverAhead: assumes away the unsafe interleavings that no lock in the code excludes; each kind has its own run above.
- UsageCut.TopByUsageWeight: assumes distinct urls, as the relay table has them, and that advertised weights add up within 64 bits.
- ScrapePlanner.PlanBatch: assumes a fixed clock during a plan and distinct relay urls.
