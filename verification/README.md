# Verified model of the Laser SDK's reference engines, load engine and filters

This Dafny project models the parts of the Laser SDK repository where correctness is hardest to see and
proves what they promise:

- **Filtered reading.** Acknowledgment progress over pages (`Progress`), three-valued filter evaluation with
  header predicates first (`FilterEval`), pruned decoding (`FilterPaths`), the text form of field paths
  (`FieldPath`).
- **The load engine.** The open-loop scheduler (`Schedule`), exact arrival times (`Arrivals`), the accumulator
  (`LoadAccounting`), what a result must account for (`LoadEngine`), what each run must decide (`LoadPlans`) and the
  four run loops over it (`LoadRuns`).
- **The benchmark's other algorithms.** The correctness oracle (`Oracle`), the socket-dump parser (`Netlink`) and
  byte accounting on top of it (`ByteAccounting`), CPU lists (`CpuList`), the bootstrap interval (`Bootstrap`),
  redaction (`Redaction`), glob matching (`Glob`).
- **The reference engines of the behaviour suite.** Queries (`Query`), versioned keys (`Kv`), memory (`Memory`)
  and its content ids (`ContentId`), graph traversal (`Graph`), data-stack destinations (`Destinations`).

Objects that the source updates in place are classes whose methods are proved against specification functions or
against an invariant over a ghost history of the run. Loops stay loops. Concurrency in the load engine is an
input: before each decision an arbitrary set of tasks gives its permits back and an arbitrary set is joined, in any
order; in closed loops the order of completion is arbitrary. What a run decides is a function of that input, and the
theorems hold for every input. `Ordering` holds the sorting theory the engines share, `Octets`,
`Decimals`, `Json` and `Wrappers` the common values.

Where the code does not do what its documentation says, the model follows the code:

- Filter evaluation is documented to decode the payload only when the headers do not already decide. With two
  payload-reading children in one combination it can decode, and report a fault, although the headers decide
  (`FilterEval.NestedHeaderLoses`). `HeadersWinIff` gives the exact condition for every filter and headers,
  `LinearKeepsPromise` a class of filters that always meets it.
- Redaction masks the user information of a URL, but only when that holds no slash
  (`Redaction.UserMaskedIffNoSlash`).
- The bytes hashed for a content id separate owners, but not an owner from one that continues it with zero bytes
  (`ContentId.OwnersShareSeedIff`).

`dafny verify dfyconfig.toml` checks the whole project.

## Model

| member | source | states |
|---|---|---|
| `Progress.ValidatePage` | sdk/src/filters/reader.rs:1931-2052 | the validator's early returns and its loop over the records accept exactly the pages whose boundary, records and fault fit the request: both directions of the declarative `WellScanned` |
| `Progress.CheckRecords` | sdk/src/filters/reader.rs:2017-2028 | the loop that compares each offset with the previous one accepts exactly the strictly ascending records inside the scanned range |
| `Progress.PartitionProgress.constructor` | sdk/src/filters/progress.rs:52-65 | a new partition has nothing returned, queued or offered |
| `Progress.PartitionProgress.Record` | sdk/src/filters/progress.rs:116-164 | on any validated page: its records are new to the run, nothing becomes handled, the offer never moves back, reading continues after the page, and every invariant of the run is kept |
| `Progress.PartitionProgress.Settle` | sdk/src/filters/progress.rs:237-250 | retires exactly the completed prefix of pages; every offer it makes covers only finished records and no offer moves back |
| `Progress.PartitionProgress.CompleteRecord` | sdk/src/filters/progress.rs:167-172 | the named record of the named page becomes handled and no other; all invariants are kept |
| `Progress.PartitionProgress.CompletePage` | sdk/src/filters/progress.rs:206-211 | the open records of that page become handled and no others; all invariants are kept |
| `Progress.PartitionProgress.CompleteThrough` | sdk/src/filters/progress.rs:174-203 | refuses exactly an offset past the queued page and then changes nothing; otherwise marks earlier pages and the page through the offset, and an offset at least that high is on offer |
| `Progress.PartitionProgress.MarkStored` | sdk/src/filters/progress.rs:220-228 | storing any target handed out at any time in the run keeps the stored offset safe and monotone, and drops only that very offer |
| `Progress.PartitionProgress.Knows` | sdk/src/filters/progress.rs:101-106 | every sequence that delivered records stays known, and nothing before the first or after the last is |
| `Progress.AcknowledgmentsAreSafe` | sdk/src/filters/progress.rs:8-12 | in every reachable state neither the offer nor the stored offset covers an unfinished record; pages are queued exactly while records are open; with none open, everything scanned is on offer or stored |
| `Progress.ThroughIsExact` | sdk/src/filters/progress.rs:186-192 | completing through one of a page's own records marks exactly the open records up to it, across pages |
| `Progress.ClearedThrough` | sdk/src/filters/progress.rs:186-192 | after clearing through an offset no open record lies at or below it |
| `Progress.FreshRecords` | sdk/src/filters/reader.rs:2011-2028 | a validated page returns only records beyond everything returned, queued or offered before |
| `Progress.EnqueueKeeps` | sdk/src/filters/progress.rs:143-163 | folding an empty page into the newest one, or queueing it, keeps the whole run consistent |
| `Progress.PopKeeps` | sdk/src/filters/progress.rs:237-250 | a retired page's target covers only finished records |
| `FilterEval.EvaluateMeans` | wire/src/filter/eval.rs:539-585 | header-first, short-circuited evaluation over a decoded payload ends in the order-free three-valued meaning that `explain` folds |
| `FilterEval.CombineMeans` | wire/src/filter/eval.rs:566-585 | running children in any order until one decides gives the three-valued fold of those visited |
| `FilterEval.ChildOrderIsFree` | wire/src/filter/eval.rs:566-585 | `all` and `any` have the same truth for children in any order, with any repetition |
| `FilterEval.PruningIsInvisible` | wire/src/filter/eval.rs:1035-1050 | decoding only the paths collected from a filter changes neither its truth nor its mismatch flag, for every document |
| `FilterEval.CollectCovers` | wire/src/filter/eval.rs:1035-1050 | the trie collected from a filter keeps every path the filter reads |
| `FilterEval.AlikeRuns` | wire/src/filter/eval.rs:539-561 | a filter runs the same on two values that agree on the paths it reads |
| `FilterEval.FaultedRun` | wire/src/filter/eval.rs:539-585 | over an undecodable payload a run reports the payload's own fault, or what the headers settle |
| `FilterEval.FaultedAnswersAreSound` | wire/src/filter/eval.rs:297-301 | an answer given over an undecodable payload is the answer for every payload that could have been there |
| `FilterEval.HeaderFilterIgnoresPayload` | wire/src/filter/eval.rs:563-565 | a filter that reads no payload runs the same whatever the payload is |
| `FilterEval.HeaderFilterAnswers` | wire/src/filter/eval.rs:563-565 | it always answers, with its meaning, also over an undecodable payload |
| `FilterEval.HeadersWinIff` | wire/src/filter/eval.rs:274-275 | for every filter and headers, what the headers settle is answered over an undecodable payload if and only if the run does not need the payload, a condition on the filter and the headers alone |
| `FilterEval.FaultsIffStuck` | wire/src/filter/eval.rs:539-585 | over an undecodable payload a run faults if and only if some combination on its way meets a child that needs the payload before one the headers settle to the decisive truth |
| `FilterEval.AllKeepsPromiseIff` | wire/src/filter/eval.rs:566-585 | if all its children keep the promise, `all` keeps it exactly when a settled no-match does not stand behind a child the headers leave open |
| `FilterEval.AnyKeepsPromiseIff` | wire/src/filter/eval.rs:566-585 | the same for `any` and a settled match |
| `FilterEval.LinearKeepsPromise` | wire/src/filter/eval.rs:274-275 | filters with at most one payload-reading child per combination always keep that promise |
| `FilterEval.NestedHeaderLoses` | wire/src/filter/eval.rs:297-300 | with two payload-reading children it fails: the headers reject the record and the fault is reported all the same |
| `FilterEval.SettledMeans` | wire/src/filter/eval.rs:662-670 | what the headers settle is the meaning under every payload |
| `FilterPaths.InsertCovers` | wire/src/filter/eval.rs:1018-1032 | a path added to the trie is kept by it |
| `FilterPaths.InsertKeeps` | wire/src/filter/eval.rs:1018-1032 | adding a path never loses one the trie kept, also when a whole subtree is absorbed |
| `FilterPaths.PruneKeepsPaths` | wire/src/filter/eval.rs:1052-1134 | every path the trie covers reads the same from the pruned value as from the whole document, array positions and repeated keys included |
| `FilterPaths.PrunedItem` | wire/src/filter/eval.rs:1099-1113 | a kept array position stays where it was |
| `FilterPaths.PrunedMember` | wire/src/filter/eval.rs:1115-1133 | a kept key holds its last occurrence, pruned |
| `FieldPath.Parse` | wire/src/filter/path.rs:30-53 | accepts exactly the printed forms of well-formed paths within the byte and segment caps, and returns the one path each prints |
| `FieldPath.RenderReads` | wire/src/filter/path.rs:60-80 | every printed path reads back as itself |
| `FieldPath.ReadRenders` | wire/src/filter/path.rs:110-128 | whatever parses prints back as the same text, so no second spelling is accepted |
| `FieldPath.DisplayIsInjective` | wire/src/filter/path.rs:14-21 | one text form per path |
| `FieldPath.EscapeReads` | wire/src/filter/path.rs:130-161 | an escaped key followed by a segment boundary reads back as that key and stops at the boundary |
| `FieldPath.ReadKeySound` | wire/src/filter/path.rs:130-161 | a key that is read is the escape of the text it used and ends at a boundary |
| `FieldPath.IndexReads` | wire/src/filter/path.rs:163-181 | a printed 32-bit index reads back |
| `FieldPath.ParseKey` | wire/src/filter/path.rs:130-161 | the cursor loop reads exactly the key of the remaining text, with its errors |
| `FieldPath.ParseIndex` | wire/src/filter/path.rs:163-181 | the digit loop reads exactly the canonical 32-bit index of the remaining text, with its errors |
| `FieldPath.ParseSegments` | wire/src/filter/path.rs:110-128 | the segment loop reads the whole text or fails where the text stops being a path |
| `Decimals.CanonicalReads` | wire/src/filter/path.rs:174-176 | digits without a leading zero are exactly what the number prints as |
| `LoadRuns.RunOpenLoop` | bench/src/engine.rs:93-145 | whatever permits come back and whatever is joined before each arrival, the run makes exactly the planned decisions; it succeeds exactly when every dispatched task can be joined and recorded, then accounts for all of them, and otherwise names the failure of one; invalid input is refused exactly |
| `LoadRuns.RunOpenLoopFor` | bench/src/engine.rs:152-222 | the same at a fixed rate, over exactly ceil(duration * rate / 10^9) arrivals at their exact times; only more arrivals than 64 bits can number overflow |
| `LoadRuns.RunClosedLoop` | bench/src/engine.rs:229-258 | exactly the requested operations start, each with the planned tasks held, whatever the order of completion; success, account and failure as in the open loop |
| `LoadRuns.RunClosedLoopFor` | bench/src/engine.rs:267-312 | exactly the operations start whose reading of a forward-moving clock is before the deadline, each with the planned tasks held, whatever the order of completion and whether completions or the deadline wake the loop |
| `LoadRuns.JoinAll` | bench/src/engine.rs:393-413 | joining ready tasks in any order keeps the account: each dispatched task is joined once or still held; it fails only by the failure of a dispatched task |
| `LoadRuns.SettleTasks` | bench/src/engine.rs:107-112 | what gives its permit back and what is joined before a decision moves the pool as planned, and no task is lost or joined twice |
| `LoadRuns.OfferArrival` | bench/src/engine.rs:112-141 | an arrival is dispatched exactly when a permit is free and recorded at its own time either way |
| `LoadRuns.FindFirst` | bench/src/engine.rs:400-406 | the task awaited is the one that completes first |
| `LoadRuns.FillSlots` | bench/src/engine.rs:285-297 | slots are filled until every one is taken or the whole plan has started and the deadline is past |
| `LoadRuns.AwaitSlot` | bench/src/engine.rs:298-307 | the wait ends the run only once the whole plan has started; otherwise the first task to complete is joined and the next reading decides the next start |
| `LoadRuns.Drain` | bench/src/engine.rs:143-144 | after the last decision every task left is joined, and the result reports the whole plan |
| `LoadPlans.PermitRule` | bench/src/engine.rs:112-116 | at every decision: dispatched exactly when fewer than `max` permits are out, and never more than `max` are, where a permit is out when its task was dispatched earlier and has not given it back since |
| `LoadPlans.RuleDecides` | bench/src/engine.rs:112-116 | that rule leaves nothing open: decisions that follow it are dispatched as planned |
| `LoadPlans.SchedulerDecides` | bench/src/schedule.rs:129-163 | the open-loop scheduler, on the history of completions and polls that the run itself makes, decides the same and has the permits as its slots, whenever the polls come |
| `LoadPlans.TasksAreUnjoined` | bench/src/engine.rs:393-398 | the tasks of the pool are exactly those dispatched and not yet joined |
| `LoadPlans.InFlightIsUnjoined` | bench/src/engine.rs:112-141 | the number recorded with an arrival is that of the tasks dispatched so far, its own included, that are not joined |
| `LoadPlans.DecisionsDispatch` | bench/src/engine.rs:112-116 | the arrivals the decisions dispatch are exactly those that met a free permit |
| `LoadPlans.SlotsStayFull` | bench/src/engine.rs:244-248 | a closed loop never holds more than the concurrency, and from the first time on every start fills the last slot |
| `LoadPlans.FirstSlotsFill` | bench/src/engine.rs:285-297 | while readings stay before the deadline the first slots are filled one after the other |
| `LoadPlans.CountExists` | bench/src/engine.rs:284-308 | a clock that reaches the deadline makes the number of starts definite |
| `LoadPlans.TraceListsOfferedArrivals` | bench/src/trace.rs:31-88 | over whole seconds the trace and the open-loop run have the same arrivals: as many, and each at the same time |
| `LoadAccounting.LoadAccumulator.Finish` | bench/src/engine.rs:474-489 | the report splits the joined samples by outcome into two lists ascending by sequence number, and its counters, series and histogram sizes are those of the recorded history |
| `LoadEngine.FinishedAccounts` | bench/src/engine.rs:474-489 | once all dispatched tasks are joined, in whatever order, such a report accounts for the run |
| `LoadEngine.SuccessesSorted` | bench/src/engine.rs:474-476 | any ascending arrangement of the joined successes is the list in schedule order |
| `LoadEngine.FailuresSorted` | bench/src/engine.rs:474-476 | any ascending arrangement of the joined failures is the list in schedule order |
| `LoadEngine.AccountsBalance` | bench/src/engine.rs:343-489 | offered = dispatched + missed, dispatched = completed = successful + failed + timed out, histogram counts match, and every per-second series sums to its total |
| `LoadEngine.AccountsPartition` | bench/src/engine.rs:474-489 | both reported lists ascend, and together they name exactly the dispatched arrivals, each on one side |
| `LoadEngine.TallyPermutes` | bench/src/engine.rs:415-461 | per-second and total counts do not depend on the join order |
| `LoadEngine.JoinedIsExpected` | bench/src/engine.rs:415-461 | the joined samples are a permutation of those of the dispatched arrivals |
| `LoadAccounting.LoadAccumulator.constructor` | bench/src/engine.rs:354-366 | a new accumulator describes the empty history |
| `LoadAccounting.LoadAccumulator.RecordArrival` | bench/src/engine.rs:368-391 | totals, per-second points and peaks again describe the history with the arrival appended |
| `LoadAccounting.LoadAccumulator.RecordJoin` | bench/src/engine.rs:415-461 | fails exactly when a histogram cannot hold a value; otherwise the fields describe the history with the sample appended |
| `LoadAccounting.SeriesRecordsArrival` | bench/src/engine.rs:382-390 | updating one second's point keeps the whole series equal to the tallies of the history |
| `LoadAccounting.SeriesRecordsSample` | bench/src/engine.rs:431-437 | the same for a completed sample, in the second it completed in |
| `LoadAccounting.TotalUpdate` | bench/src/engine.rs:463-472 | the sum over the series changes by exactly what one point changes by |
| `Schedule.RunsAreSafe` | bench/src/schedule.rs:129-163 | over every history the slots are bounded and equal dispatches minus completions, and the decided arrivals are a prefix of the schedule at their scheduled times |
| `Schedule.CompletionsNeverShiftArrivals` | bench/src/schedule.rs:129-148 | which arrivals are decided depends on the poll times alone, never on completions or the slot bound |
| `Schedule.DrainedIsDue` | bench/src/schedule.rs:129-148 | polling until nothing is due decides exactly the due arrivals: the free slots take the first, the rest are missed |
| `Schedule.PollDecidesNext` | bench/src/schedule.rs:129-148 | a poll at or after the next arrival logs exactly that arrival, dispatched exactly when a slot is free |
| `Schedule.ReleasesFreeSlots` | bench/src/schedule.rs:155-163 | completions free that many slots and leave the log alone |
| `Schedule.IsMonotonic` | bench/src/schedule.rs:115-119 | comparing neighbours establishes the order of all pairs |
| `Schedule.OpenLoopScheduler.constructor` | bench/src/schedule.rs:120-125 | a new scheduler stands at the empty history |
| `Schedule.OpenLoopScheduler.New` | bench/src/schedule.rs:109-126 | refuses exactly a zero bound or a schedule out of order |
| `Schedule.OpenLoopScheduler.PollAt` | bench/src/schedule.rs:129-148 | the object's decision and next state are those of the state machine, which its history describes |
| `Schedule.OpenLoopScheduler.Release` | bench/src/schedule.rs:155-163 | fails exactly when nothing is in flight |
| `Arrivals.FixedArrivalIsExact` | bench/src/engine.rs:505-513 | for every sequence number and every 32-bit rate the split computation cannot overflow and equals floor(sequence * 10^9 / rate) |
| `Arrivals.TraceAgreesWithEngine` | bench/src/trace.rs:90-95 | wherever the trace's one-product computation succeeds it equals the engine's |
| `Arrivals.ArrivalBeforeDeadline` | bench/src/engine.rs:175-179 | an arrival is before the deadline exactly when its number is below ceil(duration * rate / 10^9) |
| `Arrivals.WriteSharedTrace` | bench/src/trace.rs:31-88 | succeeds exactly when duration, rate and payload are nonzero, the entry count fits 64 bits and so does the last arrival's product, and then lists every arrival at its exact time |
| `Arrivals.ArrivalsMonotone` | bench/src/engine.rs:505-513 | exact arrivals never decrease |
| `Oracle.CorrectnessOracle.constructor` | bench/src/correctness.rs:52-72 | a new oracle describes the empty history |
| `Oracle.CorrectnessOracle.Observe` | bench/src/correctness.rs:74-102 | the online state again describes the whole observed history |
| `Oracle.CorrectnessOracle.Finish` | bench/src/correctness.rs:105-109 | the summary is valid if and only if the history conforms: everything expected seen, nothing unknown, duplicates only where allowed, checksums intact, each partition in order |
| `Oracle.VerdictIffConforms` | bench/src/correctness.rs:32-39 | online verdict and declarative conformance agree, both ways, on every history |
| `Oracle.StateDescribes` | bench/src/correctness.rs:74-102 | seen, duplicate and unknown identifiers are those of the history |
| `Oracle.OrderDescribes` | bench/src/correctness.rs:93-101 | comparing with the last sequence seen finds exactly the partitions that are not strictly increasing |
| `Oracle.ChecksumsDescribe` | bench/src/correctness.rs:77-92 | no checksum failure is reported exactly when every record is intact, late arrivals included |
| `Oracle.InterleavingsAgree` | bench/src/correctness.rs:74-109 | histories that agree partition by partition get the same verdict however they interleave |
| `Netlink.ParseMessages` | bench/src/network.rs:369-391 | on any bytes the loop ends, every slice is in bounds, and the result is that of visiting the framed messages |
| `Netlink.ParseSocket` | bench/src/network.rs:401-434 | on any payload the attribute loop ends, and the result is that of visiting the framed attributes |
| `Netlink.ParsedSockets` | bench/src/network.rs:369-434 | a successful parse leaves each socket with the counters of its last information block, among the established sockets on the port before the first done message, and every other socket as it was |
| `Netlink.FramesOfEncoded` | bench/src/network.rs:369-391 | framing reads back every list of encodable items, in order and to the end |
| `Netlink.EncodedSocket` | bench/src/network.rs:401-434 | a socket message built from a fixed part and encoded attributes is visited attribute by attribute |
| `Netlink.DoneEndsTheVisit` | bench/src/network.rs:382-383 | nothing after the first done message is looked at |
| `Netlink.ShiftedFrames` | bench/src/network.rs:369-391 | framing looks only at what lies ahead |
| `Netlink.EncodedFrameReads` | bench/src/network.rs:474-477 | one encoded item is framed as itself and the next starts at the aligned end |
| `ByteAccounting.Measure` | bench/src/network.rs:144-200 | complete exactly when no counter moved back, no socket closed and one is left; then each counter is the saturated growth of its sum, in any iteration order |
| `ByteAccounting.SumGains` | bench/src/network.rs:149-172 | stops only where some counter moved back; otherwise holds the saturated gains of every socket |
| `ByteAccounting.MeasurementsTelescope` | bench/src/network.rs:144-200 | two complete neighbouring measurements make the outer one complete, with counters and total that are their saturating sums |
| `ByteAccounting.GainedIsGrowth` | bench/src/network.rs:149-172 | summing per-socket gains is the growth of the sums, sockets opened in between included |
| `ByteAccounting.CompleteComposes` | bench/src/network.rs:144-200 | completeness composes and growth adds up |
| `CpuList.ParseCpuList` | bench/src/host.rs:452-477 | accepts exactly the lists whose items are all numbers or ordered ranges, and returns the denoted CPUs ascending, each once |
| `CpuList.FormatCpuSet` | bench/src/ui.rs:243-269 | an ascending CPU list is printed as maximal runs that spell it out again |
| `CpuList.RunsOf` | bench/src/ui.rs:248-259 | the one-pass loop finds maximal runs whose expansion is the input |
| `CpuList.PrintedParsesBack` | bench/src/host.rs:452-477 | the printed text parses, and only to the printed list |
| `CpuList.PrintedItems` | bench/src/host.rs:454-455 | splitting and trimming the printed text gives back the printed ranges |
| `CpuList.InOrder` | bench/src/host.rs:452-477 | a set is yielded ascending, each member once |
| `Bootstrap.BootstrapMedian` | bench/src/analysis.rs:91-111 | the ends are those at the 2.5% and 97.5% ranks of the distribution the seed determines, ordered, with more than 95% of that distribution at or between them, and with the estimate inside every bound on the input |
| `Bootstrap.DistributionIs` | bench/src/analysis.rs:95-102 | that distribution is sorted and holds one resample median for each sample |
| `Bootstrap.DrawMedian` | bench/src/analysis.rs:96-100 | one resample draws as many values as there are, in the order of the generator, and yields their median |
| `Bootstrap.MedianIsCentral` | bench/src/analysis.rs:113-121 | a median lies between the two middle ranks |
| `Bootstrap.RanksCover95` | bench/src/analysis.rs:123-129 | the two ranks are ordered and more than 95% of the positions lie at or between them |
| `Bootstrap.ScrambleStaysNonzero` | bench/src/analysis.rs:138-147 | no step maps a nonzero state to zero, so the generator never gets stuck |
| `Bootstrap.XorShift64.constructor` | bench/src/analysis.rs:134-136 | the state is never zero, also for a zero seed |
| `Bootstrap.XorShift64.Index` | bench/src/analysis.rs:138-147 | the index is in range and the state stays nonzero |
| `Redaction.SanitizeObjectKernel` | bench/src/redaction.rs:29-40 | two values sanitize to the same object exactly when they hold the same allowed keys and agree under each up to what redaction hides: an exact account of what can leak |
| `Redaction.SanitizeKernel` | bench/src/redaction.rs:61-83 | the same for nested entries: sensitive keys hide everything, other values only their credentials |
| `Redaction.SanitizeObjectIdempotent` | bench/src/redaction.rs:29-40 | sanitizing twice is sanitizing once |
| `Redaction.SanitizeIdempotent` | bench/src/redaction.rs:61-83 | the same for nested entries |
| `Redaction.SanitizeStringKernel` | bench/src/redaction.rs:92-110 | two texts sanitize alike exactly when they are equal or differ only in slash-free user information |
| `Redaction.SanitizeStringIdempotent` | bench/src/redaction.rs:92-110 | masking a masked text changes nothing |
| `Redaction.SplitTakesUser` | bench/src/redaction.rs:92-110 | what is masked is user information without a slash |
| `Redaction.SplitFindsUser` | bench/src/redaction.rs:92-110 | any user information without a slash is masked |
| `Redaction.UserMaskedIffNoSlash` | bench/src/redaction.rs:92-110 | the user information of a URL is masked as a whole if and only if it holds no slash |
| `Redaction.SlashLeavesUserReadable` | bench/src/redaction.rs:97-103 | user information with a slash before its at-sign stays readable |
| `Glob.MatchTokens` | bench/benches/glob.rs:85-115 | the two-pointer loop that retries only the latest star accepts exactly the texts that split into accepted pieces, within (tokens + 1) * (text + 1) steps |
| `Glob.GlobMatches` | bench/benches/glob.rs:81-115 | a malformed pattern matches nothing; any other matches exactly the texts its tokens accept as a whole |
| `Glob.GlobTokens` | bench/benches/glob.rs:65-77 | the tokenizer loop reads the tokens of the pattern or fails |
| `Glob.TokenizeSpell` | bench/benches/glob.rs:65-77 | every token list has a pattern, so escapes can spell any literal |
| `Glob.TokenizeFailsIffDangling` | bench/benches/glob.rs:65-77 | tokenizing fails exactly when the pattern ends in an odd run of backslashes |
| `Glob.MatchesIffAccepts` | bench/benches/glob.rs:85-115 | the recursive reading of a glob is the declarative one |
| `Glob.ProgressAtStar` | bench/benches/glob.rs:90-93 | a newer star supersedes every older one |
| `Glob.ProgressAtMismatch` | bench/benches/glob.rs:102-109 | a mismatch either lets the latest star absorb one more character or refutes the match |
| `Glob.CompiledGlobAgrees` | wire/src/filter/text.rs:168-196 | the regular expression built for a glob accepts exactly the texts the glob accepts, hence what the matcher decides |
| `Query.QueryEngine.constructor` | bdd/python/reference.py:148-152 | a new engine has no index |
| `Query.QueryEngine.Insert` | bdd/python/reference.py:153-154 | a row is appended to its index and to no other |
| `Query.QueryEngine.Execute` | bdd/python/reference.py:156-179 | a page is the right slice of the one ordered answer, with the total and whether more follow; an unknown index gives an empty page |
| `Query.AnswerIsStableOrder` | bdd/python/reference.py:165-168 | sorting by the keys from last to first gives the unique stable arrangement in lexicographic key order |
| `Query.ReadAll` | bdd/python/reference.py:156-179 | following pages reads the whole answer once, in order, and ends |
| `Query.CompareTrichotomy` | bdd/python/reference.py:118-145 | against a comparable bound exactly one of less, equal, greater holds; against an incomparable one every operator fails, not-equal too |
| `Query.OrdersArePreorders` | bdd/python/reference.py:191-196 | every sort key, descending ones included, is a total preorder over numbers, texts and missing fields |
| `Ordering.PassesAreOneSort` | bdd/python/reference.py:165-168 | successive stable sorts are one stable sort by the lexicographic order |
| `Ordering.StableSortUnique` | bdd/python/reference.py:165-168 | there is only one sorted arrangement that keeps ties in order |
| `ContentId.HashLoop` | bdd/python/reference.py:285-291 | the loop over salt and data computes the salted pass |
| `ContentId.OneByteChangesHash` | bdd/python/reference.py:285-291 | one changed byte always changes the hash |
| `ContentId.SaltsSeparate` | bdd/python/reference.py:285-291 | differently salted passes over the same data never agree |
| `ContentId.AbsorbInjective` | bdd/python/reference.py:288-290 | one step loses nothing: the prime is invertible modulo 2^64 |
| `ContentId.SegmentsAreConcatenation` | wire/src/hashing.rs:10-31 | hashing segment by segment is hashing the concatenation |
| `ContentId.Crockford` | bdd/python/reference.py:294-301 | the in-place loop writes the 26 base-32 digits, most significant first |
| `ContentId.DigitsOrder` | bdd/python/reference.py:294-301 | rendering is injective, and lexical order is numeric order |
| `ContentId.IdsEqualIffHalvesEqual` | bdd/python/reference.py:304-319 | two ids are equal exactly when both halves of the hash are |
| `ContentId.OneByteChangesId` | bdd/python/reference.py:304-319 | bodies of one owner and kind that differ in one byte never share an id |
| `ContentId.HalvesDiffer` | bdd/python/reference.py:304-319 | the two halves of an id never coincide |
| `ContentId.SeedDetermines` | bdd/python/reference.py:304-316 | for one owner the hashed bytes tell kinds and bodies apart |
| `ContentId.OwnersShareSeedIff` | bdd/python/reference.py:304-316 | two owners can produce the same hashed bytes if and only if one continues the other with zero bytes, three of them or to its end |
| `Memory.MemoryEngine.constructor` | bdd/python/reference.py:323-332 | a new store is empty |
| `Memory.MemoryEngine.Remember` | bdd/python/reference.py:333-343 | a deduplicated body is kept once under its content id; any other goes under an id salted by a fresh count |
| `Memory.MemoryEngine.Improve` | bdd/python/reference.py:348-349 | feedback of one memory grows by the weight and no other changes |
| `Memory.MemoryEngine.Forget` | bdd/python/reference.py:351-352 | exactly that id is forgotten |
| `Memory.MemoryEngine.Recall` | bdd/python/reference.py:354-359 | the first bodies of the one ranking of live memories by feedback, then recency |
| `Memory.RanksAreRanking` | bdd/python/reference.py:354-359 | reversing and stable-sorting by descending feedback ranks by feedback, then recency, with nothing lost or repeated |
| `Memory.RankingIsUnique` | bdd/python/reference.py:354-359 | there is only one such ranking, so recall leaves nothing open |
| `Memory.RanksProject` | bdd/python/reference.py:354-359 | ranking items and ranking positions agree |
| `Graph.GraphEngine.constructor` | bdd/python/reference.py:378-388 | a new graph is empty |
| `Graph.GraphEngine.UpsertNode` | bdd/python/reference.py:389-394 | re-adding a value is the same node, and the first value and the first source under an id stay |
| `Graph.GraphEngine.AddEdge` | bdd/python/reference.py:396-401 | edges accumulate, and the last source of an edge replaces earlier ones |
| `Graph.GraphEngine.NodeSource` | bdd/python/reference.py:406-407 | a node's source is that of the first sourced record it was seen in, over the whole run |
| `Graph.GraphEngine.EdgeSource` | bdd/python/reference.py:409-411 | an edge's source is that of the last sourced record that asserted it, over the whole run |
| `Graph.GraphEngine.Traverse` | bdd/python/reference.py:413-428 | the sorted, distinct values of exactly the known nodes at the end of a path along the hops, valid at the instant |
| `Graph.GraphEngine.Step` | bdd/python/reference.py:417-427 | one hop's frontier is exactly the far ends of the edges that take it |
| `Graph.ReachesIffReversed` | bdd/python/reference.py:413-428 | a node is reached exactly when the start is reached back along the reversed hops |
| `Graph.ReachesMonotone` | bdd/python/reference.py:368-374 | more edges, or no instant, only add reachable nodes |
| `Graph.ReachesOneMore` | bdd/python/reference.py:413-428 | one hop more extends every path by one stop |
| `Kv.KvEngine.constructor` | bdd/python/reference.py:244-251 | a new namespace is empty |
| `Kv.KvEngine.Put` | bdd/python/reference.py:258-261 | a write commits the next version of the live entry, 1 over an absent or dead one |
| `Kv.KvEngine.CompareAndSwap` | bdd/python/reference.py:263-271 | commits exactly when the live version is the expected one, else reports it and changes nothing |
| `Kv.LazyIsEagerIff` | bdd/python/reference.py:252-256 | no outcome of a run can tell entries left dead from entries deleted at expiry exactly when no call comes too early: none has a time before the expiry of an entry that an earlier call found dead and nobody has rewritten since |
| `Kv.LazyIsEager` | bdd/python/reference.py:252-256 | while time does not move back, no outcome can tell entries left dead from entries deleted at expiry |
| `Kv.LazyDiffersWhenTimeMovesBack` | bdd/python/reference.py:252-256 | a run whose time moves back and in which a dead entry comes alive again, so that the outcomes differ |
| `Kv.VersionsCountUp` | bdd/python/reference.py:258-261 | within one lifetime of a key, n commits after one that returned v the key holds v + n |
| `Kv.LifetimeCountsFromOne` | bdd/python/reference.py:244-261 | the versions of a lifetime are 1, 2, 3 and so on, from the first commit on the key or the first over an expired entry |
| `Kv.RepeatedVersionNeedsExpiry` | bdd/python/reference.py:258-261 | two commits that return the same version are separated by an expiry |
| `Kv.OneWinnerPerExpectation` | bdd/python/reference.py:263-271 | in one lifetime of a key at most one compare-and-swap wins per expectation |
| `Destinations.DataStackModel.constructor` | bdd/python/reference.py:19-27 | a new model has revision 0, no destination and no error |
| `Destinations.DataStackModel.RegisterName` | bdd/python/reference.py:29-40 | accepted exactly on the current global revision; the state moves by the specified step |
| `Destinations.DataStackModel.EnableName` | bdd/python/reference.py:42-56 | accepted exactly on the current global and definition revisions; the state moves by the specified step |
| `Destinations.DataStackModel.RecordGapAt` | bdd/python/reference.py:58-67 | raises on an unknown name, refuses a gap that is none, and otherwise moves by the specified step |
| `Destinations.DataStackModel.AcceptGapAt` | bdd/python/reference.py:69-81 | raises on an unknown name, refuses a stale checkpoint or a non-advancing offset, and otherwise moves by the specified step |
| `Destinations.DataStackModel.SeedQuery` | bdd/python/reference.py:83-86 | a query starts at its first row, not cancelled |
| `Destinations.DataStackModel.ReadPage` | bdd/python/reference.py:88-98 | consecutive pages tile the rows, the cursor disappears at the end, and a cancelled query yields nothing and stays put |
| `Destinations.RevisionCountsAccepted` | bdd/python/reference.py:16-108 | over every run the global revision counts the accepted mutations |
| `Destinations.OneWinnerPerRevision` | bdd/python/reference.py:103-108 | a given expected global revision admits at most one register or enable in a whole run |
| `Destinations.RevisionsAreConserved` | bdd/python/reference.py:29-81 | the live destinations account for at most the global revision, and for all of it if and only if no name was registered twice |

## Left out

- Reading loops, group membership, waits, retries and the network side of the filtered reader; the fields that identify group, history and owner are one value.
- Progress.ValidatePage: the equality checks on version, partition, policy, cursor identity and unevaluated offsets are left out; the model keeps the checks on the scan boundary, the records and the fault.
- Progress.PartitionProgress.Record: the blocked reason, the retry time and the wait offset it also updates are not modelled.
- Filter leaves: scalar comparison, coercion and text matching are arbitrary functions of the value at a path or of the headers, so every theorem holds for all of them; decode limits are one fault value.
- Whether a mismatch was seen can depend on the order of children, because short-circuiting skips some; the model says only that pruning does not change it.
- FilterPaths.PruneKeepsPaths: array positions are unbounded; the source's saturation of positions past 2^32 - 1 is not modelled.
- FieldPath.Parse: text is a sequence of characters, of which the source reads the UTF-8 bytes; the four error messages for malformed text are one value.
- Glob.CompiledGlobAgrees: the regular-expression engine is its language; concrete syntax and case-insensitive matching are not modelled.
- Waiting for arrivals, clocks and task spawning in the load engine: a clock reading is a parameter and a task is its outcome.
- LoadRuns.RunClosedLoopFor: the clock is a sequence of readings that never moves back and reaches the deadline, and the sleep until the deadline ends only once a reading has passed it.
- LoadAccounting.LoadAccumulator.RecordJoin: a histogram is the number of values it holds, and which values fit is a parameter; percentiles are not modelled.
- Recorded peaks of tasks in flight count finished tasks not yet joined, as the source does, so in open loops they may exceed the permit bound; the bound is on permits.
- 64-bit overflow of counters that only count events, `VirtualClock`, and the floating-point Poisson schedule generator.
- Arrivals.WriteSharedTrace: the written bytes and their digest are not modelled, only their checked sizes.
- Oracle.CorrectnessOracle.Finish: the list of missing identifiers is a set, and the debug assertion is not modelled.
- Netlink.ParseSocket: the counters are an arbitrary function of an attribute's bytes; opening sockets, sending requests and receiving are not modelled.
- ByteAccounting.Measure: which of several reasons is reported depends on the iteration order, which is arbitrary here.
- Bootstrap.BootstrapMedian: values are reals, so rounding, infinities and not-a-number are not modelled.
- Redaction of captured environment variables, which applies the modelled rules to each allowed one.
- Query.QueryEngine.Execute: aggregates are not modelled, and the reading of a text as a number is a parameter.
- The hash behind the graph's node ids, which is a parameter.
- Memory.MemoryEngine.Recall: bodies stay bytes; decoding them as text is not modelled.
- The command line, reports, host inspection, server processes, the foreign-language SDKs and the wire codecs of the repository.
