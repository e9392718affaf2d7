# River levels: a verified model

This project models the stateful and algorithmic parts of the river-level pipeline in
Dafny and proves what they promise. One module stands for one component:

- `RdnsPool`, `RdnsCache`, `RdnsHistory`: reverse-DNS lookups with daemon worker threads
  under a deadline, the cache with exponential backoff, its file, and whole runs of
  calls, failing saves, restarts, loads and evictions. Threads are interleaved steps;
  every schedule is covered.
- `CalcOrder`, `CalcText`, `CalcExpr`, `CalcPass`: calculated gauges. How references are
  read, the topological order, the textual substitution of references, the whitelisted
  evaluator, and a pass that writes into the store it reads from.
- `CalcMeaning`, `CalcReading`: what an expression means, as a relation that computes
  nothing, and what a turn reads, stores and refreshes in an author's terms.
- `CalcFixpoint`, `CalcNecessity`, `CalcExamples`: when one pass settles that store, why
  the condition cannot be weakened, and three stores that a further pass changes.
- `RegressionFormula`, `RegressionRewriting`: the expression text generated from a fitted
  regression, and what the calculator makes of it.
- `Thinning`, `ThinningKept`, `Decimate`, `ThinningHistory`: hourly and six-hourly thinning
  of the observation table, what a run leaves in minutes and seconds, and whole histories
  of inserts and runs.
- `RatingTable`, `RatingMonotone`, `RatingFill`: interpolation in a rating table, when its
  rounding keeps the order, and the cross-fill of gauge heights and flows.
- `RangeIndex`: bisect lookup of addresses in published network lists.
- `TextOrder`, `PaddedNumber`, `SortName`: the composite text key gauges are sorted by.
- `ReachWalk`, `GradientBins`, `GradientWalk`, `GradientProfile`: resampling a reach, binning
  its elevations, walking the bins for significant gradients, and what the profile says.
- `Observations` (rows, acceptance, newest-row rollups), and `Common`, `Rounding`,
  `Decimal`, `Multiples` are shared vocabulary.

Code that changes state is modelled by classes and loops proved against specification
functions; the lemmas are about those functions, and say in terms of the inputs alone what
each of them returns.

Some properties one might expect do not hold of the code. Each has a lemma with the
input that breaks it, or the exact condition under which it holds:

- Eviction after 182 unseen days forgets the failure count (`RdnsHistory.EscalationSurvivesIff`),
  and a failed save forgets the backoff (`RdnsHistory.FailedSaveForgetsIff`). Neither can cause
  a probe earlier than promised while saves succeed.
- References of four or more parts are read but not ordered (`CalcOrder.FourPartsOrderNothing`);
  an empty gauge name can stop the sort without a cycle (`CalcOrder.CircularIff`,
  `CalcOrder.EmptyNameBlocks`); an author's own `_v0` takes a reference's value, and only such
  names do (`CalcExpr.NameKeptIff`); `greatest` and `least` are not understood with a blank
  before their parenthesis (`CalcExpr.AliasUnderstoodIff`, `CalcExpr.SpacedGreatestFails`).
- A second pass of the calculator can change the store: a source that adds one to its own
  series moves on with every pass (`CalcExamples.SelfReadDrifts`), and one linked to a second
  gauge shows there only after the second pass (`CalcExamples.SharedGaugeUnsettled`).
  `CalcNecessity.SettlesIff` says exactly when this cannot happen with any expressions, rows
  and caches, stale caches included. The clock alone can change the store, too
  (`CalcExamples.PreviousLeaves`); `CalcFixpoint.LaterPassIdleIff` says exactly when.
- With recent_days above archive_days the dry run counts rows that are never deleted
  (`Thinning.DryRunExactIff`), and recent rows are thinned (`Thinning.RecentKeptIff`).
- Rounded interpolation in a rising table can fall at its ends, which are not rounded
  (`RatingMonotone.RoundedMonotoneIff`, `RatingTable.RoundedEndDips`).
- A flow observed between the clock readings of the two queries can be overwritten by a
  rated one (`RatingFill.OverwritesIff`, `RatingFill.SliverOverwrites`).
- Looking only at the last range that starts before an address misses addresses of an
  enclosing network (`RangeIndex.CompleteIff`, `RangeIndex.NestedListMisses`).
- Gauges above 10000 feet sort the wrong way round (`SortName.UpstreamFirstIff`), and seven-digit
  numbers out of order (`SortName.SixDigitsIff`).
- The last elevation sample can be in no bin and a sample on a boundary in two
  (`GradientBins.LastSampleLostIff`, `GradientBins.CountedTwiceIff`); a window of the full
  length is never tried (`GradientWalk.FullLengthNeverSignificant`).

Where code and documentation differ the model follows the code: the profile search stops
short of the documented maximum window, `build_sort_name` uses 999999 where its comment
says 15000, bins reach 1e-9 miles beyond their documented end, and a drop equal to the
noise threshold already counts as significant.

Check everything with `dafny verify dfyconfig.toml`.

## Model

| member | source | states |
|---|---|---|
| RdnsPool.InvNext | src/kayak/analytics/humans.py:277-287 | every critical section of every worker keeps the pool invariant: the dequeue log followed by the queue is the target list, answered ⊆ started ⊆ dequeued, no address is held by two workers, and a dequeued address without an answer is held by one |
| RdnsPool.InvRun | src/kayak/analytics/humans.py:270-307 | the invariant holds at the snapshot of every interleaving |
| RdnsPool.Snapshot | src/kayak/analytics/humans.py:252-307 | for every interleaving and deadline: no address is dequeued twice, answered ⊆ started ⊆ targets, at most one lookup per worker is stuck, and when all workers have returned all targets are answered |
| RdnsPool.NamesAreReplies | src/kayak/analytics/humans.py:270-307 | for every interleaving: an address is answered with a name if and only if a worker published that name for it, the name published is the one that worker's resolver replied before, and an address is started if and only if a worker marked it |
| RdnsPool.EveryAnswerPossible | src/kayak/analytics/humans.py:274-307 | with at least one worker and for any names the resolver may reply there is an interleaving that ends with every worker returned and exactly the targets answered, each by its name |
| RdnsPool.ResolveParallel | src/kayak/analytics/humans.py:252-307 | the in-place queue, thread states, `started` and `resolved` follow the interleaving step by step; what is returned is the snapshot, whose names are the replies by `RdnsPool.NamesAreReplies` |
| RdnsCache.IntervalDoubles | src/kayak/analytics/humans.py:126-143 | the retry window is seven days after the first black-hole and doubles with each further one, up to 182 days |
| RdnsCache.Cache.Store | src/kayak/analytics/humans.py:171-178 | setdefault per dictionary: only the given address changes, and nothing already known about it is replaced |
| RdnsCache.Cache.LoadFromDisk | src/kayak/analytics/humans.py:181-217 | loads at most once per process; each address gets its parsed entry unless it is unreadable or older than 182 days |
| RdnsCache.Cache.Save | src/kayak/analytics/humans.py:220-240 | exactly the cached addresses with a last-seen stamp are written, in the two- or four-element form |
| RdnsCache.Cache.Prepare | src/kayak/analytics/humans.py:329-345 | every address of the call is stamped as seen, and the targets are the unattempted ones that are uncached or past their retry time |
| RdnsCache.Cache.Settle | src/kayak/analytics/humans.py:351-365 | answers clear the backoff, started but unanswered addresses are escalated, all others stay |
| RdnsCache.Cache.WarmRdns | src/kayak/analytics/humans.py:310-366 | the whole call: the four dictionaries, the attempted set and the saved file afterwards, address by address, for every interleaving of the workers |
| RdnsCache.NamesAfterCall | src/kayak/analytics/humans.py:347-357 | after the call the name of every address a worker published is the one its resolver replied, and its backoff is gone |
| RdnsCache.StoredShapes | src/kayak/analytics/humans.py:147-178 | what a new process makes of each shape in the file: a bare name, a pair, three and four elements, and anything else |
| RdnsCache.SavedShapes | src/kayak/analytics/humans.py:220-240 | what each kind of slot is in the file: nothing without name or stamp, a pair, or four elements with a count of 1 if none is known |
| RdnsCache.Targets | src/kayak/analytics/humans.py:340-345 | the targets are exactly the addresses of the call that qualify |
| RdnsCache.LoadCoherentIff | src/kayak/analytics/humans.py:147-178 | a stored value loads into a coherent slot (negative exactly with retry time, count and empty name) if and only if its kept entry is coherent |
| RdnsCache.SaveLoadRoundTrip | src/kayak/analytics/humans.py:147-242 | saving and loading in a fresh process gives back all four maps, restricted to addresses seen within 182 days |
| RdnsCache.PoolFacts | src/kayak/analytics/humans.py:270-345 | only targets are looked up, at most one per worker is stuck, and if all workers return exactly the targets are answered |
| RdnsCache.SettledByFate | src/kayak/analytics/humans.py:349-365 | a call affects an address only through its own fate, and only targets have one |
| RdnsCache.WarmPenalisesExactlyStuck | src/kayak/analytics/humans.py:341-366 | started but unanswered addresses are penalised, answered ones cleared, never-started ones keep name and backoff |
| RdnsHistory.SoundAlways | src/kayak/analytics/humans.py:147-242 | in every reachable world retry times and counts have the same keys, all cached with an empty name; with successful saves file and memory agree |
| RdnsHistory.FailCountIsStreak | src/kayak/analytics/humans.py:351-366 | the recorded failure count is the number of black-holes in a row, counted from the run itself |
| RdnsHistory.ShieldStep | src/kayak/analytics/humans.py:181-217 | no single step, loads and evictions included, looks a backed-off address up early or loses its backoff |
| RdnsHistory.NoEarlyProbe | src/kayak/analytics/humans.py:126-143 | over every run with successful saves, an address black-holed at T for the n-th time in a row is not looked up before T + min(7 d·2^(n-1), 182 d) |
| RdnsHistory.BackoffIsReached | src/kayak/analytics/humans.py:340-365 | the bound is reached for every n: a run in which an address black-holes for the n-th time in a row at T and is looked up again, in a later process, at T + min(7 d·2^(n-1), 182 d) |
| RdnsHistory.OneLookupPerProcess | src/kayak/analytics/humans.py:104-108 | within a process an address is looked up at most once, whatever happens to the saves |
| RdnsHistory.EscalationSurvivesIff | src/kayak/analytics/humans.py:136-143 | a negative entry read back escalates on the next black-hole if and only if it was seen within 182 days of the load; otherwise the backoff starts over at 7 days |
| RdnsHistory.FailedSaveForgetsIff | src/kayak/analytics/humans.py:220-242 | after a failed save and a restart an address is a target if and only if the old file keeps no entry for it or one whose retry time is past, whatever the process with the failed save learnt |
| RdnsHistory.FailedSaveForgets | src/kayak/analytics/humans.py:220-242 | so a new address black-holed before the failed save is a target of the next process at once |
| Observations.Newest | src/kayak/db/cache.py:45-55 | the row ORDER BY observed_at DESC, source_id DESC LIMIT 1 picks |
| Observations.ComputeRollup | src/kayak/db/cache.py:35-111 | the cache row of a set of rows of one type, by two scans for a newest row |
| Observations.RollupIff | src/kayak/db/cache.py:35-111 | that row is exactly the one that shows the newest observation, the newest one at least 21600 seconds older if there is one, and the change between them per hour: change per hour times seconds is the difference times 3600 |
| Thinning.RankedDeleteThins | src/kayak/cli/decimate.py:28-71 | deleting rank > 1 under any ranking the database may choose keeps exactly one row per bucket, a nearest one, and touches nothing outside the window |
| Thinning.ThinnedCount | src/kayak/cli/decimate.py:73-108 | however ties fall, the rows deleted are as many as the count query counted |
| Thinning.ThinnedUnique | src/kayak/cli/decimate.py:28-71 | without ties the surviving set is determined |
| Thinning.ThinnedUnion | src/kayak/cli/decimate.py:228-243 | thinning two windows without a common bucket, one after the other, is thinning both |
| Thinning.DryRunExact | src/kayak/cli/decimate.py:190-243 | with recent_days ≤ archive_days: before = after + hourly + six-hourly, stage by stage as counted beforehand |
| Thinning.DryRunExactIff | src/kayak/cli/decimate.py:154-200 | the dry-run total is right on every table if and only if recent_days ≤ archive_days |
| Thinning.UncountedTable | src/kayak/cli/decimate.py:212-220 | with the day counts the other way round a two-row table whose counted deletion never happens |
| Thinning.RecentKeptIff | src/kayak/cli/decimate.py:38-42 | every run on every table keeps every row at or after the medium cutoff if and only if recent_days ≤ archive_days |
| Thinning.RecentThinned | src/kayak/cli/decimate.py:38-71 | with the day counts the other way round: two recent rows a second apart next to an old one of the same source, one of which goes |
| Thinning.SecondRunIdle | src/kayak/cli/decimate.py:145-266 | a second run at the same cutoffs, whichever way round they are, deletes nothing |
| ThinningKept.SixHourlyDist | src/kayak/cli/decimate.py:58-61 | in the six-hour block that starts at B the ranking measures |at/60 - (B/60 + 180)|, the minutes from the block's middle |
| ThinningKept.HourlyDist | src/kayak/cli/decimate.py:34-36 | in the hour that starts at B it measures |at/60 - (B/60 + 30)| |
| ThinningKept.RunIff | src/kayak/cli/decimate.py:28-71 | the outcomes of a run are exactly the tables in which every row outside both terms stays and, in each series, the rows between the cutoffs are represented by one row an hour and those before the archive cutoff by one in six hours, fewest minutes from the middle of its hour or block |
| Decimate.Table.UpdateLatest | src/kayak/db/cache.py:35-63 | re-derives one entry: the newest row of its series, or none |
| Decimate.Table.DeleteRanked | src/kayak/cli/decimate.py:228-243 | one DELETE thins one source's window in place; the count is the rows gone |
| Decimate.Table.Run | src/kayak/cli/decimate.py:145-266 | a dry run changes nothing and reports the counts; a real run thins hourly, then six-hourly, leaves what `ThinningKept.RunIff` describes, returns the true totals and keeps the latest cache naming the newest surviving rows |
| Decimate.Table.Command | src/kayak/cli/decimate.py:145-160 | the command's cutoffs are its day counts, in days of 86400 seconds, before now |
| Decimate.OneSource | src/kayak/cli/decimate.py:228-256 | doing both stages source by source is the same as doing them stage by stage, in any source order |
| Decimate.PickKeepers | src/kayak/cli/decimate.py:29-47 | one keeper per bucket, at minimal distance; `ThinningKept.SixHourlyDist` and `ThinningKept.HourlyDist` say what the distance is |
| ThinningHistory.EveryBlockSurvives | src/kayak/cli/decimate.py:28-71 | over every sequence of inserts and runs each observation ever stored keeps a survivor of its source and type in its aligned block of 21600 seconds |
| ThinningHistory.NearOptimalForEver | src/kayak/cli/decimate.py:28-71 | over every history with cutoffs that do not move back, that survivor is at most 59 minutes farther from the middle of the block than the observation, counted in minutes, inserts in between included |
| ThinningHistory.BoundIsTight | src/kayak/cli/decimate.py:28-71 | rows at minutes 0 and 59 of the block's fourth hour always end with the one at 59 |
| CalcOrder.DepsFrom | src/kayak/cli/calculator.py:208-237 | the dependencies are exactly the calculated gauges, other than the source's own, named by two- and three-part references |
| CalcOrder.DepsCoverReadsIff | src/kayak/cli/calculator.py:227-237 | every other calculated gauge a source reads is a dependency if and only if no reference of four or more parts names one the shorter ones miss |
| CalcOrder.FourPartsOrderNothing | src/kayak/cli/calculator.py:227-237 | a four-part reference is read but orders nothing |
| CalcOrder.TopoSort | src/kayak/cli/calculator.py:240-276 | returns a permutation in which every dependency was emitted earlier, or raises with the names of what is stuck; raises exactly when some set of sources is blocked, and the n+1 rounds never cut it short |
| CalcOrder.OrderedNotBlocked | src/kayak/cli/calculator.py:253-276 | a complete order rules out any blocked set |
| CalcOrder.StuckIsBlocked | src/kayak/cli/calculator.py:268-275 | what a round without progress leaves is a blocked set |
| CalcOrder.CircularIff | src/kayak/cli/calculator.py:240-276 | with at most one calculated source per gauge the sort raises if and only if there is a dependency cycle of two or more sources or a source waits for a gauge without a name |
| CalcOrder.EmptyNameBlocks | src/kayak/cli/calculator.py:225-263 | a reference with an empty gauge name next to an unlinked calculated source raises without any cycle |
| CalcText.Tokens | src/kayak/cli/calculator.py:336-355 | every text is one list of maximal reference-character runs and single other characters |
| CalcText.LongestFirstSorts | src/kayak/cli/calculator.py:349 | the references are reordered by falling length, those of one length in their old order, none lost |
| CalcText.PlaceholdersDiffer | src/kayak/cli/calculator.py:350 | distinct positions give distinct placeholders |
| CalcText.LongestFirstIsTokenwise | src/kayak/cli/calculator.py:349-352 | the replacement loop over whole texts equals substitution of whole words, even when one reference is part of another |
| CalcText.ReplaceIsSwapCalls | src/kayak/cli/calculator.py:353-354 | replacing greatest( and least( changes exactly the names right before a parenthesis |
| CalcText.TextRewriteIsTokenwise | src/kayak/cli/calculator.py:336-355 | for every text whose double-colon words are references the rewriting is token-wise |
| CalcText.SubstitutePlaceholders | src/kayak/cli/calculator.py:336-355 | the loop returns that text and one value per placeholder |
| CalcText.PlaceholderValueAt | src/kayak/cli/calculator.py:350-352 | each placeholder carries its own reference's value |
| CalcExpr.RewriteSpell | src/kayak/cli/calculator.py:336-355 | rewriting the words of a written expression gives the renamed expression with the same spaces, parentheses and numerals |
| CalcExpr.RenamedGrammatical | src/kayak/cli/calculator.py:336-355 | the renamed expression groups by precedence exactly when the author's does |
| CalcExpr.CallReachesIff | src/kayak/cli/calculator.py:353-354 | a call reaches the same function after the rewriting, or none as before, if and only if it is not greatest or least with blanks before the parenthesis |
| CalcExpr.RenamedMeansSame | src/kayak/cli/calculator.py:336-355 | evaluating the renamed expression under the placeholder values is evaluating the author's with references read directly, errors included; `CalcMeaning.EvalIff` says what evaluating is |
| CalcMeaning.EvalIff | src/kayak/cli/calculator.py:27-102 | the evaluator returns a result if and only if the expression has it by a relation that computes nothing: a quotient times the divisor is the dividend, a zero divisor is an error, a power has an exponent between -32 and 32, max and min are an argument no other exceeds or undercuts, rounding is to the nearest unit of the place with ties to even, and the first error from the left is the result |
| CalcMeaning.NumbersIff | src/kayak/cli/calculator.py:27-36 | what each operator makes of two numbers, described by what its result is to its operands |
| CalcMeaning.ReturnsIff | src/kayak/cli/calculator.py:38-48 | what each function makes of its arguments, wrong numbers of arguments included |
| CalcMeaning.SymbolsMean | src/kayak/cli/calculator.py:27-36 | the operators are +, -, *, /, ** and the signs + and -, as spelled, and no others |
| CalcMeaning.OneGrouping | src/kayak/cli/calculator.py:50-102 | of two operators in a row exactly one grouping is grammatical: to the left, unless the second binds tighter or both are powers |
| CalcMeaning.SignGrouping | src/kayak/cli/calculator.py:50-102 | a sign before a power negates the power, before a product or a sum only its first operand |
| CalcMeaning.GrammaticalParts | src/kayak/cli/calculator.py:50-102 | a grammatical text has grammatical parts and only whitelisted operators and signs |
| CalcMeaning.RenamedGives | src/kayak/cli/calculator.py:336-355 | the rewritten expression has a result over its placeholders if and only if the author's has it over the references, greatest and least read as max and min |
| CalcExpr.AliasUnderstoodIff | src/kayak/cli/calculator.py:353-354 | a call of greatest or least that has a value keeps it without blanks before the parenthesis and is an unsupported function with them |
| CalcExpr.SpacedGreatestFails | src/kayak/cli/calculator.py:353-354 | `greatest (1,2)` is two to its author and fails after the rewriting, which leaves it as it is |
| CalcExpr.RewritingPreservesMeaning | src/kayak/cli/calculator.py:336-355 | for every text and every reading of it, with whatever spaces and parentheses: the rewritten text is the renamed reading written the same way, and if calls of greatest and least are tight its tree has the same value or the same error |
| CalcExpr.NameKeptIff | src/kayak/cli/calculator.py:350-352 | a name that is no reference keeps its meaning under all values if and only if it is not one of the placeholders handed out |
| CalcExpr.PlaceholderNameLeaks | src/kayak/cli/calculator.py:350-352 | an author's own `_v0` is undefined before and has a value after the rewriting |
| CalcPass.ResolvedReads | src/kayak/cli/calculator.py:279-333 | the references resolve if and only if each names an entry that exists; then values and times are those of the entries, one time per occurrence; `CalcReading.ReadKeyIff` says which entry a reference names |
| CalcReading.RefsAreWords | src/kayak/cli/calculator.py:291 | the references are the words of the time expression between white space, in order, for any words and any gaps |
| CalcReading.GaugeOfParts | src/kayak/cli/calculator.py:227-235 | key::gauge::type and gauge::type are read from, and ordered after, that gauge |
| CalcReading.GaugeNameIs | src/kayak/cli/calculator.py:225-273 | a calculated source's gauge name is that of its linked gauge, empty without one, and the message about a cycle falls back on the source's own name |
| CalcReading.ReadKeyIff | src/kayak/cli/calculator.py:291-314 | key::gauge::type, gauge::type and longer references name the entry (id, t) if and only if the gauge's id is id, not zero, and the type is one of gauge, flow, inflow and temperature and names t; a text without a double colon names none |
| CalcReading.StoresIff | src/kayak/cli/calculator.py:152-205 | a source stores (k, x) if and only if its expression means some u with references read directly, x is u, or zero for a negative u unless negatives are allowed, and k is at the earliest time read and at most an hour ahead, under the parser hypothesis of `CalcPass.OutcomeMeans` |
| CalcReading.TurnMeans | src/kayak/cli/calculator.py:152-205 | a turn without a row changes nothing; one with a row stores it and re-derives the source's entry from its rows and its gauge's from the rows of all linked sources of the last 2592000 seconds, and no other entry |
| CalcPass.OutcomeMeans | src/kayak/cli/calculator.py:152-205 | what a source stores is the value of its expression with references read directly, clamped unless negatives are allowed, at the earliest time read, if the parser groups the rewritten text as the author's |
| CalcPass.Earliest | src/kayak/cli/calculator.py:331-333 | the stamp is the earliest of the observation times |
| CalcPass.Database.UpdateLatestGauge | src/kayak/db/cache.py:149-250 | the gauge entry is the rollup of all linked sources' rows of the last 30 days, or absent |
| CalcPass.Database.ResolveRefs | src/kayak/cli/calculator.py:279-333 | the early-return loop computes the resolution that `CalcPass.ResolvedReads` describes |
| CalcPass.Database.ProcessCalcSource | src/kayak/cli/calculator.py:152-205 | one turn: the row stored, if any, and both caches refreshed |
| CalcPass.Database.Calculator | src/kayak/cli/calculator.py:113-147 | on a cycle nothing is written; otherwise the store is what the turns in topological order make of it |
| CalcFixpoint.OrderSettles | src/kayak/cli/calculator.py:130-140 | in a topological order, with own gauges and plain references, no source or successor writes what a source reads or shows in what it refreshes |
| CalcFixpoint.ReadsAreFinal | src/kayak/cli/calculator.py:132-140 | every source reads the values the caches hold at the end |
| CalcFixpoint.LateStamp | src/kayak/cli/calculator.py:331-333 | a later source that reads the same entries stamps its row at the very time of the earlier one's, unless that is out of the window |
| CalcFixpoint.SamePassIdle | src/kayak/cli/calculator.py:113-147 | after a settled pass any further turns of its sources at the same clock change nothing, for every store, parser and expressions |
| CalcFixpoint.NoneAheadKept | src/kayak/db/observations.py:60-68 | rows and entries at most an hour ahead of the clock stay so through a pass |
| CalcFixpoint.RollupNarrows | src/kayak/db/cache.py:149-250 | a rollup survives the loss of old rows exactly if it shows none of them, and what is left of it otherwise has its time and value |
| CalcFixpoint.LaterPassIdleIff | src/kayak/cli/calculator.py:113-147 | after a settled pass, for every store, parser and expressions, a later pass of any of the sources in any order changes nothing if and only if no entry one of them refreshes shows a row, its own or the one six hours back, that has left the 30-day window |
| CalcFixpoint.OnePassIsFixpoint | src/kayak/cli/calculator.py:113-147 | the same from the sort: after one pass in topological order over a store without rows far ahead of the clock |
| CalcExamples.PreviousLeaves | src/kayak/db/cache.py:149-250 | a coherent store that a pass leaves alone and a later pass changes, because the row the entry shows from six hours back or more is thirty days old |
| CalcNecessity.SettlesIff | src/kayak/cli/calculator.py:113-205 | where references resolve, each entry has one calculated source and the parser reads constants and sums, a second pass is idle for all expressions, rows and caches, matching or not, if and only if no source reads what it or a later one writes and no later source shows in an entry refreshed before |
| CalcNecessity.PlusRewrite | src/kayak/cli/calculator.py:336-355 | the text `ref + 1` is rewritten to the placeholder of ref plus one, whatever characters the references hold |
| CalcNecessity.SelfReadUnsettled | src/kayak/cli/calculator.py:152-205 | for any source that reads what it writes, the expression `ref + 1` and a store that a second pass changes |
| CalcNecessity.ReadAheadUnsettled | src/kayak/cli/calculator.py:130-140 | for any source that reads what a later one writes, constant expressions and caches that a second pass changes |
| CalcNecessity.LateFeedUnsettled | src/kayak/cli/calculator.py:123-127 | for any later source that shows in an entry refreshed before it, constant expressions and a store that a second pass changes |
| CalcExamples.SelfReadDrifts | src/kayak/cli/calculator.py:152-205 | a source `name::flow + 1` on the gauge of that name: the n-th pass leaves its row at v + n |
| CalcExamples.SharedGaugeUnsettled | src/kayak/cli/calculator.py:123-127 | a coherent store with one reading of 5 and a second source linked to g: gauge g shows 5 after the first pass, 6 after the second, and stays |
| RegressionFormula.BuildDesignMatrix | scripts/regression/gauge_pair_linear.py:131-171 | a mask of the wrong length is an error; otherwise each row of the stacked columns is the design row of that observation |
| RegressionFormula.ColumnNames | scripts/regression/gauge_pair_linear.py:160-169 | the column names: intercept, x1 to xp, and xi^2 at the rank of i among the squared predictors |
| RegressionFormula.BuildExpression | scripts/regression/gauge_pair_linear.py:530-545 | the term loops with the running index over squared coefficients build the string of the formula |
| RegressionFormula.FormulaIsModel | scripts/regression/gauge_pair_linear.py:530-546 | for any predictors and mask the expression evaluates to round(max(0, design_row · coefs)) |
| RegressionRewriting.SoundFormula | scripts/regression/gauge_pair_linear.py:530-545 | the string splits into the words and marks of the formula, groups by precedence as meant, and holds only words the rewriting can take |
| RegressionRewriting.RenamedFormula | scripts/regression/gauge_pair_linear.py:545-546 | the renamed formula is the same formula over the placeholders, with max for greatest |
| RegressionRewriting.FormulaThroughCalculator | scripts/regression/gauge_pair_linear.py:545-546 | the calculator's text rewriting turns the report's string into the string of that formula, whose tree evaluates to round(max(0, design_row · coefs)) |
| RegressionRewriting.TimeTextRefs | scripts/regression/gauge_pair_linear.py:546 | the report's time expression names exactly the references of the formula |
| RegressionRewriting.RefNamesFlow | scripts/regression/gauge_pair_linear.py:530-546 | each reference of the formula names the flow of its gauge |
| RegressionRewriting.FormulaOutcome | src/kayak/cli/calculator.py:152-205 | a source with the report's two expressions stores the model's prediction from the latest values |
| RatingTable.InterpolateRating | src/kayak/utils/conversions.py:61-92 | the scan returns the end values outside the table and the first matching segment's value inside |
| RatingTable.RatesIff | src/kayak/utils/conversions.py:61-92 | the answer is r if and only if r is the end value outside the table, and inside the point on the line through the first neighbours around v (cross-multiplied), rounded to the unit with ties to even if there is one |
| RatingTable.InterpolateTotal | src/kayak/utils/conversions.py:61-92 | only an empty table answers None |
| RatingTable.ExactMonotone | src/kayak/utils/conversions.py:75-90 | a rising table gives a rising function before rounding |
| RatingTable.WithinHalfUnit | src/kayak/utils/conversions.py:88-90 | rounding moves a value by at most half a unit |
| RatingMonotone.RoundedMonotoneIff | src/kayak/utils/conversions.py:75-90 | a rising table gives a rising rounded function if and only if its two end values, which are not rounded, fit the values they meet: a condition on the first and the last segment that is not vertical |
| RatingMonotone.WholeEndsMonotone | src/kayak/utils/conversions.py:75-90 | so it does if both end values are multiples of the rounding unit |
| RatingTable.RoundedEndDips | src/kayak/utils/conversions.py:75-90 | a rising table whose rounded function falls at its end |
| RatingTable.ReverseIsStableSort | src/kayak/cli/calc_rating.py:98-102 | the reverse table is the stable sort of the exchanged pairs: exactly those pairs, ascending in flow, heights of one flow in the order of the rating |
| RatingTable.EntriesMet | src/kayak/cli/calc_rating.py:98-102 | for a strictly rising rating both tables meet every entry exactly |
| RatingTable.RatingInverts | src/kayak/cli/calc_rating.py:98-102 | for a strictly rising rating, height to flow and back is the identity on every height of the table, and flow to height and back on every flow |
| RatingFill.GetObservations | src/kayak/db/observations.py:191-210 | exactly the rows of the series in the window, newest first |
| RatingFill.StoreObservation | src/kayak/db/observations.py:25-91 | an upsert that refuses times more than an hour ahead and, unless the source is allowed them, negative flows |
| RatingFill.FillGaugeFromFlow | src/kayak/cli/calc_rating.py:153-179 | gauge heights are written at exactly the flow times the snapshot lacked, if the store takes them; the flag says whether one was |
| RatingFill.FillFlowFromGauge | src/kayak/cli/calc_rating.py:182-214 | flows above zero are written at exactly the gauge times the snapshot lacked |
| RatingFill.ApplyRatingToSource | src/kayak/cli/calc_rating.py:105-150 | the table afterwards, row by row, in terms of the table before; the flags; and latest entries that were right stay right |
| RatingFill.DerivedIff | src/kayak/cli/calc_rating.py:153-214 | a run derives v at a key if and only if the other reading is in its window and this one is not in its own, the time is at most an hour ahead, and v is the table's answer: a positive flow to the unit, or a height to the tenth through the reversed table |
| RatingFill.DerivedFromMeasured | src/kayak/cli/calc_rating.py:117-121 | every written row comes from a row of the other type that was there before the run: no derived row feeds another |
| RatingFill.NothingLeftUnfilled | src/kayak/cli/calc_rating.py:153-214 | what stays missing next to a row of the window was refused by the store or rated at zero or below |
| RatingFill.OverwritesIff | src/kayak/cli/calc_rating.py:122-123 | an existing row is written over if and only if it is a flow between the two clock readings of the two queries, with a gauge height at its time that rates above zero |
| RatingFill.OnlyAdds | src/kayak/cli/calc_rating.py:105-150 | with no row between the two readings a run only adds rows |
| RatingFill.SliverOverwrites | src/kayak/cli/calc_rating.py:122-123 | a measured flow of 500 replaced by a rated 70 |
| RatingFill.LaterRunDerivesIff | src/kayak/cli/calc_rating.py:105-214 | exactly what a later run of the same rating writes: rows the earlier run had refused as too far ahead, and flows between its own two clock readings next to a height that rates above zero |
| RatingFill.LaterRunIdleIff | src/kayak/cli/calc_rating.py:105-214 | so a later run changes and reports nothing if and only if there is no such row |
| RatingFill.SecondRunAddsNothing | src/kayak/cli/calc_rating.py:105-150 | in particular if the table held no row so far ahead and none between the two readings |
| RangeIndex.RangeIsTheBlock | src/kayak/analytics/ip_reputation.py:107-111 | a network's range is the one aligned block of 2^hostBits addresses that contains the address it was written with |
| RangeIndex.NestedOrDisjoint | src/kayak/analytics/ip_reputation.py:107-111 | two CIDR blocks (section 3.1 of RFC 4632) are nested or disjoint |
| RangeIndex.ParseRanges | src/kayak/analytics/privacy_relays.py:102-126 | each family's list holds exactly the networks of the rows, sorted |
| RangeIndex.BisectRight | src/kayak/analytics/privacy_relays.py:178 | the number of starts at or before the address |
| RangeIndex.Index.EnsureLoaded | src/kayak/analytics/privacy_relays.py:129-162 | the tables are built once and hold exactly the rows' networks |
| RangeIndex.Index.Find | src/kayak/analytics/privacy_relays.py:165-185 | the bisect lookup answers for the last range that starts at or before the address |
| RangeIndex.CompleteIff | src/kayak/analytics/ip_reputation.py:149-167 | the lookup agrees with the scan at every address if and only if no range that is longest at its start is followed by covered space in which nothing starts |
| RangeIndex.NestedListMisses | src/kayak/analytics/ip_reputation.py:163-167 | blocks 0-255 and 16-31: address 40 is listed and not found |
| RangeIndex.FlatListComplete | src/kayak/analytics/ip_reputation.py:149-167 | a list without networks strictly inside networks loses nothing |
| RangeIndex.LookupIsScan | src/kayak/analytics/ip_reputation.py:91-167 | for any file and address a hit is a listed network that contains it, and on a flat list every listed address is hit |
| SortName.KeyOrderIsTupleOrder | scripts/seed_gauge_display.py:343-359 | text order of the keys is the order by basin, forks first, fork label, falling elevation, rising area, unknowns as largest, while the numbers fit six digits |
| SortName.BasinsContiguous | scripts/seed_gauge_display.py:8-20 | in key order each basin's rows, and within it each label's, stand together, whatever their numbers |
| SortName.ForksFirst | scripts/seed_gauge_display.py:346-359 | forks come before the main stem of their basin, whatever their numbers |
| SortName.CuratedOrderHolds | scripts/seed_gauge_display.py:317-340 | forks of a curated basin follow the curated order, unlisted ones last |
| SortName.UpstreamFirstIff | scripts/seed_gauge_display.py:348-353 | of two gauges of a group whose whole feet differ the higher comes first if and only if the lower one is not above 10000.5 feet |
| SortName.LargerAreaLater | scripts/seed_gauge_display.py:354-358 | at one elevation the larger drainage area comes later exactly as far as whole numbers tell the areas apart |
| SortName.UncuratedAlphabetical | scripts/seed_gauge_display.py:317-340 | forks of a basin without a curated order come alphabetically, whatever their numbers |
| SortName.HighGaugesReversed | scripts/seed_gauge_display.py:350-351 | two gauges above 10000 feet in the wrong order |
| SortName.UnknownLast | scripts/seed_gauge_display.py:352-358 | unknown elevations end their group, also behind gauges above 10000 feet, and unknown areas end their elevation |
| SortName.SixDigitsIff | scripts/seed_gauge_display.py:354-356 | padding keeps the order of all numbers up to a bound if and only if the bound has at most six digits |
| PaddedNumber.PadOrderSigned | scripts/seed_gauge_display.py:351 | zero-padded texts compare as numbers unless both are negative; then the other way round |
| TextOrder.LessByField | scripts/seed_gauge_display.py:359 | fields closed by a delimiter they do not contain compare one after the other |
| Rounding.RoundMonotone | scripts/seed_gauge_display.py:351-356 | rounding never reverses an order |
| ReachWalk.WalkReach | docs/one-offs/sample_reach_elevations.py:93-133 | emits the put-in, every multiple of the spacing up to the length, interpolated inside its segment with a fraction in (0, 1], and the take-out when more than a metre is left |
| ReachWalk.SamplesAre | docs/one-offs/sample_reach_elevations.py:93-133 | the samples in the reader's terms: vertex marks that differ by the segment lengths, the put-in at 0, for each multiple of the spacing up to the length a point that divides its segment in both coordinates as the distance does, miles times 1609.344 equal to metres, and the take-out if more than a metre is left |
| ReachWalk.OneOutput | docs/one-offs/sample_reach_elevations.py:93-133 | that description determines the output |
| ReachWalk.EvenlySpaced | docs/one-offs/sample_reach_elevations.py:93-133 | positions strictly increase, gaps are at most the spacing, the last one is within a metre of the end |
| ReachWalk.SegmentsInOrder | docs/one-offs/sample_reach_elevations.py:111-123 | later positions never fall on earlier segments |
| ReachWalk.DistancesIncrease | docs/one-offs/sample_reach_elevations.py:108-133 | the emitted distances start at zero and strictly increase |
| GradientBins.FindIndexAtOrAfter | docs/one-offs/compute_reach_gradient.py:90-105 | the bisect returns the least index from lo on that reaches the target, else the last |
| GradientBins.BinElevations | docs/one-offs/compute_reach_gradient.py:108-152 | every bin's mean times its number of samples is the sum of their elevations, its variance times that number squared is the sum of the squared source errors (2.4, 0.15 or the default, metres) in square feet, and its coordinates are those of the middle sample; a bin is missing if its extent is empty, and the bins end with the one of the last sample |
| GradientBins.MeanBetween | docs/one-offs/compute_reach_gradient.py:145 | a bin's elevation lies between those of its samples |
| GradientBins.EmptyIff | docs/one-offs/compute_reach_gradient.py:131-143 | a bin is reported empty if and only if no sample but possibly the last lies in its interval |
| GradientBins.BinIsRun | docs/one-offs/compute_reach_gradient.py:131-143 | a bin's samples are a contiguous run inside [start, end + 1e-9) that misses none of [start, end) |
| GradientBins.SamplesAreBinned | docs/one-offs/compute_reach_gradient.py:125-143 | every sample but the last is in the bin its distance falls into |
| GradientBins.LastSampleLostIff | docs/one-offs/compute_reach_gradient.py:134-143 | the last sample is in no bin if and only if it is alone in its own and the bin before does not take it in by the slack |
| GradientBins.LoneLastSampleLost | docs/one-offs/compute_reach_gradient.py:138-143 | samples at 0 and 1.5 miles in one-mile bins: the second is lost |
| GradientBins.CountedTwiceIff | docs/one-offs/compute_reach_gradient.py:136-137 | when a sample counts in two neighbouring bins |
| GradientWalk.ExceedsIsThreshold | docs/one-offs/compute_reach_gradient.py:228-230 | the squared test is the program's drop ≥ m·sigma for every sign of m |
| GradientWalk.Choose | docs/one-offs/compute_reach_gradient.py:222-246 | the two inner loops take the shortest clearing length, else the longest one that ends in samples |
| GradientWalk.NearbyCoordinates | docs/one-offs/compute_reach_gradient.py:251-261 | the outward search always succeeds, within the window, at a bin with samples nearest to its middle |
| GradientWalk.WalkBins | docs/one-offs/compute_reach_gradient.py:216-274 | the rows are those of the walk's windows, in order: centre, width and gradient rounded, coordinates of the bin with samples nearest to the middle |
| GradientProfile.ProfileSays | docs/one-offs/compute_reach_gradient.py:216-274 | the profile of any bins in their own terms: stops from the first bin with samples on, each row from one stop to the next with width, middle, gradient and place rounded as stored, a significant row ending at the nearest bin whose drop of means clears the noise of both, another at the farthest with samples within max_n, and none with samples within max_n behind the last stop |
| GradientProfile.BuildProfile | docs/one-offs/compute_reach_gradient.py:186-274 | that profile for the bins of the samples, with max_n the whole bins in the search window, at least one |
| GradientWalk.WalkIsChain | docs/one-offs/compute_reach_gradient.py:217-273 | each window starts in the bin where the one before ended, the first one in the first bin with samples |
| GradientWalk.WindowIsMinimal | docs/one-offs/compute_reach_gradient.py:222-246 | both ends have samples; a significant window is the shortest that clears the noise, another is taken only when no tried length does, and is then the longest of at most max_n |
| GradientWalk.FullLengthNeverSignificant | docs/one-offs/compute_reach_gradient.py:224 | length max_n itself is never tried, so with max_n = 1 nothing is ever significant |
| GradientWalk.StopsShortIff | docs/one-offs/compute_reach_gradient.py:239-244 | the profile ends before the last bin with samples if and only if at least max_n bins in a row between samples are empty |
| GradientWalk.DropConserved | docs/one-offs/compute_reach_gradient.py:245-273 | for every chain of windows, by induction on its last one: the shown drop is at least the true drop, and equal to it if and only if no window leads uphill |
| GradientWalk.ProfileConservesDrop | docs/one-offs/compute_reach_gradient.py:248-250 | the sum of gradient × width is at least the drop from the first to the last bin mean, with equality if and only if no window leads uphill |
| GradientWalk.UphillIsInsignificant | docs/one-offs/compute_reach_gradient.py:246 | with a non-negative threshold only windows that are not significant lead uphill |

## Left out

- Floating point: all arithmetic is on exact reals and integers; 1e-9, 0.1 and the like are the decimal numbers. Non-finite values, which the store rejects, do not occur.
- Python's float power: a parameter of the evaluator that may fail; only the bound of 32 on its exponent is modelled.
- Python's expression parser: a parameter of the calculator's pass. What a text is taken to mean is given by a reading of it (`Text`), with spaces and parentheses anywhere; that the parser finds the reading whose grouping follows precedence is a hypothesis of the lemmas about whole turns.
- Line breaks and tabs in expressions: optional white space is blanks.
- Non-ASCII white space and identifier characters in references and expressions.
- Keyword arguments of calls in expressions, which the evaluator ignores.
- DNS, HTTP, journald, file-system and SQL machinery: a lookup answers or hangs, a cache file is a map that a save replaces or leaves alone, a query is a selection from the table.
- Commit and rollback: a source or gauge whose processing raises leaves the store as it was; the outer loop of the rating command over gauges is not modelled, nor its gauge-level refresh.
- RdnsCache.IntervalDoubles: counts below one, which only a file not written by this program can hold, have the fractional window rounded down.
- RdnsCache.Cache.WarmRdns: the address list is given without duplicates and in sorted order instead of being deduplicated and sorted.
- CalcPass.Database.Calculator: one clock reading serves a whole pass; the program reads the clock at every row it stores and at every gauge entry it refreshes.
- CalcFixpoint.LaterPassIdleIff: entries more than an hour ahead of the first clock, which the store refuses to make, are excluded.
- CalcNecessity.SettlesIff: settling is meant for all expressions of the given sources, each with its own, and for caches that need not match the rows; for one fixed expression, such as a constant, a source that fails the condition may still settle. Several calculated sources behind one cache entry are not covered.
- CalcOrder.CircularIff: for gauges with several calculated sources, `CalcOrder.TopoSort` states the exact condition in terms of blocked sets.
- Decimate.Table.Run: the cache is reduced to the time of the newest row; the previous value and trend, which `Observations.ComputeRollup` covers, and the gauge-level rebuild afterwards are not part of it. Times are whole seconds in UTC.
- RegressionFormula.FormulaIsModel: a numeral's value is what it is taken to say, although the report prints coefficients with six or four significant digits; the fit itself, its errors and the bootstrap are not modelled.
- RatingFill.ApplyRatingToSource: one clock reading serves all stores of a run; the two queries have their own. A rating with fewer than two entries, which the command skips, is not treated apart.
- RangeIndex.ParseRanges: rows arrive already parsed; the order of equal ranges by payload is not modelled.
- SortName.KeyOrderIsTupleOrder: a row arrives with its river name already split into basin and fork; the direction and tributary tables behind that split are not modelled. Basins and fork labels contain no vertical bar. Basins compare with their delimiter attached, as the code does.
- ReachWalk.WalkReach: segment lengths are inputs instead of great-circle distances, and the rounding of the cached distances to four decimals is not modelled.
- GradientBins.BinElevations: the squared noise is carried instead of the noise, so that no square root is needed.
- compute_max_gradient, the smoothing before it, and the elevation sampling: single-branch or numerical.
- Address classification, HTTP retries, web rendering, the editor bridge, the importers and backfills: plumbing or easy members.
