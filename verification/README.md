# CloseClaw: verified core

Dafny models of the parts of CloseClaw that are hardest to get right, with proofs of what they
promise. `dafny verify dfyconfig.toml` checks everything.

**Code statistics with a cache** (`scripts/code-stats`). A full collection walks the calendar from
the first commit to today, forward-fills snapshots and sums churn. An incremental collection reuses a
cached result. `CollectorModel` gives the closed form of a collection, `CollectorMeaning` what it says about
the commits of the log, `CollectorWalk` the loops that compute it, `CollectorIncremental` the cached form, `CollectorRuns` whole runs against one cache file.
`CacheFile` says which JSON values are loaded as a cache, and that saved collections are.
The cached form is not always right; `IncrementalIsFull` and `RunIsFull` say exactly when it is, for
arbitrary histories, late commits and clocks (the clock is read three times in a run, and each reading
is separate). `RecentExtension` specialises this to commits that are not dated before the last cached
day, and `QuietLateCommit` shows the one failing case.

**Tool dispatch and per-file locks** (`crates/common/src/dispatcher.rs`, `file_mutex.rs`). `FileMutex`
is a state machine over lookups, locks, releases and cleanups of any number of tasks, with reference
counts. With cleanup as one step, locks are exclusive per canonical path in every run. The comment on
`cleanup` promises removal only without references, but across threads its check and its removal are
two steps: `TwoHolders` is a run with two holders, and `RunIsSafeIff` says which runs are safe.
`DispatchPlan`, `DispatchOrder`, `DispatchExact` and `DispatchResults` cover the four phases: which calls
always end before which others start, exactly, over all interleavings and hash orders; each call once;
results in input order exactly when the ids are distinct. `MutexPhase` proves the mutex phase equal to running its calls in input order when different
paths name different files, and `AliasedPaths` that this is exactly when its outcome is determined.
`LockedPhase` puts the locks into the phase: whatever the paths name, calls on one file never overlap,
the phase always ends, and it leaves what its whole calls leave in some order.

**Rust source scanning** (`scripts/dep-guard/second_export.py`). `ItemScan` and the class in
`ItemScanning` are the item scanner; `SourceParts` and `SourceTokens` are the texts of statements,
attributes and bodies, `SourceText` visibility and test attributes from the characters alone, and `ItemPrint` and `ItemRoundTrip` prove that it reads back every nested
module tree made of them. The scanner looks at every word of a body, so `fn f() { a.union(b) }`
records a definition; `BodyRecords` says exactly which bodies are passed over. `UseTree`,
`UseTreeParsing` and `UseTreeEnds` are the use-tree parser, its round trip, and the exact set of texts
on which it returns at all. `Reachability` proves that propagation computes the least closed set, and
when it returns. `pub(self)` counts as plainly public, as in the code.

**Markdown and terminal output** (`crates/common/src/content_segment.rs`, `crates/cli/src/renderer.rs`).
`Segments`: parsing, printing and the normal form, on lines and on text. `InlineSpans` and `InlineText`:
one tokenisation, found by the loop, lossless. `Ansi`: stripping undoes styling exactly on text without
escapes. `Truncation` and `Utf8`: the longest fitting prefix, cut between characters.

**Document trackers** (`scripts/_tracker_core.py`, `tracker-next.py`). `TrackerRecords`, `TrackerFields`
and `TrackerCheck`: the check that rewrites records while it walks, against its read-only mirror. The
mirror is documented to make the same decisions; that fails for a key discovered twice, and
`MirrorIsExact` gives the exact condition.

**Baselines and statistics** (`scripts/dep-guard/baseline.py`, `crates/common/src/llm_stats.rs`).
`Baseline` and `BaselineText`: what a fix removes from the file, what is read from it again, and how
many fixes reach the fixpoint. `RunningStats`: totals against
the rounds since the last reset, and the exact number of rounds without overflow.

Git, the clock, executed tools, character widths and keyword tables are inputs. Unicode letter, digit
and space tables beyond ASCII are constants without a value, so results hold whatever they contain.

## Model

| member | source | states |
|---|---|---|
| `CollectorModel.RangeShape` | scripts/code-stats/collect_code_stats.py:472-506 | A collected range has one row for every calendar day, in order, all columns equally long, each with the running total of churn up to its day |
| `CollectorModel.RowAtSplit` | scripts/code-stats/collect_code_stats.py:472-506 | A walk can be cut at any day and resumed from the total and snapshot of the day before |
| `CollectorMeaning.RangeSays` | scripts/code-stats/collect_code_stats.py:425-506 | Every column of every day, from the commits alone: the named field of the snapshot of the first commit of the latest day so far with commits, and the start total plus the churn of all commits so far; likewise every day record |
| `CollectorMeaning.SaysIsUnique` | scripts/code-stats/collect_code_stats.py:425-506 | That leaves nothing open: two results that say it are equal |
| `CollectorMeaning.AnchorExists` | scripts/code-stats/collect_code_stats.py:425-457 | Whenever there are commits so far, one of them is the one whose snapshot is shown |
| `CollectorWalk.GroupByDay` | scripts/code-stats/collect_code_stats.py:395-400 | The dictionary has exactly the days with commits, each with its commits in log order |
| `CollectorWalk.ComputeDayChurn` | scripts/code-stats/collect_code_stats.py:403-416 | Every day's churn is the sum over its commits |
| `CollectorWalk.EmitDay` | scripts/code-stats/collect_code_stats.py:425-457 | A day's record, its total and the snapshot carried forward, with and without commits |
| `CollectorWalk.Buckets.AppendDay` | scripts/code-stats/collect_code_stats.py:460-469 | The columns are those of one more row |
| `CollectorWalk.WalkCalendar` | scripts/code-stats/collect_code_stats.py:472-506 | The loop over days computes the closed form of the range |
| `CollectorWalk.RangeDependsOnDays` | scripts/code-stats/collect_code_stats.py:537-540 | Only the commits of the days walked matter, so filtering the log by date changes nothing |
| `CollectorWalk.CollectHistory` | scripts/code-stats/collect_code_stats.py:509-552 | The whole of `_collect` gives the closed form, full or from a given day, and says what the commits say |
| `CacheChecks.AscendingDates` | scripts/code-stats/cache.py:93-99 | The check accepts exactly strictly ascending dates |
| `CacheChecks.LoadCache` | scripts/code-stats/cache.py:66-102 | On a typed cache: loaded exactly when columns, dates and days agree |
| `CacheChecks.CollectionAccepted` | scripts/code-stats/cache.py:66-115 | What a full collection saves is accepted, except for an empty log |
| `CacheFile.CheckDates` | scripts/code-stats/cache.py:93-99 | Among any JSON values, accepts exactly lists of dates in ascending order of their text |
| `CacheFile.IsDateIff` | scripts/code-stats/cache.py:41 | A date is four, two and two digits with dashes between, perhaps with a line feed behind |
| `CacheFile.IsOneIff` | scripts/code-stats/cache.py:63-64 | The version test is equality with 1 as Python numbers compare |
| `CacheFile.RecordOkIff` | scripts/code-stats/cache.py:104-113 | A day record passes exactly when its fields, or their defaults, have the right types |
| `CacheFile.LoadCache` | scripts/code-stats/cache.py:49-115 | Of all JSON values exactly those with the right version, columns, dates and day records are loaded, by Python's comparisons and type tests |
| `CacheFile.SavedIsLoaded` | scripts/code-stats/collect_code_stats.py:724-733 | A saved result is loaded again if and only if it is acceptable as a typed cache |
| `CacheFile.PayloadHolds` | scripts/code-stats/collect_code_stats.py:724-733 | Read by its keys, a saved file holds every column, record and snapshot field of the result |
| `CollectorIncremental.LastNonNoneSnap` | scripts/code-stats/collect_code_stats.py:555-566 | The snapshot of the latest day that has one |
| `CollectorIncremental.ReadPreState` | scripts/code-stats/collect_code_stats.py:569-604 | Columns, days, first day, total and snapshot read from the cache, field by field, on the cached day and on a later one |
| `CollectorIncremental.CollectIncremental` | scripts/code-stats/collect_code_stats.py:615-659 | Skew, staleness, dropping and merging as specified |
| `CollectorIncremental.LastSnapOfCollection` | scripts/code-stats/collect_code_stats.py:555-566 | On the days of a collection it is the snapshot carried forward to the end |
| `CollectorIncremental.PreStateOfCollection` | scripts/code-stats/collect_code_stats.py:569-604 | Read from the cache of a full collection, the state is the total before the last day and the snapshot at it |
| `CollectorIncremental.UnaffectedIffSameRecord` | scripts/code-stats/collect_code_stats.py:425-457 | New commits leave a day's record alone exactly when they add no churn there and do not give the day its first commit |
| `CollectorIncremental.ResumedRow` | scripts/code-stats/collect_code_stats.py:472-506 | The walk restarted at the last cached day agrees with the full walk of the extended history |
| `CollectorIncremental.SplicedRows` | scripts/code-stats/collect_code_stats.py:675-693 | Cached rows followed by re-walked rows are the rows of the full walk |
| `CollectorIncremental.StaleIffLateChurn` | scripts/code-stats/collect_code_stats.py:662-672 | The staleness test fires exactly when churn landed late on the last cached day |
| `CollectorIncremental.SameDayResult` | scripts/code-stats/collect_code_stats.py:569-604 | On the cached day the last row is replaced by the re-walk |
| `CollectorIncremental.LaterDayResult` | scripts/code-stats/collect_code_stats.py:615-659 | On a later day the result is a full collection or the cache continued |
| `CollectorIncremental.SplicedIsFull` | scripts/code-stats/collect_code_stats.py:685-693 | The merged result is the full collection exactly when no cached day it keeps was affected |
| `CollectorIncremental.IncrementalIsFull` | scripts/code-stats/collect_code_stats.py:569-693 | For every history, extension and clock: incremental equals full if and only if the cache was not used or no copied day is affected |
| `CollectorIncremental.RecentExtension` | scripts/code-stats/collect_code_stats.py:615-693 | For commits not dated before the last cached day it fails exactly when that day had no commit and gained only commits without churn |
| `CollectorIncremental.QuietLateCommit` | scripts/code-stats/collect_code_stats.py:662-672 | That case happens: a concrete history and clock where the results differ |
| `CollectorRuns.Collector.DoCollect` | scripts/code-stats/collect_code_stats.py:736-757 | The result and the file left behind, with and without cache, for a lost file and a rejected head; without the cache the file is not touched |
| `CollectorRuns.StepIsFull` | scripts/code-stats/collect_code_stats.py:736-757 | A call on a file that is a full collection returns one exactly when it is harmless, and leaves one |
| `CollectorRuns.RunIsFull` | scripts/code-stats/collect_code_stats.py:736-757 | Over every run of calls: all results are full collections if and only if no call copied an affected day |
| `CollectorRuns.RunLeavesAcceptedFile` | scripts/code-stats/cache.py:66-115 | After such a run the file is the collection of the current history and the checks accept it |
| `FileMutex.UnreferencedIff` | crates/common/src/file_mutex.rs:95-97 | The count is one exactly when no task has a clone |
| `FileMutex.StepKeeps` | crates/common/src/file_mutex.rs:56-102 | Every step keeps the counts and locks consistent; every atomic step keeps all clones current |
| `FileMutex.HarmlessRunsAreExclusive` | crates/common/src/file_mutex.rs:56-102 | In every interleaving, cleanups in one step or two: while every removal finds its entry gone or unreferenced, at most one task holds a canonical path |
| `FileMutex.AtomicRunsAreExclusive` | crates/common/src/file_mutex.rs:56-102 | In every interleaving with one-step cleanup at most one task holds the lock of a canonical path |
| `FileMutex.WaiterIsNeverStuck` | crates/common/src/file_mutex.rs:56-64 | A waiter can lock exactly when nobody holds its path |
| `FileMutex.RemoveCurrent` | crates/common/src/file_mutex.rs:93-102 | Removing an entry keeps all clones current exactly when there was none |
| `FileMutex.OutdatedCloneBreaks` | crates/common/src/file_mutex.rs:56-64 | A clone of a removed mutex leads to two holders by lookups and locks alone |
| `FileMutex.RemovalBreaksExactlyWhenReferenced` | crates/common/src/file_mutex.rs:95-99 | The second step of a two-step cleanup makes two holders possible if and only if a clone was taken since the check; if not, no continuation of atomic steps has two |
| `FileMutex.HarmfulRemovalBreaks` | crates/common/src/file_mutex.rs:95-99 | After the removal of a referenced entry two holders are a few lookups and locks away |
| `FileMutex.RunIsSafeIff` | crates/common/src/file_mutex.rs:56-102 | Over all runs with any number of two-step cleanups: no state of the run can lead to two holders if and only if every removal in it is harmless |
| `FileMutex.TwoHolders` | crates/common/src/file_mutex.rs:95-99 | A concrete run that ends with two holders of one file |
| `FileMutexObject.FileMutexMap.EnterAcquire` | crates/common/src/file_mutex.rs:56-62 | The lookup step on the map |
| `FileMutexObject.FileMutexMap.FinishAcquire` | crates/common/src/file_mutex.rs:63 | The lock step; the caller is then the only holder of its path |
| `FileMutexObject.FileMutexMap.TryAcquire` | crates/common/src/file_mutex.rs:73-87 | Succeeds exactly when no task holds the path; the entry is in the map either way, and every other task is left alone |
| `FileMutexObject.FileMutexMap.CleanupPath` | crates/common/src/file_mutex.rs:93-102 | Removes the entry exactly when no task refers to it |
| `DispatchPlan.FilterGroupIs` | crates/common/src/dispatcher.rs:111-144 | A group has exactly the calls classified into it, in input order |
| `DispatchPlan.GroupsByFields` | crates/common/src/dispatcher.rs:106-122 | Which calls are parallel, by file or serial, from their fields |
| `DispatchPlan.ReorderIs` | crates/common/src/dispatcher.rs:150-159 | Reads of files that will be edited are split off, both parts in input order |
| `DispatchPlan.OnFileIs` | crates/common/src/dispatcher.rs:187-192 | The calls of one file, in input order |
| `DispatchPlan.ListedOnce` | crates/common/src/dispatcher.rs:270-306 | Across the four phases every call is listed exactly once, for every hash order |
| `DispatchPlan.ListedKeepsOrder` | crates/common/src/dispatcher.rs:270-306 | The list has safe calls before the others, those on edited paths first, calls with a path before those without, and calls of one path in input order |
| `DispatchOrder.EachOnce` | crates/common/src/dispatcher.rs:249-306 | In every interleaving every call starts once and ends once |
| `DispatchOrder.DispatchKeepsOrder` | crates/common/src/dispatcher.rs:249-306 | In every interleaving that order, told from the fields of the calls: a call ends before the next in it starts |
| `DispatchExact.OrderIsExact` | crates/common/src/dispatcher.rs:249-306 | A call ends before another starts in all runs if and only if that order says so |
| `DispatchOrder.FallbackIsSequential` | crates/common/src/dispatcher.rs:106-122 | In fallback mode the only trace is one call after the other in input order |
| `DispatchResults.IndexIds` | crates/common/src/dispatcher.rs:280-284 | The index of the last call with an id |
| `DispatchResults.GroupByFile` | crates/common/src/dispatcher.rs:187-192 | The files of the mutex calls, each with its calls in order; the unwrap cannot fail |
| `DispatchResults.ExecuteMutexByFile` | crates/common/src/dispatcher.rs:182-213 | Every call of every file is given to the executor; outcomes file by file, whatever order the map is walked in |
| `DispatchResults.ExecuteParallel` | crates/common/src/dispatcher.rs:168-179 | Each call is given to the executor and its outcome paired with its id |
| `DispatchResults.ExecuteSerial` | crates/common/src/dispatcher.rs:216-226 | Calls are given to the executor in order; outcomes in order |
| `DispatchResults.FillResults` | crates/common/src/dispatcher.rs:309-317 | Each outcome goes to the slot of its id |
| `DispatchResults.FilledDistinct` | crates/common/src/dispatcher.rs:309-317 | With distinct ids the slot of a call holds its own outcome |
| `DispatchResults.FilledShadowed` | crates/common/src/dispatcher.rs:309-317 | The slot of a call whose id is used again is never written |
| `DispatchResults.DispatchAll` | crates/common/src/dispatcher.rs:249-306 | Returns all outcomes in input order exactly when ids are distinct, else panics; either way the executor's log has every call exactly once and in the promised order |
| `MutexPhase.SameProjectionsSameWorld` | crates/common/src/dispatcher.rs:194-212 | Traces with the same events on each file leave the same files and results |
| `MutexPhase.MutexPhaseIsSequential` | crates/common/src/dispatcher.rs:182-213 | Every interleaving and hash order of the mutex phase does what its calls do one after the other, if different paths name different files |
| `AliasedPaths.AliasedPathsRace` | crates/common/src/dispatcher.rs:187-212 | For every batch with two paths that name one file, runs of the phase leave different files |
| `AliasedPaths.ConfluentIff` | crates/common/src/dispatcher.rs:182-213 | All runs of the phase leave the same files, whatever the calls do, if and only if different paths name different files |
| `LockedPhase.StepKeepsForm` | crates/common/src/dispatcher.rs:200-206 | Every step of a thread keeps the mutex map in order and every thread in agreement with it |
| `LockedPhase.NoOverlap` | crates/common/src/dispatcher.rs:200-206 | Calls whose paths name one file are never between lock and release together |
| `LockedPhase.StepIsWhole` | crates/common/src/dispatcher.rs:200-206 | At any time the files are those of the answered calls, run whole, with the started part of the one call on each file |
| `LockedPhase.LockedPhaseIsSerializable` | crates/common/src/dispatcher.rs:194-213 | Under every schedule: no overlap on a file, and at the end files and results are those of whole calls in an order that keeps each path's order |
| `LockedPhase.BatchIsSerializable` | crates/common/src/dispatcher.rs:182-213 | The same for the phase of every batch, with no condition on its paths |
| `LockedPhase.NoDeadlock` | crates/common/src/dispatcher.rs:200-206 | If no other task holds a lock, some thread can go on unless all calls are done |
| `LockedPhase.EveryRunEnds` | crates/common/src/dispatcher.rs:194-213 | If no other task holds a lock, a run cannot go on exactly when all calls are done, which is exactly after the steps of its calls |
| `UseTree.ParseOfPrint` | scripts/dep-guard/second_export.py:454-560 | Every use tree, with any layout, parses to exactly its leaves in order |
| `UseTree.TrailingColonsHang` | scripts/dep-guard/second_export.py:526-547 | A text on which the parser does not return |
| `UseTreeEnds.ReturnsExactly` | scripts/dep-guard/second_export.py:505-555 | The parser returns if and only if the text does not run out inside a leaf |
| `UseTreeParsing.UseTreeParser.SkipBlanks` | scripts/dep-guard/second_export.py:466-478 | The cursor moves past blanks and comments |
| `UseTreeParsing.UseTreeParser.ReadIdent` | scripts/dep-guard/second_export.py:480-492 | Reads the identifier, raw or plain |
| `UseTreeParsing.UseTreeParser.TryAs` | scripts/dep-guard/second_export.py:494-503 | Takes the keyword or restores the cursor |
| `UseTreeParsing.UseTreeParser.ReadLeaf` | scripts/dep-guard/second_export.py:526-555 | The leaf loop does what the specification says on the rest of the text |
| `UseTreeParsing.UseTreeParser.ReadGroup` | scripts/dep-guard/second_export.py:512-524 | So does the group loop |
| `UseTreeParsing.UseTreeParser.Parse` | scripts/dep-guard/second_export.py:505-510 | So does the parser as a whole |
| `Reachability.SegmentsOfPath` | scripts/dep-guard/second_export.py:689-695 | A path is cut into the segments it was built from |
| `Reachability.TargetsAre` | scripts/dep-guard/second_export.py:689-705 | Which re-exports are followed, in all their spellings |
| `Reachability.TargetsAreExactly` | scripts/dep-guard/second_export.py:689-705 | And no others: a path is followed to a module if and only if its segments are one of these spellings of it |
| `Reachability.PropagateDeclarations` | scripts/dep-guard/second_export.py:713-719 | One pass marks only what must be marked; no change means closed |
| `Reachability.PropagateUses` | scripts/dep-guard/second_export.py:720-730 | The same for re-exports; it stops at an item of a reachable module that does not parse |
| `Reachability.LeastIsClosed` | scripts/dep-guard/second_export.py:708-730 | What every closed set with the marks has is itself closed |
| `Reachability.LeastIsReachable` | scripts/dep-guard/second_export.py:708-730 | A module is in the least closed set if and only if a chain of public children and plain `pub use` paths leads to it from the root or a marked module |
| `Reachability.Propagate` | scripts/dep-guard/second_export.py:708-730 | Returns if and only if every `pub use` of every module in the least closed set parses, and then exactly the modules that chains lead to are marked, whatever the order of modules |
| `SourceTokens.RunToks` | scripts/dep-guard/second_export.py:300-347 | Tokens of which none is recorded leave nothing but pending attributes and visibility |
| `BodyRecords.PassedOverIff` | scripts/dep-guard/second_export.py:300-441 | A body is passed over, whatever follows, if and only if no word in it is recorded |
| `BodyRecords.UnionCallIsRecorded` | scripts/dep-guard/second_export.py:424-437 | A call of a method named `union` is recorded as a definition without a name |
| `ItemRoundTrip.RunHead` | scripts/dep-guard/second_export.py:207-238 | Attributes and visibility in front of an item are recorded exactly |
| `SourceText.RestrictedIff` | scripts/dep-guard/second_export.py:351-363 | `pub(...)` restricts exactly when, blanks aside, it has `crate` or `super` up to a parenthesis or the end, or begins with `in` |
| `SourceText.CfgTestIff` | scripts/dep-guard/second_export.py:284-285 | An item is for tests exactly when an attribute has, at the start of a word, `cfg`, `(` and the word `test`, with any blanks between |
| `SourceText.StripIs` | scripts/dep-guard/second_export.py:238 | Stripping takes the white space from both ends and nothing else |
| `SourceParts.StatementOf` | scripts/dep-guard/second_export.py:240-280 | A statement is collected up to the semicolon outside all brackets, comments, strings and character literals |
| `ItemRoundTrip.RunItem` | scripts/dep-guard/second_export.py:349-441 | An item is declared in its innermost module and nothing else changes |
| `ItemRoundTrip.ScanOfPrint` | scripts/dep-guard/second_export.py:300-446 | Scanning a printed file gives exactly its tree of modules and declarations, visibility and tests told from the text |
| `ItemScanning.ItemScanner.SkipTriviaAhead` | scripts/dep-guard/second_export.py:142-170 | The cursor moves past blanks and nested comments |
| `ItemScanning.ItemScanner.SkipString` | scripts/dep-guard/second_export.py:172-186 | And past a string with escapes |
| `ItemScanning.ItemScanner.SkipCharOrLifetime` | scripts/dep-guard/second_export.py:188-199 | And past a character literal or a lifetime quote |
| `ItemScanning.ItemScanner.ReadAttribute` | scripts/dep-guard/second_export.py:207-238 | Records the text of an attribute |
| `ItemScanning.ItemScanner.CollectStatement` | scripts/dep-guard/second_export.py:240-280 | Returns the stripped text of a statement |
| `ItemScanning.ItemScanner.DispatchWord` | scripts/dep-guard/second_export.py:349-441 | What each keyword records |
| `ItemScanning.ItemScanner.CloseBlocks` | scripts/dep-guard/second_export.py:321-327 | Pops exactly the modules opened deeper |
| `ItemScanning.ItemScanner.ReadToken` | scripts/dep-guard/second_export.py:305-346 | One turn of the loop; the cursor strictly advances |
| `ItemScanning.ScanText` | scripts/dep-guard/second_export.py:444-446 | The scanner object returns the module tree that the round trip is about |
| `Segments.FlushUnclosedFence` | crates/common/src/content_segment.rs:29-39 | An unclosed fence becomes plain lines |
| `Segments.EndsFenceIff` | crates/common/src/content_segment.rs:81 | A line ends a fence exactly when it is three or more backticks and white space |
| `Segments.OpensFenceIff` | crates/common/src/content_segment.rs:41-56 | A line opens a fence exactly when it is three backticks and a language with white space around it and no space before its end |
| `Segments.ReadsIsUnique` | crates/common/src/content_segment.rs:72-105 | The text of the lines determines the segments |
| `Segments.ParseContentSegments` | crates/common/src/content_segment.rs:72-105 | The loop gives the segments found by looking ahead for the closing fence, and those that the text of the lines says |
| `Segments.NormalForm` | crates/common/src/content_segment.rs:29-105 | For all lines, parsing the print of the segments gives the segments |
| `Segments.NoLineIsLost` | crates/common/src/content_segment.rs:59-105 | The print has every line, rules and fences tidied, exactly when no block is a single empty line |
| `Segments.ThinBlockLosesALine` | crates/common/src/content_segment.rs:83-86 | Such a block loses its line |
| `Segments.PrintShowsCr` | crates/common/src/content_segment.rs:72-105 | The print has a line ending in a carriage return exactly when the lines have one that is kept: outside blocks and no rule, in a block, or after an unclosed fence |
| `Segments.TextNormalForm` | crates/common/src/content_segment.rs:72-105 | On text the normal form holds if and only if its lines keep no carriage return |
| `Segments.CarriageReturnIsLost` | crates/common/src/content_segment.rs:78 | A text where it does not |
| `InlineSpans.FindSingleStarEnd` | crates/cli/src/renderer.rs:238-251 | The first star that ends a run of oddly many |
| `InlineSpans.FindCharEnd` | crates/cli/src/renderer.rs:254-266 | The first such character before a line feed, or none exists |
| `InlineSpans.ExtractLink` | crates/cli/src/renderer.rs:302-316 | A link if one stands there, none otherwise |
| `InlineSpans.ParseInlineSpans` | crates/cli/src/renderer.rs:180-223 | The spans tokenise the text, and with their markers put back give it |
| `InlineSpans.TokenisationIsUnique` | crates/cli/src/renderer.rs:180-223 | There is no other tokenisation |
| `InlineSpans.TokenisationIsLossless` | crates/cli/src/renderer.rs:172-223 | Any tokenisation gives the text back |
| `InlineText.SpanAtIff` | crates/cli/src/renderer.rs:226-316 | Where each kind of span stands, from the characters: its markers, and a text that does not close earlier |
| `Ansi.StripAnsi` | crates/cli/src/renderer.rs:37-52 | The loop drops everything from an escape to the next letter |
| `Ansi.AfterLetterIs` | crates/cli/src/renderer.rs:37-52 | An escape takes everything up to the next of A-Z and a-z with it, or all |
| `Ansi.StrippedHasNoEscape` | crates/cli/src/renderer.rs:37-52 | No escape is left |
| `Ansi.StripIsIdempotent` | crates/cli/src/renderer.rs:37-52 | Stripping twice is stripping once |
| `Ansi.StylingIsTransparent` | crates/cli/src/renderer.rs:134-169 | Stripping styled pieces gives their text if and only if it holds no escape |
| `Ansi.ApplyInlineStyling` | crates/cli/src/renderer.rs:147-169 | The styled form and the plain form of every span, character by character |
| `Ansi.InlineIsTransparent` | crates/cli/src/renderer.rs:134-223 | From the text on: styled and stripped equals plain exactly for text without escapes |
| `Ansi.EscapeInTextIsLost` | crates/cli/src/renderer.rs:37-52 | A text with an escape that stripping swallows |
| `Ansi.HighlightString` | crates/cli/src/renderer.rs:357-379 | Copies a literal to its closing quote, escapes included |
| `Ansi.HighlightLine` | crates/cli/src/renderer.rs:399-419 | Shows the pieces of the line |
| `Ansi.WordIsShown` | crates/cli/src/renderer.rs:382-396 | A word outside literals is coloured exactly when it is a keyword |
| `Ansi.LiteralIsShown` | crates/cli/src/renderer.rs:357-379 | A literal is shown as it is, up to its closing quote |
| `Ansi.CommentIsShown` | crates/cli/src/renderer.rs:399-403 | A comment line is coloured as a whole |
| `Ansi.HighlightIsTransparent` | crates/cli/src/renderer.rs:357-419 | Stripping a highlighted line gives the line exactly when it holds no escape |
| `Utf8.DecodeOfEncode` | crates/cli/src/renderer.rs:673 | The bytes of a character give it back; the first tells their number and only the others continue |
| `Truncation.BytePrefixIff` | crates/cli/src/renderer.rs:673 | A slice succeeds exactly at the boundaries of characters, and its bytes are those in front |
| `Truncation.PrefixAtBoundary` | crates/cli/src/renderer.rs:673 | Slicing at the byte length of a prefix gives the prefix |
| `Truncation.WidthIs` | crates/cli/src/renderer.rs:666-672 | The width of a text is the sum over its characters |
| `Truncation.TruncateLineToWidth` | crates/cli/src/renderer.rs:666-679 | The line if it fits, else the longest fitting prefix and the marker; the slice never panics |
| `Truncation.TruncateLinesToWidth` | crates/cli/src/renderer.rs:685-697 | Line count and trailing newline are kept, and each line is the truncated one |
| `Truncation.RenderToolResult` | crates/cli/src/renderer.rs:732-763 | The first twenty lines truncated, and the marker line if there were more: at most twenty-one, dimmed with colours; empty content gives an empty line |
| `Truncation.DimIsTransparent` | crates/cli/src/renderer.rs:758-762 | Stripped, a dimmed result is the plain one exactly when its body holds no escape |
| `TrackerRecords.StableSort` | scripts/_tracker_core.py:97-103 | Sorted by key, records of one key in their order |
| `TrackerRecords.StableSortIsUnique` | scripts/_tracker_core.py:103 | No other list is |
| `TrackerCheck.Tracker.UpsertRecord` | scripts/_tracker_core.py:109-129 | Updates the last record with the key in its place, or appends one made from the defaults |
| `TrackerCheck.LeftFields` | scripts/_tracker_core.py:192-235 | Which keys are reported, and every field of the last record of a key after the check: merge base or own commit, its committer date, the clock, the cleared block; key and comment as before |
| `TrackerCheck.ReportsSelect` | scripts/_tracker_core.py:192-235 | The reported positions of the keys, from the fields of the records, in order |
| `TrackerCheck.Tracker.RunCheck` | scripts/_tracker_core.py:165-235 | What is reported and what every key's records are afterwards, as a whole and field by field, for any records and keys, sorting in between |
| `TrackerCheck.CheckConserves` | scripts/_tracker_core.py:192-235 | No record added or dropped; only a key's last record changes, never its comment, and then its block is gone |
| `TrackerCheck.ReportedIsUnblocked` | scripts/_tracker_core.py:200-233 | Reported keys end unblocked, unreported keys keep their records |
| `TrackerCheck.SecondCheckIsQuiet` | scripts/_tracker_core.py:192-235 | A second check finds nothing to unblock |
| `TrackerCheck.ChangedKeys` | scripts/tracker-next.py:80-101 | The mirror lists exactly the keys that are untracked, never confirmed or changed, in order |
| `TrackerCheck.MirrorIsExact` | scripts/tracker-next.py:86-101 | The mirror equals the check if and only if no key is found twice that is unblocked at first and unchanged since; always for distinct keys |
| `TrackerCheck.MirrorFindsWork` | scripts/tracker-next.py:157-158 | For any keys the two agree on whether there is anything |
| `TrackerCheck.RepeatedKeyIsLost` | scripts/_tracker_core.py:212-227 | A repeated key on which they differ |
| `TrackerCheck.CmdNext` | scripts/tracker-next.py:147-185 | Each status from the fields of the records; exactly the keys to look at or the blocked records are listed, in order, with comment or reason |
| `Baseline.LoadBaseline` | scripts/dep-guard/baseline.py:25-33 | Exactly the texts that stand alone on a line, are not empty and do not begin with `#`, sorted, each once |
| `Baseline.DiffBaseline` | scripts/dep-guard/baseline.py:60-78 | For each key missing on the other side, the last item with it |
| `BaselineText.SplitOfEndedJoin` | scripts/dep-guard/baseline.py:53-56 | Lines written with a line feed at the end are read back; no lines read as an empty one |
| `BaselineText.SplitOfOpenJoin` | scripts/dep-guard/baseline.py:53-56 | Without it a last empty line is lost |
| `Baseline.EntriesRemoved` | scripts/dep-guard/baseline.py:36-57 | From every text, what is written reads back as the entries without the removed ones |
| `Baseline.RemovedFromEnded` | scripts/dep-guard/baseline.py:53-56 | What is left of a text that ends in a line feed ends in one |
| `Baseline.RemovedFromOpen` | scripts/dep-guard/baseline.py:53-56 | What is left of a text that does not does not |
| `Baseline.BaselineFile.RemoveEntries` | scripts/dep-guard/baseline.py:36-57 | Drops exactly the matching lines of the text, keeps the others in order and the trailing line feed, returns what was there; a text without any is not touched |
| `Baseline.BaselineFile.ApplyFix` | scripts/dep-guard/dep_guard.py:289-311 | Narrows only for a fix of a fixable check that was carried out and has eliminated entries |
| `Baseline.BaselineFile.CheckAndFix` | scripts/dep-guard/dep_guard.py:101-311 | One check with or without fix, skipped, broken or carried out: status, new items, removed entries, the file afterwards |
| `Baseline.FixOfGroup` | scripts/dep-guard/baseline.py:72-78 | A fix takes one entry from each group whose key is gone, and none from the others |
| `Baseline.FixesNeeded` | scripts/dep-guard/baseline.py:36-78 | Fixing n times leaves exactly the entries whose key is actual if and only if no stale key had more than n entries |
| `Baseline.OneFixForDistinctKeys` | scripts/dep-guard/baseline.py:60-78 | With distinct keys one fix is enough |
| `Baseline.NewItemsStay` | scripts/dep-guard/dep_guard.py:289-298 | A fix neither hides nor adds a new violation |
| `Baseline.SameKey` | scripts/dep-guard/second_export.py:850-868 | Two entries share a key exactly when they differ in the line number only |
| `Baseline.OnlyEntriesChange` | scripts/dep-guard/second_export.py:850-868 | Only a text of the form of an entry has a key that differs from it |
| `Baseline.RepeatedSourceNeedsTwoFixes` | scripts/dep-guard/second_export.py:850-868 | Two stale entries of one source are not gone after one fix |
| `RunningStats.DetectCacheAnomaly` | crates/common/src/llm_stats.rs:71-90 | An anomaly exactly for a non-zero previous prompt count that is off by more than the tolerance, either way, and what it reports |
| `RunningStats.Stats.Round` | crates/common/src/llm_stats.rs:194-263 | After detection and accumulation every field says what the rounds since the last reset say, and has changed by what the fields of this call say |
| `RunningStats.Stats.Reset` | crates/common/src/llm_stats.rs:298-313 | As before any round |
| `RunningStats.TotalsAreExact` | crates/common/src/llm_stats.rs:242-258 | No counter overflows in 2^31 rounds |
| `RunningStats.OneMoreCanOverflow` | crates/common/src/llm_stats.rs:242-258 | One round more can |

## Left out

- Git subprocesses, reading and writing files, JSON text, cargo metadata: their results are inputs.
- CacheChecks.LoadCache: on typed data, without version, date pattern and type tests; `CacheFile.LoadCache` has them.
- Path canonicalisation on a real file system: a fixed function; the real key of a path can change when the file is created.
- Fairness of the locks between tasks that wait for one path.
- DispatchOrder.DispatchKeepsOrder: its traces have no locks, so it keeps apart the calls of one path only; calls of one file are kept apart in `LockedPhase`.
- MutexPhase.MutexPhaseIsSequential: requires that different paths name different files; `AliasedPaths.ConfluentIff` shows that it must, and `LockedPhase.BatchIsSerializable` is what holds without it.
- LockedPhase.LockedPhaseIsSerializable: other tasks may hold locks but take no steps during the phase, and cleanup is one step, as it is among futures of one task.
- The bodies of tool calls beyond their own file: `MutexPhase` lets a call act on its own file only.
- ItemScanning.ItemScanner.DispatchWord: line numbers of items and the value of `#[path]` are not recorded; attributes are kept as text.
- Raw strings with hashes: the scanner does not recognise them as such, and the printed files have none.
- The module stack of the scanner holds values: a module joins its parent when it is closed, not when it is opened; the tree at the end is the same.
- The cursor of the scanner stops at the end of the text where the original can step one or two past it after a trailing backslash; nothing is recorded after that.
- Reading module files and building the module tree: `Reachability` starts from the tree.
- Keyword tables, comment prefixes, headings, quotes, rules, code-block frames of the renderer: finite lookups and fixed decoration.
- Truncation.RenderToolResult: markdown rendering is an input.
- The time and model of the last call in the statistics: plain assignments.
- TrackerCheck.Tracker.RunCheck: records are values with all fields present; a record without a commit field is an exception in the original.
- Chart drawing, coverage, weekly buckets, permission payloads, configuration merges, slash commands: plumbing.
