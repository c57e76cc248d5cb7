# A model of Atlas: dependency graph, limiters, scoring, job worker

This project models the parts of the repository whose correctness is not visible from any
one function, and proves what they promise.

| module | what it models |
|---|---|
| `Text`, `Collections`, `Wrappers`, `Repository` | string and list operations, file records |
| `PythonImports`, `TsImports` | the file index and the two import resolvers |
| `CriticalPath` | the contexts dictionary and the depth-capped breadth-first pass |
| `CodeContexts` | all passes that turn parsed files into edges, callers, flags and confidence |
| `ImportEdges` | which edge an import leaves, told from its text |
| `ScanBatches` | choice, order and batching of the files a scan fetches |
| `RateLimiter` | the in-memory limiter: a pruned sliding-window log |
| `RedisLimiter` | the shared limiter: commands of several clients interleaved |
| `Findings`, `Penalties`, `Scoring` | findings, penalties, depth caps, overall score, verdict |
| `Deduplication` | merging of findings |
| `AtlasWorker` | one job execution against committed and pending database state, and histories of executions |
| `Ndcg` | the ranking metric of the benchmark |
| `Summaries` | the deterministic summary and the trace that must account for it |

Where the source updates state step by step the model does too: the contexts dictionary, the
limiter, the shared store and the worker are classes whose methods change fields; the index,
the penalties, the merge and the batches are built in loops, the summaries branch by branch. Each
such method is proved against a function or predicate about which the lemmas speak.

Times are reals in seconds. Score points are exact integers in two-hundredths of a point
(severity tenths times twentieths of the diminishing returns).

## Where the code and its documentation disagree

The model follows the code; each item is a lemma.

- The default alias table documents `@components/`, `@lib/` and `@utils/`. The prefix `@/` is
  trimmed to `@` before it is compared, so it takes every import that starts with `@`:
  `@lib/x` becomes `srclib/x` (`LibAliasLost`). `DefaultAliasesAsDocumented` says exactly for
  which imports the table does what it documents.
- A relative TypeScript import loses what looks like an extension, so `./foo.service` does not
  find foo.service.ts (`ServiceFileMissed`); `TsRelativeResolves` gives the exact condition.
- The resolver documents `@/components` as finding components/index.ts; the aliased branch
  never looks for an index file (`AliasedDirectoryMissed`).
- The file ceiling of a scan binds every caller except one with a negative count
  (`CeilingExact`), and the report counts files as scanned that were never fetched exactly when
  some batch boundary inside the plan is late or over the byte budget (`ScannedCountExact`).
- Depth caps make the shown scores not monotone: for lists scored as they stand,
  `FinalScoreFallsExactly` says when a score fails to fall and `VerdictFlipsExactly` which lists
  can be extended to a suitable one; `RemarkMakesSuitable` is a report that a remark turns.
- A report scores the merged findings, and there an added finding can raise a score even with
  the full toolchain, by taking the place of one that weighs more (`AddedFindingMakesSuitable`).
  `DisplacementExact` says when a score can rise, and `MergedVerdictFlipsExactly` which reports
  added findings can turn suitable: those whose undisplaceable findings are suitable without caps.
- Merging is documented as conservative; findings of one rule that no adapter located are merged
  whatever files they name, and a colon in a path can merge located ones (`KeyExact`).
- Evidence is to be sealed at rest; a cache hit commits the reused row opened
  (`SealedAtRestExactly`).
- Summary and trace "must stay in sync"; for the manager they are equal exactly when the
  report is not production suitable, and otherwise the trace holds more (`ManagerAgrees`). With
  the findings left out, as the fallback allows, the developer's differ as soon as the input
  holds a critical or high finding (`DeterministicFallback`).
- The shared limiter admits up to the number of clients less one beyond its limit, and for every
  number of clients some run does (`WindowsHold`, `OverAdmissionReached`); it counts nothing for
  requests whose six-decimal times coincide (`EqualTimesUncounted`).
- The in-memory limiter forgets after a day, so a burst window longer than that is kept only
  under the condition of `BurstKeptExactly`.

## Model

| member | source | states |
|---|---|---|
| `CriticalPath.ContextGraph.MarkCriticalPathBfs` | backend/app/services/deep_scanner.py:1262-1310 | for any graph, cycles included, and any cap: terminates, flags exactly the files within that many hops of the entrypoint, changes nothing else, and first visits each file at its true distance |
| `CriticalPath.ContextGraph.Search` | backend/app/services/deep_scanner.py:1287-1310 | the FIFO loop keeps levelled depths, sound walks and every open dependency accounted for |
| `CriticalPath.SearchComplete` | backend/app/services/deep_scanner.py:1270-1278 | with the queue empty every walk within the cap has been followed, and no file was settled deeper than any walk to it |
| `CriticalPath.SearchExact` | backend/app/services/deep_scanner.py:1270-1278 | visited is the same as reachable within the cap, and the recorded depth is the minimum number of hops |
| `CriticalPath.SettleKeepsInv` | backend/app/services/deep_scanner.py:1297-1310 | one iteration keeps the search invariant, queue levels included |
| `CriticalPath.ReachAgrees` | backend/app/services/deep_scanner.py:1236-1239 | reachability sees dependency lists only, so flags of earlier entrypoints do not influence later ones |
| `PythonImports.BuildFileIndex` | backend/app/services/deep_scanner.py:788-830 | the loops build the index that `IndexExact` describes |
| `PythonImports.IndexExact` | backend/app/services/deep_scanner.py:788-830 | for any list of Python files, scripts and others: a key is indexed exactly when some file answers to it, and leads to the last file that writes it, else to the first that answers to it |
| `PythonImports.FullNameResolves` | backend/app/services/deep_scanner.py:797-817 | importing a full dotted name finds its own file in any order of the files |
| `PythonImports.FullNameResolvesExactly` | backend/app/services/deep_scanner.py:797-830 | with scripts in the same index, a full dotted name finds its own file exactly when no later script writes that name over it |
| `PythonImports.AbsoluteModuleResolves` | backend/app/services/deep_scanner.py:797-817 | importing `a.b.c` finds the file a/b/c.py, whatever other files end in the same names |
| `PythonImports.AbsoluteSuffixResolves` | backend/app/services/deep_scanner.py:875-887 | any other import by components goes to a file whose segments, without the extension, end with the longest suffix of the components that any file ends with, and fails when no file ends with any |
| `PythonImports.LongestSuffixResolves` | backend/app/services/deep_scanner.py:875-887 | in any list, any other absolute import goes where its longest answered component suffix leads, and fails only when no suffix is answered |
| `PythonImports.RelativeModuleResolves` | backend/app/services/deep_scanner.py:846-866 | a relative import with the right number of dots finds the module file it names |
| `PythonImports.RelativePackageResolves` | backend/app/services/deep_scanner.py:857-873 | a relative import finds a package's init file exactly when it exists and no module file of that name stands beside it |
| `PythonImports.RelativeOrder` | backend/app/services/deep_scanner.py:857-873 | a relative import finds the first listed file among its six places, five extensions in order and then the package file, and nothing when none is listed |
| `PythonImports.EmptyComponentsIgnored` | backend/app/services/deep_scanner.py:846-858 | empty components of a relative import, as doubled dots leave them, are passed over |
| `PythonImports.ResolvePythonImport` | backend/app/services/deep_scanner.py:833-887 | dots climb, the root is its own parent, extensions are tried in order, then the package file |
| `TsImports.NormalizeDots` | backend/app/services/deep_scanner.py:918-929 | the loop computes the collapse of `..` that the three lemmas below are about |
| `TsImports.CollapseArrives` | backend/app/services/deep_scanner.py:918-929 | climbing to a common ancestor and descending arrives at the target |
| `TsImports.CollapseHasNoDots` | backend/app/services/deep_scanner.py:918-929 | no `..` is left |
| `TsImports.RewriteAlias` | backend/app/services/deep_scanner.py:906-912 | the first alias whose trimmed prefix begins the import rewrites it |
| `TsImports.TrimmedExact` | backend/app/services/deep_scanner.py:908-910 | trimming an alias drops all its trailing stars and then all its slashes |
| `TsImports.FirstOfExact` | backend/app/services/deep_scanner.py:931-952 | which file the ten lookups of a relative import find in any list, told from the files alone |
| `TsImports.DefaultRewrites` | backend/app/services/deep_scanner.py:969-986 | what the default table does to every import |
| `TsImports.DefaultAliasesAsDocumented` | backend/app/services/deep_scanner.py:969-986 | the table does what it documents exactly for imports that start with neither `@` nor `~` or have a slash second |
| `TsImports.LibAliasLost` | backend/app/services/deep_scanner.py:906-912 | the concrete import that shows the documented alias is lost |
| `TsImports.ResolveTsImport` | backend/app/services/deep_scanner.py:890-966 | the resolver: alias, relative lookup with its fallbacks, bare lookup |
| `TsImports.SegmentsWritten` | backend/app/services/deep_scanner.py:914-929 | `n` times `../` and names joined by slashes has `n` segments `..` and then the names; `./` and names has the names |
| `TsImports.SegmentsThrough` | backend/app/services/deep_scanner.py:916-929 | any text has the segments of its parts at a slash; empty parts and single dots have none |
| `TsImports.LookupOrder` | backend/app/services/deep_scanner.py:931-952 | the ten names a relative import is looked up by, in order |
| `TsImports.RootLookup` | backend/app/services/deep_scanner.py:928-952 | the same for an import that climbs to the root |
| `TsImports.WrittenImportResolves` | backend/app/services/deep_scanner.py:914-940 | `TsRelativeResolves` for the import as it is written: up by its `../` from the importer, then down |
| `TsImports.TsRelativeResolves` | backend/app/services/deep_scanner.py:914-940 | a relative import of a file without its extension finds it exactly when the rest of the name has no extension, or has one of the four that are tried while no file answers to an earlier name |
| `TsImports.KeptExtensionResolves` | backend/app/services/deep_scanner.py:914-935 | a relative import that keeps the extension of a file finds it |
| `TsImports.ServiceFileMissed` | backend/app/services/deep_scanner.py:931-935 | the concrete import that is missed |
| `TsImports.AliasedImportResolves` | backend/app/services/deep_scanner.py:954-963 | `@/x` finds the file whose path without extension is src/x |
| `TsImports.ScriptKeys` | backend/app/services/deep_scanner.py:819-825 | a script is indexed by its path without extension, bare and with `./` or `/` in front |
| `TsImports.RootedImportResolves` | backend/app/services/deep_scanner.py:956-963 | an import from the root, with any number of slashes in front, finds the file it spells |
| `TsImports.RelativeDirectoryResolves` | backend/app/services/deep_scanner.py:931-950 | a relative import of a directory finds its index file exactly when no other file answers to the name of the directory, with or without an extension; a directory called index is the one exception |
| `TsImports.AliasedDirectoryMissed` | backend/app/services/deep_scanner.py:902-966 | an aliased import of a directory never finds its index file |
| `CodeContexts.BuildCodeContexts` | backend/app/services/deep_scanner.py:1065-1248 | dependency lists are exactly the confirmed edges, callers their duplicate-free transpose with the right count, flags exactly what entrypoints reach in two hops, confidence confirmed over static edges in [0,1] |
| `CodeContexts.ConfirmedEdgesScanned` | backend/app/services/deep_scanner.py:1181-1192 | a confirmed edge joins two different scanned files |
| `CodeContexts.GraphAccounting` | backend/app/services/deep_scanner.py:1156-1208 | every import is suppressed, external, confirmed or unresolved, once; the last two leave one edge each and nothing else leaves any |
| `CodeContexts.CriticalPathOrderFree` | backend/app/services/deep_scanner.py:1236-1239 | the critical path depends on the confirmed edges and the set of entrypoints only |
| `CodeContexts.ConfidenceBounds` | backend/app/services/deep_scanner.py:1241-1246 | graph confidence lies in [0,1] |
| `CodeContexts.ConfidenceExact` | backend/app/services/deep_scanner.py:1241-1246 | confidence times the edges that are not dynamic is the number of confirmed ones; without such edges it is one half |
| `ImportEdges.RootDecides` | backend/app/services/deep_scanner.py:1141-1145 | the text before the first dot or slash, leading dots aside, decides in lower case whether an import is external |
| `ImportEdges.ScopeDecides` | backend/app/services/deep_scanner.py:1141-1145 | an import that starts with `@` is external by the whole text before its first slash |
| `ImportEdges.RootLeaves` | backend/app/services/deep_scanner.py:1181-1203 | an import that finds nothing and is no member leaves nothing when its root is in the table, else one unresolved edge per occurrence |
| `ImportEdges.ScopeLeaves` | backend/app/services/deep_scanner.py:1181-1203 | the same for a scoped import |
| `ImportEdges.FoundLeavesConfirmed` | backend/app/services/deep_scanner.py:1182-1191 | an import that finds another scanned file leaves one confirmed edge to it per occurrence, external or not |
| `ImportEdges.MemberExact` | backend/app/services/deep_scanner.py:1176-1180 | an import is that of a member exactly when the text before its last dot is an absolute Python import that finds a file |
| `ImportEdges.MemberLeavesNothing` | backend/app/services/deep_scanner.py:1172-1180 | a name imported from a scanned module leaves no edge |
| `ImportEdges.ModuleImportConfirmed` | backend/app/services/deep_scanner.py:1165-1191 | a Python file that imports a module of the scan by its path depends on it, once per occurrence |
| `ImportEdges.WrittenImportConfirmed` | backend/app/services/deep_scanner.py:1167-1191 | a script that imports another by its relative path depends on it |
| `ImportEdges.ScriptsAlike` | backend/app/services/deep_scanner.py:1167-1168 | JavaScript imports leave the edges TypeScript ones do |
| `ImportEdges.OthersConfirmNothing` | backend/app/services/deep_scanner.py:1169-1170 | files of other languages confirm nothing |
| `ImportEdges.ReasonDynamic` | backend/app/services/deep_scanner.py:1005-1014 | an unresolved import is called dynamic exactly when its text holds one of the five patterns |
| `ImportEdges.ReasonPython` | backend/app/services/deep_scanner.py:1031-1059 | any other Python import is ambiguous exactly when it has two components or more and ends in a package directory name |
| `ImportEdges.ReasonScript` | backend/app/services/deep_scanner.py:1016-1029 | any other script import is an unknown alias exactly when it starts with `@` and no configured prefix, slash included, begins it |
| `CodeContexts.CollectFile` | backend/app/services/deep_scanner.py:1152-1208 | the import loop of one file: edges, targets and counters agree |
| `CodeContexts.LinkCallers` | backend/app/services/deep_scanner.py:1216-1222 | after the pass every file holds its callers in file order, once each, and their number |
| `ScanBatches.Scan` | backend/app/services/deep_scanner.py:1345-1437 | in any completion order the files fetched are a prefix of the plan with one record each, up to the first boundary that is late or over the byte budget, else all of it; bytes are conserved and at most 50,000,000 + 30*4*150,000; skipped and attempted add up; the scanned count is right exactly when no boundary stops the scan |
| `ScanBatches.FetchBatch` | backend/app/services/deep_scanner.py:1373-1404 | a batch completed in any order leaves one record per path and counts failures and bytes exactly |
| `ScanBatches.PrioritizeExact` | backend/app/services/deep_scanner.py:598-631 | the plan is sorted by key, a permutation, and stable |
| `ScanBatches.FetchedFirst` | backend/app/services/deep_scanner.py:1361-1421 | no scannable file left out has a strictly better key than a fetched one |
| `ScanBatches.RolesFirst` | backend/app/services/deep_scanner.py:607-631 | while a file that is no asset is left out no asset is fetched, no file of a less important role, and within its role none that is larger by the size tiers; the ten roles are listed |
| `ScanBatches.LargeFilesTie` | backend/app/services/deep_scanner.py:623-629 | sizes of one role differ by ten thousands and not beyond fifty thousand |
| `ScanBatches.PlanExact` | backend/app/services/deep_scanner.py:1349-1361 | only blobs that are neither skipped nor generated are planned, and all of them when the tree is within the limits |
| `ScanBatches.ScannedCountExact` | backend/app/services/deep_scanner.py:1407-1428 | the scanned count is the parsed count exactly when no boundary inside the plan is late or over the byte budget, and else exceeds it by the files never fetched |
| `ScanBatches.EndUnique` | backend/app/services/deep_scanner.py:1370-1421 | plan, contents and clock settle where the scan ends |
| `ScanBatches.EndExact` | backend/app/services/deep_scanner.py:1370-1421 | a scan that ends early ends after a whole number of batches of thirty, late or over fifty million bytes, and no earlier boundary was either |
| `ScanBatches.RecordExact` | backend/app/services/deep_scanner.py:1380-1404 | a file stores the UTF-8 length of its first 150,000 characters, a failed one nothing |
| `ScanBatches.Utf8Exact` | backend/app/services/deep_scanner.py:1396 | that length counts each character by its width |
| `ScanBatches.StoredWhateverOrder` | backend/app/services/deep_scanner.py:1376-1404 | the stored bytes do not depend on the order of completion |
| `ScanBatches.CeilingExact` | backend/app/services/deep_scanner.py:1344-1345 | the 800-file ceiling holds exactly for non-negative counts and for lists short enough |
| `RateLimiter.PublicRouteLimiter.Check` | backend/app/core/security.py:81-110 | one check: decision and new logs; other keys untouched, a rejection leaves every log as it was |
| `RateLimiter.DecidesAsIfUnpruned` | backend/app/core/security.py:82-110 | in every run with a non-decreasing clock the pruned limiter decides, Retry-After included, as one that keeps all accepted times |
| `RateLimiter.PrunedDecidesAlike` | backend/app/core/security.py:82-86 | the one-step form of the same |
| `RateLimiter.LogsPruneHistory` | backend/app/core/security.py:82-110 | every reachable log is the sorted accepted history without what is a day old |
| `RateLimiter.WindowsHold` | backend/app/core/security.py:83-110 | in every run every half-open burst window holds at most the burst limit of accepts of a key, every day at most the daily limit |
| `RateLimiter.AcceptsSpaced` | backend/app/core/security.py:83-110 | accepts a limit apart in the history lie a window apart in time |
| `RateLimiter.StepEffect` | backend/app/core/security.py:85-110 | only an accept changes a log or a history, and only its own key's: rejections consume no budget |
| `RateLimiter.KeysIndependent` | backend/app/core/security.py:60-82 | a key's log and accepts are what its own requests alone would make them |
| `RateLimiter.BurstRetryHonest` | backend/app/core/security.py:85-95 | a burst rejection's Retry-After is 1 or does not exceed the wait for the deciding entry, within the window; one second beyond it passes, on whole-second clocks exactly on time passes, too early does not |
| `RateLimiter.DailyRetryHonest` | backend/app/core/security.py:97-107 | the same for a daily rejection |
| `RateLimiter.IndexErrorExactly` | backend/app/core/security.py:86-98 | the log lookup fails exactly when a limit below one meets a log too short for it |
| `RateLimiter.BurstKeptExactly` | backend/app/core/security.py:55-110 | for any window, the burst limit holds in every run exactly when the window is at most a day or the smaller limit, once per day begun, stays within it |
| `RedisLimiter.WindowsHold` | backend/app/core/security.py:112-152 | in every interleaving of n clients a burst window holds at most limit + n - 1 admissions, a window short of a day by the flight time at most daily + n - 1 |
| `RedisLimiter.OneClientDay` | backend/app/core/security.py:112-152 | with one client every whole half-open day holds at most the daily limit |
| `RedisLimiter.RefusalsJustified` | backend/app/core/security.py:122-148 | in every interleaving of n clients a check is refused only when its burst window holds the burst limit of admissions or the last day the daily limit |
| `RedisLimiter.OneClientDecides` | backend/app/core/security.py:122-148 | with one client a check is refused exactly then |
| `RedisLimiter.AloneDecides` | backend/app/core/security.py:122-151 | an undisturbed check admits exactly when its window and its day have room, and leaves the entries of the day and its own |
| `RedisLimiter.StepKeepsInv` | backend/app/core/security.py:122-152 | every command of every client keeps the invariant behind that bound |
| `RedisLimiter.WindowIntact` | backend/app/core/security.py:123-125 | no other client's prune removes what a count still looks at |
| `RedisLimiter.CountPromises` | backend/app/core/security.py:124-127 | at its count a client misses at most the requests of the other clients in flight |
| `RedisLimiter.OverAdmissionReached` | backend/app/core/security.py:122-152 | for every number of clients and all limits some run has a window with n - 1 admissions more than the smaller limit |
| `RedisLimiter.LimitHoldsExactly` | backend/app/core/security.py:122-152 | the limit itself holds in every run exactly for one client (or when nothing may be admitted) |
| `RedisLimiter.EqualTimesUncounted` | backend/app/core/security.py:122-152 | checks whose six-decimal times are equal share one entry: any number of them is admitted exactly when both limits are at least two |
| `RedisLimiter.SharedStore.Check` | backend/app/core/security.py:112-152 | the command sequence of one check is the five steps undisturbed; it admits exactly when the window and the day of the store have room, drops what is a day old and adds its own entry on admission |
| `Penalties.Cluster` | Tools/scoring/engine.py:34-37 | the loop computes the capped cluster |
| `Penalties.RepeatsCountLess` | Tools/scoring/engine.py:13-37 | a penalty repeated within a rule takes its half, its quarter and then tenths of it, up to twenty points in all |
| `Penalties.DescendingPaysMost` | Tools/scoring/engine.py:35-36 | no order of the penalties weighs more than the descending one |
| `Penalties.MoreDominates` | Tools/scoring/engine.py:35-36 | sorted descending, more penalties dominate fewer position by position |
| `Penalties.ClusterMonotone` | Tools/scoring/engine.py:34-37 | more penalties of a rule never take fewer points |
| `Penalties.ClusterReplaced` | Tools/scoring/engine.py:34-37 | a larger penalty in place of a smaller one never takes fewer points, sizes beyond a full cluster counting as equal |
| `Scoring.RawScoreAntitone` | Tools/scoring/engine.py:23-41 | added findings never raise a raw score, in any category, wherever they are inserted |
| `Scoring.RawScoreOrderFree` | Tools/scoring/engine.py:23-41 | raw scores do not see the order of the findings |
| `Scoring.HeavierInPlace` | Tools/scoring/engine.py:23-41 | a finding of the same rule that weighs at least as much never raises a raw score by taking the place of another |
| `Scoring.ComputeScorecard` | Tools/scoring/engine.py:17-51 | the loops over findings, domains and rules compute the capped scores, all within 0 to 100, whatever order the dictionaries yield |
| `Scoring.DistinctRulesScore` | Tools/scoring/engine.py:30-41 | findings of different rules add up exactly, and only the sum is cut to whole points |
| `Scoring.WeightExact` | Tools/scoring/engine.py:10-37 | what one finding weighs, by severity and impact |
| `Scoring.CleanReportScores` | Tools/scoring/depth_weight.py:27-83 | what a report without findings shows at each depth |
| `Scoring.FindingsByCategory` | Tools/scoring/depth_weight.py:86-93 | the counts per category |
| `Scoring.CountedExactly` | Tools/scoring/depth_weight.py:71-74 | a count is positive exactly when some finding speaks of the category |
| `Scoring.FinalAtMostRaw` | Tools/scoring/depth_weight.py:57-83 | caps never raise a score |
| `Scoring.FinalScoreFallsExactly` | Tools/scoring/depth_weight.py:57-83 | a longer list, scored as it stands, fails to lower a shown score exactly when the first finding of the category lifts a cap the raw score still exceeds |
| `Scoring.RemarkMakesSuitable` | Tools/scoring/depth_weight.py:71-74 | a report that a finding without penalty turns production suitable |
| `Scoring.VerdictFlipsExactly` | Tools/scoring/depth_weight.py:57-83 | of lists scored as they stand: at any depth some longer list is suitable exactly when this one is suitable without caps |
| `Scoring.PenaltiesWithin` | Tools/scoring/engine.py:23-41 | a list whose penalties all come from another scores no lower than that one |
| `Scoring.OverallMonotone` | Tools/scoring/engine.py:54-62 | the weighted overall score is monotone and stays within 0 to 100 |
| `Scoring.OverallWeights` | Tools/scoring/engine.py:54-62 | equal scores give themselves overall; what each category contributes |
| `Scoring.SuitableExactly` | Tools/scoring/interpretation.py:162-166 | production suitable exactly from 75 overall, 65 in security and 50 in testing |
| `Scoring.BandsPartition` | Tools/scoring/interpretation.py:124-128 | every score lies in exactly one band; the trusted bands are those from 75 |
| `Scoring.FindingsNeverMakeSuitable` | Tools/scoring/interpretation.py:149-166 | with the full toolchain, a longer list of findings scored as it stands is never suitable where the shorter one is not |
| `Deduplication.Deduplicate` | Tools/engine/dedupe.py:21-36 | one finding per key, in order of first occurrence, each the earliest best one under (severity, confidence) |
| `Deduplication.DeduplicatedUnique` | Tools/engine/dedupe.py:21-36 | that description determines the result |
| `Deduplication.Survivor` | Tools/engine/dedupe.py:17-35 | of two findings with one key the more severe survives, of equally severe ones the more certain, of equal ones the first |
| `Deduplication.Idempotent` | Tools/engine/dedupe.py:21-36 | deduplicating twice is deduplicating once |
| `Deduplication.EveryKeyKept` | Tools/engine/dedupe.py:21-36 | every finding is represented by one no worse under its key |
| `Deduplication.KeyExact` | Tools/engine/dedupe.py:39-53 | a finding shares its key with all findings of its own rule, file and start of evidence, and with no others exactly when the key cannot be cut at a second pair of colons |
| `Deduplication.MergingNeverLowersScore` | Tools/engine/dedupe.py:21-36 | scoring the merged list never gives a lower raw score |
| `Deduplication.DisplacementExact` | Tools/engine/dedupe.py:27-35 | a better finding that takes the place of another never raises the raw score of the merged list, whatever else is in it, exactly when it weighs at least as much |
| `Deduplication.MergedScoreAntitone` | Tools/engine/dedupe.py:21-36 | raw scores of merged lists fall along every run of added findings that displaces nothing heavier |
| `Deduplication.MergedNeverMakesSuitable` | Tools/scoring/interpretation.py:149-166 | with the full toolchain such findings never turn an unsuitable report suitable |
| `Deduplication.AddedFindingMakesSuitable` | Tools/engine/dedupe.py:27-35 | a report that an added finding turns suitable by displacing a heavier one |
| `Deduplication.MergedVerdictFlipsExactly` | backend/app/services/reviewer/service.py:137-155 | for a report, which scores merged findings: some added findings make it suitable, at any depth, exactly when its findings of critical severity and high confidence are suitable without caps |
| `Deduplication.UnbeatableExact` | Tools/engine/dedupe.py:27-35 | critical severity with high confidence is exactly what nothing displaces |
| `Deduplication.UnbeatableStays` | Tools/engine/dedupe.py:27-35 | such a finding stays in the merged list whatever is added |
| `AtlasWorker.Worker.ExecuteAnalysisJob` | backend/app/services/atlas_worker.py:139-318 | whatever the collaborators do, the committed job ends completed or failed, failed exactly when an exception reaches the outer handler; which row is written or reused is fixed; in every state committed on the way a completed job has its result |
| `AtlasWorker.Worker.Publish` | backend/app/services/atlas_worker.py:220-264 | the job's own row and its status go out in one commit and survive any diagnostic failure |
| `AtlasWorker.Worker.Reuse` | backend/app/services/atlas_worker.py:169-201 | a cache hit points the job at the row and changes nothing else about it but evidence and tabs |
| `AtlasWorker.Worker.PopulateDiagnosticTabs` | backend/app/services/atlas_worker.py:95-136 | all three sections end up settled as `Diagnosed` says and nothing else changes; it raises exactly when there was something to do and the flush fails |
| `AtlasWorker.Diagnosed` | backend/app/services/atlas_worker.py:46-136 | complete tabs stay; else each section is what the analyzers wrote, else what was there, else a failure mark that tells a raise from an incomplete run |
| `AtlasWorker.FreshRowExactly` | backend/app/services/atlas_worker.py:220-264 | what a fresh execution commits: one new row with the SHA and evidence of the analysis and, section by section, what its diagnosis wrote |
| `AtlasWorker.CacheHitExactly` | backend/app/services/atlas_worker.py:169-201 | what a cache hit commits: the row of the SHA with its evidence opened and its missing sections settled, no other row touched |
| `AtlasWorker.FailsExactly` | backend/app/services/atlas_worker.py:158-318 | the job fails exactly when the analysis raises or, with no row for its SHA, summaries or persisting do; other jobs are untouched |
| `AtlasWorker.LookupNeverSeesTwo` | backend/app/services/atlas_worker.py:161-169 | over any sequence of executions at most one committed result per tree SHA, so the lookup never meets two |
| `AtlasWorker.CompletedAlwaysHaveResults` | backend/app/services/atlas_worker.py:170-243 | in every state of every history each completed job has a committed result |
| `AtlasWorker.ExecutionKeepsRows` | backend/app/services/atlas_worker.py:158-318 | rows are only added; their SHA and job never change |
| `AtlasWorker.FailedPersistKeepsRow` | backend/app/services/atlas_worker.py:266-318 | when persisting raises the status flips to failed and the row stays |
| `AtlasWorker.SealedAtRestExactly` | backend/app/services/atlas_worker.py:170-176 | evidence stays sealed at rest exactly when no row is reused or the reused one cannot be opened |
| `Ndcg.NdcgExact` | backend/scout_benchmark.py:434-440 | for rankings without repetition and cuts that are not negative the metric is in [0,1], 1 exactly when the places that count are all ideal, and 0 for a cut at 0 |
| `Ndcg.NothingIdeal` | backend/scout_benchmark.py:435-436 | without an ideal list every ranking gets 1 |
| `Ndcg.TopIsPrefix` | backend/scout_benchmark.py:438-439 | a cut takes that many from the front; a negative one leaves as many off the end |
| `Ndcg.WithinOneExactly` | backend/scout_benchmark.py:434-440 | for any ranking and any cut: the metric stays within 1 under every discount exactly when no more ideal items are found than the twice-cut ideal list has places (or it has none) |
| `Ndcg.WithinOne` | backend/scout_benchmark.py:434-440 | the same for one discount: sufficient always, necessary with the ideal items in front |
| `Ndcg.FrontGainsMost` | backend/scout_benchmark.py:437-438 | items found gain at most what they would gain in front, with equality only there |
| `Ndcg.MovingUpNeverLowers` | backend/scout_benchmark.py:434-440 | moving an ideal item up never lowers the metric, whatever the cut |
| `Ndcg.RepetitionExceedsOne` | backend/scout_benchmark.py:434-440 | a repeated item breaks the upper bound |
| `Summaries.DeterministicFallback` | Tools/llm/summaries.py:119-131 | developer sentences and traces are equal exactly when the findings of the input and those handed over make the same headline (with none handed over: when the input holds no critical or high one); the hiring ones always are, the manager's are a subsequence and equal exactly when not suitable |
| `Summaries.SummarizeReport` | Tools/llm/summaries.py:134-150 | from one report developer and hiring traces are exactly the sentences emitted, every trace is borne out by its source, and every sentence is so by the unfiltered findings |
| `Summaries.VoicesHold` | Tools/llm/summaries.py:61-116 | no voice says what is not so, for any facts |
| `Summaries.VoicesTellAll` | Tools/llm/summaries.py:61-116 | no voice leaves out what it must tell |
| `Summaries.HeadlineExact` | Tools/llm/trace.py:154-171 | two sets of facts give the developer the same sentences exactly when they make the same headline |
| `Summaries.BuildSentences` | Tools/llm/summaries.py:61-116 | every emitted sentence is so by the findings, scores and labels of the input, and what must be told is told: critical findings, low testing and security, every missed area, weak categories |
| `Summaries.BuildDeterministicTrace` | Tools/llm/trace.py:136-250 | the traced sentences are the voices on the facts of the unfiltered findings, the manager's with the verdict and risk always first, and every source bears its sentence out |
| `Summaries.BuildLlmInput` | Tools/llm/contract.py:49-91 | the severity filter and the fixed order of the scores |
| `Summaries.FilterKeepsSevere` | Tools/llm/contract.py:58-69 | the filter keeps all critical and high findings in order |
| `Summaries.ReportedExact` | Tools/llm/contract.py:58-69 | the filter lets through the findings of the three upper severities and no others |
| `Summaries.ScoresByName` | Tools/llm/contract.py:77-84 | each score is found under its own name |
| `Summaries.WeakTesting` | Tools/llm/trace.py:246-248 | a testing score under 40 always leaves a weak category |
| `Summaries.ManagerAgrees` | Tools/llm/trace.py:173-203 | what the manager's trace holds beyond the emitted sentences, and when |
| `Summaries.ChallengeClaim` | Tools/llm/trace.py:64-78 | the traces whose lowered sentence contains the lowered, stripped fragment |
| `Summaries.TracedSentencesAnswer` | Tools/llm/trace.py:64-78 | any piece of a traced sentence brings up a trace of that sentence |
| `Summaries.EmittedSentencesAnswer` | Tools/llm/trace.py:64-78 | any piece of an emitted sentence brings up a trace of that sentence |

## Left out

- Fetching, cloning, language-model calls and subprocess tools: arbitrary inputs or calls that may raise.
- Parsers, role classification, entrypoint and extension tests: their results are fields of the inputs. Import strings of Python files are taken to hold no slash.
- Lower case and white space are ASCII; a path is a list of segments.
- The tables of external packages and package directory names are parameters, so every statement holds for any tables.
- `BuildCodeContexts`: related files, service boundary and entrypoint chain are not modelled, because no other pass reads them; confidence is the exact quotient, before rounding to three decimals.
- `CriticalPathOrderFree`: speaks of equal edges; reordering the files can change which file a shared suffix key resolves to, and then the edges.
- `RateLimiter.WindowsHold`: assumes a non-decreasing clock, limits of at least one, a burst window within a day and one set of limits per key, as every route passes them; `BurstKeptExactly` and `IndexErrorExactly` say what happens otherwise.
- `RedisLimiter.WindowsHold`: assumes a shared non-decreasing clock, distinct member names and requests in flight for less than the day minus the burst window; key expiry is not modelled.
- Locks and the caller's construction of limiter keys.
- `ComputeScorecard`: exact arithmetic instead of floating point; a sum of doubles just below a whole point could be cut differently.
- Category labels, top concern and the wording of bands: single-branch lookups.
- `ExecuteAnalysisJob`: commits outside the diagnostic block succeed, executions do not overlap, cancellation is not modelled; the separate sessions for intelligence and embeddings appear only through whether persisting raises (embedding failures are swallowed).
- `NdcgExact`: the logarithmic discount is any positive, strictly decreasing weight; the simulated relevance and the sort of the scored pool are not modelled.
- Summaries from a language model and the sentence splitter; sentences are values, and their wording a parameter where it matters.
- `KeyExact`: rule names are taken to hold no colon, as none of the rules' names does; `DisplacementExact` rests on the same.
- `LimitHoldsExactly`: assumes a window with room for as many microseconds as admissions, since requests read distinct ones, and requests that may stay in flight for as many microseconds as there are clients.
- `LookupNeverSeesTwo`: its histories let one job gain two rows, which the unique job column of the results table forbids; the statements cover such histories too.
- `TsRelativeResolves`: like the other statements about spelled imports of scripts, it speaks of lists of scripts; for a mixed list `FirstOfExact` and `IndexExact` say what each lookup finds.
- Repository discovery, review rules, the web front end, schemas and routes.
