# Arma addon indexer and SQF operator type checker, in Dafny

This project models two parts of an IntelliJ plugin for Arma 3.

The first part is the **addon indexer** (`ArmaAddonsManager`). It does the following:

- discovers addon directories under the configured roots;
- skips the addons whose reference-cache entry is still valid;
- for each remaining addon, extracts its `.pbo` archives and converts binary `config.bin` files to text, each time on two worker threads over a size-balanced partition;
- parses the configs and copies scripts and headers into the addon's reference directory;
- reports every step through a forwarding thread that replays callbacks in order and writes a log file.

What the model keeps from this: the deterministic decisions, the walks over directory trees (as a datatype), the per-addon stage machine over abstract stage outcomes, the helper and addon objects (as classes), and the forwarding queue and log counter (as a class).

The second part is the **SQF syntax checker** (`SQFSyntaxChecker`). It is a visitor over the statements of an SQF file. It computes a value type for each operator expression, or "unknown" for every other expression, and registers type problems on a problems holder. The typing rules are functions (`SqfRules`). The visitor is a class whose methods are proved to return exactly what `SqfChecker.CheckExpr` and `SqfChecker.CheckStatement` specify, and to append exactly the problems these specify.

Modules and files:

- `common.dfy`, module `Common`: `Option` and `Filter`.
- `partition.dfy`, module `WorkPartition`: the two-bucket work partition.
- `discovery.dfy`, module `AddonDiscovery`: the addon name filter and the temp directory name.
- `filetree.dfy`, module `FileTree`: directory trees, the `config.cpp`/`config.bin` searches and the copy test.
- `refcache.dfy`, module `ReferenceCache`: the cache decision.
- `copywalk.dfy`, module `ReferenceCopy`: the save stage's copy walk.
- `macros.dfy`, module `ConfigMacros`: `$PROJECT_DIR$` and the configuration.
- `addons.dfy`, module `Addons`: the helper and addon classes and the final list.
- `stages.dfy`, module `AddonStages`: stage sequencing and step events.
- `forwarding.dfy`, module `Forwarding`: the forwarding thread.
- `sqf_rules.dfy`, module `SqfRules`: value types and operator rules.
- `sqf_checker.dfy`, module `SqfChecker`: expressions, statements and the visitor.

Cancellation and step events:

- When a stage sees its addon cancelled, it returns between its `stepStart` and its `stepFinish`. So a step start is followed by its finish only when no cancellation is seen (`AddonStages.DoAllWorkBracketedUnlessCancelled`, `AddonStages.CancelledExtractionLeavesStepOpen`).

The three defects recorded under Findings are modelled twice:

- The code as written is kept only in `ReferenceCache.CacheDecisionAsWritten`, in `ReferenceCopy.WalkCopies` under the `AsWritten` naming, and in `AddonStages.DoAllWorkAsWritten`, together with the lemmas that exhibit each defect (`MarkerWithoutValidKeyAbortsRun`, `SubfolderNamedAfterParent`, `SuccessfulExtractionStopsAddon`, `MissingAddonsFolderContinues`).
- The rest of the model uses the corrected behaviour, in particular `ReferenceCache.CacheDecisionOf`, `ReferenceCache.LoadFromReferenceDirectory`, `ReferenceCopy.CopyReferences` (with the `Mirrored` naming), `AddonStages.DoAllWork`, `AddonStages.AddonEvents` and the `DoAllWork*` lemmas.

Inputs standing in for the outside world:

- Directory listings and trees are parameters.
- `Properties.load` appears as `MarkerRead`.
- Whether each stage saw its addon cancelled, whether a listing could be read and whether `mkdirs` succeeded are fields of `AddonStages.Scenario`.
- The project's base path is an `Option`.
- An exception's text is an optional string.

## Model

| member | source | states |
|---|---|---|
| WorkPartition.SortBySize | src/com/kaylerrenslow/armaplugin/ArmaAddonsManager.java:518 | the sorted files are in ascending size order and are a permutation of the input |
| WorkPartition.GreedyPermutation | src/com/kaylerrenslow/armaplugin/ArmaAddonsManager.java:523-532 | whatever the dealing order, `left ++ right` is a permutation of the files dealt |
| WorkPartition.GreedyCapacities | src/com/kaylerrenslow/armaplugin/ArmaAddonsManager.java:525-531 | each capacity counter equals the total size of its bucket |
| WorkPartition.GreedyBalance | src/com/kaylerrenslow/armaplugin/ArmaAddonsManager.java:525-531 | after any prefix of any dealing order, the two totals differ by at most the largest size dealt |
| WorkPartition.GreedyFirstGoesRight | src/com/kaylerrenslow/armaplugin/ArmaAddonsManager.java:525-531 | totals start tied at zero, so the first file dealt goes to `right` |
| WorkPartition.DealDownIsGreedy | src/com/kaylerrenslow/armaplugin/ArmaAddonsManager.java:522-531 | dealing from the last sorted file down to the first is the greedy dealing of the files in descending order |
| WorkPartition.PartitionIsPermutation | src/com/kaylerrenslow/armaplugin/ArmaAddonsManager.java:518-532 | sorting and then dealing from the largest down gives a permutation of the input |
| WorkPartition.PartitionBalanced | src/com/kaylerrenslow/armaplugin/ArmaAddonsManager.java:518-532 | the partition's totals differ by at most the largest file size |
| WorkPartition.PartitionLargestGoesRight | src/com/kaylerrenslow/armaplugin/ArmaAddonsManager.java:518-532 | for a non-empty input, the largest file heads `right` |
| WorkPartition.PartitionBySize | src/com/kaylerrenslow/armaplugin/ArmaAddonsManager.java:518-532 | the loop (repeated as written at 684-698) for any input gives: the greedy dealing of the sorted files, a permutation, capacities equal to the bucket sums, balance within the largest size, two empty lists for empty input, and the largest file first in `right` |
| AddonDiscovery.AcceptAddonName | src/com/kaylerrenslow/armaplugin/ArmaAddonsManager.java:138-154 | a name is accepted iff it is non-empty, starts with '@', is not blacklisted, and the whitelist is empty or contains it; a blacklisted name is always refused |
| AddonDiscovery.DiscoveredMembers | src/com/kaylerrenslow/armaplugin/ArmaAddonsManager.java:140-162 | a name becomes a helper iff some readable root lists it and the filter accepts it |
| AddonDiscovery.DiscoverAddons | src/com/kaylerrenslow/armaplugin/ArmaAddonsManager.java:140-162 | the discovery loops give the accepted entries root after root, in listing order, and every helper passes the filter |
| AddonDiscovery.ChooseTempDirName | src/com/kaylerrenslow/armaplugin/ArmaAddonsManager.java:175-194 | an unreadable listing is the IllegalStateException; otherwise the chosen name is `_armaPluginTemp` plus k underscores, clashes with no listed entry, and every shorter candidate was listed; the loop terminates |
| FileTree.ConfigNamesDisjoint | src/com/kaylerrenslow/armaplugin/ArmaAddonsManager.java:659-661 | no entry is both a `config.bin` and a `config.cpp` match, ignoring case |
| FileTree.BfsVisitsAll | src/com/kaylerrenslow/armaplugin/ArmaAddonsManager.java:310-321 | the breadth-first walk visits every node of the trees it starts from, each exactly once |
| FileTree.WalkFindsMatches | src/com/kaylerrenslow/armaplugin/ArmaAddonsManager.java:310-321 | the matches the walk collects are exactly the matching nodes of the trees, counted with multiplicity |
| FileTree.WalkFromRootFindsMatches | src/com/kaylerrenslow/armaplugin/ArmaAddonsManager.java:310-321 | a walk from one directory collects, as a collection, exactly the matching nodes of its tree |
| FileTree.CollectConfigCpp | src/com/kaylerrenslow/armaplugin/ArmaAddonsManager.java:307-322 | the cached-entry search returns the `config.cpp` matches (ignoring case) in walk order, and exactly the matching nodes of the tree |
| FileTree.CollectConfigsToDebinarize | src/com/kaylerrenslow/armaplugin/ArmaAddonsManager.java:650-669 | `config.bin` matches go to the conversion list and `config.cpp` matches to the text-config list, each in walk order, and each is exactly the matching nodes of the extraction trees |
| FileTree.ShouldCopy | src/com/kaylerrenslow/armaplugin/ArmaAddonsManager.java:400-404 | a file is copied iff it ends in .sqf, .cpp, .h, .hh or .hpp; a directory is copied iff it ends in one of the four header/config extensions (`&&` binds only the .sqf test) |
| ReferenceCache.FirstNamed | src/com/kaylerrenslow/armaplugin/ArmaAddonsManager.java:280-286 | the first listed entry with exactly the addon's name, or none iff no entry has that name |
| ReferenceCache.MarkerWithoutValidKeyAbortsRun | src/com/kaylerrenslow/armaplugin/ArmaAddonsManager.java:296-297 | as written, a marker read without a `valid` key makes the check throw |
| ReferenceCache.CacheDecisionOf | src/com/kaylerrenslow/armaplugin/ArmaAddonsManager.java:280-304 | the cached entry is used iff an entry named like the addon exists, is a directory and is not marked `valid=false`; no such entry gives reprocessing |
| ReferenceCache.CacheDecisionAgreement | src/com/kaylerrenslow/armaplugin/ArmaAddonsManager.java:290-304 | the corrected and the as-written decision agree on every input except a marker without `valid` |
| ReferenceCache.LoadFromReferenceDirectory | src/com/kaylerrenslow/armaplugin/ArmaAddonsManager.java:277-325 | the addon is loaded from the cache iff the decision is a hit, and then with the entry's `config.cpp` files in walk order |
| ReferenceCopy.NewFolder | src/com/kaylerrenslow/armaplugin/ArmaAddonsManager.java:432 | the folder for a sub-directory is one level under the current copy folder |
| ReferenceCopy.MirroredWalkReplicatesTree | src/com/kaylerrenslow/armaplugin/ArmaAddonsManager.java:369-450 | with the sub-directory's own name, every copied file lands at its own relative path under the reference directory |
| ReferenceCopy.SubfolderNamedAfterParent | src/com/kaylerrenslow/armaplugin/ArmaAddonsManager.java:432 | as written, `x/scripts/a.sqf` is copied to `dest/x/x/a.sqf`, whatever the reference directory `dest` |
| ReferenceCopy.MirroredNamingKeepsSubfolder | src/com/kaylerrenslow/armaplugin/ArmaAddonsManager.java:432 | with the sub-directory's own name, the same script is copied to `dest/x/scripts/a.sqf` |
| ReferenceCopy.ListDirectory | src/com/kaylerrenslow/armaplugin/ArmaAddonsManager.java:393-448 | listing one directory copies its kept entries in order and pushes every other sub-directory on the front of the work list |
| ReferenceCopy.CopyReferences | src/com/kaylerrenslow/armaplugin/ArmaAddonsManager.java:369-450 | the walk's copies are those of the stack-order walk; a copy is made exactly when it copies an entry that passes the copy test and is reached from an extraction directory only through sub-directories that fail it; there is one copy per such entry; each lands at its relative path under the reference directory |
| ReferenceCopy.WalkMatchesTree | src/com/kaylerrenslow/armaplugin/ArmaAddonsManager.java:390-448 | popping and pushing the work list copies the same entries, each as often, as a depth-first walk in listing order, under either naming |
| ReferenceCopy.TreeCopiesMembers | src/com/kaylerrenslow/armaplugin/ArmaAddonsManager.java:393-448 | below one directory, a copy is made exactly for each entry that passes the copy test and is reached through sub-directories that fail it, at the same relative path under the target |
| ReferenceCopy.WalkCopiesReachedEntries | src/com/kaylerrenslow/armaplugin/ArmaAddonsManager.java:369-450 | the save stage's copies are exactly the entries reached from some extraction directory through directories that are not copied themselves |
| ReferenceCopy.WalkCopiesCount | src/com/kaylerrenslow/armaplugin/ArmaAddonsManager.java:369-450 | the walk makes one copy per entry reached, under either naming |
| ReferenceCopy.KeptCountCounts | src/com/kaylerrenslow/armaplugin/ArmaAddonsManager.java:393-448 | below one directory, the depth-first reference makes as many copies as there are kept entries at each level it enters |
| ConfigMacros.ReplaceAllSkipsPlainPrefix | src/com/kaylerrenslow/armaplugin/ArmaAddonsManager.java:957 | replacing every occurrence of a macro in a string whose prefix holds no character starting the macro leaves that prefix untouched and replaces only in the rest |
| ConfigMacros.EvalMacrosWithoutMacro | src/com/kaylerrenslow/armaplugin/ArmaAddonsManager.java:952-958 | a path without '$' is left as it is |
| ConfigMacros.EvalMacrosResolves | src/com/kaylerrenslow/armaplugin/ArmaAddonsManager.java:952-958 | a `$PROJECT_DIR$` after a plain prefix becomes the project base path, or "." when there is none |
| ConfigMacros.ResolveConfig | src/com/kaylerrenslow/armaplugin/ArmaAddonsManager.java:941-970 | no reference directory gives no configuration; otherwise every root and the reference directory have the macro evaluated, and the lists are kept |
| Addons.ArmaAddonHelper.constructor | src/com/kaylerrenslow/armaplugin/ArmaAddonsManager.java:1027-1036 | a new helper keeps its directory, is not cancelled, has no parse results and no reference-directory copy |
| Addons.ArmaAddonHelper.Cancel | src/com/kaylerrenslow/armaplugin/ArmaAddonsManager.java:1054-1057 | cancel sets the flag and changes nothing else |
| Addons.ArmaAddonHelper.AddParseResult | src/com/kaylerrenslow/armaplugin/ArmaAddonsManager.java:804 | a parse result is appended and nothing else changes |
| Addons.ArmaAddonHelper.SetAddonDirectoryInReferenceDirectory | src/com/kaylerrenslow/armaplugin/ArmaAddonsManager.java:367 | records the reference directory and nothing else |
| Addons.ConfigFilesOf | src/com/kaylerrenslow/armaplugin/ArmaAddonsManager.java:985-986 | the addon's config files are the parse results' files, in order |
| Addons.MergeMacrosLastWins | src/com/kaylerrenslow/armaplugin/ArmaAddonsManager.java:985-990 | a macro is in the addon's table iff some parse result defines it, with the value of the last result that does |
| Addons.ArmaAddonImpl.constructor | src/com/kaylerrenslow/armaplugin/ArmaAddonsManager.java:980-992 | the addon's config files and macro table are those of its helper's parse results, in order, with later results overwriting |
| Addons.PutAll | src/com/kaylerrenslow/armaplugin/ArmaAddonsManager.java:987-989 | putting each macro in turn gives the right-biased union of the tables |
| Addons.KeptMembers | src/com/kaylerrenslow/armaplugin/ArmaAddonsManager.java:256-264 | a helper reaches the final list iff it is one of the helpers and was not cancelled |
| Addons.FinalAddonList | src/com/kaylerrenslow/armaplugin/ArmaAddonsManager.java:256-264 | one new addon per non-cancelled helper, in discovery order, whose directory, reference directory, config files and macro table are taken from that helper |
| AddonStages.ExtractStage | src/com/kaylerrenslow/armaplugin/ArmaAddonsManager.java:468-624 | the extraction reports success iff the `addons` folder exists, its archive listing is readable and no cancellation is seen |
| AddonStages.DebinarizeStage | src/com/kaylerrenslow/armaplugin/ArmaAddonsManager.java:643-782 | the conversion reports success iff no cancellation is seen |
| AddonStages.ParseStage | src/com/kaylerrenslow/armaplugin/ArmaAddonsManager.java:793-828 | the parse reports failure iff a cancellation is seen before one of its configs |
| AddonStages.SuccessfulExtractionStopsAddon | src/com/kaylerrenslow/armaplugin/ArmaAddonsManager.java:337-339 | as written, a successful extraction ends the addon's work: nothing is converted, parsed or saved |
| AddonStages.MissingAddonsFolderContinues | src/com/kaylerrenslow/armaplugin/ArmaAddonsManager.java:337-343 | as written, an addon with no `addons` folder goes on to conversion |
| AddonStages.DoAllWorkOrder | src/com/kaylerrenslow/armaplugin/ArmaAddonsManager.java:337-366 | corrected sequencing: the steps open in pipeline order up to the first stage that fails, and the save step opens only when the reference directory is made |
| AddonStages.DoAllWorkComplete | src/com/kaylerrenslow/armaplugin/ArmaAddonsManager.java:337-449 | corrected sequencing: when no stage fails, all four steps open and close, in pipeline order |
| AddonStages.DoAllWorkBracketedUnlessCancelled | src/com/kaylerrenslow/armaplugin/ArmaAddonsManager.java:337-449 | when no stage sees a cancellation, every step start is immediately followed by its finish |
| AddonStages.CancelledExtractionLeavesStepOpen | src/com/kaylerrenslow/armaplugin/ArmaAddonsManager.java:613-614 | an extraction that sees the cancellation leaves its step open and ends the addon's work |
| AddonStages.CacheHitSkipsExtraction | src/com/kaylerrenslow/armaplugin/ArmaAddonsManager.java:217-240 | corrected sequencing: a cache hit runs only the parse and the cleanup steps |
| AddonStages.NoCacheHitRunsStages | src/com/kaylerrenslow/armaplugin/ArmaAddonsManager.java:217-240 | corrected sequencing: without a cache hit, the steps are those of the corrected stage sequence, then cleanup |
| AddonStages.CancelledBeforeTurnIsSilent | src/com/kaylerrenslow/armaplugin/ArmaAddonsManager.java:204-207 | corrected sequencing: a helper cancelled before its turn emits no event at all |
| Forwarding.UntilExit | src/com/kaylerrenslow/armaplugin/ArmaAddonsManager.java:1193-1204 | the consumer replays at most the queued items, and nothing when the sentinel comes first; with no sentinel queued, every notice queued is replayed |
| Forwarding.CloseDeliversEverything | src/com/kaylerrenslow/armaplugin/ArmaAddonsManager.java:1294-1295 | closing after the producers finish replays every queued notice, in order, and leaves the queue empty |
| Forwarding.NothingAfterExitIsDelivered | src/com/kaylerrenslow/armaplugin/ArmaAddonsManager.java:1193-1204 | whatever is queued after the sentinel is never replayed |
| Forwarding.ForwardingThread.Run | src/com/kaylerrenslow/armaplugin/ArmaAddonsManager.java:1193-1204 | the consumer replays the queue in FIFO order up to the sentinel, stops after it, and otherwise waits on an empty queue |
| Forwarding.ForwardingThread.constructor | src/com/kaylerrenslow/armaplugin/ArmaAddonsManager.java:1178-1189 | a fresh forwarder has an empty queue and nothing delivered, written or flushed, and has a log writer exactly when the log file could be opened |
| Forwarding.ForwardingThread.Notify | src/com/kaylerrenslow/armaplugin/ArmaAddonsManager.java:1206-1292 | a callback is queued after the earlier ones |
| Forwarding.ForwardingThread.Log | src/com/kaylerrenslow/armaplugin/ArmaAddonsManager.java:1308-1325 | with no writer nothing happens; otherwise the message is written, and the counter, kept below 1000, is reset with a flush once it reaches 1000; the counter always equals the characters written since the last flush |
| Forwarding.LoggedAllWrites | src/com/kaylerrenslow/armaplugin/ArmaAddonsManager.java:1308-1343 | a run of `log` calls on an open writer writes exactly those lines, in order, and nothing without a writer or after it is closed |
| Forwarding.LoggedAllKeepsCount | src/com/kaylerrenslow/armaplugin/ArmaAddonsManager.java:1316-1322 | on an open writer, every run of `log` calls keeps the counter equal to the characters written since the last flush, and below 1000 |
| Forwarding.ForwardingThread.LogError | src/com/kaylerrenslow/armaplugin/ArmaAddonsManager.java:1327-1334 | logs "[ERROR] " plus the message, then the exception text when there is one, as two `log` calls; the writer's lines, flush point and counter are those two calls give, and the queue, deliveries and open state are kept |
| Forwarding.ForwardingThread.LogWarning | src/com/kaylerrenslow/armaplugin/ArmaAddonsManager.java:1336-1343 | logs "[WARNING] " plus the message, then the exception text when there is one, as two `log` calls; the writer's lines, flush point and counter are those two calls give, and the queue, deliveries and open state are kept |
| Forwarding.ForwardingThread.ForwardMessage | src/com/kaylerrenslow/armaplugin/ArmaAddonsManager.java:1228-1233 | the message is logged by one `log` call, which fixes the writer's lines, flush point and counter, then queued after the earlier callbacks; deliveries and the open state are kept |
| Forwarding.ForwardingThread.ForwardErrorMessage | src/com/kaylerrenslow/armaplugin/ArmaAddonsManager.java:1236-1249 | the message is logged as an error, and the writer's lines, flush point and counter are what `logError` gives; the callback is then queued after the earlier ones; deliveries and the open state are kept |
| Forwarding.ForwardingThread.ForwardWarningMessage | src/com/kaylerrenslow/armaplugin/ArmaAddonsManager.java:1252-1257 | the message is logged as a warning, and the writer's lines, flush point and counter are what `logWarning` gives; the callback is then queued after the earlier ones; deliveries and the open state are kept |
| Forwarding.ForwardingThread.CloseThread | src/com/kaylerrenslow/armaplugin/ArmaAddonsManager.java:1294-1306 | the sentinel is queued after everything else; the log is flushed and closed; the lines written, the delivered events and the buffered-character counter are unchanged |
| SqfRules.TypeCheck | src/com/kaylerrenslow/armaplugin/lang/sqf/psi/SQFSyntaxChecker.java:419-425 | the single-type check registers one problem iff the types differ |
| SqfRules.OneOfCheck | src/com/kaylerrenslow/armaplugin/lang/sqf/psi/SQFSyntaxChecker.java:409-417 | the array check registers one problem iff the type is none of those expected |
| SqfRules.NotOfTypeProblem | src/com/kaylerrenslow/armaplugin/lang/sqf/psi/SQFSyntaxChecker.java:405-407 | notOfType always registers one problem, on the given node, naming the got type |
| SqfRules.AddRule | src/com/kaylerrenslow/armaplugin/lang/sqf/psi/SQFSyntaxChecker.java:108-129 | `+`: for left NUMBER or STRING, NUMBER, with a problem iff right differs from left; for an array left and non-array right, ARRAY and "Not an Array type."; otherwise ANYTHING and one problem (array + array included) |
| SqfRules.SubRule | src/com/kaylerrenslow/armaplugin/lang/sqf/psi/SQFSyntaxChecker.java:151-170 | `-`: left NUMBER gives NUMBER, with a problem iff right is not NUMBER; then the array rule; otherwise ANYTHING and one problem |
| SqfRules.DivRule | src/com/kaylerrenslow/armaplugin/lang/sqf/psi/SQFSyntaxChecker.java:198-215 | `/`: NUMBER/NUMBER is NUMBER, CONFIG/STRING is CONFIG, each with a problem iff right differs; any other left gives ANYTHING and one problem |
| SqfRules.SameTypeRule | src/com/kaylerrenslow/armaplugin/lang/sqf/psi/SQFSyntaxChecker.java:380-403 | the same-type helper returns the expected type, with exactly one problem per operand that is not of that type, the left operand's first |
| SqfRules.BoolRule | src/com/kaylerrenslow/armaplugin/lang/sqf/psi/SQFSyntaxChecker.java:242-248 | `&&`/`\|\|`: BOOLEAN, and no problem iff left is BOOLEAN and right is BOOLEAN or CODE |
| SqfRules.EqualsRule | src/com/kaylerrenslow/armaplugin/lang/sqf/psi/SQFSyntaxChecker.java:310-335 | `==`: BOOLEAN, one problem for each side outside the ten allowed types, the left one first |
| SqfRules.UnknownOperandResult | src/com/kaylerrenslow/armaplugin/lang/sqf/psi/SQFSyntaxChecker.java:293-312 | with an unknown operand, `&&`, `\|\|` and the ordering comparisons give BOOLEAN, every other operator ANYTHING |
| SqfRules.OperatorRule | src/com/kaylerrenslow/armaplugin/lang/sqf/psi/SQFSyntaxChecker.java:89-336 | every operator rule gives a type other than NOTHING, registers at most two problems, each on one of its operands, and comparisons are BOOLEAN |
| SqfRules.BinaryRule | src/com/kaylerrenslow/armaplugin/lang/sqf/psi/SQFSyntaxChecker.java:91-129 | an operator with an operand of unknown type registers nothing and gives its fallback type; otherwise it is the operator's rule |
| SqfRules.BinaryRuleNodes | src/com/kaylerrenslow/armaplugin/lang/sqf/psi/SQFSyntaxChecker.java:89-336 | every problem an operator's own checks register is on one of its two operands |
| SqfChecker.CheckExpr | src/com/kaylerrenslow/armaplugin/lang/sqf/psi/SQFSyntaxChecker.java:89-378 | an expression's type is unknown iff it is a leaf (literal, paren, command, code block, signed, exponent, config fetch); it is never NOTHING; `!` is BOOLEAN |
| SqfChecker.ProblemsWithinTree | src/com/kaylerrenslow/armaplugin/lang/sqf/psi/SQFSyntaxChecker.java:89-336 | every problem a visit registers is on a node of the visited expression |
| SqfChecker.ProblemCountBound | src/com/kaylerrenslow/armaplugin/lang/sqf/psi/SQFSyntaxChecker.java:89-336 | a visit registers at most two problems per operator node |
| SqfChecker.LeafOperandsRegisterNothing | src/com/kaylerrenslow/armaplugin/lang/sqf/psi/SQFSyntaxChecker.java:94-105 | an operator applied only to leaves or to missing operands registers nothing |
| SqfChecker.AnythingOperandsAreReported | src/com/kaylerrenslow/armaplugin/lang/sqf/psi/SQFSyntaxChecker.java:380-403 | a `*` node whose operands are bare `+` nodes over leaves, with no parenthesis node between, registers one problem per operand, because ANYTHING is not NUMBER |
| SqfChecker.ParenthesisedOperandsAreSilent | src/com/kaylerrenslow/armaplugin/lang/sqf/psi/SQFSyntaxChecker.java:358-360 | the `*` of `(a + b) * (c + d)` has two parenthesis operands, which the checker does not descend into, so it is typed ANYTHING and registers nothing |
| SqfChecker.CheckStatement | src/com/kaylerrenslow/armaplugin/lang/sqf/psi/SQFSyntaxChecker.java:39-87 | assignment, case and quest statements are NOTHING; an expression statement has its expression's type |
| SqfChecker.CheckStatementsAppend | src/com/kaylerrenslow/armaplugin/lang/sqf/psi/SQFSyntaxChecker.java:33-37 | visiting two runs of statements in turn registers their problems in turn |
| SqfChecker.LeafStatementsRegisterNothing | src/com/kaylerrenslow/armaplugin/lang/sqf/psi/SQFSyntaxChecker.java:33-37 | statements made of leaf expressions register nothing |
| SqfChecker.ProblemsHolder.RegisterProblem | src/com/kaylerrenslow/armaplugin/lang/sqf/psi/SQFSyntaxChecker.java:116 | a problem is only ever appended |
| SqfChecker.SyntaxChecker.Begin | src/com/kaylerrenslow/armaplugin/lang/sqf/psi/SQFSyntaxChecker.java:33-37 | visits the statements in list order and appends exactly their problems |
| SqfChecker.SyntaxChecker.VisitStatement | src/com/kaylerrenslow/armaplugin/lang/sqf/psi/SQFSyntaxChecker.java:39-87 | each statement visit returns the specified type and appends exactly the specified problems |
| SqfChecker.SyntaxChecker.VisitCase | src/com/kaylerrenslow/armaplugin/lang/sqf/psi/SQFSyntaxChecker.java:52-66 | a case statement appends its condition's problems, then its scope's |
| SqfChecker.SyntaxChecker.VisitScope | src/com/kaylerrenslow/armaplugin/lang/sqf/psi/SQFSyntaxChecker.java:57-63 | the scope's statements are visited in order, appending exactly their problems |
| SqfChecker.SyntaxChecker.VisitExpr | src/com/kaylerrenslow/armaplugin/lang/sqf/psi/SQFSyntaxChecker.java:89-378 | each expression visit returns the specified type and appends exactly the specified problems |
| SqfChecker.SyntaxChecker.VisitNot | src/com/kaylerrenslow/armaplugin/lang/sqf/psi/SQFSyntaxChecker.java:280-289 | `!` returns BOOLEAN and appends the operand's problems, then one more iff the operand's known type is not BOOLEAN |
| SqfChecker.SyntaxChecker.VisitOperand | src/com/kaylerrenslow/armaplugin/lang/sqf/psi/SQFSyntaxChecker.java:94-101 | a missing operand gives no type and adds no problem; a present one is visited and adds its problems after the earlier ones |
| SqfChecker.SyntaxChecker.VisitBinary | src/com/kaylerrenslow/armaplugin/lang/sqf/psi/SQFSyntaxChecker.java:91-105 | a binary operator visits its left and then its right operand, then applies its own part |
| SqfChecker.SyntaxChecker.ApplyBinary | src/com/kaylerrenslow/armaplugin/lang/sqf/psi/SQFSyntaxChecker.java:103-105 | with an operand of unknown type, returns the fallback type and registers nothing; otherwise applies the operator's checks |
| SqfChecker.SyntaxChecker.ApplyOperator | src/com/kaylerrenslow/armaplugin/lang/sqf/psi/SQFSyntaxChecker.java:108-336 | dispatches to each operator's rule once both operand types are known |
| SqfChecker.SyntaxChecker.ApplyArithmetic | src/com/kaylerrenslow/armaplugin/lang/sqf/psi/SQFSyntaxChecker.java:108-222 | `+`, `-`, `*`, `/` and `%` return and register what their rules say |
| SqfChecker.SyntaxChecker.ApplyLogical | src/com/kaylerrenslow/armaplugin/lang/sqf/psi/SQFSyntaxChecker.java:242-336 | `&&`, `\|\|` and the comparisons return and register what their rules say |
| SqfChecker.SyntaxChecker.Add | src/com/kaylerrenslow/armaplugin/lang/sqf/psi/SQFSyntaxChecker.java:108-129 | returns and registers what the `+` rule says |
| SqfChecker.SyntaxChecker.Sub | src/com/kaylerrenslow/armaplugin/lang/sqf/psi/SQFSyntaxChecker.java:151-170 | returns and registers what the `-` rule says |
| SqfChecker.SyntaxChecker.Div | src/com/kaylerrenslow/armaplugin/lang/sqf/psi/SQFSyntaxChecker.java:198-215 | returns and registers what the `/` rule says |
| SqfChecker.SyntaxChecker.BoolOperator | src/com/kaylerrenslow/armaplugin/lang/sqf/psi/SQFSyntaxChecker.java:242-248 | returns and registers what the boolean rule says |
| SqfChecker.SyntaxChecker.EqualsOperator | src/com/kaylerrenslow/armaplugin/lang/sqf/psi/SQFSyntaxChecker.java:314-335 | the loop over the allowed types returns early on a match; returns and registers what the equality rule says |
| SqfChecker.SyntaxChecker.SameTypeHelper | src/com/kaylerrenslow/armaplugin/lang/sqf/psi/SQFSyntaxChecker.java:399-402 | returns and registers what the same-type rule says |
| SqfChecker.SyntaxChecker.NotOfType | src/com/kaylerrenslow/armaplugin/lang/sqf/psi/SQFSyntaxChecker.java:405-407 | appends one problem |
| SqfChecker.SyntaxChecker.AssertIsOneOf | src/com/kaylerrenslow/armaplugin/lang/sqf/psi/SQFSyntaxChecker.java:409-417 | returns true iff the type is one of those expected, appending one problem otherwise |
| SqfChecker.SyntaxChecker.AssertIsType | src/com/kaylerrenslow/armaplugin/lang/sqf/psi/SQFSyntaxChecker.java:419-425 | returns true iff the types are equal, appending one problem otherwise |

## Left out

- Threads: the worker threads, their start and join, the blocking of `LinkedBlockingQueue.take`, `volatile` fields and `synchronized` blocks. The forwarding queue is a sequential FIFO, and cancellation is an input observed at each stage's check.
- Filesystem and tools: `listFiles`, `mkdirs`, `Files.copy`, `deleteDirectory`, `Properties.load`, PBO extraction and config conversion. These are parameters or inputs. In the copy walk, copies and folder creation always succeed.
- The config parser (`HeaderParser`) is not part of this model. A parse result is a file path and a macro table.
- XML reading of `addonscfg.xml` (`XmlUtil`) is left out. Its result is the given `RawConfig`.
- Messages: `ResourceBundle` texts, `SimpleDateFormat` timestamps and problem message texts. Problem kinds and log lines are kept structurally, and a log line holds the message without its timestamp.
- Progress: the `double` progress fields and progress callbacks carry a `real` and are only forwarded.
- 32-bit `int` capacities and the log counter are unbounded naturals, because overflow needs more than 2 GB of files or of one message.
- `EqualsIgnoreCase` compares ASCII letters only. Java's full Unicode case folding is not modelled.
- `ConfigMacros.EvalMacros` is literal left-to-right replacement. `replaceAll`'s regular-expression treatment of `$` and `\\` in the base path is not modelled.
- WorkPartition.SortBySize: the contract states order and permutation, but not the stability of Java's sort on equal sizes. The insertion it uses is stable, but this is not proved.
- Forwarding.ForwardingThread.Log: a message's length is its number of characters in the model; Java's `String.length()` counts UTF-16 code units, so a message outside the Basic Multilingual Plane counts more in the source.
- ReferenceCopy.CopyReferences: the walk is the one that sees no cancellation. The source checks cancellation before each entry and then returns mid-walk, leaving a prefix of the copies made; the model records that check only as `AddonStages.Scenario`'s save-stage flag. A failed `mkdirs` for a sub-directory, which skips that sub-directory, is not modelled either.
- The concurrent order in which the two workers append to the debinarized-config list is not modelled. The parse stage takes the list as given.
- The extraction throws IllegalStateException when the addon directory cannot be listed. This is not a `Scenario` case.
- A case statement's scope is visited through its own visitor method, which is not shown. The model visits the scope's statements in order, and a missing block or scope is an empty statement list.
- The `ValueType` enumeration is not shown, and neither is its `isArray`. The types the checker names are constructors, and every other type is `Other` with its own array-ness. SqfRules.IsArray takes every named type except ARRAY as non-array: ANYTHING, CODE, NOTHING, OBJECT and the rest. So the `+` and `-` results with a named left operand other than ARRAY rest on that assumption.
- The comparison kinds beyond `Equals` are not shown. The model names them; all but `Equals` behave alike.
- Two behaviours of the checker are kept as written, because the checker's authors state no other intent: `STRING + STRING` is typed NUMBER, and `ARRAY + ARRAY` registers a problem.
- AddonStages.Scenario records whether each stage saw the cancellation as an independent input. The fact that a cancellation, once set, is seen by every later check is not imposed.

## Findings

| source | as written | input that shows it | evidently intended | confidence | as-written member | corrected member |
|---|---|---|---|---|---|---|
| src/com/kaylerrenslow/armaplugin/ArmaAddonsManager.java:337-349 | `if (stage(...)) return;` goes on only when a stage returned false, although each stage documents true as success (:466, :640, :791) | an addon whose archives extract without cancellation: no config is converted, parsed or saved | go on to the next stage only when the previous one returned true | high; not executed | AddonStages.SuccessfulExtractionStopsAddon | AddonStages.DoAllWorkOrder |
| src/com/kaylerrenslow/armaplugin/ArmaAddonsManager.java:296-297 | `cacheProperties.getProperty("valid").equals("false")` with no `valid` key throws NullPointerException, which ends the whole run | a `.cacheproperties` file holding only `built=1` | a marker without `valid` is trusted, like a missing marker | medium; not executed | ReferenceCache.MarkerWithoutValidKeyAbortsRun | ReferenceCache.CacheDecisionOf |
| src/com/kaylerrenslow/armaplugin/ArmaAddonsManager.java:432 | the folder for a sub-directory is named `visit.getName()`, the parent's name, so the tree is not replicated and sibling folders merge | `x/scripts/a.sqf` is copied to `dest/x/x/a.sqf` | name it `child.getName()` | high; not executed | ReferenceCopy.SubfolderNamedAfterParent | ReferenceCopy.MirroredWalkReplicatesTree |
