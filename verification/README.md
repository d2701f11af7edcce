# Verified models of the ns-3 rLEDBAT experiment tree

The tree is an ns-3 checkout with two rLEDBAT experiment programs. This project models its
self-contained algorithms in Dafny and proves what they promise. Each module has the same shape:
the program's own loops and objects as methods and classes, the functions they are proved against,
and lemmas about those functions over every input, every run or every schedule.

| file | what it models |
|---|---|
| `ConfigPaths.dfy` | the configuration-path gatherer: depth-first enumeration of simple paths with a path stack |
| `ConfigDuplicates.dfy` | when the records gathered from any roots are free of duplicates |
| `ConfigOrder.dfy` | when those records, and the list of unknown names, are sorted and unique |
| `LoadOrder.dfy` | the layered topological sort that orders the library loads of the Python bindings |
| `StyleFix.dfy` | the whitespace and tab fixers, clang-format guards, universal-newline reading and writing |
| `TestRunner.dfy` | the parallel test runner: main thread, workers, two queues, break jobs, stop flag |
| `RetrySender.dfy` | the retrying, paced sender of the wireless experiment and its three timers |
| `BenchRun.dfy` | one run of the scheduler benchmark and the event queue it keeps populated |
| `BenchSuite.dfy`, `Statistics.dfy` | Welford's recurrence as the benchmark uses it; sums, deviations, Jain's index |
| `FlowMetrics.dfy` | post-run aggregation of both experiment reports, from flow statistics to the fairness index |
| `TcpWriter.dfy` | the resumable circular-buffer writer, against any socket |
| `Timeline.dfy` | binary search and slices of the timeline viewer |
| `Ordering.dfy` | the string order, sorting and thinning of lists |
| `Common.dfy` | options, duplicate-freedom, the pigeonhole principle, remainders |

Run `dafny verify dfyconfig.toml` here to check everything.

## Conventions

- C++ doubles and simulated time are `real`; counters are unbounded naturals. Where a cast can lose
  a value and the result depends on it (`(int)rxPkts` in the wired report) it is written out.
- What the environment decides is a parameter or an arbitrary choice: return codes of jobs, of
  `Connect` and of `Send`, random delays, the choice among simultaneous simulator events, the
  thread schedule, the depth at which the Python interpreter gives up on recursion.
- `RetrySender` takes from its environment that socket callbacks arrive as events of their own,
  that an outcome is reported only while connecting, that closed sockets stay silent, and that the
  application is started once and stopped once. `StoppedIsInert` needs none of this.
- The answers of a socket to `TcpWriter` are a script of (amount taken, space reported afterwards)
  pairs, arbitrary but for one thing: a Send of a non-empty chunk takes at least one byte or fails.
  A socket that took 0 bytes for ever would keep the loop of the source running for ever.
- The order in which a per-sender map is visited is an arbitrary choice; the program visits it by name.
- A TypeId is identified with its registered name, and every TypeId that an attribute mentions is
  registered (`Closed`).

## Where the code and its documentation disagree

- The comment on `Uniquefy` says that the container is sorted and made unique in place, and the one on
  `m_noTids` that `GetNoTypeIds` does so; `Gather` calls `Uniquefy` on `m_output`. But the container is
  passed by value, so nothing changes (`print-introspected-doxygen.cc:407-445`). What is true instead:
  - The records gathered from a list of roots are free of duplicates if and only if the roots are
    distinct, no simple walk from one of them ends at a type with two equal edges to a type it has not
    visited, and no walks with the same labels from two of them end at different types with the same
    edge to a type on neither walk (`DuplicateFreeIff`). Every list of distinct roots gives such
    records if and only if no aggregation of two types is recorded twice, none joins a type and its
    descendant, and no two types carry the same edge to a third (`AlwaysDuplicateFreeIff`).
  - The program's own table breaks this for a single root: lines 566 and 568 record the same pair
    (`NodeAggregatesIcmpTwice`). `TwoRootsRepeat` breaks it with two roots that are clean by themselves.
  - The records are sorted if and only if every step of a simple walk leads to a type registered
    later, of any two branches the earlier is recorded with less than where the later begins, and
    every root was registered after all that the earlier roots lead to (`SortedIff`,
    `OneRootSortedIff`). A root that leads to an earlier type is enough to break it
    (`EarlierTypeUnsorts`, with `AggregatedWithEarlierType` as a case).
  - The list of unknown names is sorted and unique if and only if the names came in strictly increasing
    order (`UnknownsSortedIff`); only then would `Uniquefy` keep it (`UniquefyKeepsIff`).
- The comment in `StartFlow` says that `WriteUntilBufferFull` is called again if it blocked and new
  space becomes available, and the one in `WriteUntilBufferFull` says so of a refused Send. But a
  buffer that is merely full ends the loop without a refusal, and then the socket is closed with
  bytes left to write: exactly if the first loop head without space, with every Send ahead of it
  accepted, still has bytes left (the ending `Full` in `WriteUntilBufferFull`). `StartWithoutSpace` is a
  socket closed with nothing written. `RunFlow` says when a whole flow delivers all its bytes, and
  `PlainBufferIsComplete` what that means for a plain send buffer: it must have room for everything.
- `get_ranges` returns nothing when neither end of the query hits a range, even if ranges lie
  between them (`QueryAroundMissesAll`), and everything from the hit on when the query ends inside a
  gap (`QueryIntoGapTakesTheRest`). `QueryIsExactIff` gives the exact condition under which a query
  is right.
- Expanding tabs can turn an ordinary line into a clang-format guard (`ExpansionCanMakeAGuard`), so
  that one pass of the fixer changes what the next one looks at; `BecomesGuardOffIff` says exactly
  when. Fixing and then checking is clean all the same (`SecondPassFindsNoTabs`).

## Model

| member | source | states |
|---|---|---|
| ConfigPaths.GatheredIsTheSimpleWalks | ns-3.39/utils/print-introspected-doxygen.cc:447-532 | the records of a complete gathering correspond one to one to the simple walks from the root (no type repeated, parallel edges distinct), in strict depth-first order, each with its end type and, position by position, its labels each after one slash; nothing else is recorded |
| ConfigPaths.PathStringReads | ns-3.39/utils/print-introspected-doxygen.cc:360-370 | a path string is its items one after the other, each after exactly one slash, position by position |
| ConfigPaths.WalksAreTheSimpleWalks | ns-3.39/utils/print-introspected-doxygen.cc:447-532 | with any types already on the stack, the walks made are exactly the simple walks that avoid them |
| ConfigPaths.WalksAscend | ns-3.39/utils/print-introspected-doxygen.cc:456-531 | no walk is made twice; walks come in strict depth-first order |
| ConfigPaths.SimpleWalkIsShort | ns-3.39/utils/print-introspected-doxygen.cc:447-532 | a configuration path has fewer steps than there are registered types, which bounds the recursion |
| ConfigPaths.RecordedIffReachable | ns-3.39/utils/print-introspected-doxygen.cc:393-406 | a type has a recorded path if and only if a chain of followed attributes, child types and aggregations leads to it from the root |
| ConfigPaths.SimpleWalkTo | ns-3.39/utils/print-introspected-doxygen.cc:447-454 | whatever a link path reaches, a simple walk reaches: refusing types on the stack loses no type |
| ConfigPaths.LinkedIffSlot | ns-3.39/utils/print-introspected-doxygen.cc:456-531 | the three loops follow exactly the relation: pointer attributes except to plain Object, object containers, children, aggregations in either direction |
| ConfigPaths.SlotStandsFor | ns-3.39/utils/print-introspected-doxygen.cc:456-531 | slot by slot: first the attributes, then the children in registration order, then the aggregations in recording order, and which type each leads to |
| ConfigPaths.SlotItem | ns-3.39/utils/print-introspected-doxygen.cc:476-526 | the path item pushed for each kind of edge |
| ConfigPaths.StaticInformation.DoGather | ns-3.39/utils/print-introspected-doxygen.cc:447-532 | terminates, restores both stacks, and appends exactly the records of the walks from `tid` that avoid the stack |
| ConfigPaths.StaticInformation.Follow | ns-3.39/utils/print-introspected-doxygen.cc:476-480 | push, gather, pop: adds the records of one slot and leaves the stacks as they were |
| ConfigPaths.StaticInformation.Gather | ns-3.39/utils/print-introspected-doxygen.cc:439-445 | appends one complete gathering, also after the call of Uniquefy, which works on a copy |
| ConfigPaths.StaticInformation.Get | ns-3.39/utils/print-introspected-doxygen.cc:393-406 | the recorded paths of a type, in recording order |
| ConfigPaths.PathsOfInOrder | ns-3.39/utils/print-introspected-doxygen.cc:393-406 | the paths of a type are those of its records, one for each, in the order of the records |
| ConfigPaths.PositionIs | ns-3.39/src/core/model/type-id.cc:1257-1261 | TypeIds are ordered by the place at which they were registered |
| ConfigPaths.StaticInformation.HasAlreadyBeenProcessed | ns-3.39/utils/print-introspected-doxygen.cc:379-391 | true exactly for types on the stack |
| ConfigPaths.StaticInformation.RecordAggregationInfo | ns-3.39/utils/print-introspected-doxygen.cc:328-348 | two known names are recorded as one pair in the given order; else only the first of them that is unknown is kept |
| ConfigPaths.StaticInformation.GetCurrentPath | ns-3.39/utils/print-introspected-doxygen.cc:360-370 | the stacked items, each after exactly one slash, position by position |
| ConfigPaths.GatheredAllIffReachable | ns-3.39/utils/print-introspected-doxygen.cc:587-591 | after a list of roots has been gathered, a type has a recorded path if and only if some root reaches it |
| ConfigPaths.GatherAll | ns-3.39/utils/print-introspected-doxygen.cc:587-591 | gathering a list of roots into one object appends one complete gathering per root |
| ConfigPaths.GatherAndGet | ns-3.39/utils/print-introspected-doxygen.cc:393-445 | on any gatherer and for any roots, Get is non-empty afterwards if and only if it was before or some root reaches the type |
| ConfigPaths.StaticInformation.GetNoTypeIds | ns-3.39/utils/print-introspected-doxygen.cc:431-437 | returns the unknown names in the order in which they were recorded, although it calls Uniquefy on them |
| Ordering.Uniquefy | ns-3.39/utils/print-introspected-doxygen.cc:425-429 | the local copy ends up as the sorted list of the elements of the original, each once |
| Ordering.LessIff | ns-3.39/utils/print-introspected-doxygen.cc:425-429 | strings are ordered by their first difference, a proper prefix first |
| Ordering.SortedUniqueIsUnique | ns-3.39/utils/print-introspected-doxygen.cc:425-429 | a set of elements has only one sorted list without repetitions, so any sorting algorithm gives the same |
| Ordering.UniquefyKeepsIff | ns-3.39/utils/print-introspected-doxygen.cc:425-429 | a list is left as it was if and only if it was sorted and free of repetitions already |
| ConfigDuplicates.DuplicateFreeIff | ns-3.39/utils/print-introspected-doxygen.cc:439-445 | the list gathered from any roots into one object has no duplicates if and only if the roots are distinct, no simple walk from a root ends at a type with two equal edges to a type not on the walk, and no walks from two roots meet in the same edge |
| ConfigDuplicates.ShareRecordIff | ns-3.39/utils/print-introspected-doxygen.cc:587-591 | the gatherings from two different roots share a record if and only if simple walks with equal labels from them end at different types that carry the same edge to a type on neither walk |
| ConfigDuplicates.OneRootDuplicateFreeIff | ns-3.39/utils/print-introspected-doxygen.cc:447-532 | the records of one gathering have no duplicates if and only if no simple walk ends at a type with two equal edges to a type not on the walk |
| ConfigDuplicates.AlwaysDuplicateFreeIff | ns-3.39/utils/print-introspected-doxygen.cc:439-445 | every list of distinct roots gathers without duplicates if and only if no aggregation of two types is recorded twice, in either orientation, none joins a type and its descendant, and no two types carry the same edge to a third |
| ConfigDuplicates.EveryRootDuplicateFreeIff | ns-3.39/utils/print-introspected-doxygen.cc:447-532 | each single root gathers without duplicates if and only if no aggregation of two types is recorded twice, in either orientation, and none joins a type and its descendant |
| ConfigDuplicates.TwoRootsRepeat | ns-3.39/utils/print-introspected-doxygen.cc:587-591 | two roots aggregated with the same type repeat its record, although each gathers without duplicates |
| ConfigDuplicates.SameRootRepeats | ns-3.39/utils/print-introspected-doxygen.cc:587-591 | a root gathered twice repeats its records |
| ConfigOrder.SortedIff | ns-3.39/utils/print-introspected-doxygen.cc:439-445 | the list gathered from any roots into one object is sorted by TypeId and path, without repetitions, if and only if each gathering is, and every root was registered after all that the earlier roots lead to |
| ConfigOrder.OneRootSortedIff | ns-3.39/utils/print-introspected-doxygen.cc:447-532 | the records of one gathering are sorted if and only if every step of a simple walk leads to a type registered later and all that lies behind a slot is recorded with less than where a later slot leads |
| ConfigOrder.EarlierTypeUnsorts | ns-3.39/utils/print-introspected-doxygen.cc:439-445 | the records are unsorted whenever the root leads to a type that was registered before it |
| ConfigOrder.AggregatedWithEarlierType | ns-3.39/utils/print-introspected-doxygen.cc:439-445 | a type aggregated with an earlier one gathers an unsorted list |
| ConfigDuplicates.NodeAggregatesIcmpTwice | ns-3.39/utils/print-introspected-doxygen.cc:566-568 | with the pair that the table records twice, the list gathered from ns3::Node holds a record twice |
| ConfigDuplicates.PathStringInjective | ns-3.39/utils/print-introspected-doxygen.cc:360-370 | different lists of path items have different path strings |
| ConfigDuplicates.SameItemSameEdge | ns-3.39/utils/print-introspected-doxygen.cc:456-531 | two edges of one type with the same path item are the same edge |
| ConfigDuplicates.TwinsWhereTheyPart | ns-3.39/utils/print-introspected-doxygen.cc:447-532 | two different walks with equal records take equal edges where they first part |
| ConfigOrder.UnknownsSortedIff | ns-3.39/utils/print-introspected-doxygen.cc:431-437 | the list of unknown names is sorted and unique if and only if the recorded names came in strictly increasing order |
| ConfigOrder.UnknownNameTwice | ns-3.39/utils/print-introspected-doxygen.cc:431-437 | an unknown name recorded twice stays on the list twice |
| ConfigOrder.RecordAll | ns-3.39/utils/print-introspected-doxygen.cc:328-348 | a sequence of calls records exactly the first unknown name of each call that has one |
| LoadOrder.LoadedIffBounded | ns-3.39/bindings/python/ns__init__.py:394-416 | after n steps exactly the libraries all of whose dependency chains stay in the map and have at most n members are loaded |
| LoadOrder.LayerIsLongestChain | ns-3.39/bindings/python/ns__init__.py:407-416 | a library is loaded in step n if and only if its longest dependency chain has n + 1 members |
| LoadOrder.LayerIsLeast | ns-3.39/bindings/python/ns__init__.py:407-416 | no valid layering puts a library on an earlier layer |
| LoadOrder.EverLoadedIffSound | ns-3.39/bindings/python/ns__init__.py:394-416 | on any map, what is ever loaded is exactly what has all transitive dependencies present and free of cycles |
| LoadOrder.SoundIffBounded | ns-3.39/bindings/python/ns__init__.py:394-416 | cycle-freedom and bounded chains are the same thing |
| LoadOrder.EmptyLayerIsForever | ns-3.39/bindings/python/ns__init__.py:407-416 | once a step loads nothing, no later step does |
| LoadOrder.RunsEmptyIff | ns-3.39/bindings/python/ns__init__.py:408-416 | the pending list runs empty if and only if the map is closed over its keys and acyclic |
| LoadOrder.AlwaysPartition | ns-3.39/bindings/python/ns__init__.py:412-415 | every library is always on exactly one of the two lists, once |
| LoadOrder.CurrentIsOrdered | ns-3.39/bindings/python/ns__init__.py:412-415 | at every step each loaded library stands after everything it depends on |
| LoadOrder.AlwaysInKeyOrder | ns-3.39/bindings/python/ns__init__.py:394-416 | what is pending and what each step loads always comes in the order of the keys |
| LoadOrder.CurrentIsLayered | ns-3.39/bindings/python/ns__init__.py:385-421 | the libraries come layer by layer, and within a layer in the order of the keys |
| LoadOrder.ReadyInOrder | ns-3.39/bindings/python/ns__init__.py:394-405 | the ready libraries are exactly the pending ones whose dependencies are all loaded, in pending order |
| LoadOrder.WithoutInOrder | ns-3.39/bindings/python/ns__init__.py:412-415 | removing what was loaded keeps the order of the rest |
| LoadOrder.Sorter.ModulesThatCanBeLoaded | ns-3.39/bindings/python/ns__init__.py:394-405 | the pending libraries whose dependencies are all loaded, in pending order |
| LoadOrder.Sorter.DependencyOrder | ns-3.39/bindings/python/ns__init__.py:407-416 | with `depth` nested calls allowed, finishes if and only if depth - 1 steps empty the pending list; then the dictionary holds exactly the layers taken |
| LoadOrder.Sorter.SortToDependencies | ns-3.39/bindings/python/ns__init__.py:385-421 | any result is a permutation of the libraries with dependencies first, layer by layer and in key order within a layer, and comes only from closed acyclic maps; those have one as soon as more nested calls are allowed than there are libraries |
| StyleFix.FixedIsClean | ns-3.39/utils/check-style-clang-format.py:337-356 | for any tab-free guard lines, any file is clean for both checkers after the whitespace fix followed by the tab fix |
| StyleFix.SecondPassFindsNoTabs | ns-3.39/utils/check-style-clang-format.py:683-703 | a second pass that is never enabled where the first was not finds no tab, even if expansion made new guards |
| StyleFix.HasTabsIff | ns-3.39/utils/check-style-clang-format.py:683-702 | the tab checker complains if and only if some line with a tab is a guard, or has no guard before it, or has the "on" guard as the last one before it |
| StyleFix.GuardsSwitchTheChecker | ns-3.39/utils/check-style-clang-format.py:686-695 | the "off" guard hides a later tab, and an "on" guard after it brings it back |
| StyleFix.FixTabsAt | ns-3.39/utils/check-style-clang-format.py:683-702 | the tab fixer expands exactly those lines and leaves every other line as it is |
| StyleFix.UntabbedLines | ns-3.39/utils/check-style-clang-format.py:680-720 | the file after the tab fix, read back line by line |
| StyleFix.TrimmedLines | ns-3.39/utils/check-style-clang-format.py:569-594 | the file after the whitespace fix, read back line by line |
| StyleFix.TrimLineCuts | ns-3.39/utils/check-style-clang-format.py:573-574 | a line is cut after its last visible character and gets one newline |
| StyleFix.TranslateNewline | ns-3.39/utils/check-style-clang-format.py:569-570 | "\r\n" and a lone "\r" are each read as one newline |
| StyleFix.TranslateConcat | ns-3.39/utils/check-style-clang-format.py:569-570 | reading is piecewise wherever no "\r\n" is cut in two |
| StyleFix.TabReachesStop | ns-3.39/utils/check-style-clang-format.py:702 | a tab becomes blanks up to the next multiple of four columns, at least one |
| StyleFix.UntabbedIsTabFree | ns-3.39/utils/check-style-clang-format.py:662-722 | fixing tabs, writing, reading back and checking finds nothing; the fix is idempotent |
| StyleFix.TrimmedIsTrimmed | ns-3.39/utils/check-style-clang-format.py:552-596 | fixing whitespace, writing, reading back and checking finds nothing |
| StyleFix.BecomesGuardOffIff | ns-3.39/utils/check-style-clang-format.py:685-702 | an ordinary line expands to the guard that switches the checker off if and only if its text is the guard with tabs for some blanks, each in the last column before a tab stop, counted with the indentation |
| StyleFix.ExpansionCanMakeAGuard | ns-3.39/utils/check-style-clang-format.py:685-702 | a concrete ordinary line that expansion turns into the guard that switches the checker off |
| StyleFix.StripSurvivesExpansion | ns-3.39/utils/check-style-clang-format.py:686-702 | tabs around the text of a line do not change what the line strips to, so guards survive |
| StyleFix.ExpandKeepsTrimmed | ns-3.39/utils/check-style-clang-format.py:702 | expanding tabs never brings trailing whitespace back |
| StyleFix.ExpandKeepsColumns | ns-3.39/utils/check-style-clang-format.py:702 | expansion leaves the following text in the column it was in |
| StyleFix.FixKeepsInk | ns-3.39/utils/check-style-clang-format.py:572-702 | both fixers keep the number of lines and every visible character of every line, in order |
| StyleFix.NoTabsNoChange | ns-3.39/utils/check-style-clang-format.py:715-720 | a file without unguarded tabs is left as it is |
| StyleFix.ReadBack | ns-3.39/utils/check-style-clang-format.py:569-594 | reading back written lines gives the lines that were written |
| StyleFix.SourceFile.CheckTrailingWhitespace | ns-3.39/utils/check-style-clang-format.py:552-596 | the verdict, whether or not the loop stops early; the new text; a file without a finding is not touched |
| StyleFix.SourceFile.CheckTabs | ns-3.39/utils/check-style-clang-format.py:662-722 | the verdict, said through the guards that precede each line, whether or not the loop stops early; the new text; a file without a finding is not touched |
| StyleFix.CheckTrailingWhitespaceOfFiles | ns-3.39/utils/check-style-clang-format.py:491-549 | the verdict over a list of files and the new text of each |
| StyleFix.CheckTabsOfFiles | ns-3.39/utils/check-style-clang-format.py:602-659 | the verdict over a list of files and the new text of each |
| StyleFix.StyledIsClean | ns-3.39/utils/check-style-clang-format.py:337-356 | whichever of the two fixers are enabled, the text they leave passes their checkers |
| StyleFix.CheckStyle | ns-3.39/utils/check-style-clang-format.py:300-368 | in fix mode always succeeds and leaves every file clean for its enabled checkers; in check mode changes nothing and succeeds exactly if the formatting check did and all files are clean |
| TestRunner.TokensConserved | ns-3.39/test.py:987-1055 | no step of any thread creates, copies or drops a job or a break job |
| TestRunner.InvAlways | ns-3.39/test.py:1427-1722 | the protocol invariant holds after every step of every interleaving, interrupts included |
| TestRunner.NoDeadlock | ns-3.39/test.py:1719-1859 | until main is past the last join some thread can move, so neither a get nor a join starves |
| TestRunner.RunsAreShort | ns-3.39/test.py:987-1859 | every run has at most 5 moves a job and 6 a worker, so every schedule ends |
| TestRunner.FinishedRun | ns-3.39/test.py:1697-1859 | after the last join both queues are empty, each worker has used exactly one break job, and the collected results are the dispatched jobs, each exactly once |
| TestRunner.VerdictIsScheduleIndependent | ns-3.39/test.py:994-1055 | without an interrupt the run ends well if and only if every job that is not skipped returns 0, whatever the schedule; an interrupted run never ends better than that |
| TestRunner.OutcomesAddUp | ns-3.39/test.py:1719-1753 | every collected job falls under exactly one outcome |
| TestRunner.CountsAre | ns-3.39/test.py:1719-1753 | each tally counts the jobs of its kind: return code 0, 1, 2 or another, skipped, interrupted |
| TestRunner.TakenInOrder | ns-3.39/test.py:987-996 | the workers take the jobs in the order in which they are dispatched, and the break jobs last |
| TestRunner.CollectedInOrder | ns-3.39/test.py:1002-1055 | main collects what the workers hand back, in that order: results of commands, skipped jobs, and interrupted jobs marked as breaks |
| TestRunner.MainIsSequential | ns-3.39/test.py:1697-1859 | main dispatches everything before it collects, and collects everything before it joins |
| TestRunner.InterruptIsSeen | ns-3.39/test.py:998-1005 | the stop flag is set exactly after an interrupt |
| TestRunner.NoCommandAfterInterrupt | ns-3.39/test.py:998-1005 | after an interrupt no command is started |
| TestRunner.Summarize | ns-3.39/test.py:1712-1945 | each tally is the number of results of its kind (return code 0, 1, 2, another; skipped), they add up with the interrupted jobs to the total, and the exit code is 0 if and only if every job passed or was skipped |
| RetrySender.RunInvariants | ns-3.39/scratch/Report_2_Wifi_FinalIntegratedTest.cc:357-458 | between any two events of any run: exactly one of connected, connecting and a pending retry; a send timer exactly while connected; a watchdog exactly while connecting; attempts equal refusals, successes, failures and timeouts plus the one under way; at most one success; no timer after the stop |
| RetrySender.InvKept | ns-3.39/scratch/Report_2_Wifi_FinalIntegratedTest.cc:357-458 | every enabled event keeps the invariant |
| RetrySender.TimerAfter | ns-3.39/scratch/Report_2_Wifi_FinalIntegratedTest.cc:357-457 | which events move which timer, and to exactly which time; no other event moves it |
| RetrySender.TimersFireOnTime | ns-3.39/scratch/Report_2_Wifi_FinalIntegratedTest.cc:357-457 | in any run a timer that goes off was set by an earlier event to exactly this time, with nothing in between that could have ended it: 1 s after a refusal or failure, 0.1 s after a timeout, one period or 5 ms after a send |
| RetrySender.WatchdogFiresOnTime | ns-3.39/scratch/Report_2_Wifi_FinalIntegratedTest.cc:385-391 | a watchdog goes off exactly `watchdogSeconds` after the attempt it ends was accepted, and no outcome came in between |
| RetrySender.CounterAfter | ns-3.39/scratch/Report_2_Wifi_FinalIntegratedTest.cc:369-450 | which events each counter counts |
| RetrySender.CountersCount | ns-3.39/scratch/Report_2_Wifi_FinalIntegratedTest.cc:369-450 | after any run each counter is the number of events of its kind |
| RetrySender.StoppedIsInert | ns-3.39/scratch/Report_2_Wifi_FinalIntegratedTest.cc:359-367 | after StopApplication no handler, not even a stray one, calls Connect or Send or arms a timer |
| RetrySender.PacingBound | ns-3.39/scratch/Report_2_Wifi_FinalIntegratedTest.cc:303-458 | in any window of length T of any run at most floor(T * pps) + 1 sends succeed |
| RetrySender.AttemptBound | ns-3.39/scratch/Report_2_Wifi_FinalIntegratedTest.cc:369-430 | in any window of length T at most floor(10 T) + 1 connection attempts are made |
| RetrySender.GrowthPaced | ns-3.39/scratch/Report_2_Wifi_FinalIntegratedTest.cc:369-458 | from any reachable state, calls of either kind are spaced by their gap |
| RetrySender.RetryBulkSender.StartApplication | ns-3.39/scratch/Report_2_Wifi_FinalIntegratedTest.cc:357 | from a valid idle state makes the first attempt, keeps the sender valid, and arms the watchdog or the retry timer at the right time |
| RetrySender.RetryBulkSender.TryConnect | ns-3.39/scratch/Report_2_Wifi_FinalIntegratedTest.cc:369-394 | the new state; as the handler of the retry timer it always makes an attempt, keeps the sender valid, counts a refusal and answers it with a retry exactly 1 s later, and has an accepted attempt watched for `connectWatchdogSeconds` |
| RetrySender.RetryBulkSender.OnConnected | ns-3.39/scratch/Report_2_Wifi_FinalIntegratedTest.cc:396-404 | the new state; counts a success, keeps a connecting sender valid and plans the first send one period later |
| RetrySender.RetryBulkSender.OnConnectFailed | ns-3.39/scratch/Report_2_Wifi_FinalIntegratedTest.cc:406-418 | the new state; counts a failure, keeps a connecting sender valid and plans a retry exactly 1 s later |
| RetrySender.RetryBulkSender.OnConnectTimeout | ns-3.39/scratch/Report_2_Wifi_FinalIntegratedTest.cc:420-431 | the new state; as the handler of the watchdog it counts a timeout, keeps the sender valid and plans a retry exactly 0.1 s later |
| RetrySender.RetryBulkSender.OnSendPossible | ns-3.39/scratch/Report_2_Wifi_FinalIntegratedTest.cc:433-436 | the new state; on a valid sender it changes nothing |
| RetrySender.RetryBulkSender.SendOnce | ns-3.39/scratch/Report_2_Wifi_FinalIntegratedTest.cc:438-450 | the new state; as the handler of the send timer it always sends, keeps the sender valid and plans the next send, one period after a success and 5 ms after a block |
| RetrySender.RetryBulkSender.StopApplication | ns-3.39/scratch/Report_2_Wifi_FinalIntegratedTest.cc:359-367 | the new state: every timer is cancelled and the socket is gone; a valid sender stays valid |
| BenchRun.PopulationIsKept | ns-3.39/utils/bench-scheduler.cc:133-176 | for any choice among simultaneous events: before every callback exactly `population` events are pending, time never runs backwards, and there are at most total + 1 callbacks |
| BenchRun.FinishedRunCounts | ns-3.39/utils/bench-scheduler.cc:133-176 | a finished run made exactly total + 1 callbacks and counted `total` events; with an empty population none |
| BenchRun.EventsConserved | ns-3.39/utils/bench-scheduler.cc:133-176 | no event is lost, invented or moved: what has run and what is pending is the initial population, due at the first delays, and one replacement for each of the first `total` callbacks, due one delay after it |
| BenchRun.Bench.Run | ns-3.39/utils/bench-scheduler.cc:133-161 | terminates, its history is such an execution that conserves the events, and it returns `total` (0 for an empty population) |
| BenchRun.Bench.Cb | ns-3.39/utils/bench-scheduler.cc:163-176 | stops after `total` events, else replaces itself and counts |
| Statistics.AccumulateTracks | ns-3.39/utils/bench-scheduler.cc:350-362 | one ACCUMULATE step keeps the exact mean and the exact sum of squared deviations |
| Statistics.FirstSample | ns-3.39/utils/bench-scheduler.cc:347-362 | the first sample wipes out whatever the average was initialised with |
| Statistics.MeanIsLeast | ns-3.39/utils/bench-scheduler.cc:341-381 | deviation from any other centre is larger by n times the squared shift |
| Statistics.VarianceFormula | ns-3.39/utils/bench-scheduler.cc:373-381 | moment2 / n is the mean of the squares minus the square of the mean |
| Statistics.OrderIrrelevant | ns-3.39/utils/bench-scheduler.cc:350-370 | the order of the runs does not matter |
| BenchSuite.Log | ns-3.39/utils/bench-scheduler.cc:331-381 | nothing for fewer than two runs, else for each of the six fields the exact mean and the exact, non-negative sum of squared deviations |
| Statistics.JainBounds | ns-3.39/scratch/Report_2_Wifi_FinalIntegratedTest.cc:1156-1162 | Jain's index of non-negative values lies between 1/n and 1; it is 1 if and only if all are equal, and 1/n if and only if at most one is positive |
| FlowMetrics.RunFairness | ns-3.39/scratch/Report_2_Wifi_FinalIntegratedTest.cc:1049-1162 | from the statistics of any run: every sender of either class is listed once; its throughput times its active time is its data, for a sender with one flow in the measured part the time from first to last packet, and it is zero exactly if nothing was received; the index lies between 1/n and 1 and is 1 if and only if all throughputs are equal |
| FlowMetrics.DurationIs | ns-3.39/scratch/Report_2_Wifi_FinalIntegratedTest.cc:1065-1068 | a flow counts from the later of warm-up and its first packet to its last; without such time, for the whole measured part if it has data |
| FlowMetrics.MeasDurationIs | ns-3.39/scratch/Report_2_Wifi_FinalIntegratedTest.cc:1049 | the measured part is the run after warm-up, at least a microsecond |
| FlowMetrics.TotalsAre | ns-3.39/scratch/Report_2_Wifi_FinalIntegratedTest.cc:1054-1111 | each of the six totals of a class or a sender is the sum of that quantity over its own flows, with flows that received nothing, unknown ones and other ports left out |
| FlowMetrics.SoleFlowTput | ns-3.39/scratch/Report_2_Wifi_FinalIntegratedTest.cc:1149-1154 | throughput of a sender with one flow: its data over its own time |
| FlowMetrics.PerSenderTput | ns-3.39/scratch/Report_2_Wifi_FinalIntegratedTest.cc:1149-1154 | the list built from the two maps holds each sender once, with its label and its throughput |
| FlowMetrics.LabelsDiffer | ns-3.39/scratch/Report_2_Wifi_FinalIntegratedTest.cc:1149-1154 | no two senders share a label |
| FlowMetrics.SharesAreSound | ns-3.39/scratch/Report_2_Wifi_FinalIntegratedTest.cc:1066-1111 | totals are not negative, and who received data has a positive duration to divide by |
| FlowMetrics.JainFairness | ns-3.39/scratch/Report_2_Wifi_FinalIntegratedTest.cc:1156-1162 | the loop computes the square of the sum over n times the sum of squares, 1 for an empty or all-zero list, stays within its bounds, and gives 1 if and only if all values are equal |
| FlowMetrics.AggregateNodes | ns-3.39/scratch/Report_1_Wired_RledbatTest.cc:932-957 | each field of each bucket is the sum of that field over the flows to its port, and the network bucket is the sum of the three |
| FlowMetrics.TotalsAreSums | ns-3.39/scratch/Report_1_Wired_RledbatTest.cc:932-957 | every field of an aggregate is the sum of that field over the flows to its ports |
| FlowMetrics.WeightIs | ns-3.39/scratch/Report_1_Wired_RledbatTest.cc:950-956 | the weight of a flow is its packets less one, but never negative, after the two's-complement cast to int |
| FlowMetrics.NodesAddUp | ns-3.39/scratch/Report_1_Wired_RledbatTest.cc:934-957 | the network total is the sum of the three port totals for every list of flows |
| FlowMetrics.RoundingLosses | ns-3.39/scratch/Report_1_Wired_RledbatTest.cc:766-956 | the accumulated jitter falls short of the exact nanosecond total by less than one millisecond per sample, and by nothing if and only if neither division of any weighted flow had a remainder |
| FlowMetrics.JitterAverageBounds | ns-3.39/scratch/Report_1_Wired_RledbatTest.cc:766-973 | the printed jitter average never exceeds the exact pooled mean of the nanosecond totals, is less than 1 ms below it, and equals it if and only if neither division of any weighted flow had a remainder |
| FlowMetrics.AggregateClasses | ns-3.39/scratch/Report_2_Wifi_FinalIntegratedTest.cc:1049-1112 | class totals and each sender's entry are sums over the flows themselves, and the entries sum to the class total |
| TcpWriter.ChunkContinues | ns-3.39/examples/socket/socket-bound-tcp-static-routing.cc:218-230 | a chunk taken at the current offset continues the repeated buffer |
| TcpWriter.OneEnding | ns-3.39/examples/socket/socket-bound-tcp-static-routing.cc:213-233 | against any socket a call ends in exactly one of three ways: complete, full, refused; it has written everything if and only if it ended complete |
| TcpWriter.PlainBufferIsComplete | ns-3.39/examples/socket/socket-bound-tcp-static-routing.cc:213-233 | against a plain send buffer a call is complete if and only if the space at its start covers what is left; otherwise it closes with exactly that space used up |
| TcpWriter.NoSpaceEnds | ns-3.39/examples/socket/socket-bound-tcp-static-routing.cc:213-233 | a call that starts without space and with bytes left ends full, with nothing written |
| TcpWriter.OfferIsMaximal | ns-3.39/examples/socket/socket-bound-tcp-static-routing.cc:215-222 | what is offered to Send is as much as fits to the end of the buffer, of the data and of the space |
| TcpWriter.Writer.WriteUntilBufferFull | ns-3.39/examples/socket/socket-bound-tcp-static-routing.cc:213-233 | terminates; accepted bytes are the first currentTxBytes of the repeated buffer, never more than totalTxBytes; all are written if and only if a loop head is reached with everything written; closes exactly unless Send refuses, so with bytes left exactly if a loop head without space comes first |
| TcpWriter.Writer.StartFlow | ns-3.39/examples/socket/socket-bound-tcp-static-routing.cc:199-211 | resets the counter and starts in step with a fresh socket; delivers everything, or closes early, exactly if the first call ends so |
| TcpWriter.Writer.StartWithoutSpace | ns-3.39/examples/socket/socket-bound-tcp-static-routing.cc:199-211 | a socket without space is closed at once with no byte accepted |
| TcpWriter.DeliversIff | ns-3.39/examples/socket/socket-bound-tcp-static-routing.cc:199-233 | a flow has written everything after n callbacks if and only if one of its calls ended complete |
| TcpWriter.ClosesShortIff | ns-3.39/examples/socket/socket-bound-tcp-static-routing.cc:199-233 | a flow is closed with bytes left if and only if the first call not ended by a refusal ended full |
| TcpWriter.Writer.RunFlow | ns-3.39/examples/socket/socket-bound-tcp-static-routing.cc:199-233 | over a start and any number of callbacks, byte i of the stream is byte i mod 1040 of the buffer; all bytes are delivered if and only if some call ends complete, and the socket is closed with fewer if and only if the first call that is not refused ends full |
| Timeline.QueryIsExactIff | ns-3.39/utils/grid.py:99-163 | a query returns exactly the ranges meeting the interval if and only if both keys hit, or one hits and the other lies outside the list, or both miss in one gap |
| Timeline.BoundsAre | ns-3.39/utils/grid.py:147-163 | the bounds go from the range that the start hits through the one that the end hits; a side that misses is open, and if both miss there is nothing |
| Timeline.HitFindsAll | ns-3.39/utils/grid.py:130-146 | a query that hits at either end misses nothing |
| Timeline.QueryAroundMissesAll | ns-3.39/utils/grid.py:130-163 | a query around the only range selects nothing, though the range meets it |
| Timeline.QueryIntoGapTakesTheRest | ns-3.39/utils/grid.py:130-163 | a query from a range into the following gap also selects a range after its end |
| Timeline.ProbeFinds | ns-3.39/utils/grid.py:99-116 | on sorted disjoint ranges the binary search finds the range that contains the key, or reports -1 if there is none |
| Timeline.OneHitIsSuperset | ns-3.39/utils/grid.py:130-146 | with one hit every meeting range is returned, and others exactly when the missing key lies inside the list |
| Timeline.TwoMissesSelectNothing | ns-3.39/utils/grid.py:130-146 | two misses select nothing, which is right exactly when both keys fall into the same gap |
| Timeline.TimelineDataRange.AddRange | ns-3.39/utils/grid.py:117-123 | appends; the list is sorted and disjoint afterwards if and only if it was before and the range starts after its end |
| Timeline.TimelineDataRange.Search | ns-3.39/utils/grid.py:99-116 | terminates on any list; on a sorted disjoint one finds the key's range or reports that there is none |
| Timeline.TimelineDataRange.GetRangesBounds | ns-3.39/utils/grid.py:147-163 | the bounds of the two searches, said through the ranges that the ends of the query hit |
| Timeline.TimelineDataRange.GetRanges | ns-3.39/utils/grid.py:130-146 | always the slice that the bounds describe; for an exact query exactly the meeting ranges, with one hit all of them, with none nothing |
| Timeline.EventsSelected | ns-3.39/utils/grid.py:219-238 | the selected events are those in the interval plus at most the next one after it; no extra one exactly when the end is an event time or past all events |
| Timeline.QueryIsHeld | ns-3.39/utils/grid.py:219-228 | the slice holds every event of the interval in order, nothing before it, and after it at most the next event |
| Timeline.TimelineEvent.AddEvent | ns-3.39/utils/grid.py:212-218 | appends; the times are strictly increasing afterwards if and only if they were before and the event comes after all of them |
| Timeline.TimelineEvent.Search | ns-3.39/utils/grid.py:194-211 | the position of the first event at or after the key |
| Timeline.ProbeEventsFinds | ns-3.39/utils/grid.py:194-211 | on strictly increasing times the binary search finds the first event at or after the key |
| Timeline.TimelineEvent.GetEventsBounds | ns-3.39/utils/grid.py:229-238 | the bounds of the slice that GetEvents returns: the first event at or after the start, and one past the first at or after the end |
| Timeline.TimelineEvent.GetEvents | ns-3.39/utils/grid.py:219-228 | always the slice between the bounds of GetEventsBounds; every event of the interval and at most the next one after it; for a query that ends at an event or past all of them exactly the events in the interval |

## Left out

- The rLEDBAT congestion control itself is not part of this model; the experiment programs only configure it.
- Topology scripts, helper calls into ns-3 libraries, and `scratch/temp.cc`, which repeats the sender and the metrics of the wireless report.
- TestRunner: threads and queues are values in a state machine over atomic steps, not objects; process launching, output files, XML and HTML reports and thread exceptions are not modelled.
- StyleFix.CheckStyle: takes the lists that the search for files and its extension filters produce; the files are visited in order, not by a process pool; no verbose messages; the clang-format run is an external program whose verdict is a parameter; line ends are written as "\n", as on POSIX systems.
- ConfigPaths: the printed listing, and the fixed aggregation table that feeds RecordAggregationInfo, but for the pair it repeats.
- ConfigDuplicates: that a repeated record comes from twins or from roots that meet is proved for legible names only: attribute and type names that contain slashes or imitate other path items can make further paths alike.
- LoadOrder: the search for libraries and the extraction of their dependencies; the map is an input.
- BenchSuite.Log: does not take the square root of moment2 / n, which is a library function on doubles.
- RetrySender: counters do not wrap at 32 bits, and times are not rounded to nanoseconds.
- RetrySender.RetryBulkSender.SetupSocket: the socket class attribute and the trace counters.
- BenchRun.Bench.Run: wall-clock timing and Simulator::Destroy.
- FlowMetrics: 32- and 64-bit counters are unbounded; the signed overflow of `(int)rxPkts - 1` at exactly 2^31 packets is undefined in C++ and counts as no weight here.
- FlowMetrics.AggregateClasses: the derived ratios printed from the totals, the energy sums, and the cut of each delay and jitter sum to whole milliseconds, which the flow statistics already carry here.
- TcpWriter.Writer.RunFlow: one flow at a time; the global counter is shared, so a late callback of an earlier flow would advance the current one.
- Timeline: sorting, which uses a comparison argument that Python 3 no longer has; the lemmas take sorted lists.
