# MapReduceCpp: a model and its properties

This project models MapReduceCpp, a map-reduce library whose master process starts one worker process
per mapper, hands out map and reduce tasks, polls the workers and restarts those that have died, and
the algorithmic cores of the Google Test and Google Mock sources that the repository vendors.
`dafny verify dfyconfig.toml` checks all of it. Dafny's automatic induction is switched off throughout:
a proof by induction calls itself.

## The map-reduce engine

`Protocol.dfy` describes the master, the workers and the disk as one step machine. An event is an action
of the master, a step of a worker, some buffered output of a worker reaching the disk, or the death of a
worker. A run is any sequence of events from a start state with any files on the disk.

- **Faults.** A worker can die between any two steps, any number of times, and any prefix of what it was
  writing may be on the disk by then. A new process begins with no memory and with its completion flags
  cleared. The test whether a worker is down and the question whether it is done are one step, as in
  include/MapReduceMaster.h:339-411 with no pause between them. Reading one whole temp file, and mapping
  one line, are one step each.
- **Safety** (`Safety.dfy`, `Theorems.dfy`). An invariant over all runs says that the counters equal the
  numbers of finished tasks, that a finished task's files are complete and will not change, that no
  reduce task begins before every mapper is finished, and that what a task holds in memory is what a run
  without faults would hold there. It follows that every run that returns leaves the fault-free files.
- **What the fault-free files are** (`Conservation.dfy`). They hold the output of the sequential reference:
  map all lines, group by key with the values in mapper order, reduce each key once. The exact condition
  for the hand-over through text files is that every emitted key and value is a non-empty word without
  white space (`Utility.RoundTrip`, `Conservation.ReducersSeeMapperGroups`).
- **Liveness** (`Liveness.dfy`, `FairRuns.dfy`). In a fair round every worker gets the chance to move and
  the master takes as many actions as two sweeps over all workers need. `process` returns after a bounded
  number of fair rounds, where the bound grows with the number of rounds in which a worker dies.
- **The imperative side.** `MapReduce.dfy` has the two worker modules as methods over a disk, and
  `Master.dfy` has `process` itself with its arrays, counters and polling loops, driven by a schedule of
  what happens between its actions. Both are proved against the functions that the step machine uses, so
  `process` returns under a schedule exactly when the step machine does.
- **Texts** (`Text.dfy`, `Streams.dfy`, `Utility.dfy`). Words, lines, decimal numbers, the order of strings
  and the printed files are functions that the methods are proved against. What each of them is for every
  text follows from a few lemmas that name none of their helpers, such as `Text.WordsOfWord`, `Text.LeqIs`
  and `Utility.PrintedEntryIs`.
- **The three programs** (`Clients.dfy`, `ClientResults.dfy`). WordCounter, InvertedIndex and
  ReverseWeblinkGraph are proved to give their documented results for every number of workers, every hash
  function and every crash schedule.

Assumptions: the input file is readable and the map and reduce functions do not throw (the completion
flags are set even when a task returns an error code, include/MapReduceMaster.h:254-262); every task
works on a fresh user object, as the factory in include/MapReduceMaster.h:61-67 makes one for each
lookup; there is at least one mapper and there are at least as many reducers as mappers, because the
reduce loop indexes a vector of that size by worker number (include/MapReduceMaster.h:439-446).
`std::hash` is an arbitrary function. Line numbers, counts and primes are unbounded integers, and bytes
of text are characters.

## The vendored cores

- `Matching.dfy`, `UnorderedMatchers.dfy`: maximum bipartite matching by one augmenting search per left
  node, and the matchers that decide by it.
- `SimpleRegex.dfy`: the simple regular expressions, from validation to full and partial matches, against
  a semantics of languages.
- `EditDistance.dfy`, `UnifiedDiff.dfy`: edit scripts and the diff made from them, judged by replaying.
- `Utf8.dfy`: encoder, validator and wide strings, after RFC 3629 and RFC 2781.
- `Expectations.dfy`: prerequisites of mock expectations, and the order they impose on calls.
- `Primes.dfy`: trial division and the sieve of the prime tables.
- `TestFilter.dfy`, `TestSharding.dfy`: wildcard filters and the distribution of tests over shards.

## Where code and documentation differ

The model follows the code.

- README.md:62 of the repository speaks of one server failure. The proofs hold for any number.
- `read_text` never reports a missing file, although include/MapReduceMaster.h:668 documents an error
  code for it: a missing file reads as an empty one.
- `CodePointToUtf8` is documented to turn every number above 0x10FFFF into a message (lib/googletest/googletest/src/gtest.cc:1924-1927).
  It encodes numbers up to 0x1FFFFF (`Utf8.AboveUnicodeIsEncoded`; `Utf8.TextIsValid` has the exact
  condition), and it has the empty string for 0.
- `CalculateOptimalEdits` is not optimal when adding and removing cost the same and replacing costs no
  less (`EditDistance.ThreeReplacementsInsteadOfTwoEdits`; `EditDistance.TableIsCheapestIffNoBadTie`).
- `RE::FullMatch` accepts a prefix when the pattern ends in an escaped dollar
  (`SimpleRegex.FullMatchIsWholeMatch`).
- InvertedIndex is said to list all positions of a word (src/InvertedIndex.cpp:3). It lists the numbers of
  the lines that contain it, once each and in the order of strings, so line 10 comes before line 2.
- `CreateUnifiedDiff` prints nothing when no context is asked for (`UnifiedDiff.CreateUnifiedDiff`).
- `GetNextPrime` of the table on the fly gives -1 below 0, where the next prime number is 2.

## Model

| member | source | states |
|---|---|---|
| `Theorems.EveryRunIsFaultFree` | include/MapReduceMaster.h:238-539 | every run in which `process` returns leaves in every output file exactly the text of a run without faults, for all crash schedules, interleavings, hash functions and earlier contents of the disk |
| `Theorems.EveryRunIsSequential` | include/MapReduceMaster.h:238-539 | if every emitted key and value is a non-empty word without white space, these files are the output of the sequential reference: map all lines, group by key with the values in mapper order, reduce each key once; for every reduce function |
| `Theorems.EveryRunIsInLineOrder` | include/MapReduceMaster.h:238-539 | a reduce function that ignores the order of its values gives what it would give for the values in the order of the input |
| `Theorems.ReturnedMeansComplete` | include/MapReduceMaster.h:439-539 | a state of the protocol in which the master has returned has every output file complete, and as many reducers as workers |
| `Theorems.DoneMapFilesAreFrozen` | include/MapReduceMaster.h:334-415 | once a map task has status 1, no step of anything changes its status or its temp files, which hold their full text, even when the worker is restarted in the reduce phase |
| `Theorems.TooManyReducersNeverReturn` | include/MapReduceMaster.h:439-528 | with more reducers than workers the done-count stays at most the number of workers and the reduce loop never ends |
| `FairRuns.FairRunsReturn` | include/MapReduceMaster.h:329-539 | `process` returns within a number of fair rounds that depends only on the request and on how many rounds have a crash |
| `FairRuns.FairRoundProgress` | include/MapReduceMaster.h:329-528 | a fair round without a crash does something useful, unless the master has returned |
| `FairRuns.RoundBudgetIs` | include/MapReduceMaster.h:329-528 | what a crash can cost: the whole budget of useful actions, once more |
| `FairRuns.MasterComesCloser` | include/MapReduceMaster.h:331-418 | when no worker has anything left to do, an action of the master without effect brings it one poll closer to one that has an effect |
| `Liveness.PotentialNeverGrows` | include/MapReduceMaster.h:329-528 | no step but a crash adds to the useful actions still to come, and a step that leaves them the same has changed nothing that matters |
| `Liveness.NextKeepsLiveInv` | include/MapReduceMaster.h:319-528 | every step keeps the safety invariant and that a worker the master waits for has its task |
| `Safety.RunKeepsInv` | include/MapReduceMaster.h:238-539 | every reachable state satisfies the protocol invariant |
| `Safety.NextKeepsInv` | include/MapReduceMaster.h:319-537 | every single step, of the master, a worker, the disk or a crash, keeps the invariant |
| `Safety.StartEstablishesInv` | include/MapReduceMaster.h:249-328 | the first state satisfies it, whatever is on the disk |
| `Safety.ReducersRunAfterAllMappers` | include/MapReduceMaster.h:415-436 | while any worker is in a reduce task, every mapper is done and all of its temp files are complete |
| `Safety.WorkKeepsInv` | include/MapReduceMaster.h:588-727 | a step of a worker keeps the invariant, also for the other workers |
| `Safety.FlushKeepsInv` | include/MapReduceMaster.h:626-644 | text that reaches the disk early does no harm |
| `Safety.CrashKeepsInv` | include/MapReduceMaster.h:339-390 | nor does the loss of a worker at any step, with any part of its files written |
| `Safety.PollMapKeepsInv` | include/MapReduceMaster.h:331-418 | the done-count stays equal to the number of statuses 1, and a status becomes 1 only when the files are complete |
| `Safety.PollReduceKeepsInv` | include/MapReduceMaster.h:441-528 | the same for the reduce statuses and the output files |
| `Safety.JobStepKeepsJob` | include/MapReduceMaster.h:588-727 | what a task holds in memory and has written is at every step what a run without faults holds there |
| `Master.MapReduceMaster.Process` | include/MapReduceMaster.h:238-539 | under any schedule of what happens between its actions, the imperative `process` returns exactly when the step machine returns, and then every output file is the fault-free one; otherwise it has followed the whole schedule |
| `Master.FairScheduleReturns` | include/MapReduceMaster.h:329-539 | a schedule with enough fair rounds makes it return |
| `Master.MapReduceMaster.MapSweep` | include/MapReduceMaster.h:333-412 | one sweep over all workers keeps the status array and the counter in step with the machine |
| `Master.MapReduceMaster.ReduceSweep` | include/MapReduceMaster.h:443-522 | the same in the reduce phase |
| `Master.MapReduceMaster.PollMapTasks` | include/MapReduceMaster.h:327-418 | the map polling loop leaves only when all workers have status 1, and its array and counter are those of the step machine throughout |
| `Master.MapReduceMaster.PollMapTask` | include/MapReduceMaster.h:334-411 | leaves a finished worker alone, restarts one that is down with its map task, marks one that reports completion |
| `Master.MapReduceMaster.PollReduceTasks` | include/MapReduceMaster.h:439-528 | the reduce polling loop, likewise |
| `Master.MapReduceMaster.PollReduceTask` | include/MapReduceMaster.h:444-521 | the same for one worker in the reduce phase |
| `Master.MapReduceMaster.CallTasks` | include/MapReduceMaster.h:309-315 | every worker that is up gets its task; a call to one that is down is lost |
| `Master.MapReduceMaster.StopAll` | include/MapReduceMaster.h:530-534 | the shutdown of all workers |
| `Master.MapReduceMaster.Wait` | include/MapReduceMaster.h:330-332 | while the master sleeps only workers and files change, by the next part of the schedule |
| `MapReduce.MapController` | include/MapReduceMaster.h:588-647 | writes exactly the temp files of its mapper, each with the pairs routed to it, or nothing and -1 without input |
| `MapReduce.EmittedInTurn` | include/MapReduceMaster.h:610-620 | what a mapper emits for one of its lines, under the decimal number of the line, follows what it emitted for the lines before |
| `MapReduce.ScanInput` | include/MapReduceMaster.h:605-620 | emits for exactly the lines whose number hashes to this mapper, in order |
| `MapReduce.WriteEmitted` | include/MapReduceMaster.h:626-644 | every stream gets the pairs whose key hashes to it, in order |
| `MapReduce.ReduceController` | include/MapReduceMaster.h:672-727 | replaces one output file by the reduction, in key order, of what the files of all mappers hold for this reducer |
| `MapReduce.MergeInto` | include/MapReduceMaster.h:699-711 | appends the lists of one file, key by key, to those gathered before |
| `MapReduce.ReduceKeys` | include/MapReduceMaster.h:714-721 | reduces each key once, in increasing order |
| `MapReduce.ReducedInTurn` | include/MapReduceMaster.h:714-721 | each key is reduced with its own list, after the keys before it and before the keys after it |
| `MapReduce.HashInRangeIsRemainder` | include/MapReduceMaster.h:551-555 | the owner is the remainder of the hash |
| `MapReduce.RoutedIs` | include/MapReduceMaster.h:637-640 | a pair reaches a file exactly when it was emitted and its key hashes there |
| `MapReduce.RoutedValues` | include/MapReduceMaster.h:637-640 | a key keeps all its values, in order, in one file, and has none in the others |
| `MapReduce.GatheredFromCompleteFiles` | include/MapReduceMaster.h:687-712 | reading complete files gives a reducer the groups of a run without faults |
| `Conservation.EachLineMappedOnce` | include/MapReduceMaster.h:610-620 | all mappers together emit each pair as often as one sequential mapper |
| `Conservation.EachPairFiledOnce` | include/MapReduceMaster.h:637-640 | each emitted pair is in exactly one file of its mapper |
| `Conservation.FilesConserveEmissions` | include/MapReduceMaster.h:588-647 | the multiset union of all files is what one sequential mapper emits |
| `Conservation.ReducersHaveDisjointKeys` | include/MapReduceMaster.h:637-640 | different reducers never see the same key |
| `Conservation.MapperOrderPermutesLineOrder` | include/MapReduceMaster.h:687-712 | the values a reducer sees for a key are those of the sequential mapper, perhaps in another order |
| `Conservation.ReducerGroupsAre` | include/MapReduceMaster.h:687-712 | a reducer has exactly its own keys, each with its values in mapper order |
| `Conservation.ReducersSeeSequentialGroups` | include/MapReduceMaster.h:588-727 | the reducers together see the groups of the sequential mapper if and only if every emitted key and value is a non-empty word without white space |
| `Conservation.EachKeyReducedOnce` | include/MapReduceMaster.h:714-721 | each key is reduced by its owner and by no other |
| `Conservation.ReducersSeeMapperGroups` | include/MapReduceMaster.h:588-727 | each reducer has exactly the groups it owns, with their values in mapper order, under the same condition and no other |
| `Conservation.OutputsAreSequential` | include/MapReduceMaster.h:714-724 | the output files of a run without faults are those of the sequential reference |
| `Conservation.LineOrderMakesNoDifference` | include/MapReduceMaster.h:714-724 | a reduce function that ignores order cannot tell mapper order from the order of the input |
| `Utility.RoundTrip` | include/Utility.h:13-34 | reading the printed pairs back gives each key its values in order, no key added or lost, if and only if all keys and values are non-empty and free of white space |
| `Utility.EmptyValueIsLost` | include/Utility.h:20-32 | an empty value makes its pair vanish |
| `Utility.ReadText` | include/Utility.h:13-34 | the extraction loop groups the words of the text two by two |
| `Utility.GroupedIs` | include/Utility.h:24-31 | grouping keeps exactly the keys, each with its values in order |
| `Utility.ParsedHoldsWords` | include/Utility.h:20-32 | whatever the file holds, only non-empty words come out |
| `Utility.WriteKeyValVector` | include/Utility.h:50-61 | prints every entry on its own line |
| `Utility.PrintEntriesConcat` | include/Utility.h:50-61 | the text of no entry is empty, and entries are printed one after another |
| `Utility.PrintedEntryIs` | include/Utility.h:54-60 | an entry without values is its key and a space; each further value goes in front of the end of the line, with a space |
| `Utility.EntriesReadBack` | include/Utility.h:48-61 | for words, line `i` of the text reads back as the key and the values of entry `i`, and there is no other line |
| `Utility.PrintedPairIs` | include/MapReduceMaster.h:637-644 | one pair is a line of its key and its value |
| `Utility.PrintPairsConcat` | include/MapReduceMaster.h:637-644 | pairs are printed one after another |
| `Utility.PairUpIs` | include/Utility.h:20 | pair `i` of the reader holds the words `2 * i` and `2 * i + 1` |
| `Utility.ValuesOfOne` | include/Utility.h:24-31 | one pair adds one value, to its own key |
| `Streams.InputStream.Extract` | include/Utility.h:20 | `>>` takes the next word and fails exactly when there is none |
| `Streams.InputStream.GetLine` | src/ReverseWeblinkGraph.cpp:29-33 | `getline` with its end-of-file and failure flags |
| `Text.SpacesAre` | include/Utility.h:20 | white space is the space and the codes 9 to 13 |
| `Text.WordsOfNothing` | include/Utility.h:20 | the empty text has no words |
| `Text.WordsAfterSpace` | include/Utility.h:20 | white space in front changes nothing |
| `Text.WordsCons` | include/Utility.h:20 | a word with white space after it comes first, whatever follows |
| `Text.WordsOfWord` | src/WordCounter.cpp:25 | a word at the end of the text counts; with the three rows above this determines the words of every text |
| `Text.LinesOfNothing` | include/MapReduceMaster.h:610 | the empty file has no lines |
| `Text.LinesCons` | include/MapReduceMaster.h:610 | a line with its end comes first, whatever follows |
| `Text.LinesOfLine` | include/MapReduceMaster.h:610 | a last line without an end counts; with the two rows above this determines the lines of every file |
| `Text.LinesHaveNoEnd` | include/MapReduceMaster.h:610 | no line has a line end in it |
| `Text.LeqIs` | include/MapReduceMaster.h:714 | `a <= b` exactly when `a` is in front of `b` or has the smaller character where they first differ |
| `Text.DecimalSnoc` | src/WordCounter.cpp:33 | the value of decimal digits, one more digit at a time |
| `Text.ToStringIs` | src/WordCounter.cpp:35 | `to_string` writes digits of the right value and no zero in front |
| `Text.StoiAfterSpace` | src/WordCounter.cpp:33 | `stoi` skips white space in front |
| `Text.StoiIs` | src/WordCounter.cpp:33 | it takes an optional sign and the digits after it, ignores what follows, and fails exactly without a digit |
| `ClientResults.WordCounterResult` | src/WordCounter.cpp:22-36 | after any run that returns, each output file lists in order exactly the words that hash to it, each with its number of occurrences in the input |
| `ClientResults.InvertedIndexResult` | src/InvertedIndex.cpp:22-38 | each output file lists exactly the words that hash to it, each with the numbers of exactly the lines that contain it, once each and in the order of strings |
| `ClientResults.ReverseWeblinkResult` | src/ReverseWeblinkGraph.cpp:26-43 | for clean `source,target` lines each output file is the text that lists exactly its targets in order, each with the sources that link to it, mapper after mapper |
| `ClientResults.SourcesByMapperAreAll` | src/ReverseWeblinkGraph.cpp:26-43 | these are the exact multiset of the sources of the target |
| `ClientResults.WordCounterIgnoresOrder` | src/WordCounter.cpp:30-36 | the sum does not depend on the order of the values |
| `ClientResults.InvertedIndexIgnoresOrder` | src/InvertedIndex.cpp:30-38 | nor does the sorted list without repetitions |
| `Clients.WordCounterMap` | src/WordCounter.cpp:22-28 | one pair for every word |
| `Clients.WordCounterReduce` | src/WordCounter.cpp:30-36 | the sum of the values, or the exception of `stoi` |
| `Clients.TotalIs` | src/WordCounter.cpp:31-34 | one more value adds the number it stands for, or makes the sum fail |
| `Clients.StoiIntToString` | src/WordCounter.cpp:33-35 | a sum, negative or not, is written so that `stoi` reads it back |
| `Clients.InvertedIndexMap` | src/InvertedIndex.cpp:22-28 | one pair for every word, with the line number |
| `Clients.InvertedIndexReduce` | src/InvertedIndex.cpp:30-38 | the values sorted and without neighbours that are equal |
| `Clients.SortedUniqueIs` | src/InvertedIndex.cpp:35-36 | sorting and `unique` leave the strictly sorted list of the distinct values |
| `Clients.ReverseWeblinkMap` | src/ReverseWeblinkGraph.cpp:26-34 | the loop over the stream state, split at commas |
| `Clients.OneLinkPerLine` | src/ReverseWeblinkGraph.cpp:29-33 | a line with one comma gives one pair, target before source |
| `Clients.LineWithoutComma` | src/ReverseWeblinkGraph.cpp:29-33 | a line without a comma is a source with an empty target; with the row above this determines the pairs of every line |
| `Clients.ReverseWeblinkReduce` | src/ReverseWeblinkGraph.cpp:36-43 | all values, in order |
| `Matching.FindMaxBipartiteMatching` | lib/googletest/googlemock/src/gmock-matchers.cc:225-227 | returns a matching of the graph, and no matching of it is larger |
| `Matching.MaxBipartiteMatchState.Compute` | lib/googletest/googlemock/src/gmock-matchers.cc:129-160 | one search from each left node is enough for a largest matching |
| `Matching.MaxBipartiteMatchState.TryAugment` | lib/googletest/googlemock/src/gmock-matchers.cc:162-205 | ends; on failure both arrays are as before and everything reachable has been seen; on success the arrays refer to each other again, `ilhs` is matched and no other left node gains or loses a partner |
| `Matching.NoMatchingIsLarger` | lib/googletest/googlemock/src/gmock-matchers.cc:133-146 | the right nodes seen by failed searches give a vertex cover of the size of the matching |
| `Matching.TakeOver` | lib/googletest/googlemock/src/gmock-matchers.cc:186-201 | relinking after a successful inner search restores the mutual references |
| `UnorderedMatchers.FindPairing` | lib/googletest/googlemock/src/gmock-matchers.cc:417-456 | true exactly when an assignment covers what the flags ask for |
| `UnorderedMatchers.VerifyMatchMatrix` | lib/googletest/googlemock/src/gmock-matchers.cc:367-415 | true exactly when no matcher, or no element, is left without any edge |
| `UnorderedMatchers.AssignmentsPassVerification` | lib/googletest/googlemock/src/gmock-matchers.cc:367-415 | where verification fails there is no assignment |
| `UnorderedMatchers.Matches` | lib/googletest/googlemock/include/gmock/gmock-matchers.h:3172-3190 | the whole decision, with its short cuts, is right |
| `UnorderedMatchers.CoverageIsSize` | lib/googletest/googlemock/src/gmock-matchers.cc:419-428 | a matching covers a side exactly when it has that size |
| `SimpleRegex.ValidateRegex` | lib/googletest/googletest/src/gtest-port.cc:828-879 | accepts exactly the texts of the patterns of the language |
| `SimpleRegex.CharacterSets` | lib/googletest/googletest/src/gtest-port.cc:778-796 | punctuation, repetitions, unsupported characters and escapes are the characters listed |
| `SimpleRegex.AtomsAre` | lib/googletest/googletest/src/gtest-port.cc:800-818 | which characters every atom stands for |
| `SimpleRegex.ItemTextMeans` | lib/googletest/googletest/src/gtest-port.cc:885-910 | an atom alone, with `?`, `*` or `+` stands for one character, at most one, any number, or at least one |
| `SimpleRegex.PlainTextOccurs` | lib/googletest/googletest/src/gtest-port.cc:911-963 | a pattern of plain characters occurs exactly where they stand in the text, at the front after `^` and at the end before `$` |
| `SimpleRegex.MatchRegexAnywhere` | lib/googletest/googletest/src/gtest-port.cc:951-963 | true exactly when the pattern occurs in the text |
| `SimpleRegex.MatchRegexAtHead` | lib/googletest/googletest/src/gtest-port.cc:915-941 | true exactly when a match starts at this position |
| `SimpleRegex.MatchItemAtHead` | lib/googletest/googletest/src/gtest-port.cc:922-940 | one item of the pattern, with or without a repetition |
| `SimpleRegex.MatchRepetitionAndRegexAtHead` | lib/googletest/googletest/src/gtest-port.cc:888-910 | tries exactly the allowed numbers of copies of an atom before the rest |
| `SimpleRegex.RE.constructor` | lib/googletest/googletest/src/gtest-port.cc:984-1015 | accepts valid patterns and stores the anchored text |
| `SimpleRegex.RE.FullMatch` | lib/googletest/googletest/src/gtest-port.cc:973-975 | whole-text matching, and what happens instead after an escaped dollar |
| `SimpleRegex.RE.PartialMatch` | lib/googletest/googletest/src/gtest-port.cc:979-981 | true exactly when the pattern occurs in the text |
| `SimpleRegex.FullTextIs` | lib/googletest/googletest/src/gtest-port.cc:997-1014 | the anchored text is the text of the anchored pattern |
| `SimpleRegex.FullMatchIsWholeMatch` | lib/googletest/googletest/src/gtest-port.cc:973-1014 | full matches are whole-text matches for all texts if and only if the pattern does not end in an escaped dollar |
| `EditDistance.CalculateOptimalEdits` | lib/googletest/googletest/src/gtest.cc:1174-1229 | both tables and the path followed back through them; no index underflows and the walk ends |
| `EditDistance.WalkBack` | lib/googletest/googletest/src/gtest.cc:1219-1228 | the path, found last move first |
| `EditDistance.PathIsScript` | lib/googletest/googletest/src/gtest.cc:1174-1229 | the path is a script from `left` to `right`, and its cost is the entry of the last cell |
| `EditDistance.ScriptPrices` | lib/googletest/googletest/src/gtest.cc:1195-1215 | a match costs nothing, an addition or a removal 1, a replacement 1.00001 |
| `EditDistance.BorderPaths` | lib/googletest/googletest/src/gtest.cc:1182-1190 | where one side is used up, only additions or only removals are left |
| `EditDistance.LastMoveIs` | lib/googletest/googletest/src/gtest.cc:1194-1215 | equal elements are always matched; otherwise the last move is an addition, or a removal, exactly when that way is cheaper than both others, and a replacement if neither is |
| `EditDistance.NoScriptIsCheaper` | lib/googletest/googletest/src/gtest.cc:1174-1229 | the least cost, by the recurrence of Wagner and Fischer, bounds every script |
| `EditDistance.CheapestScript` | lib/googletest/googletest/src/gtest.cc:1174-1229 | and some script costs no more |
| `EditDistance.TableIsCheapestIffNoBadTie` | lib/googletest/googletest/src/gtest.cc:1199-1215 | the table is optimal for all prefixes if and only if, with the true least costs, no cell would take the replace branch while adding or removing costs no more |
| `EditDistance.TieBesideOptimalPath` | lib/googletest/googletest/src/gtest.cc:1199-1215 | for the script that is returned this condition is sufficient and not necessary |
| `EditDistance.PathIsCheapest` | lib/googletest/googletest/src/gtest.cc:1174-1229 | then no script at all is cheaper than the one returned |
| `EditDistance.ThreeReplacementsInsteadOfTwoEdits` | lib/googletest/googletest/src/gtest.cc:1203-1215 | an input for which the result is not optimal |
| `EditDistance.InternalStrings.GetId` | lib/googletest/googletest/src/gtest.cc:1236-1241 | equal strings, and only they, get equal ids |
| `EditDistance.PathOfRenamed` | lib/googletest/googletest/src/gtest.cc:1250-1264 | the path depends only on which elements are equal |
| `EditDistance.CalculateLineEdits` | lib/googletest/googletest/src/gtest.cc:1250-1264 | the path for the lines is found on their ids |
| `UnifiedDiff.CreateUnifiedDiff` | lib/googletest/googletest/src/gtest.cc:1349-1410 | the hunks do not overlap and replaying them on `left` gives `right`, if and only if some context is asked for or nothing changes; the common lines shown are exactly those with a change at most `context` edits away |
| `UnifiedDiff.FillHunk` | lib/googletest/googletest/src/gtest.cc:1375-1400 | a hunk takes the edits from its first change on, and ends where at least `context` matches separate it from the next change |
| `UnifiedDiff.MakeHunk` | lib/googletest/googletest/src/gtest.cc:1365-1407 | the next hunk continues a correct replay, and there is none exactly when no change is left or no context is asked for |
| `UnifiedDiff.StartHunk` | lib/googletest/googletest/src/gtest.cc:1366-1370 | the context before a hunk; the start numbers do not underflow |
| `UnifiedDiff.Hunk.PushLine` | lib/googletest/googletest/src/gtest.cc:1281-1297 | both sides of the hunk grow as the edit says, although removals and additions wait |
| `UnifiedDiff.Hunk.FlushEdits` | lib/googletest/googletest/src/gtest.cc:1313-1316 | neither side changes when the waiting lines are moved |
| `UnifiedDiff.Hunk.PrintTo` | lib/googletest/googletest/src/gtest.cc:1299-1307 | the printed counts are those of the lines, and no removal follows an addition directly |
| `UnifiedDiff.FlushedTexts` | lib/googletest/googletest/src/gtest.cc:1313-1316 | removals before additions leave the old and the new side as they were |
| `UnifiedDiff.ReplaysToMeans` | lib/googletest/googletest/src/gtest.cc:1349-1410 | hunks that join up on both sides replay to what they cover of `right` |
| `UnifiedDiff.PatchWithOne` | lib/googletest/googletest/src/gtest.cc:1366-1404 | replaying one hunk puts its new lines where its old lines stood, with lines counted from 1, and refuses start lines that disagree |
| `UnifiedDiff.NextHunk` | lib/googletest/googletest/src/gtest.cc:1356-1407 | one more hunk keeps the replay correct, the context as it should be, and the changes before and after it apart |
| `UnifiedDiff.NextShows` | lib/googletest/googletest/src/gtest.cc:1365-1400 | one more hunk shows the context it should |
| `Utf8.IsValidUTF8` | lib/googletest/googletest/src/gtest-printers.cc:384-417 | accepts exactly the encodings of Unicode scalar values |
| `Utf8.ValidatorMeetsEncoder` | lib/googletest/googletest/src/gtest-printers.cc:384-417 | without NUL, these are exactly the concatenations of what `CodePointToUtf8` returns for scalar values other than 0 |
| `Utf8.TextIsUnique` | lib/googletest/googletest/src/gtest.cc:1928-1954 | such a concatenation can be read back in one way only |
| `Utf8.ReadingIsUnique` | lib/googletest/googletest/src/gtest-printers.cc:384-417 | a byte string has at most one reading |
| `Utf8.CodePointToUtf8` | lib/googletest/googletest/src/gtest.cc:1928-1954 | the bytes of section 3 of RFC 3629, through a buffer filled from the last byte to the first |
| `Utf8.EncodingBytes` | lib/googletest/googletest/src/gtest.cc:1934-1952 | the first byte tells the length, the other bytes hold six bits each, and together they hold the number |
| `Utf8.MessageIs` | lib/googletest/googletest/src/gtest.cc:1929-1931 | the message holds the digits of the number in base 16 |
| `Utf8.TestedEncodings` | lib/googletest/googletest/test/gtest_unittest.cc:598-651 | the encodings that the tests expect |
| `Utf8.NeverAppear` | lib/googletest/googletest/src/gtest-printers.cc:384-417 | surrogates and numbers above 0x10FFFF are no scalars, and the bytes C0, C1 and F5 to FF stand nowhere in valid text |
| `Utf8.EncodingIsChar` | lib/googletest/googletest/src/gtest.cc:1934-1952 | an encoded number of up to 21 bits is read back if it is a scalar and refused if it is not |
| `Utf8.CharIsScalar` | lib/googletest/googletest/src/gtest-printers.cc:387-414 | whatever the validator takes for a character is the encoding of one scalar |
| `Utf8.TextIsValid` | lib/googletest/googletest/src/gtest.cc:1928-1954 | the text for some code points is valid if and only if none is a surrogate or lies in 0x110000 to 0x1FFFFF |
| `Utf8.MessageAbove21Bits` | lib/googletest/googletest/src/gtest.cc:1928-1931 | the message comes exactly for the numbers above 0x1FFFFF |
| `Utf8.AboveUnicodeIsEncoded` | lib/googletest/googletest/src/gtest.cc:1924-1931 | the documented message for numbers above 0x10FFFF does not come for 0x110000 |
| `Utf8.WideStringToUtf8` | lib/googletest/googletest/src/gtest.cc:1995-2016 | the text of the code points up to the terminator, with surrogate pairs joined |
| `Utf8.StopsOnNul` | lib/googletest/googletest/src/gtest.cc:2003-2005 | nothing after a terminator counts |
| `Utf8.TestedPair` | lib/googletest/googletest/test/gtest_unittest.cc:737-740 | a pair of surrogates is one code point where characters have 16 bits, and two elsewhere |
| `Utf8.WideTextIsTranscoded` | lib/googletest/googletest/src/gtest.cc:1963-2016 | well-formed UTF-16 or UTF-32 becomes the UTF-8 encoding of the same code points |
| `Expectations.Expectation.RetireAllPreRequisites` | lib/googletest/googlemock/src/gmock-spec-builders.cc:108-132 | retires all transitive prerequisites and nothing else, and keeps the retired expectations closed under prerequisites |
| `Expectations.Expectation.AllPrerequisitesAreSatisfied` | lib/googletest/googlemock/src/gmock-spec-builders.cc:136-153 | ends on an acyclic graph without a visited set, and is true exactly when every transitive prerequisite is satisfied |
| `Expectations.Expectation.RetireReachable` | lib/googletest/googlemock/src/gmock-spec-builders.cc:116-131 | the search retires nothing but transitive prerequisites and leaves nothing waiting |
| `Expectations.StackFalls` | lib/googletest/googlemock/src/gmock-spec-builders.cc:140-151 | each round of the worklist leaves fewer paths to follow |
| `Expectations.RankFalls` | lib/googletest/googlemock/src/gmock-spec-builders.cc:136-153 | an expectation has more transitive prerequisites than any of its immediate ones |
| `Expectations.SatisfiedStep` | lib/googletest/googlemock/src/gmock-spec-builders.cc:140-151 | all prerequisites are satisfied exactly when the immediate ones are and theirs are |
| `Expectations.ClosedDownwards` | lib/googletest/googlemock/src/gmock-spec-builders.cc:110-114 | the short cut for a retired expectation is right |
| `Expectations.Expectation.ShouldHandleArguments` | lib/googletest/googlemock/include/gmock/gmock-spec-builders.h:1100-1112 | handles a call exactly when it is active, its prerequisites are satisfied and the arguments match |
| `Expectations.Expectation.GetActionForArguments` | lib/googletest/googlemock/include/gmock/gmock-spec-builders.h:1195-1224 | counts the call; retires the prerequisites, and itself on saturation, unless the call is excessive |
| `Expectations.FindMatchingExpectation` | lib/googletest/googlemock/include/gmock/gmock-spec-builders.h:1725-1741 | the newest expectation that handles the call, if any |
| `Expectations.HandleCall` | lib/googletest/googlemock/include/gmock/gmock-spec-builders.h:1690-1713 | a call goes to the newest expectation that is ready for it, which counts it and retires what it should, or to none when none is ready |
| `Expectations.HandleCalls` | lib/googletest/googlemock/include/gmock/gmock-spec-builders.h:1690-1713 | any sequence of calls has these outcomes, one after another |
| `Expectations.PrerequisitesComeFirst` | lib/googletest/googlemock/src/gmock-spec-builders.cc:108-153 | over any sequence of calls: after an expectation has handled a call that was not excessive, none of its prerequisites handles another |
| `Expectations.CallsAreCounted` | lib/googletest/googlemock/include/gmock/gmock-spec-builders.h:1195-1216 | every handled call is counted once, for the expectation that handled it |
| `Primes.PreCalculatedPrimeTable.constructor` | lib/googletest/googletest/samples/prime_tables.h:80-84 | the table marks exactly the prime numbers, for every capacity of at least 1 |
| `Primes.PreCalculatedPrimeTable.CalculatePrimesUpTo` | lib/googletest/googletest/samples/prime_tables.h:99-117 | the sieve that starts at squares and passes over even candidates marks exactly the prime numbers |
| `Primes.PreCalculatedPrimeTable.MarkMultiples` | lib/googletest/googletest/samples/prime_tables.h:109-115 | marks exactly the multiples from the square on |
| `Primes.PreCalculatedPrimeTable.GetNextPrime` | lib/googletest/googletest/samples/prime_tables.h:92-98 | the next prime number in the table, or -1 exactly when there is none |
| `Primes.PreCalculatedPrimeTable.IsPrime` | lib/googletest/googletest/samples/prime_tables.h:88-90 | true exactly for the prime numbers in the table |
| `Primes.IsPrime` | lib/googletest/googletest/samples/prime_tables.h:57-66 | trial division up to the square root is right |
| `Primes.GetNextPrime` | lib/googletest/googletest/samples/prime_tables.h:68-74 | ends for every number from 0 on, with the next prime number |
| `Primes.PrimesGoOn` | lib/googletest/googletest/samples/prime_tables.h:71-73 | there is no greatest prime number |
| `Primes.NoSmallDivisorIsPrime` | lib/googletest/googletest/samples/prime_tables.h:60-65 | a number without divisors up to its square root is prime |
| `Primes.SkipMarked` | lib/googletest/googletest/samples/prime_tables.h:106-107 | a candidate that is marked already adds no marks |
| `Primes.SkipEven` | lib/googletest/googletest/samples/prime_tables.h:106 | nor does an even one above 2 |
| `Primes.CompareTables` | lib/googletest/googletest/samples/prime_tables.h:57-98 | the two tables agree wherever the second one has an answer |
| `TestFilter.PatternMeaning` | lib/googletest/googletest/src/gtest.cc:654-669 | the matcher follows the meaning of the wildcards |
| `TestFilter.FilterMeaning` | lib/googletest/googletest/src/gtest.cc:671-690 | a list of patterns matches when one of them stands for the whole name |
| `TestFilter.MatchesFilter` | lib/googletest/googletest/src/gtest.cc:671-690 | the search through the list |
| `TestFilter.WildcardsAre` | lib/googletest/googletest/src/gtest.cc:654-669 | two plain words with nothing, a question mark or a star between them stand for exactly the names one expects |
| `TestFilter.FilterListIs` | lib/googletest/googletest/src/gtest.cc:671-690 | a list holds the names of its first pattern and those of the rest |
| `TestFilter.FilterMatchesTest` | lib/googletest/googletest/src/gtest.cc:694-727 | some pattern before the first dash stands for the full name, and none after it |
| `TestFilter.FlagIs` | lib/googletest/googletest/src/gtest.cc:698-722 | the two lists are what stands before and after the first dash; `-x` means `*-x`, and without a dash only the empty name is kept out |
| `TestFilter.UniversalFilter` | lib/googletest/googletest/src/gtest.cc:707-712 | an empty positive part means every name, an empty negative part no test |
| `TestFilter.DisabledNames` | lib/googletest/googletest/src/gtest.cc:148 | a name is disabled exactly when it begins with `DISABLED_` or has `/DISABLED_` in it |
| `TestSharding.FilterTests` | lib/googletest/googletest/src/gtest.cc:5883-5932 | the number of tests selected, and the flags of every test and suite |
| `TestSharding.FilteredMeansSelected` | lib/googletest/googletest/src/gtest.cc:5895-5929 | exactly the selected tests are to be run, and the suites that hold one |
| `TestSharding.FilterTest` | lib/googletest/googletest/src/gtest.cc:5899-5928 | all four flags of one test |
| `TestSharding.EachTestInOneShard` | lib/googletest/googletest/src/gtest.cc:5872-5874 | each runnable test is selected in exactly one shard |
| `TestSharding.ShardRunsEveryNth` | lib/googletest/googletest/src/gtest.cc:5872-5874 | a shard runs every n-th test, counted from its own index |
| `TestSharding.ShardsSumToAll` | lib/googletest/googletest/src/gtest.cc:5872-5932 | the shards together run every runnable test once |
| `TestSharding.ShardsAreBalanced` | lib/googletest/googletest/src/gtest.cc:5872-5874 | no shard runs two tests more than another |
| `TestSharding.CountIsShardCount` | lib/googletest/googletest/src/gtest.cc:5923-5926 | the number selected by one shard is its share of the runnable tests |
| `TestSharding.ShouldShard` | lib/googletest/googletest/src/gtest.cc:5809-5849 | sharding is on exactly with a shard index below a total greater than 1, and the program ends exactly when values are given that make no sense |

## Left out

- Processes, ports, sleeping, RPC transport, futures, console output and the blocking read of `cin`: they
  are the abstract steps of the protocol.
- Error returns of the two worker modules while the protocol runs: the input is readable and user functions
  do not throw; `MapReduce.MapController` has the missing input file. The generator registry is a fresh
  object for each task.
- FairRuns.FairRunsReturn: time-outs and pauses are not modelled, a fair round stands for some of them.
- Clients.WordCounterReduce: the exception of `stoi` is the value `None`, and `stoi` reads decimal digits
  with an optional sign after white space, without overflow.
- The concrete `std::hash`, and overflow of `int`.
- `write_map`, which nothing calls, `src/Temp.cpp`, the configuration read by the three `main` functions,
  the Spark scripts.
- EditDistance.CalculateOptimalEdits: costs are exact integers in units of 0.00001, without the rounding of
  `double`.
- UnifiedDiff.CreateUnifiedDiff: hunks are values, so the text of the header, which drops a side without
  edits, is not modelled; nor is the conversion of an index to `int`.
- Utf8.CodePointToUtf8: bytes are numbers and the bit operations are written as sums, quotients and
  remainders.
- Expectations.FindMatchingExpectation: argument matching is one predicate, and locking is left out.
- `FindUnsatisfiedPrerequisites`, which only words a message; sequences (`InSequence`), which only fill the
  lists of prerequisites.
- Primes.PreCalculatedPrimeTable.constructor: capacities below 1 are excluded, the constructor writes
  entries 0 and 1 without looking.
- TestSharding.ShouldShard: the environment is two integers, and ending the program is the value `None`.
- `MatchMatrix` is a grid of Booleans; how the grid is computed from a container and all explanations of
  a mismatch are left out.
- The rest of Google Test and Google Mock, `pump.py`, and the RPC library.
