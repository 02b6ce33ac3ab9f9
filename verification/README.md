# Verified models of the ns-3 tools and example algorithms

This project models the algorithms that the driver script, the developer tools and some example
programs of an ns-3 tree implement themselves, and proves what each of them is for. The simulator
library is not modelled; where an algorithm calls into it (the event queue, a socket, the type
registry) the library is an environment that may answer in any way its interface allows.

`dafny verify dfyconfig.toml` checks everything.

## The parts

**The parallel test runner** (`TestRunner`, `test.py`). Main starts the workers, puts the jobs on a
FIFO queue, adds one break token per worker, collects one result per job and joins the threads; a
worker takes, reads the interrupt flag, launches and reports. The specification is a state machine
whose steps are the atomic steps of main, of the workers and of the interrupt handler; a run is any
interleaving of them, with any return codes. Main's loop counters are its program counter. The
fields `launched`, `late` and `collected` are history: they record a launch, the launches a worker
makes after the interrupt, and what main took from the output queue. Class `TestRun` performs the
same steps on its fields.
The runner waits for ever when there are jobs and no worker; `FinishesIff` says that this is the
only case, and `RunTests` is stated outside it.

**Configuration paths** (`ConfigPaths`, `ConfigRoutes`, `ConfigRepeats`, `utils/print-introspected-doxygen.cc`). A depth-first search
over the graph of types, which may be cyclic, cut at types on the current path. The four kinds of
edges (pointer attributes other than to `Object`, container attributes, child types, aggregations)
are modelled one by one. What is recorded is exactly the preorder list of the simple walks from the
root with their label paths, and no reachable type is lost by the cut. The call to `Uniquefy` gets a
copy and changes nothing for the caller, although the comment above it says that the container is
modified in place; the model follows the code. So records can repeat: `RepeatsIff` and
`RepeatsIffTwins` say exactly when, and `IcmpIsRecordedTwice` shows it for the aggregation that the
program registers twice.

**Patches** (`PatchSet`, `PatchFormat`, `PatchRewrite`, `PatchObjects`, `utils/check-style.py`). The parser and the
printer of a subset of the unified diff format, and the pass that undoes removed trailing
whitespace. `PatchSet` and `PatchRewrite` work on values;
`PatchFormat` says what the text looks like and what the parser makes of each line, character by
character; `PatchObjects` is the program on the heap,
where a line of both sides is one object listed twice and the pass changes it in place, and each
method there is tied to the value it computes.
The pattern `^(.*)([ \t]+)$` reads as "one or more trailing blanks", but being greedy it splits off
one character (`GreedySplit`): a line that lost two blanks is not restored (`LostBlanksIff`). And a
blank put back on a target line `++` makes a line that reads as a file header
(`RewriteCanBreakAPatch`); the exact condition is in `RewrittenReadsBackIff`.

**The style fixer** (`StyleFixer`, `LineText`, `TextLines`, `utils/check-style-clang-format.py`). The check and fix
of trailing whitespace and of tabs, with guard lines that switch the tab check off and on. The fix
can make a guard line where there was none (`FixCanMakeAGuard`); fixing once is enough all the same.

**The load order of the bindings** (`DependencyOrder`, `bindings/python/ns__init__.py`). A recursion
that moves modules from a pending list to stages. It has no exit when a dependency is cyclic or
absent; the interpreter's recursion limit, a parameter here, is what ends it, as an error.

**Arithmetic, streams and slices**. The one-pass average and variance of the benchmark
(`Welford`, over exact reals), Jain's fairness index in 64-bit words (`Fairness`; its arithmetic is
exact exactly under the condition of `ExactIff`, and can fail beyond it), the chunked TCP
writer (`TcpWriter`), the self-rescheduling sender (`Sender`), and the slices and the legend layout
of the timeline viewer (`Timeline`).

`Sums`, `TextLines` and `Wrappers` are shared helpers.

## Main results

- `TestRunner`: `EveryRunIsSafe`, `FinishesIff`, `ReportCarriesCode`, `CountsAreByCode`,
  `InterruptStopsUndecided` and the program `RunTests`.
- `ConfigPaths`: `WalksAreSimple`, `WalksIncreasing`, `EveryReachableTypeHasAPath` and the program
  `DoGather`; `ConfigRoutes`: `GatheredRoutes`; `ConfigRepeats`: `RepeatsIff`, `RepeatsIffTwins`, `AllRepeatIff`.
- `PatchSet`: `TextRoundTripIff`, `ReparseIsStable`; `PatchFormat`: `WrittenIsText`, `AcceptsIff`,
  `FileParsed`, `ChunkParsed`; `PatchRewrite`: `RewriteResult`,
  `LostBlanksIff`, `AlignedChunk`, `RewrittenReadsBackIff`; `PatchObjects`:
  `RemoveTrailingWhitespaceChanges`, `WritePatchset`.
- `LineText.ExpandsToIff`; `StyleFixer`: `FixOnce`, `WhitespaceThenTabs` and the program `CheckManuallyFile`.
- `DependencyOrder`: `StageIsLongestChain`, `StagesAreEarliest`, `StuckExactly`, `FinishesIff` and the
  program `SortToDependencies`.
- `Welford.Log`; `Fairness`: `IndexRange`, `ExactIff`; `TcpWriter`: `Run`, `RunUnrefused`; `Sender`:
  `Run`, `RunFromStart`; `Timeline`: `CoversIff`, `ExactIff`, `GetEventsBounds`, `CellsArePlaced`,
  `LayoutAndDraw`.

## Model

| member | source | states |
|---|---|---|
| TestRunner.EveryRunIsSafe | test.py:1075-1159 | In every reachable state of every interleaving each dispatched job is in exactly one of input queue, worker, output queue and collected; the input queue is real jobs and then break tokens; no worker has left while a real job is queued; and no worker has launched more than one job after the interrupt flag went up |
| TestRunner.StepKeepsInv | test.py:1075-1159 | Every step of main, of any worker and of the interrupt handler keeps the protocol invariant: phases of main in order, jobs before tokens, tokens queued plus workers left equals tokens sent, one place per job, settled reports, tally matching the reports |
| TestRunner.StepPlaces | test.py:1080-1159 | A step never loses or doubles a job: its number of places changes only when main dispatches it |
| TestRunner.StepTokens | test.py:1926-1929 | Each break token is taken by one worker that then leaves, and tokens are never created or lost otherwise |
| TestRunner.WorkKeepsQueue | test.py:1080-1083 | A worker's step keeps the queue as jobs followed by tokens and leaves no real job behind a departed worker |
| TestRunner.StepFallsMeasure | test.py:1949-1950 | Every step, whoever takes it, lowers a non-negative count of the work left, so no schedule goes on for ever |
| TestRunner.RunInv | test.py:1612-1615 | The invariant holds at the end of every run, and the run's length plus the work left never exceeds the work at the start |
| TestRunner.RunsAreBounded | test.py:1926-1950 | A run has at most 4 steps per processor and 7 per job, and two more |
| TestRunner.InterruptStopsUndecided | test.py:1089-1092 | A job that is not dispatched, queued, or held by a worker that has not read the flag when the flag is up is never launched: no worker gets past the flag with it, and its only report, also when it was to be skipped, is that it was interrupted |
| TestRunner.NotStuck | test.py:1949-1950 | With a worker, or with no job, every reachable state that is not final has a step main or a worker can take |
| TestRunner.FinishesIff | test.py:1612-1615 | Every run that cannot go on has finished, if and only if there is at least one processor or no job |
| TestRunner.AllGood | test.py:2218-2221 | Passed plus skipped equals the number of reports exactly when every job was skipped or ran and exited 0 |
| TestRunner.FinalReport | test.py:1949-1985 | At the end each job has been collected exactly once, the queues are empty, all workers are gone, the counts sum to the number of tests, and the status is 0 exactly when every report is of a skipped job or carries 0 (`CountsAreByCode` says it of the processes) |
| TestRunner.ReportCarriesCode | test.py:1118-1138 | In every run, once the process of a job has ended with a code, the job is, wherever it is from then on, a report that carries this code |
| TestRunner.StepKeepsCodes | test.py:1118-1159 | When processes end with given codes, every report of a launched job carries the code of its own process after every step |
| TestRunner.CountsAreByCode | test.py:1957-1985 | The final counts are numbers of jobs by what was configured for them and what their processes ended with: passed those that exit 0, failed 1, valgrind 2, crashed any other code, skipped those to be skipped, all but the interrupted ones, of which there are none without an interrupt; the status is 0 exactly when none was interrupted and every job is skipped or exits 0 |
| TestRunner.TestRun.MainStep | test.py:1926-1985 | Main's next step on the fields is the step of the state machine |
| TestRunner.TestRun.WorkerStep | test.py:1080-1159 | A worker's next step on the shared queues is the step of the state machine, for any return code |
| TestRunner.TestRun.RunTests | test.py:1612-2221 | Under an arbitrary scheduler, for processes that end with given codes, main returns with every job collected exactly once, with the counts by those codes, and with status 0 exactly when no job was interrupted and every job is skipped or its process exits 0 |
| ConfigPaths.WalksAreSimple | utils/print-introspected-doxygen.cc:447-531 | The search goes along a walk exactly when the walk takes existing edges, enters no type of the current path and no type twice |
| ConfigPaths.WalksIncreasing | utils/print-introspected-doxygen.cc:447-531 | The walks are recorded in strictly increasing lexicographic order of their edges: preorder, and none twice |
| ConfigPaths.GatheredRecords | utils/print-introspected-doxygen.cc:447-531 | A search from the root records (type, path) exactly when the path is that of a simple walk from the root to the type |
| ConfigPaths.GatheredPaths | utils/print-introspected-doxygen.cc:393-406 | What `Get` answers for a type after a search: exactly the label paths of the simple walks to it |
| ConfigPaths.Shorten | utils/print-introspected-doxygen.cc:451-454 | Any walk can be cut to a simple one with the same end, which is why stopping at types on the path is harmless |
| ConfigPaths.EveryReachableTypeHasAPath | utils/print-introspected-doxygen.cc:447-531 | A type gets a path from the root exactly when it can be reached from the root at all |
| ConfigPaths.TypesWithPaths | utils/print-introspected-doxygen.cc:586-590 | After the searches from all root objects a type has a path exactly when some root reaches it |
| ConfigPaths.FollowEdge | utils/print-introspected-doxygen.cc:476-480 | Following one more edge adds the records of the search at its target, with the edge's label in front, and nothing else |
| ConfigPaths.RootRecords | utils/print-introspected-doxygen.cc:451-455 | The records of a search are the type itself and then those of the walks over its edges in order |
| ConfigPaths.StaticInformation.RecordAggregationInfo | utils/print-introspected-doxygen.cc:328-348 | Two known names become an aggregation; of unknown names the first one only is noted and nothing is aggregated |
| ConfigPaths.StaticInformation.Get | utils/print-introspected-doxygen.cc:393-406 | The recorded paths of the type, in the order of the records |
| ConfigPaths.StaticInformation.FollowAttributes | utils/print-introspected-doxygen.cc:456-496 | Adds the records over the attribute edges, in order, and restores the current path (`ConfigRoutes` says which attributes those are) |
| ConfigPaths.StaticInformation.FollowChildren | utils/print-introspected-doxygen.cc:497-509 | Follows exactly the registered types that are children of the type, in order of registration, and restores the current path |
| ConfigPaths.StaticInformation.FollowAggregates | utils/print-introspected-doxygen.cc:510-530 | Follows exactly the recorded aggregations that name the type on either side, and restores the current path |
| ConfigPaths.StaticInformation.DoGather | utils/print-introspected-doxygen.cc:447-531 | Terminates on every graph, restores the current path and the stack of types, and appends exactly the records of the simple walks in preorder (`ConfigRoutes.GatheredRoutes` says it of the registry) |
| ConfigRoutes.GatheredRoutes | utils/print-introspected-doxygen.cc:456-530 | Said of the registry alone: the records are those of all routes that repeat no type, one each, where a step follows a pointer attribute not to `Object`, a container attribute, a registered child or an aggregation, under its label; and they are in the order of attributes, then children, then aggregations, each in its own order |
| ConfigRoutes.RecordIff | utils/print-introspected-doxygen.cc:447-531 | A type has a path recorded exactly when a route from the root ends in it with the labels of the path |
| ConfigRoutes.LongerRoute | utils/print-introspected-doxygen.cc:456-530 | At the end of a route, every attribute, child or aggregation that leads to a type not on the route makes a record: the path, a slash and its label |
| ConfigRoutes.ShorterRoute | utils/print-introspected-doxygen.cc:456-530 | Every record but the root's own is made that way |
| ConfigRoutes.RootRecord | utils/print-introspected-doxygen.cc:451-455 | The root has the empty path and no other |
| ConfigRoutes.NoPointerToObject | utils/print-introspected-doxygen.cc:467-474 | With plain names no path to `Object` ends in the name of an attribute: pointers to it are not followed |
| ConfigRoutes.LeadsIff | utils/print-introspected-doxygen.cc:456-530 | Each attribute, child type and aggregation makes exactly the edge that the registry gives for it, or none |
| ConfigRepeats.RepeatsIff | utils/print-introspected-doxygen.cc:439-445 | Since nothing is deduplicated: a search records something twice exactly when two different simple walks have the same end and the same path |
| ConfigRepeats.RepeatsIffTwins | utils/print-introspected-doxygen.cc:439-531 | With names as the library uses them this is read off the graph: records repeat exactly when two equal edges leave a type that a simple walk reaches, for a type not on the walk |
| ConfigRepeats.TwinsRepeat | utils/print-introspected-doxygen.cc:447-531 | On any graph such a pair of edges makes a path that `Get` returns twice |
| ConfigRepeats.PathStringInjective | utils/print-introspected-doxygen.cc:360-370 | With such names different lists of labels print as different paths |
| ConfigRepeats.LabelTellsEdge | utils/print-introspected-doxygen.cc:456-530 | With such names two edges out of a type with one label are equal |
| ConfigRepeats.GetRepeatsIff | utils/print-introspected-doxygen.cc:393-406 | `Get` returns a path twice exactly when a record of the type is there twice |
| ConfigRepeats.AggregatedTwice | utils/print-introspected-doxygen.cc:510-530 | An aggregation recorded twice, in either order of its types, makes the path over it come twice, wherever a simple walk reaches one of its types |
| ConfigRepeats.AllRepeatIff | utils/print-introspected-doxygen.cc:586-590 | After the searches from all root objects something is recorded twice exactly when two different walks, or walks from two places in the list of roots, have the same end and the same path |
| ConfigRepeats.IcmpIsRecordedTwice | utils/print-introspected-doxygen.cc:565-567 | So it is for Node and Icmpv4L4Protocol, which are registered twice |
| ConfigPaths.StaticInformation.Gather | utils/print-introspected-doxygen.cc:439-445 | A search with an empty path, with all its records kept: the deduplication changes a copy only (`RepeatsIff` says when records repeat) |
| ConfigPaths.StaticInformation.GatherAll | utils/print-introspected-doxygen.cc:586-590 | The searches from all root objects, one after the other |
| PatchSet.DecRoundTrip | utils/check-style.py:241-249 | Reading a number in decimal as it was printed gives the number |
| PatchSet.FieldRoundTrip | utils/check-style.py:370 | A printed number followed by its separator is read as the number, whatever comes after |
| PatchSet.WrittenLine | utils/check-style.py:214-227 | A written line reads back as the same line exactly when its text has no newline and does not complete a file header; otherwise it does not read as a line of a chunk at all |
| PatchSet.WrittenHeader | utils/check-style.py:295-302 | The parser reads the written chunk header as the two positions |
| PatchFormat.WrittenHeaderForm | utils/check-style.py:301-302 | The four numbers of a written header are, in this order, the source position, the number of source lines, the target position and the number of target lines |
| PatchFormat.WrittenCounts | utils/check-style.py:283-304 | The number of written lines that start with a minus or a blank is the number of source lines, and of those that start with a plus or a blank the number of target lines |
| PatchFormat.WrittenIsText | utils/check-style.py:356-365 | Line by line, the written form of any patches: both names of each patch, and each chunk with a header whose numbers are its positions and the numbers of the lines that follow for either side by their first character, and with the marked lines; and no line more |
| PatchFormat.ToIntConcat | utils/check-style.py:248-249 | Numbers are read in decimal, the first digits weighing most |
| PatchFormat.ToIntDigit | utils/check-style.py:248-249 | A single digit is read as its value |
| PatchFormat.NoLeadingZero | utils/check-style.py:301-302 | Numbers are printed without superfluous zeros |
| PatchFormat.HeaderIff | utils/check-style.py:370 | A line starts a chunk exactly when it is `@@ -a,b +c,d @@` with four numbers and anything after it; the first and the third are taken |
| PatchFormat.ClassifyForm | utils/check-style.py:368-373 | What a line is taken for, by its first characters, in the order in which the patterns are tried |
| PatchFormat.AcceptsIff | utils/check-style.py:376-410 | The parser accepts exactly the inputs whose lines are all known, with target names and chunk headers after a source name and chunk lines after a chunk header |
| PatchFormat.FileParsed | utils/check-style.py:377-386 | There is one patch for each source name, in order, with the last target name and as many chunks as are given before the next source name |
| PatchFormat.ChunkParsed | utils/check-style.py:387-409 | Each chunk header makes a chunk of the patch started last, with its positions and with all chunk lines up to the next chunk header, also those after the start of another patch |
| PatchSet.LinesBack | utils/check-style.py:392-409 | Parsing the written lines of a chunk adds exactly those lines to the current chunk |
| PatchSet.ChunksBack | utils/check-style.py:387-391 | Parsing the written chunks of a patch adds exactly those chunks to the current patch |
| PatchSet.PatchesBack | utils/check-style.py:367-411 | Parsing the written patches gives the same patches and leaves the last chunk current |
| PatchSet.RoundTripIff | utils/check-style.py:356-411 | Parsing the written form of any patches gives the same patches exactly when no name or text holds a newline, no source-only text starts with `-- ` and no target-only text starts with `++ ` |
| PatchSet.TextRoundTripIff | utils/check-style.py:356-411 | The same when the written form is joined to one text and cut into lines again |
| PatchSet.ClassifiedIsFaithful | utils/check-style.py:376-410 | Whatever line the parser accepts, what it takes from it can be written and read again |
| PatchSet.ParsedIsFine | utils/check-style.py:367-411 | Whatever the parser accepts can be printed and meets the condition of the round trip |
| PatchSet.ReparseIsStable | utils/check-style.py:367-411 | A parsed patch set survives writing and parsing, also when the input had stale counts or text after a chunk header |
| PatchRewrite.GreedySplit | utils/check-style.py:414 | Of all ways in which the pattern can split a text into a first group and trailing blanks, the greedy one leaves exactly the last character to the second group |
| PatchRewrite.RestoresIff | utils/check-style.py:424-426 | The pass appends exactly when the greedy split's first group is the target text, and what it appends is the second group |
| PatchRewrite.RewriteShape | utils/check-style.py:421-428 | The pass changes no line's kind, no number of lines, only target lines it reaches, and those by at most one blank at the end |
| PatchRewrite.SourceKeptIff | utils/check-style.py:417-426 | The pass leaves the source side of a chunk as it was exactly when no line of both sides is due for a blank from another source line |
| PatchRewrite.RewriteResult | utils/check-style.py:421-426 | For every chunk, the result line by line: a target line the pass reaches gets the blank exactly when it is the text, without its last blank, that the source line at its index has by then, where a line of both sides may have been extended before; all other lines stay |
| PatchRewrite.UnsharedText | utils/check-style.py:421-426 | Where no line of both sides is due for a blank, that text is the source line as parsed |
| PatchRewrite.BecomesSourceIff | utils/check-style.py:421-426 | Then a target line ends up equal to its source line exactly when it was equal or lacked one final space or tab |
| PatchRewrite.LostBlanksIff | utils/check-style.py:414-426 | A target line that lost trailing blanks gets its source line's text back exactly when it lost one at most |
| PatchRewrite.TwoBlanksStay | utils/check-style.py:414-426 | A line that lost two blanks stays as it is |
| PatchRewrite.AlignedChunk | utils/check-style.py:417-428 | Where common lines have the same index on both sides, the source side is untouched and every changed target line becomes equal to the source line at its index, also when the index error ends the pass early; the error comes exactly when there are more source than target lines |
| PatchRewrite.RewriteKeepsShape | utils/check-style.py:413-429 | Over the whole patch set names, positions, numbers and kinds of lines stay, and no text grows by more than one blank |
| PatchRewrite.RewriteReaches | utils/check-style.py:416-429 | Over the whole patch set, a chunk is rewritten exactly when no chunk before it has more source than target lines; all others stay as they are |
| PatchRewrite.FailsIff | utils/check-style.py:421-428 | The index error ends the pass exactly in a chunk with more source than target lines |
| PatchRewrite.LinesOkIff | utils/check-style.py:417-428 | The rewritten lines of a chunk still read as lines of a chunk exactly when no target line `++` sits at the index of a source line that is `++ ` when its turn comes |
| PatchRewrite.MakesHeaderIff | utils/check-style.py:421-426 | Where no line of both sides is due for a blank that can be told from the chunk as parsed: a target line `++` sits at the index of a source line `++ ` |
| PatchRewrite.AlignedIsUnshared | utils/check-style.py:417-426 | That is so wherever the common lines have the same index on both sides |
| PatchRewrite.FaithfulIff | utils/check-style.py:413-429 | The same over all chunks and patches, up to and including the first chunk with more source than target lines |
| PatchRewrite.RewrittenReadsBackIff | utils/check-style.py:413-429 | For every accepted input: the rewritten patch set, written out, parses back as itself exactly when no chunk, up to and including the first with more source than target lines, has a target line `++` against a source line that is `++ ` by then |
| PatchRewrite.UnsharedReadsBackIff | utils/check-style.py:413-429 | Where no line of both sides is due for a blank the whole condition is read off the parsed patches: `++` against `++ ` in such a chunk |
| PatchRewrite.RewriteCanBreakAPatch | utils/check-style.py:425-426 | Such an input exists: a chunk that replaces `++ ` by `++` |
| PatchObjects.PatchChunk.Side | utils/check-style.py:263-282 | The source or the target lines of a chunk: the objects at exactly the positions of that side, in order, not copies |
| PatchObjects.RewriteLine | utils/check-style.py:422-426 | One index of the pass, in place on the target object, changes the chunk's value at that line only, also when the object is listed on both sides |
| PatchObjects.RewriteChunk | utils/check-style.py:417-428 | The pass over a chunk's objects computes the rewritten lines and reports the index error |
| PatchObjects.AddLine | utils/check-style.py:392-409 | A new line at the end of the current chunk, which may belong to an earlier patch |
| PatchObjects.ParseLine | utils/check-style.py:376-410 | One line: the objects afterwards represent the parser's next state, and failure is exactly the parser's exception |
| PatchObjects.ParsePatchset | utils/check-style.py:367-411 | The objects built represent the parsed value; failure is exactly an unknown line, or one before the patch or chunk it belongs to |
| PatchObjects.RewritePatchset | utils/check-style.py:416-429 | The pass over all patches in place; the objects then represent the rewritten value |
| PatchObjects.RemoveTrailingWhitespaceChanges | utils/check-style.py:413-429 | Parsing and the pass together |
| PatchRewrite.CountIsPositions | utils/check-style.py:283-294 | The printed counts are the numbers of source and target lines |
| PatchObjects.WriteChunk | utils/check-style.py:295-304 | The chunk's text is appended: a header with the positions and with the numbers of the lines that follow for either side, and the marked lines; failure exactly when some line has no kind |
| PatchObjects.WritePatch | utils/check-style.py:356-365 | Both names and the chunks |
| PatchObjects.WritePatchset | utils/check-style.py:356-365 | What the objects write is, line by line, the text of the value they represent |
| StyleFixer.FixedIsCompliant | utils/check-style-clang-format.py:621-686 | Checking a fixed line reports it compliant |
| StyleFixer.CompliantIsFixed | utils/check-style-clang-format.py:621-686 | A line is compliant exactly when its fix is the line itself |
| StyleFixer.FixKeepsGuard | utils/check-style-clang-format.py:532-546 | Fixing a guard line leaves it the same guard |
| StyleFixer.FixCanMakeAGuard | utils/check-style-clang-format.py:674-678 | Fixing a line that is no guard can make it one: a tab in the place of the space |
| StyleFixer.EnabledOnlyIfBefore | utils/check-style-clang-format.py:534-540 | If skipped lines stay as they are and guards stay the same guards, then wherever a second pass is switched on the first one was |
| StyleFixer.SkippedAgain | utils/check-style-clang-format.py:532-546 | A line skipped in the first pass is skipped in the second |
| StyleFixer.FixedFileIsCompliant | utils/check-style-clang-format.py:532-567 | Checking the fixed lines of a file reports compliance, guards made by the fix or not |
| StyleFixer.CompliantFileIff | utils/check-style-clang-format.py:553-567 | A file is compliant exactly when fixing changes nothing |
| StyleFixer.FixesCommuteOnALine | utils/check-style-clang-format.py:638-678 | On a line the whitespace fix and the tabs fix commute |
| StyleFixer.FixesCommute | utils/check-style-clang-format.py:343-367 | On a file both orders of the two fixes give the same lines, the tabs fix honouring the guards and the whitespace fix not |
| StyleFixer.BothFixesSuffice | utils/check-style-clang-format.py:343-367 | After the whitespace fix and then the tabs fix both checks accept the file, and it has as many lines as before |
| StyleFixer.FixKeepsLines | utils/check-style-clang-format.py:562-565 | A fixed line is still one line, so that writing and reading the file gives the fixed lines |
| StyleFixer.ReadFixed | utils/check-style-clang-format.py:529-565 | The lines of the fixed file are the fixed lines |
| StyleFixer.FixOnce | utils/check-style-clang-format.py:505-567 | Checking a fixed file reports compliance and fixing it again changes nothing, for every content |
| StyleFixer.WhitespaceThenTabs | utils/check-style-clang-format.py:343-367 | The whole file through both fixes, in either order: the same file, accepted by both checks, with the same number of lines |
| LineText.ExpandsToIff | utils/check-style-clang-format.py:678 | Expansion is exactly this: every tab becomes one to four spaces up to a column of its line that is a multiple of four, where a line break starts the columns anew, and every other character is kept in order |
| LineText.TrimmedToIff | utils/check-style-clang-format.py:638 | The whitespace fix is the line up to its last character that is no blank, and a newline |
| LineText.StripIff | utils/check-style-clang-format.py:535 | A stripped line equals a guard text exactly when the line holds that text and nothing but blanks around it |
| StyleFixer.SkippedIff | utils/check-style-clang-format.py:534-546 | A line is skipped exactly when, with guards honoured, the last guard before it is `// clang-format off` and it is no guard itself |
| StyleFixer.FixMeetsLaw | utils/check-style-clang-format.py:532-567 | The verdict and the fixed lines, said of the text: no line outside a guarded region needs the fix; every such line becomes its expansion or its trimmed form, and all others stay |
| StyleFixer.CheckManuallyFile | utils/check-style-clang-format.py:505-567 | The loop with its guard state and its early exit: the verdict is that of the full scan in all modes, and line by line the file written has tabs expanded to every fourth column or ends trimmed, except in guarded regions, or is unchanged when not fixing |
| TextLines.ReadJoined | utils/check-style-clang-format.py:529-530 | Lines that were written are read back as they were |
| TextLines.JoinRead | utils/check-style-clang-format.py:529-530 | Reading and writing back a file changes nothing |
| DependencyOrder.LoadedIff | bindings/python/ns__init__.py:432-443 | A module is in one of the first k stages exactly when no dependency chain from it has more than k modules or leaves the keys |
| DependencyOrder.StageIsLongestChain | bindings/python/ns__init__.py:445-460 | A module's stage is the number of steps of its longest dependency chain |
| DependencyOrder.StagesAreEarliest | bindings/python/ns__init__.py:445-460 | No staging that puts dependencies strictly earlier can put a module earlier |
| DependencyOrder.CycleNeverLoads | bindings/python/ns__init__.py:432-443 | A module on a dependency cycle is never loaded |
| DependencyOrder.StuckExactly | bindings/python/ns__init__.py:445-460 | From as many stages on as there are modules, a module is not loaded exactly when it leads to a cycle or to a dependency that is no key |
| DependencyOrder.PendingStuck | bindings/python/ns__init__.py:445-460 | The pending modules the recursion gets stuck on are exactly those |
| DependencyOrder.FinishesIff | bindings/python/ns__init__.py:445-460 | Some number of stages empties the pending list exactly when the dependency relation is acyclic and every dependency is a key; as many stages as modules are then enough |
| DependencyOrder.StageKeepsOrder | bindings/python/ns__init__.py:434-442 | Modules of one stage keep their order in the input |
| DependencyOrder.FlatMembers | bindings/python/ns__init__.py:462-467 | The stages one after the other list every loaded module exactly once |
| DependencyOrder.FlatInOrder | bindings/python/ns__init__.py:462-467 | And every module after all its dependencies |
| DependencyOrder.PendingEmptyIff | bindings/python/ns__init__.py:448-449 | The exit test holds exactly when all keys are loaded |
| DependencyOrder.LoadOrder.ModulesThatCanBeLoaded | bindings/python/ns__init__.py:432-443 | The pending modules all of whose dependencies are loaded, in their order: the next stage |
| DependencyOrder.LoadOrder.LoadModules | bindings/python/ns__init__.py:452-457 | Moves the modules of a stage from the pending to the current list and records them, by removals and appends in place |
| DependencyOrder.LoadOrder.DependencyOrder | bindings/python/ns__init__.py:445-460 | The recursion fills one stage per call and ends with an empty pending list, or at the recursion limit with modules still pending |
| DependencyOrder.SortToDependencies | bindings/python/ns__init__.py:462-467 | When it finishes, the result lists every key once and every library after all its dependencies; it finishes exactly when some number of stages within the recursion limit empties the pending list, and never on a cyclic or absent dependency |
| Welford.SpreadShift | utils/bench-scheduler.cc:346-372 | How the sum of squared deviations changes when the centre moves |
| Welford.MeanIsBest | utils/bench-scheduler.cc:340-349 | No centre has a smaller sum of squared deviations than the mean |
| Welford.SpreadZeroIff | utils/bench-scheduler.cc:374-381 | The sum of squared deviations is never negative, and zero exactly when all samples equal the centre |
| Welford.StepSummarizes | utils/bench-scheduler.cc:358-362 | One accumulation step keeps the pair (average, second moment) equal to the mean and the sum of squared deviations from that mean, also when the average already was the sample |
| Welford.Accumulate | utils/bench-scheduler.cc:358-362 | The step on one of the six measurements, leaving the other five alone |
| Welford.Log | utils/bench-scheduler.cc:331-388 | For two or more runs all six averages are the arithmetic means and the squares of the standard deviations are the two-pass variances; for fewer nothing is reported |
| Fairness.CauchySchwarz | examples/tcp/dctcp-example.cc:191-197 | The square of the sum is at most n times the sum of the squares, with equality exactly for equal counts |
| Fairness.SquaresBelowSquare | examples/tcp/dctcp-example.cc:191-197 | The sum of the squares is at most the square of the sum, with equality exactly when at most one flow received anything |
| Fairness.SquaresBelowMax | examples/tcp/dctcp-example.cc:191-195 | The sum of the squares is at most n times the square of the largest count |
| Fairness.ExactIff | examples/tcp/dctcp-example.cc:191-197 | The machine's dividend and divisor are the exact ones if and only if nothing wraps: the sum, its square, the sum of squares, every square and n times the sum of squares are below 2 to the 64 |
| Fairness.NoWrapIff | examples/tcp/dctcp-example.cc:191-197 | All of these are below 2 to the 64 exactly when n times the sum of squares is |
| Fairness.SmallCountsDoNotWrap | examples/tcp/dctcp-example.cc:187-197 | If n times the largest count is below 2 to the 32, all of these sums and products are below 2 to the 64 |
| Fairness.FairnessIndex | examples/tcp/dctcp-example.cc:187-197 | The loop in 64-bit words computes the quotient of the wrapped sums; when nothing wraps and not all counts are zero it is between 1/n and 1, and 1 exactly for equal counts |
| Fairness.IndexRange | examples/tcp/dctcp-example.cc:187-197 | For counts not all zero that do not wrap, the index is between 1/n and 1, is 1 exactly when all counts are equal and 1/n exactly when one flow got everything |
| Fairness.EqualCountsCanWrap | examples/tcp/dctcp-example.cc:191-197 | An input beyond the condition of `ExactIff`: ten equal counts of 2 to the 32 leave a zero divisor |
| TcpWriter.BufferContinues | examples/tcp/tcp-large-transfer.cc:51-56 | The buffer holds whole periods, so that position p of the stream is what the buffer holds at p modulo its size |
| TcpWriter.Transfer.constructor | examples/tcp/tcp-large-transfer.cc:105-110 | The buffer is filled with the repeating alphabet, nothing is sent yet |
| TcpWriter.Transfer.Send | examples/tcp/tcp-large-transfer.cc:231-236 | The environment: takes a positive part of the write or refuses it, and the free space is then arbitrary; reads stay inside the buffer |
| TcpWriter.Transfer.WriteUntilBufferFull | examples/tcp/tcp-large-transfer.cc:221-243 | The bytes accepted stay a prefix of the pattern and never exceed the total; every write offers the longest part of the buffer that the stream, the total and the free space allow; the call stops early only on a full buffer or a refusal, makes progress otherwise, and closes exactly when the total is reached |
| TcpWriter.Transfer.Run | examples/tcp/tcp-large-transfer.cc:209-243 | Over any number of callbacks: byte p accepted is 97 + p mod 26, at most the total is sent, and a close means that all of it was |
| TcpWriter.Transfer.RunUnrefused | examples/tcp/tcp-large-transfer.cc:209-243 | Callbacks that find free space and meet no refusal get everything sent and the socket closed |
| Timeline.SearchRange | utils/grid.py:113-130 | The index of the one range that contains the key, or -1 exactly when none does |
| Timeline.CoversIff | utils/grid.py:165-181 | The slice misses no range that meets the window, except when both ends fall in gaps and the window encloses a range |
| Timeline.ExactIff | utils/grid.py:165-181 | When the slice is exactly the ranges that meet the window: both ends in ranges, or an end in a gap lying beyond all ranges on its side, or both in gaps and no range enclosed |
| Timeline.GetRangesBounds | utils/grid.py:165-181 | The bounds cover the window exactly when an end lies in a range or no range is enclosed, and are exact when both ends lie in ranges |
| Timeline.GetRanges | utils/grid.py:147-163 | The slice holds every range that meets the window exactly when an end lies in a range or no range is enclosed, and only such ranges when both ends lie in ranges |
| Timeline.WindowBetweenGaps | utils/grid.py:174-175 | A window with both ends in gaps yields nothing though a range lies inside it |
| Timeline.SearchEvent | utils/grid.py:217-234 | The number of events before the key, so the index of the event at it or of the first after it |
| Timeline.GetEventsBounds | utils/grid.py:255-264 | All events of the window are inside the bounds, and at most one later event, which is there exactly when no event is at the window's end |
| Timeline.GetEvents | utils/grid.py:244-253 | The slice: all events of the window, and at most one after it |
| Timeline.CursorBeyond | utils/grid.py:594-605 | The layout position is always after every box placed so far and inside the width |
| Timeline.LegendFits | utils/grid.py:626-638 | No two legend cells overlap, and a later one is to the right or below |
| Timeline.CellInside | utils/grid.py:616-638 | Every cell drawn is inside the width and inside the height that the separate layout pass computed |
| Timeline.CellsArePlaced | utils/grid.py:622-638 | For all widths and legends: the first box is at the padding when it fits; each next box is on the same line, right after the item before it, exactly when the two fit the width, and otherwise at the padding, lower by the largest item height so far |
| Timeline.HeightBelowLast | utils/grid.py:594-607 | The height is the last box's line and the largest item height |
| Timeline.TopLegendRenderer.Layout | utils/grid.py:582-607 | The layout loop stores that height |
| Timeline.TopLegendRenderer.Draw | utils/grid.py:616-647 | The drawing loop puts the boxes at exactly those corners |
| Timeline.TopLegendRenderer.LayoutAndDraw | utils/grid.py:582-647 | After a layout the boxes drawn are where they should be, pairwise disjoint, inside the width and inside the height the layout stored |
| Sender.SenderApp.StartApplication | examples/stats/wifi-example-apps.cc:103-120 | Starting, also while running, leaves exactly one live send event and a count of zero |
| Sender.SenderApp.StopApplication | examples/stats/wifi-example-apps.cc:122-127 | Stopping leaves no live send event |
| Sender.SenderApp.SendPacket | examples/stats/wifi-example-apps.cc:129-153 | A firing sends one packet and reschedules itself exactly when packets are left |
| Sender.SenderApp.RunFromStart | examples/stats/wifi-example-apps.cc:103-153 | Left alone after a start the sender sends exactly its number of packets |
| Sender.SenderApp.Run | examples/stats/wifi-example-apps.cc:103-153 | Over any run of starts, stops and firings there is at most one live event and the log is lawful: packets only while running, and each among the first n since its start |
| Sender.SilentWhileStopped | examples/stats/wifi-example-apps.cc:122-127 | In a lawful log nothing is sent between a stop and the next start |
| Sender.AtMostNPerStart | examples/stats/wifi-example-apps.cc:129-153 | In a lawful log at most the configured number of packets is sent between two starts |

## Left out

- TestRunner.TestRun.RunTests: stated for at least one processor or no job, because with jobs and no worker main waits for ever (`FinishesIff`).
- `test.py`: subprocesses (a process is the code it ends with), building, the lists of names and the XML and HTML reports; a launched process that never returns, or a launch that raises.
- TestRunner: a process that ends is one step, and an interrupt only raises the flag; the operating system's own signal to the child processes is not modelled.
- ConfigPaths.StaticInformation.DoGather: the type registry and the parent relation are given; type ids exist only by registration, so every edge leads to a registered type.
- `utils/print-introspected-doxygen.cc`: sorting and deduplicating in `Uniquefy`, whose result is discarded; printing; everything that only formats documentation.
- `utils/check-style.py`: running `uncrustify` and `patch`, directory traversal, command line; file input and output beyond lists of lines.
- ConfigPaths.StaticInformation.Gather: does not deduplicate, because the code's deduplication works on a copy; the exact repetitions are in `ConfigRepeats`.
- PatchRewrite.RestoresIff: for texts without a newline, which are all that the parser makes (`ClassifiedIsFaithful`); the pattern's `$` also matches before a final newline, which is not modelled.
- ConfigRepeats.RepeatsIffTwins: the condition on names (no slashes, no attribute called `[i]` or starting with `$`, attribute names unique in a type) is needed for one half only; `TwinsRepeat` and `RepeatsIff` hold for all names.
- PatchSet.TextRoundTripIff: lines end in newlines; the translation of other line ends when a text file is opened is not modelled.
- `utils/check-style-clang-format.py`: the external `clang-format` call, the include-prefix fixer (a tab expansion can make an include that it then changes), selection of files, verbose messages.
- StyleFixer.CheckManuallyFile: line ends other than newlines are translated when the file is opened; the model starts after that.
- DependencyOrder.SortToDependencies: the mutable default argument `steps` is fresh in the one call the program makes; discovery of libraries, regular expressions over binaries and version sorting are not modelled.
- Welford.Log: exact reals, so no rounding; the squares of the standard deviations stand for the square roots.
- `utils/bench-scheduler.cc`: `Bench::Run` and `Bench::Cb`, which need the simulator and wall-clock times; division by a zero time.
- Fairness.FairnessIndex: the rounding of the quotient to a double; the throughput averages beside the index. A quotient by the zero word has no value here.
- TcpWriter.Transfer.Send: a socket that takes zero bytes without refusing could keep the writer's loop going for ever; the environment takes at least one byte or refuses.
- `examples/tcp/tcp-large-transfer.cc`: `StartFlow` connects and makes the first callback; topology, tracing and the receiving side.
- Timeline.SearchRange: the midpoint is computed with a floating-point division in the source, exact for any list that fits in memory.
- Timeline.CellInside: text extents are given; the padding is positive and each legend with its padding fits the width. Where the text baseline is drawn is not stated.
- `utils/grid.py`: windows, mouse handling, colours, the tick marks of `ScaleRenderer`, and `sort`, whose comparison argument current Python versions refuse.
- Sender.SenderApp.SendPacket: packet contents, timestamps and intervals; any pending event may fire at any time.
- The examples that only configure a topology have no algorithm of their own.
