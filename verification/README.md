# Verified model of the ns-3 helper programs

This project models the self-contained algorithms and protocols in the support code of an ns-3 tree, and
proves what they do for every input, every dictionary order and every thread interleaving.

- `DepGraph`, `TopSort`: dependency sorting. A list of (parent, child) pairs is a directed graph with walks,
  cycles and a longest-incoming-path depth. `Topsort` and `TopsortLevels` are the loops over the mutable
  parent-count dictionary; the order in which a dictionary lists its keys is arbitrary.
- `Rotation`, `FindCycles`: enumeration of all simple cycles up to rotation with a stack of paths.
- `TestRunner`: the parallel test runner as a step system (dispatcher, workers, collector, interrupt), with a
  class whose methods are the atomic actions and a scheduler that picks any enabled action.
- `StaticInformation`: the recursive walk over the type graph that gathers configuration paths, from recording the
  aggregations to the paths of one type.
- `ShellSyntax`, `ShellGrammar`, `ShellPipeline`: the pipeline parser, the language it accepts, and the
  short-circuiting interpreter with the streams and directories of the processes it starts. `ShellReading`,
  `ShellExamples`: the same lines as a POSIX shell reads them.
- `GrayCode`, `Permutations`, `BinaryStrings`, `Euclid`: number and list algorithms.
- `TcpLargeTransfer`: the resumable writer. `CheckStyle`: the unified-diff parser and printer. `Timeline`: the
  binary searches of the timeline view. `Basics`: notions shared by several modules.

Results that differ from what one might expect of the code, each proved together with its exact condition:

- `find_cycles` skips roots that have been visited and is complete all the same (`FindCycles.FindCycles`).
- `shellcmd` does what a POSIX shell does with the parsed line, for all exit statuses, exactly when the line is
  uniform (`ShellReading.AgreesExactlyWhenUniform`). The shell has its own rules: `&&` and `||` associate to the
  left, a pipe is connected before the redirections, these are applied from left to right, and files are opened
  from the current directory. Uniform means all of the following; `ShellExamples` has lines of either kind.
  - Behind the leading `cd`s the operators are all `&&` or all `||`: the run ends at the first one unmet.
    `a || cd x && b` fails this, `cd x && a || b` meets it.
  - Every `cd` names a directory other than `-`, is followed by something and is not behind a pipe.
  - No command behind a pipe redirects its input: `a | b < f` leaves `f` unread.
  - No command that runs in another directory than the interpreter's redirects to or from a relative path:
    `cd x && cat < f` opens `f`, not `x/f`.
  - No command has `2>&1` before `>`: the order is lost, and `a 2>&1 > f` sends both to `f`.
  - No output goes to a file called `NUL:`, which the code takes for the null device on every system.
  - The line does not end in a redirection without a file, which the parser drops.
- After an interrupt the test runner still launches the jobs of the workers that had looked at the flag before,
  and no other (`TestRunner.LaunchesAfterInterrupt`, `TestRunner.LateLaunch`).
- `int2bin` with a width of 0 neither refuses nor shortens anything; the documented behaviour holds for every
  width of at least 1 (`BinaryStrings.Int2BinIsExact`, `BinaryStrings.Int2BinWidthZero`). A negative width takes
  digits off the front instead (`BinaryStrings.Int2BinNegativeWidth`). `binary_range(0)` is empty.
- A written patch set is read back unchanged exactly when no removed text starts with `-- ` and no added text
  starts with `++ ` (`CheckStyle.RoundTrip`, `CheckStyle.RemovedDashesAreMisread`).
- A line of content between the names of a new patch and its first chunk goes to the last chunk of the patch
  before (`CheckStyle.OldChunkStaysCurrent`).
- `get_events_bounds` covers every window exactly when the events are sorted and their times distinct
  (`Timeline.CoversExactlyWhenStrict`, `Timeline.SecondEventIsMissed`).
- On sorted, disjoint ranges `get_ranges_bounds` misses ranges exactly when neither end of the window lies in a
  range and some range overlaps it (`Timeline.BoundsMissRanges`, `Timeline.WideWindowMissesTheRange`). Windows
  with an end in a range are all covered exactly when the ranges are sorted and disjoint
  (`Timeline.CoversExactlyWhenInSequence`).
- With no worker threads the runner finishes only if there was nothing to run
  (`TestRunner.NoWorkersNoProgress`); with at least one it always finishes.

## Model

| member | source | states |
|---|---|---|
| `TopSort.CountParents` | bindings/python/topsort.py:77-90 | afterwards the count of each element is the number of pairs that name it as a child, and each parent's list holds its children in pair order |
| `TopSort.InCountCounts` | bindings/python/topsort.py:87-87 | a count is the number of pairs that name the element as a child of a parent not yet done |
| `TopSort.KidsInOrder` | bindings/python/topsort.py:90-90 | a parent's list has one entry for each of its pairs, in pair order |
| `TopSort.FinishParent` | bindings/python/topsort.py:97-106 | finishing a parent removes from every count exactly as many pairs as its child list names that child |
| `TopSort.KnockDown` | bindings/python/topsort.py:100-103 | knocking the next child down never misses a key and keeps the loop invariant: counts are the pairs from unprocessed parents, and the unprocessed answer is the elements whose count is zero |
| `TopSort.NothingReady` | bindings/python/topsort.py:108-111 | when no count is zero, exactly the elements on or below a cycle are left, and none is left exactly when the graph is acyclic |
| `TopSort.Topsort` | bindings/python/topsort.py:61-112 | succeeds exactly on acyclic graphs; the answer holds each sortable element once, parents first, in non-decreasing depth, roots first and the others in the order in which they are freed; on failure the leftovers are the elements on or below a cycle with the number of pairs from leftover parents |
| `TopSort.AnswerIsDetermined` | bindings/python/topsort.py:92-106 | the order in which the roots are listed decides the whole answer: elements follow in the order of their last parents and, under one parent, of their last place among its children |
| `TopSort.TopsortLevels` | bindings/python/topsort.py:114-172 | level k lists exactly the elements of depth k once; the end is normal exactly on acyclic graphs, otherwise the report is as for topsort |
| `TopSort.TopsortLevelsCore` | bindings/python/topsort.py:174-232 | the same from dictionaries that describe some pairs, with isolated elements allowed |
| `TopSort.FinishLevel` | bindings/python/topsort.py:212-224 | taking the elements of a level out one after the other leaves the counts and child lists of what remains |
| `TopSort.NextLevel` | bindings/python/topsort.py:203-232 | the elements whose count is zero after k rounds are those of depth k, and none of their children is among the elements gone so far |
| `TopSort.AnswerIsTheLevels` | bindings/python/topsort.py:93-232 | any answer of topsort is the levels one after the other, each rearranged |
| `TopSort.ReportsAgree` | bindings/python/topsort.py:108-232 | both functions report the same leftovers, counts and child lists |
| `DepGraph.ShallowByParents` | bindings/python/topsort.py:203-224 | an element is within k + 1 elements of every walk's start exactly when its parents are within k |
| `DepGraph.BelowCycleIsNotShallow` | bindings/python/topsort.py:108-111 | walks to an element below a cycle are arbitrarily long |
| `DepGraph.EndlessParentsMeanCycle` | bindings/python/topsort.py:108-111 | where every element left has a parent left, each of them is on or below a cycle |
| `DepGraph.LeftoversAreBelowCycles` | bindings/python/topsort.py:108-111 | what remains after removing elements of bounded depth is exactly what is on or below a cycle |
| `Rotation.IsRotated` | bindings/python/rad_util.py:735-775 | true exactly for rotations; two empty lists raise an index error |
| `Rotation.RotationIsSymmetric` | bindings/python/rad_util.py:761-775 | being a rotation is symmetric |
| `Rotation.RotationIsTransitive` | bindings/python/rad_util.py:761-775 | being a rotation is transitive |
| `FindCycles.FindCycles` | bindings/python/topsort.py:235-385 | terminates on every finite graph; yields only simple cycles, no two rotations of each other, and a rotation of every simple cycle |
| `FindCycles.EmptyStackHandles` | bindings/python/topsort.py:351-385 | once a root's stack is empty, every cycle the root can reach has been yielded |
| `FindCycles.OnceAround` | bindings/python/topsort.py:362-378 | a simple path to a cycle and around it is expanded into that cycle |
| `FindCycles.PopWeight` | bindings/python/topsort.py:351-385 | popping a path lowers the stack's weight by more than its children can add |
| `FindCycles.YieldOnce` | bindings/python/topsort.py:369-378 | the cycle is yielded unless a rotation of it was, and no two yielded cycles are rotations |
| `TestRunner.InvStep` | test.py:923-997 | every step of every thread, and an interrupt at any moment, keeps conservation, single launches, the pill count, pills behind jobs and the tally |
| `TestRunner.CopiesStep` | test.py:929-997 | no step loses or duplicates a job |
| `TestRunner.RanStep` | test.py:943-997 | no step changes the difference between jobs launched and jobs that ran without being broken off or skipped |
| `TestRunner.PillMeansNoJobWaits` | test.py:931-937 | when a worker takes a pill, every job has left the dispatcher and the input queue |
| `TestRunner.CommittedStep` | test.py:943-985 | once the flag is set, any step leaves unchanged how often a job has been launched or is held by a worker that saw the flag unset |
| `TestRunner.LaunchesAfterInterrupt` | test.py:943-985 | from the moment the flag is set to any later state of the run, the jobs launched are among those of the workers that had then seen it unset, each at most once and no more than there are such workers |
| `TestRunner.LateLaunch` | test.py:943-985 | a run in which a process starts after the interrupt |
| `TestRunner.UnbrokenAfterInterrupt` | test.py:943-960 | from the moment the flag is set to any later state of the run, no job becomes unbroken that was not past the look at the flag, skipped or not |
| `TestRunner.RecordedStep` | test.py:929-997 | every step keeps the account of jobs taken, jobs put and processes ended with their codes |
| `TestRunner.CodesAreReceived` | test.py:971-985 | at the end the jobs received neither broken off nor skipped carry exactly the codes that their processes returned |
| `TestRunner.StuckMeansDone` | test.py:1626-1650 | with a worker, a state in which nothing but an interrupt can happen has all jobs received, both queues empty and all workers returned |
| `TestRunner.NoWorkersNoProgress` | test.py:1346-1366 | without workers the runner is done only if there are no jobs |
| `TestRunner.WorkFalls` | test.py:929-997 | every step but an interrupt lowers the work measure |
| `TestRunner.RunKeepsInv` | test.py:1336-1366 | along every run the invariant holds and at most 7 steps a job and 3 a worker are taken, interrupts aside |
| `TestRunner.TallyTotal` | test.py:1641-1677 | every received job is counted in exactly one total unless it was broken off |
| `TestRunner.TallyCounts` | test.py:1657-1677 | each counter is the number of received jobs of its kind: code 0, 1, 2, any other, or skipped |
| `TestRunner.TallyGood` | test.py:1873-1876 | passed and skipped jobs make up the whole exactly when every job was good |
| `TestRunner.GoodByCodes` | test.py:1873-1876 | all jobs are good exactly when none was broken off and every process returned 0 |
| `TestRunner.Results` | test.py:1648-1876 | at the end each job was received once, exactly the jobs neither broken off nor skipped ran, each once, and the exit code is 0 exactly when all were good |
| `TestRunner.ResultsWithoutInterrupt` | test.py:1648-1677 | without an interrupt nothing is broken off and exactly the jobs not marked as skipped ran |
| `TestRunner.RunTests` | test.py:1336-1876 | under any scheduling and interrupts the runner finishes, has taken the jobs in the given order, received each once in the order put, with exactly the return codes that the processes gave, and its exit code is 0 exactly when no job was broken off and every process returned 0 |
| `StaticInformation.EdgesAre` | utils/print-introspected-doxygen.cc:1191-1265 | the graph has exactly the edges for pointers other than to Object, containers, derived types and aggregation either way, with their path labels |
| `StaticInformation.EdgesInOrder` | utils/print-introspected-doxygen.cc:1191-1265 | one edge for each attribute, derived type and pair that has one, in this order |
| `StaticInformation.WalksAreSimple` | utils/print-introspected-doxygen.cc:1186-1189 | the gathered walks are exactly those that repeat no type and avoid the ancestors |
| `StaticInformation.WalksAreDistinct` | utils/print-introspected-doxygen.cc:1182-1266 | no walk is gathered twice |
| `StaticInformation.RecordsFrom` | utils/print-introspected-doxygen.cc:1190-1265 | the records of a type are its own path and then, edge by edge, the records of the targets with the edge label appended to the path |
| `StaticInformation.PathStringIsText` | utils/print-introspected-doxygen.cc:1088-1099 | the text of a path is each label with a slash before it, label by label at its offset, and nothing else |
| `StaticInformation.GatheredConcat` | utils/print-introspected-doxygen.cc:1310-1314 | roots add their records one behind the other |
| `StaticInformation.PathsAreExact` | utils/print-introspected-doxygen.cc:1125-1139 | after gathering roots a type has exactly the path texts of the walks from a root to it that repeat no type |
| `StaticInformation.WalkToSimple` | utils/print-introspected-doxygen.cc:1182-1189 | whatever a walk reaches is reached by a walk that repeats no type, so the guard loses no type |
| `StaticInformation.GetTypicalAggregations` | utils/print-introspected-doxygen.cc:1274-1318 | a fresh object has recorded the given aggregations and gathered the roots in order |
| `StaticInformation.ConfigPaths` | utils/print-introspected-doxygen.cc:1378-1394 | the paths of a type are exactly the texts of the simple walks to it, and there are none exactly when no walk from a root gets there |
| `StaticInformation.StaticInformation.DoGather` | utils/print-introspected-doxygen.cc:1182-1266 | terminates, appends one record for each walk, and restores the current path and the ancestors |
| `StaticInformation.StaticInformation.Descend` | utils/print-introspected-doxygen.cc:1211-1215 | push, gather and pop along one edge append the records through that edge |
| `StaticInformation.StaticInformation.Gather` | utils/print-introspected-doxygen.cc:1173-1179 | the same as DoGather, because the uniquifying step works on a copy |
| `StaticInformation.StaticInformation.HasAlreadyBeenProcessed` | utils/print-introspected-doxygen.cc:1110-1122 | true exactly for the ancestors |
| `StaticInformation.StaticInformation.GetCurrentPath` | utils/print-introspected-doxygen.cc:1088-1099 | the text is the labels of the current path, each after a slash, each at its offset |
| `StaticInformation.StaticInformation.Get` | utils/print-introspected-doxygen.cc:1125-1139 | the recorded paths of one type, in order |
| `StaticInformation.PathsInOrder` | utils/print-introspected-doxygen.cc:1125-1139 | each record of the type gives its path, once and in order |
| `StaticInformation.StaticInformation.RecordAggregationInfo` | utils/print-introspected-doxygen.cc:1053-1073 | the pair is added when both names are known; otherwise the first unknown name is noted |
| `ShellGrammar.ParseIsDenote` | waf-tools/shellcmd.py:121-201 | parsing the tokens of a valid line gives its meaning, and fails exactly when a stream is redirected twice |
| `ShellGrammar.AcceptedLanguage` | waf-tools/shellcmd.py:121-201 | the parser accepts exactly the token lists of valid lines that have a meaning, and returns that meaning |
| `ShellGrammar.ParsedShape` | waf-tools/shellcmd.py:164-187 | commands and operators alternate, output goes to a pipe exactly before a Pipe, a Chdir is last or before And, and each stream is one that a redirection gives |
| `ShellGrammar.ParseOfRender` | waf-tools/shellcmd.py:121-201 | parsing a rendered pipeline gives that pipeline back |
| `ShellGrammar.PlainBindingMatches` | waf-tools/shellcmd.py:24-24 | word characters, an equals sign and text without white space are an assignment |
| `ShellGrammar.AssignmentsAre` | waf-tools/shellcmd.py:24-24 | a token is an assignment exactly when it is word characters, an equals sign and non-empty text without white space, or that and one line break |
| `ShellPipeline.Pipeline.Parse` | waf-tools/shellcmd.py:121-201 | the loop does what the token-by-token parser does, its assertions fail exactly when that fails, and the result is well shaped |
| `ShellPipeline.Pipeline.CommitCommand` | waf-tools/shellcmd.py:101-104 | appends and clears the current command, and fails without one |
| `ShellPipeline.Pipeline.ExecPipedCommands` | waf-tools/shellcmd.py:203-212 | a group's status is always its last command's |
| `ShellPipeline.Pipeline.Run` | waf-tools/shellcmd.py:214-346 | exit code, exceptions and the list of processes started, with their arguments, variables, directories and streams, are those of right-nested short-circuit evaluation of the pipe groups |
| `ShellPipeline.JoinIsGoTo` | waf-tools/shellcmd.py:228-228 | the joined path leads where the directory leads and then the path, whatever slashes and dots they hold |
| `ShellReading.CommandAgrees` | waf-tools/shellcmd.py:242-289 | the code and a shell start a command with the same arguments, variables, directory and streams exactly when its streams are plain and no `2>&1` stands before `>` |
| `ShellReading.NullDevice` | waf-tools/shellcmd.py:46-50 | the special name leads to the null device |
| `ShellReading.ShellExits` | waf-tools/shellcmd.py:214-346 | a shell ends every such line with an exit code, and nothing it starts first reads from a pipe |
| `ShellReading.CodeStartsGroup` | waf-tools/shellcmd.py:242-317 | the first pipe group is started first, and a command that joins it reads from a pipe even behind a cd |
| `ShellReading.AgreesExactlyWhenUniform` | waf-tools/shellcmd.py:121-346 | for a line the parser accepts, the run and the shell's left-associative reading have the same outcome and process starts for all statuses exactly when the line is uniform, as listed above |
| `ShellReading.AcceptedTokensAgree` | waf-tools/shellcmd.py:121-346 | the same for every token list that the parser accepts |
| `ShellExamples.OrThenCd` | waf-tools/shellcmd.py:295-325 | `a \|\| cd x && b` is accepted and not uniform: when `a` succeeds the run starts one process and the shell two |
| `ShellExamples.EveryPart` | waf-tools/shellcmd.py:135-200 | `A=1 a x < i > o 2> e` is parsed with each part in its place |
| `ShellExamples.EveryPartRuns` | waf-tools/shellcmd.py:242-289 | and starts one process with these arguments, variables and files |
| `ShellExamples.SpaceMakesNoAssignment` | waf-tools/shellcmd.py:138-150 | `A="b c" cmd` is parsed as a command named `A=b c` |
| `ShellExamples.InputBehindPipe` | waf-tools/shellcmd.py:242-245 | `a \| b < f` is accepted and not uniform: `b` reads the pipe in the code and the file in the shell |
| `ShellExamples.InputBehindCd` | waf-tools/shellcmd.py:228-245 | `cd x && cat < f` is accepted and not uniform: the code opens f and the shell x/f |
| `ShellExamples.ErrorsBeforeOutput` | waf-tools/shellcmd.py:164-198 | `a 2>&1 > f` is accepted and not uniform: only in the shell do the errors keep the old output |
| `ShellExamples.LeadingCdIsUniform` | waf-tools/shellcmd.py:295-325 | `cd x && a \|\| b` is accepted and uniform |
| `ShellExamples.OwnExampleIsUniform` | waf-tools/shellcmd.py:350-353 | the program's own example line is accepted and uniform |
| `GrayCode.XorBits` | bindings/python/rad_util.py:612-615 | bit k of the exclusive or is set exactly when the bits k differ |
| `GrayCode.EncodeBits` | bindings/python/rad_util.py:612-615 | bit k of the code tells whether the bits k and k + 1 differ |
| `GrayCode.NeighboursDifferOnce` | bindings/python/rad_util.py:612-615 | the codes of i and i + 1 differ in exactly one bit |
| `GrayCode.EncodeIsBijective` | bindings/python/rad_util.py:612-615 | the encoding is a bijection of the numbers below 2^n |
| `Permutations.Permutations` | bindings/python/rad_util.py:293-326 | the loops compute the insertions of the head into the permutations of the tail |
| `Permutations.PermsAreRearrangements` | bindings/python/rad_util.py:310-326 | the answer holds exactly the rearrangements of the input |
| `Permutations.PermsSize` | bindings/python/rad_util.py:310-326 | a list of n items has n! entries in the answer |
| `Permutations.PermsAreDistinct` | bindings/python/rad_util.py:310-326 | distinct items give distinct entries |
| `Permutations.PermsInOrder` | bindings/python/rad_util.py:317-323 | the entries of the tail's answer follow one another, each with the head taken through all its positions |
| `BinaryStrings.Int2BinIsExact` | bindings/python/rad_util.py:91-105 | for a positive width the number is refused exactly when it does not fit; otherwise bin2int reads the answer back |
| `BinaryStrings.Int2BinWidthZero` | bindings/python/rad_util.py:96-105 | with width 0 nothing is refused and all digits stay |
| `BinaryStrings.Int2BinNegativeWidth` | bindings/python/rad_util.py:96-105 | a width of -m drops the first m of the digits: refused exactly when the number does not fit the digits left, otherwise written with exactly those |
| `BinaryStrings.FourDigitsOff` | bindings/python/rad_util.py:96-105 | with a width of -4 or less every number but 0 is refused and 0 gives the empty text |
| `BinaryStrings.Int2BinFails` | bindings/python/rad_util.py:91-96 | the table lookup fails exactly for negative numbers |
| `BinaryStrings.Bin2IntRoundTrip` | bindings/python/rad_util.py:130-130 | reading a numeral and writing it with its own width gives it back |
| `BinaryStrings.Bin2IntRefuses` | bindings/python/rad_util.py:130-130 | exactly the texts are refused that int2bin gives for no number and no positive width |
| `BinaryStrings.BinaryRange` | bindings/python/rad_util.py:632-660 | terminates with the 2^bits numerals of that width in order, or none for width 0 |
| `BinaryStrings.RangeIsInt2Bin` | bindings/python/rad_util.py:639-660 | the k-th entry is int2bin of k |
| `Euclid.Gcf` | bindings/python/rad_util.py:252-258 | terminates on all signed integers with the non-negative greatest common divisor, a combination of both arguments |
| `Euclid.GcdIsUnique` | bindings/python/rad_util.py:223-258 | there is only one greatest common divisor |
| `Euclid.Lcm` | bindings/python/rad_util.py:285-290 | the magnitude is the least common multiple, and times the gcf the result is the product, sign included |
| `Euclid.ReduceFraction` | bindings/python/rad_util.py:345-348 | the result is coprime and in the same ratio; only 0/0 fails |
| `TcpLargeTransfer.BufferIsPeriodic` | examples/tcp/tcp-large-transfer.cc:50-53 | reading the buffer from the current offset continues the stream, because 26 divides 1040 |
| `TcpLargeTransfer.StreamIsTheAlphabet` | examples/tcp/tcp-large-transfer.cc:82-86 | the stream is a to z over and over |
| `TcpLargeTransfer.Writer.constructor` | examples/tcp/tcp-large-transfer.cc:82-86 | the buffer holds the first 1040 bytes of the stream |
| `TcpLargeTransfer.Writer.WriteUntilBufferFull` | examples/tcp/tcp-large-transfer.cc:198-216 | whatever the socket does, reads stay in the buffer, it is offered as much as buffer, stream and its space allow, the accepted bytes are the stream's prefix of the counted length, and every round in which it takes something makes progress; the callback ends refused, without closing, exactly when bytes are left and the first round that stops it is a refusal |
| `TcpLargeTransfer.Transfer` | examples/tcp/tcp-large-transfer.cc:185-216 | the same over any sequence of callbacks; the socket is closed once for each callback that was not refused, and once it has taken something in as many rounds as there are bytes, it has the whole stream |
| `CheckStyle.ParsePatchset` | utils/check-style.py:359-403 | the loop reads line by line, failing where the code does |
| `CheckStyle.HeadersAre` | utils/check-style.py:362-362 | the four numbers of a header are read exactly from lines of its form |
| `CheckStyle.ParseIntConcat` | utils/check-style.py:239-240 | digits are read as a decimal number, most significant first |
| `CheckStyle.NoPatternMatches` | utils/check-style.py:360-402 | no pattern matches exactly the lines that are no header and start with none of the signs |
| `CheckStyle.ParsingFails` | utils/check-style.py:368-402 | parsing fails exactly when some line matches no pattern, or needs a source file or a chunk before it and has none |
| `CheckStyle.OldChunkStaysCurrent` | utils/check-style.py:368-401 | a line behind the name of a new patch is added to the old patch's chunk |
| `CheckStyle.OutputFile.Write` | utils/check-style.py:348-357 | the names and then every chunk with its header and lines are appended |
| `CheckStyle.OutputFile.WriteOneChunk` | utils/check-style.py:286-295 | a header whose numbers are the two positions and the numbers of source and destination lines, and then the signed lines, are appended |
| `CheckStyle.ClassifyHeader` | utils/check-style.py:292-293 | a written chunk header is read as a chunk start with its positions, and its lengths are the numbers of lines not only on the other side |
| `CheckStyle.SrcLenCounts` | utils/check-style.py:254-279 | the source length counts the lines that are not only added |
| `CheckStyle.DstLenCounts` | utils/check-style.py:264-285 | the destination length counts the lines that are not only removed |
| `CheckStyle.SmallPatch` | utils/check-style.py:286-357 | the text of a patch with one common, one removed and one added line |
| `CheckStyle.StepsTotal` | utils/check-style.py:384-401 | the parser adds exactly as many chunk lines as there are lines read as content |
| `CheckStyle.RoundTrip` | utils/check-style.py:348-403 | parsing a written patch set gives it back exactly when no line is misread as a file name |
| `CheckStyle.RemovedDashesAreMisread` | utils/check-style.py:348-403 | a patch that removes the one line `-- x` is read back as two patches, the second for a file x |
| `Timeline.TimelineEvent.Search` | utils/grid.py:201-218 | returns the index where the halving stops; on sorted events that is an event at the key, or where the key belongs |
| `Timeline.TimelineEvent.GetEventsBounds` | utils/grid.py:236-245 | the bounds are the search results for the ends; with distinct sorted times they hold the window and at most one later event |
| `Timeline.BoundsAreTight` | utils/grid.py:236-245 | with distinct sorted times the bounds hold every event of the window and at most one later event |
| `Timeline.FoundMeansRising` | utils/grid.py:201-218 | a list in which the search finds every event at its own index is sorted with distinct times |
| `Timeline.CoversExactlyWhenStrict` | utils/grid.py:201-245 | for any list, the bounds of every window cover it exactly when the list is sorted with distinct times |
| `Timeline.SecondEventIsMissed` | utils/grid.py:201-245 | of two events at one time, the window of that time gets the first only |
| `Timeline.SearchStopsInTheMiddle` | utils/grid.py:201-218 | among events at one time the search stops at the middle one |
| `Timeline.TimelineDataRange.Search` | utils/grid.py:105-122 | returns the range where the halving stops, which holds the key, or -1; on sorted disjoint ranges -1 exactly when none holds it |
| `Timeline.RangeSearchStopsInTheMiddle` | utils/grid.py:105-122 | among ranges that all hold the key the search stops at the middle one |
| `Timeline.TimelineDataRange.GetRangesBounds` | utils/grid.py:153-169 | returns the bounds for any list and window; on sorted disjoint ranges, which ranges they point to and the exact condition under which every overlapping range is covered |
| `Timeline.BoundsMissRanges` | utils/grid.py:153-169 | overlapping ranges are missed exactly when no end of the window lies in a range and some range overlaps it; with both ends in ranges nothing else is included |
| `Timeline.CoversExactlyWhenInSequence` | utils/grid.py:105-169 | for any ranges of positive length, all windows with an end in a range are covered exactly when the ranges are sorted and disjoint |
| `Timeline.WideWindowMissesTheRange` | utils/grid.py:153-169 | a window that strictly contains the only range gets nothing |

## Left out

- Running real processes, valgrind, waf, the XML and text reports and option parsing of `test.py`: input and output. A job's return code is arbitrary.
- Job, Patch, PatchChunk and PatchChunkLine objects are values here; the model does not capture that a queue and a list share one mutable object.
- The lists of skipped, failed and crashed test names, which follow the counters.
- `TopSort.TopsortLevelsCore`: takes only dictionaries whose counts agree with the child lists, as its documentation requires.
- `FindCycles.FindCycles`: the generator is modelled as the list of what it yields; a caller that stops early is not, nor one that changes a yielded list, which the later search for duplicates shares.
- `IsChildOf` and the type database of `src/core/model/type-id.cc`: answers of the registry are arbitrary.
- Printing in `print-introspected-doxygen.cc`, and `GetNoTypeIds`. The names to aggregate and the root objects are parameters.
- `shlex.split`, closing files and pipes, verbose output and `get_abbreviated_command` of `shellcmd.py`. The parser starts from the token list.
- `ShellPipeline.Pipeline.Run`: requires a pipeline that the parser can return.
- `ShellReading.AgreesExactlyWhenUniform`: which words are assignments, command names, directories, redirections and operators is the parser's reading on both sides. Quoting, expansions, options of `cd`, built-in commands other than `cd`, other shell operators, the variables `PWD`, `OLDPWD` and `CDPATH`, and the number a shell gives to a process killed by a signal are not compared.
- Failing `cd`s, file opens and process starts: in `ShellReading` they succeed. Two paths are the same place when their components are, apart from empty ones and single dots; `..` is not resolved, because behind a symbolic link it may lead elsewhere.
- The Windows branch of the null device in `shellcmd.py`.
- `BinaryStrings.Bin2IntRoundTrip`: strings with signs, prefixes, blanks or underscores, which Python's `int` also reads, are not modelled.
- `GrayCode.EncodeIsBijective`: negative numbers are not encoded.
- The floating-point branches of `gcf` and `lcm`, and the other floating-point functions of `rad_util.py`.
- `TcpLargeTransfer.Writer.Send`: stands for the socket, which accepts any prefix of what it is offered or refuses; a callback ends when the given rounds are used up.
- Texts with line breaks in patches, `remove_trailing_whitespace_changes` and negative chunk positions.
- `Timeline.CoversExactlyWhenInSequence`: ranges of length zero are left to `Timeline.BoundsMissRanges`, which takes them in sorted lists only.
- Sorting, drawing and mouse handling in `grid.py`.
