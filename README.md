# Autograder core, modelled in Dafny

This project models the checkable logic of an autograder for Pyret
assignments. The autograder grades one student submission as follows:

- It rewrites the Google-Drive imports of Pyret files into local `file(...)`
  imports. These are the import fixers of `prehook_lib.py` and of its
  Gradescope copy.
- It builds a list of jobs:
  - every instructor test against the student's code;
  - the student's tests against every wheat (a correct implementation);
  - the student's tests against every chaff (a buggy implementation).
- It compiles and runs each job. Each job leaves a record in the job's
  `results.json`. This is done by `run_autograder.py` and its Gradescope
  variant.
- A Rust post-processor (`result-processing`) judges the student's test
  suite and builds the Gradescope report. A test suite is good when it
  accepts every wheat and catches every chaff. Checks that fail on a wheat
  are discounted from the chaffs.
- A small TypeScript script normalises the assignment name.

Modules:

- `Wrappers`: `Option`.
- `Strings`: substring search.
- `Paths`: `basename`, `dirname` and `join` as `posixpath` defines them.
- `Rewrite`: one explicit matcher per regular expression of the fixers, and
  Python's `re.sub` with a replacement count.
  - `my-gdrive(..-NAME.arr)` is greedy.
  - `shared-gdrive(..)` and `gdrive-js(..)` match leftmost-shortest, and `.`
    never crosses a newline.
  - `use context essentials2021` is a literal.
- `PrehookLib` and `GradescopePrehookLib`: the fixers as classes. Each
  holds the file text in `content`. The methods reassign `content`, and
  `finalize` writes it.
- `Evaluations`: the records of `lib.rs`, wheat and chaff classification,
  and `Evaluation::summary`.
- `SortedMap`: a `BTreeMap` keyed by path, as a sorted association list.
- `Grading`: what both runner scripts share:
  - jobs and their names;
  - the job list built by the three directory walks;
  - discovery of the student's files;
  - the abstract outcomes of the compiler, the test runner and jq;
  - the order of steps;
  - `Perform`: a list of steps run one after another, each on the state the
    one before it left, stopping at the first that raises. Neither script
    catches an exception.
- `RunAutograder`: the top-level runner.
  - `Protocol` is the per-job state machine: compile, a provisional
    `Timeout`, run, reclassify, clean up.
  - Class `Autograder` holds the file system as a map and the job
    directories. It records the steps it takes in a ghost log.
  - `StepOutcome` states what one `fix_imports` or `run` does to the
    files, the job directories and the cache directory. Every loop of
    `__main__` ends in the state and status that `Perform` gives for its
    steps.
- `GradescopeRunAutograder`: the Gradescope runner. It appends records,
  lets a compiler failure escape, uses a cache directory per job, and runs
  the jobs through `Pool.map`.
- `TestEval`: `summarize`, the in-place `retain` filtering of chaff
  results, and the report construction of `test-eval.rs`.
- `GetAssignment`: `normalize_name`.

The compiler, `node`, `os.path.relpath` and `tempfile.mkdtemp` are parameters
of the model. The compiler and `node` are given as functions from a job to
an abstract outcome: exit status, stderr, and whether `tests.js` is
nonempty for the compiler; exit status, stdout (nothing, or the JSON blocks)
and stderr for the test runner. `nonempty(p)` is that boolean.

### Behaviour the model takes from the code

- The test runner is started with `check=True` in both scripts. A test run
  that exits nonzero raises out of `run`. The record stays `Timeout`, and
  `error.txt` and `tests.js` are not cleaned up.
- `error.txt` collects the compiler's stderr and the test runner's stderr.
  Both count when the error is classified and when deciding on cleanup.
- The top-level script opens `results.json` with `"w"` every time. So it
  holds one record, and the runner's output replaces an earlier `OutOfMemory`
  or `Runtime` record.
- The Gradescope script opens it with `"a"`. It holds `Timeout`, then the
  error class if `error.txt` is nonempty, then `Ok` if there was output.
- In the Gradescope script, the compiler runs with `check=True` and no
  handler around it. A nonzero compiler exit therefore escapes `run` with no
  record. `Compilation` is recorded only for a
  missing or empty `tests.js`.
- The Gradescope `ImportFixer.finalize` resolves `shared-gdrive` only.
  `gdrive-js` references stay as they are.
- The Gradescope script fixes the imports of every wheat and chaff while it
  builds the job list, before any job runs. The top-level script fixes each
  one just before running its job.
- The Gradescope stencil directory is `/autograder/source/stencil`.
- The job directory is made before the test file is read. A missing test
  file leaves an empty job directory behind.
- `replace(" ", "-")` with a string pattern replaces only the first space.

## Model

| member | source | states |
|---|---|---|
| Strings.HasSubstringIff | result-processing/src/lib.rs:27-32 | The substring search used for `contains` holds exactly when the word occurs at some index. |
| Paths.BasenameIsLastSegment | run_autograder.py:82-83 | `basename` is the longest suffix without `/`; a `/` precedes it unless it is the whole path. |
| Paths.BasenameOfJoin | run_autograder.py:82-83 | The basename of `join(dir, name)` is `name` when the name has no `/`. |
| Paths.DirnameOfJoin | run_autograder.py:189-194 | `dirname(join(dir, name))` is `dir` for a directory without a trailing slash. |
| Rewrite.MyGdriveIsGreedy | prehook_lib.py:15-20 | The my-gdrive matcher matches exactly where the regex accepts a shape, with the longest group on the line (greedy `.*`). |
| Rewrite.SharedIsLeftmostShortest | prehook_lib.py:23-25 | The shared-gdrive matcher matches exactly where the regex accepts a shape, with the shortest group, and the first `)` reachable across at most one newline. |
| Rewrite.JsIsLeftmostShortest | prehook_lib.py:26-28 | The gdrive-js matcher matches exactly where the regex accepts a shape, with the shortest group ending in `.js` and a quote. |
| Rewrite.SubReplacesFirstMatches | prehook_lib.py:17-28 | `re.sub` with a limit replaces the first matches of the left-to-right scan, as many as the limit allows, and copies every other character. |
| Rewrite.SubWithCountReplacesFirst | prehook_lib.py:23-28 | With count `re.M` = 8, only the first 8 matches are replaced. |
| Rewrite.SubUnlimitedReplacesAll | prehook_lib.py:17-20 | With count 0, every match of the scan is replaced. |
| Rewrite.FewerMatchesThanCount | prehook_lib.py:23-28 | A count no smaller than the number of matches gives the same text as an unlimited substitution. |
| Rewrite.NoMatchUnchanged | prehook_lib.py:17-30 | Where the pattern matches nowhere, the text is returned unchanged, whatever the count. |
| Rewrite.FixImportReplacesEach | prehook_lib.py:15-20 | `fix_import` replaces every my-gdrive match. Each one ends in `-NAME.arr` and becomes `file("REL/F")`, where F is the given file name when there is one and otherwise the matched name. |
| Rewrite.ResolveSharedReplacesFirstEight | prehook_lib.py:23-25 | The first 8 shared-gdrive matches, and only those, become `file("RELSTENCIL/ID")`. ID is the quoted argument, and the text up to the `)` is discarded. |
| Rewrite.ResolveScriptReplacesFirstEight | prehook_lib.py:26-28 | The first 8 gdrive-js matches, and only those, become `file("RELSTENCIL/NAME.arr")`, with `.js` swapped for `.arr`. |
| Rewrite.ProvideFollowsEachContext | prehook_lib.py:42-47 | `fix_provide` keeps every `use context essentials2021` and puts `\nprovide NAMES end` right after it. |
| Rewrite.FileRefAddsNoOpener | prehook_lib.py:19-20 | A replacement `file("DIR/NAME")` holds an opener only if its directory or its file name does, so a rewrite never creates one itself. |
| PrehookLib.ImportFixer.constructor | prehook_lib.py:6-13 | Reads the file once. The target directory is the file's dirname, the stencil directory is taken relative to it, and nothing is written yet. |
| PrehookLib.ImportFixer.FixImport | prehook_lib.py:15-20 | The content becomes the `fix_import` rewrite, with the location relative to the file's directory; nothing is written. |
| PrehookLib.ImportFixer.Finalize | prehook_lib.py:22-30 | Resolves shared-gdrive, then gdrive-js references (8 each at most), and writes the content. |
| PrehookLib.CPOProvideFixer.constructor | prehook_lib.py:33-40 | Reads the file once; nothing is written yet. |
| PrehookLib.CPOProvideFixer.FixProvide | prehook_lib.py:42-47 | The content gets the provide line after each context line; `location` plays no part. |
| PrehookLib.CPOProvideFixer.Finalize | prehook_lib.py:49-54 | Resolves shared-gdrive references only, and writes the content. |
| PrehookLib.FinalizeKeepsUnreferencedText | prehook_lib.py:22-30 | A file with no shared-gdrive and no gdrive-js reference is written back as read. |
| PrehookLib.FixImportKeepsUnreferencedText | prehook_lib.py:15-20 | A file with no my-gdrive reference to the name is not changed by `fix_import`. |
| GradescopePrehookLib.ImportFixer.constructor | gradescope/prehook_lib.py:6-13 | Reads the file once; nothing is written yet. |
| GradescopePrehookLib.ImportFixer.FixImport | gradescope/prehook_lib.py:15-20 | The same rewrite as the top-level fixer, in memory only. |
| GradescopePrehookLib.ImportFixer.Finalize | gradescope/prehook_lib.py:22-27 | Resolves at most 8 shared-gdrive references, and writes the content. |
| GradescopePrehookLib.FinalizeKeepsScriptReferences | gradescope/prehook_lib.py:22-27 | Without a shared-gdrive reference, `finalize` writes the text back unchanged, gdrive-js references included. |
| Evaluations.IsWheat | result-processing/src/lib.rs:27-29 | A path is a wheat exactly when "wheat" occurs in it. |
| Evaluations.IsChaff | result-processing/src/lib.rs:30-32 | A path is a chaff exactly when "chaff" occurs in it. |
| Evaluations.WheatAndChaffAtOnce | result-processing/src/lib.rs:27-32 | A path can be both a wheat and a chaff. |
| Evaluations.CountPassed | result-processing/src/lib.rs:113 | The count of passing tests is at most the number of tests; it equals it exactly when all pass, and is 0 exactly when none do. |
| Evaluations.CountPassedAppend | result-processing/src/lib.rs:113 | Counting passes distributes over concatenation. |
| Evaluations.Summary | result-processing/src/lib.rs:106-120 | An error is returned unchanged. Otherwise there is one row per block, in order, with its name, passed <= total, total = its test count, passed = the number of its passing tests, and passed = total exactly when every test passes. |
| SortedMap.Insert | result-processing/src/bin/test-eval.rs:87-118 | Inserting into a `BTreeMap` keeps the keys sorted, binds the key, and leaves every other key as it was. |
| SortedMap.FromPairs | result-processing/src/bin/test-eval.rs:87-118 | `collect` gives a sorted map in which each key holds the value of its last pair. |
| SortedMap.Restrict | result-processing/src/bin/test-eval.rs:37-38 | A filtered map keeps exactly the entries whose key satisfies the predicate. |
| SortedMap.RestrictGet | result-processing/src/bin/test-eval.rs:37-38 | A key of a filtered map is looked up as before if it passes the filter, and is absent otherwise. |
| SortedMap.MapValuesGet | result-processing/src/bin/test-eval.rs:87-118 | Looking up in a map with transformed values transforms the value found. |
| Grading.JobNamesCollide | run_autograder.py:82-84 | Two implementations with the same file name in different directories get the same job directory name. |
| Grading.TestsArrBlocks | run_autograder.py:136-146 | The jq filter keeps exactly the blocks whose `loc` contains "tests.arr", in order. |
| Grading.TestsArrBlocksAppend | run_autograder.py:136-146 | The filter works block by block: filtering a concatenation is concatenating the filtered parts, so the kept blocks stay in their order. |
| Grading.TestsArrBlocksOne | run_autograder.py:136-146 | A single block is kept exactly when its `loc` contains "tests.arr". |
| Grading.ErrorClass | run_autograder.py:129-134 | A nonempty `error.txt` is `OutOfMemory` exactly when it mentions "memory", and `Runtime` otherwise. |
| Grading.TestJobsMembers | run_autograder.py:182-186 | There is a job of the student's code against each walked instructor test other than `README`, and no other. |
| Grading.ImplJobsMembers | run_autograder.py:189-202 | There is a job of each walked wheat or chaff other than `README` against the student's tests, and no other. |
| Grading.JobListLength | gradescope/run_autograder.py:165-185 | The job list has one job per non-`README` file of the three walks. |
| Grading.LastWith | run_autograder.py:159-171 | A file is found exactly when some walked file name contains the word. |
| Grading.LastWithIsLast | gradescope/run_autograder.py:140-152 | The file found is a matching one after which no walked file matches. |
| Grading.Discover | run_autograder.py:159-171 | The student's files are found exactly when each of "common", "code" and "tests" occurs in some walked file name. |
| Grading.StudentFixesRunNothing | run_autograder.py:176-179 | Fixing the student's files runs no job. |
| Grading.PerformOne | run_autograder.py:182-186 | Running a single step ends as that step does. |
| Grading.PerformAppend | run_autograder.py:176-202 | Running two lists of steps one after the other is running the second from where the first left, unless the first raised, in which case the second never starts. |
| Grading.PerformRaisedAt | run_autograder.py:176-202 | When a run raises, there is a step at which every step before it completed and whose own exception, and state, is the run's. |
| Grading.PerformRaisesFrom | run_autograder.py:176-202 | Conversely, a step that raises after every step before it completed ends the whole run, with its own exception. |
| Grading.PerformCompletedIff | run_autograder.py:176-202 | A run completes exactly when every step completes on the state the steps before it left. |
| RunAutograder.OneRecord | run_autograder.py:91-146 | `results.json` holds exactly one record. |
| RunAutograder.CompilationIffCompileFails | run_autograder.py:40-73 | `Compilation` is the record exactly when the compiler exits nonzero or `tests.js` is missing or empty. No test run follows, and the job completes. |
| RunAutograder.TimeoutRemainsIff | run_autograder.py:116-146 | After a successful compile, `Timeout` stays exactly when the test run failed, or when it printed nothing and `error.txt` is empty. |
| RunAutograder.FailedRunRaises | run_autograder.py:119-127 | A test run that exits nonzero raises. The record stays `Timeout`, and `error.txt` and `tests.js` are kept. |
| RunAutograder.SilentRunClassified | run_autograder.py:129-134 | With no output, the record is `OutOfMemory` exactly when the compiler and runner stderr mention "memory", and `Runtime` otherwise. |
| RunAutograder.OutputOverwrites | run_autograder.py:136-146 | Output replaces the record with `Ok` of the `tests.arr` blocks, even after an error record. |
| RunAutograder.CleanupIffNoErrors | run_autograder.py:148-150 | `error.txt` and `tests.js` are removed exactly when `error.txt` is empty. |
| RunAutograder.RunFollowsFix | run_autograder.py:189-202 | Each wheat or chaff job runs right after its implementation's imports are fixed. |
| RunAutograder.PlannedJobsAreJobList | run_autograder.py:182-202 | A full run runs the job list in order: tests, then wheats, then chaffs. |
| RunAutograder.Autograder.constructor | run_autograder.py:153-158 | Starts with the given files, no job directory, and an empty log. |
| RunAutograder.Autograder.FixImports | run_autograder.py:29-33 | Rewrites the file in place: two `fix_import` calls, then `finalize`. A missing file raises and changes nothing. |
| RunAutograder.Autograder.Execute | run_autograder.py:106-150 | The job directory and status are those of `Protocol` for the compiler's and runner's outcomes. |
| RunAutograder.Autograder.Run | run_autograder.py:76-150 | An existing job directory raises `FileExists`, and a missing test file raises after making the directory. Otherwise the copied tests are import-fixed, and the directory is the protocol's. |
| RunAutograder.Autograder.RunTests | run_autograder.py:182-186 | The files, job directories, cache flag and status are what running each instructor test job in order gives, stopping at the first exception, which is that job's own. The log is the jobs run, all of them on completion. |
| RunAutograder.Autograder.RunImpls | run_autograder.py:189-202 | The new state and status are what fixing and then running each wheat or chaff in order gives, stopping at the first missing file or exception. The log is the steps taken. |
| RunAutograder.Autograder.FixStudentFiles | run_autograder.py:176-179 | The common file, then the code, become `FixImportsText` of their text. The job directories are unchanged. It completes exactly when both files exist, and otherwise raises for the first missing one. |
| RunAutograder.Autograder.GradeStudent | run_autograder.py:176-202 | The new state and status are what the whole plan gives: the student's fixes, the test jobs, then each wheat and each chaff fixed and run, stopping at the first exception. The log is a prefix of the plan, and all of it on completion. |
| RunAutograder.Autograder.Grade | run_autograder.py:153-202 | The results directory is emptied first. Without the three student files, the assertion fails with nothing else changed. Otherwise the state and status are those of the plan, run from the emptied results directory. |
| GradescopeRunAutograder.CompilerFailureEscapes | gradescope/run_autograder.py:53-77 | A nonzero compiler exit raises with no record written and no test run. |
| GradescopeRunAutograder.CompilationIffNoArtifact | gradescope/run_autograder.py:91-94 | `Compilation` is recorded exactly when the compiler exits 0 but `tests.js` is missing or empty, and is then the only record. |
| GradescopeRunAutograder.RecordsAfterCompile | gradescope/run_autograder.py:97-127 | There are 1 to 3 records and `Timeout` is first. After a clean run: an error class follows exactly when `error.txt` is nonempty, and the last record is `Ok` of the output exactly when there is output. |
| GradescopeRunAutograder.CleanupIffNoErrors | gradescope/run_autograder.py:129-131 | `error.txt` and `tests.js` are removed exactly when `error.txt` is empty. |
| GradescopeRunAutograder.LastRecordAgrees | gradescope/run_autograder.py:79-131 | Where the compiler exits 0, the two runners agree except for the history: this one's last record is the top-level one's only record. |
| GradescopeRunAutograder.CompilerExitDiffers | gradescope/run_autograder.py:53-77 | On a nonzero compiler exit, the top-level runner records `Compilation` and completes, while this one raises with no record. |
| GradescopeRunAutograder.FreshTemp | gradescope/run_autograder.py:37 | The cache directory lies under `/tmp/` and differs from every one made before. |
| GradescopeRunAutograder.DistinctAfterFresh | gradescope/run_autograder.py:37 | The cache directories stay pairwise distinct. |
| GradescopeRunAutograder.FixesThenRuns | gradescope/run_autograder.py:159-189 | After fixes, the jobs run are exactly the queued jobs, and no fix follows a run. |
| GradescopeRunAutograder.PlanFixesFirst | gradescope/run_autograder.py:159-189 | A full run runs the job list in order, and no job runs before every file is fixed. |
| GradescopeRunAutograder.FirstRaised | gradescope/run_autograder.py:188-189 | `Pool.map` completes exactly when every job completes. |
| GradescopeRunAutograder.FirstRaisedIsFirst | gradescope/run_autograder.py:188-189 | The exception re-raised is a job's, and every earlier job completed. |
| GradescopeRunAutograder.Autograder.constructor | gradescope/run_autograder.py:134-139 | Starts with the given files, no job directory, no cache directory, and an empty log. |
| GradescopeRunAutograder.Autograder.FixImports | gradescope/run_autograder.py:22-26 | Rewrites the file in place with this variant's fixer. A missing file raises and changes nothing. |
| GradescopeRunAutograder.Autograder.Execute | gradescope/run_autograder.py:50-131 | The job directory and status are those of the appending protocol, with the compiler given the job's cache directory. |
| GradescopeRunAutograder.Autograder.Run | gradescope/run_autograder.py:33-131 | Makes one fresh cache directory. Then as the top-level `run`, with the appending protocol. |
| GradescopeRunAutograder.Autograder.RunAll | gradescope/run_autograder.py:188-189 | Every job runs, in order, each with its own new cache directory. Job `k` ends as `run` does on the job directories job `k-1` left, and the final job directories are what the last job left. The files are unchanged. The first exception is reported, and the cache directories stay distinct. |
| GradescopeRunAutograder.Autograder.RanInOrderStep | gradescope/run_autograder.py:188-189 | A job run on what the previous job left extends a run in order by one job. |
| GradescopeRunAutograder.Autograder.CollectTests | gradescope/run_autograder.py:165-169 | Queues exactly the instructor test jobs, in walk order. |
| GradescopeRunAutograder.Autograder.CollectImpl | gradescope/run_autograder.py:172-178 | The files and status are what fixing this wheat or chaff gives, unless it is `README`. The job directories and cache directories are unchanged, and on completion its job is queued. |
| GradescopeRunAutograder.Autograder.CollectImpls | gradescope/run_autograder.py:172-185 | The files and status are what fixing each wheat or chaff in order gives, stopping at the first missing file. The job directories and cache directories are unchanged. On completion the queued jobs are those of every entry. |
| GradescopeRunAutograder.Autograder.FixStudentFiles | gradescope/run_autograder.py:159-162 | The common file, then the code, become `FixImportsText` of their text. The job and cache directories are unchanged. It completes exactly when both files exist, and otherwise raises for the first missing one. |
| GradescopeRunAutograder.Autograder.CollectAllImpls | gradescope/run_autograder.py:172-185 | The wheat loop, then the chaff loop: the files and status are what fixing all of them in order gives. On completion the jobs are the wheat jobs, then the chaff jobs. |
| GradescopeRunAutograder.Autograder.BuildJobs | gradescope/run_autograder.py:159-185 | The files and status are what the whole fix stage gives, stopping at the first missing file. The job and cache directories are unchanged. On completion the jobs are the job list and the log is the whole fix stage; otherwise the log is a prefix of it. |
| GradescopeRunAutograder.Autograder.GradeStudent | gradescope/run_autograder.py:159-189 | If the fix stage raises, that is the status and no job directory or cache directory is made. Otherwise every job of the job list runs in order on the fixed files, each with a new cache directory and on the job directories the one before it left, and the first exception is the status. The log is the whole plan when the fix stage completes, and otherwise part of the fix stage. The cache directories stay distinct. |
| GradescopeRunAutograder.Autograder.Grade | gradescope/run_autograder.py:134-189 | The results directory is emptied first. Without the three student files, the assertion fails with nothing else changed. Otherwise it is `GradeStudent` from the emptied results directory. |
| TestEval.AllBlocksPass | result-processing/src/bin/test-eval.rs:87-102 | A result passes exactly when no block errors and every test passes. |
| TestEval.SomeBlockFails | result-processing/src/bin/test-eval.rs:103-118 | Some block errors or has a failing test. |
| TestEval.CaughtIffNotAccepted | result-processing/src/bin/test-eval.rs:87-118 | On a suite that ran, a chaff is caught exactly when it would not be accepted as a wheat. |
| TestEval.ErroringBlocks | result-processing/src/bin/test-eval.rs:40-47 | The metadata of exactly the erroring blocks. |
| TestEval.FailingTests | result-processing/src/bin/test-eval.rs:49-57 | The metadata of exactly the failing tests of all blocks. |
| TestEval.InvalidBlocks | result-processing/src/bin/test-eval.rs:40-47 | The erroring blocks of exactly the wheats whose suite ran; errors are skipped. |
| TestEval.InvalidTests | result-processing/src/bin/test-eval.rs:49-57 | The failing tests of exactly the wheats whose suite ran. |
| TestEval.InvalidIffWheatFails | result-processing/src/bin/test-eval.rs:40-57 | There are invalid blocks or tests exactly when some wheat whose suite ran is not accepted. |
| TestEval.BlockLocNames | result-processing/src/bin/test-eval.rs:67-73 | The basenames of exactly the invalid blocks' locations. |
| TestEval.TestLocNames | result-processing/src/bin/test-eval.rs:74-81 | The basenames of exactly the invalid tests' locations. |
| TestEval.KeptBlocks | result-processing/src/bin/test-eval.rs:67-73 | The blocks kept are exactly those whose location basename is not dropped. |
| TestEval.KeptTests | result-processing/src/bin/test-eval.rs:74-81 | The tests kept are exactly those whose location basename is not dropped. |
| TestEval.KeptBlocksAppend | result-processing/src/bin/test-eval.rs:67-73 | Block filtering only removes entries and keeps their order. |
| TestEval.KeptTestsAppend | result-processing/src/bin/test-eval.rs:74-81 | Test filtering only removes entries and keeps their order. |
| TestEval.ChaffBlockKeptIff | result-processing/src/bin/test-eval.rs:67-73 | A chaff block stays exactly when no invalid wheat block's location has the same basename. |
| TestEval.ChaffTestKeptIff | result-processing/src/bin/test-eval.rs:74-81 | A chaff test stays exactly when no invalid wheat test's location has the same basename. |
| TestEval.AllDiscountedNotCaught | result-processing/src/bin/test-eval.rs:103-118 | A chaff whose every block is filtered out is not caught. |
| TestEval.RetainBlocks | result-processing/src/bin/test-eval.rs:67-73 | The `retain` loop over blocks gives the kept blocks. |
| TestEval.RetainTests | result-processing/src/bin/test-eval.rs:74-81 | The `retain` loop over tests gives the kept tests. |
| TestEval.FilterChaff | result-processing/src/bin/test-eval.rs:65-84 | Both `retain` passes over one chaff's blocks: blocks first, then the tests of each remaining block. |
| TestEval.FilterChaffs | result-processing/src/bin/test-eval.rs:65-84 | Every chaff result is filtered in place. Keys and order are kept, and errors are left as they are. |
| TestEval.Summarize | result-processing/src/bin/test-eval.rs:36-128 | The evaluation is the one `summarize` specifies, with the chaffs filtered. |
| TestEval.WheatsAcceptedExactly | result-processing/src/bin/test-eval.rs:87-102 | `wheats_accepted` has an entry exactly for each wheat. The entry is true exactly when its suite ran and nothing in it failed. |
| TestEval.ChaffsRejectedExactly | result-processing/src/bin/test-eval.rs:103-118 | `chaffs_rejected` has an entry exactly for each chaff, judged on its filtered result. An error counts as caught. |
| TestEval.FailureReasonsIffWheatFails | result-processing/src/bin/test-eval.rs:119-126 | Failure reasons are reported exactly when some wheat whose suite ran is not accepted. |
| TestEval.VerdictReports | result-processing/src/bin/test-eval.rs:202-225 | One hidden report per wheat or chaff, named by its basename, scoring 1 of 1 exactly when the verdict holds and 0 otherwise. |
| TestEval.FunctionalityReportsOf | result-processing/src/bin/test-eval.rs:227-249 | A suite that ran gives one report per block, scoring its passing tests out of its tests. An error gives one visible report scoring 0 of 1. |
| TestEval.FunctionalityScoresBounded | result-processing/src/bin/test-eval.rs:227-249 | No functionality report scores above its maximum. |
| TestEval.PartitionSplits | result-processing/src/bin/test-eval.rs:189-192 | Wheat and chaff evaluations go to `summarize`, and every other evaluation to the functionality reports. Every wheat and chaff evaluation is among those summarized. |
| TestEval.BuildReport | result-processing/src/bin/test-eval.rs:184-256 | The report is the wheat reports, then the chaff reports, then the functionality reports. |
| TestEval.ReportScoresBounded | result-processing/src/bin/test-eval.rs:202-256 | Every report scores at most its maximum. |
| TestEval.ReportSections | result-processing/src/bin/test-eval.rs:202-256 | One "Passed wheat" report per wheat, then one "Caught chaff" report per chaff, each once in path order, then the functionality reports. |
| GetAssignment.LowerChar | get_assignment.ts:18 | A lower-cased character is never a capital letter. Capitals move by 32, and everything else is kept. |
| GetAssignment.IndexOf | get_assignment.ts:18 | Finds the first occurrence of a character, or reports there is none. |
| GetAssignment.ReplaceFirstChangesFirstOnly | get_assignment.ts:18 | `replace` with a one-character string changes only the first occurrence. |
| GetAssignment.NormalizeNameChars | get_assignment.ts:17-19 | The length is kept. The first space becomes `-`, and every other character is lower-cased. |
| GetAssignment.NormalizeNameNoUpper | get_assignment.ts:17-19 | The result has no capital letter. |
| GetAssignment.NormalizeNameWithoutSpace | get_assignment.ts:17-19 | A name without spaces is only lower-cased. |
| GetAssignment.NormalizeNameIdempotentIff | get_assignment.ts:17-19 | Normalising twice changes the name again exactly when it has two or more spaces. |

## Left out

- runner.js, the Pyret compiler, `node` and jq are not part of this model.
  - The compiler and the test runner are abstract outcomes: exit status,
    stderr, whether `tests.js` is nonempty, and the runner's stdout as
    nothing or a list of blocks.
  - jq is modelled as its filter on block `loc`. A jq failure on output
    that is not JSON is not modelled.
- The file system is abstracted:
  - `os.walk` results are given lists of entries;
  - `shutil.copy`, `rmtree` and `chdir` are left out;
  - files are a map from path to text;
  - a job directory is a record with its four files.
- `nonempty(p)` is the boolean `artifactNonEmpty` of the compiler's outcome.
  File sizes are not modelled.
- `os.path.relpath` is a function given to the fixers and the runners, because
  it depends on the working directory.
- `tempfile.mkdtemp` is modelled as a deterministic fresh name under `/tmp/`.
  Only its freshness matters here.
- `multiprocessing.Pool` is concurrency.
  - The jobs are run one after another, in list order.
  - The exception reported is the first in list order.
- GradescopeRunAutograder.Autograder.RunAll: runs every job, even after one
  raises. `Pool.map` splits the jobs into chunks of about n/(4 × workers)
  jobs (multiprocessing/pool.py:481-483). Each chunk runs as
  `list(map(run, chunk))` (pool.py:47-48), so a job that raises skips the
  rest of its chunk. Which jobs a raise skips depends on the worker count,
  which the model does not have.
  - Two jobs with the same directory name are a race in the source. Here
    the later one sees the earlier one's directory.
- Regular expression metacharacters in the name passed to `fix_import` are
  taken literally.
- Backslash escapes in the replacement text of `re.sub` are not processed.
- The `print` and logging statements of the scripts have no effect on the
  model.
- `BTreeMap` order on `PathBuf` keys is modelled as string order, which
  differs from component-wise order only for paths that share a prefix up to
  a separator.
- TestEval.VerdictReports and TestEval.FunctionalityReportsOf: name reports
  by the POSIX basename of the path. The Rust code uses
  `file_name().unwrap()`. The two differ on a path ending in `/` or `.`, and
  the Rust code panics on `..`, `/` or an empty path. The runner always writes
  paths that end in a file name, where the two agree.
- `rsplit('/').next()` on a location is modelled as `basename`, which is the
  same text.
- `Results`: the in-place `retain` loops are modelled on sequences, and the
  filtered map is a new value. Aliasing through `values_mut()` is not modelled.
- JSON and serde (`read_evaluation_from_file`, writing the report,
  `json.dumps`, `File::create`) are left out.
- log_results.py (Google Sheets), is_before_late_deadline.ts and
  get_processing_branch.ts (wall clock) are not part of this model.
- prehook_code.py, prehook_instructor_impls.py and prehook_common.py are not
  part of this model. They import a class defined in neither fixer library.
- `parse_command_line`, `load_file` and `main` of get_assignment.ts are I/O.
- GetAssignment.LowerChar: lower-cases ASCII letters only. JavaScript's
  full Unicode case mapping is not modelled.
