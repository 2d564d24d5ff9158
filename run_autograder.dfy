/**
 * The top-level runner script: it grades one submission by running every
 * instructor test against the student's code and the student's tests
 * against every wheat and chaff, one job after another, leaving one job
 * directory per job under the results directory.
 *
 * The compiler and the test runner are functions of the job (and, for the
 * compiler, of the import-fixed test text); the file system is the map
 * `files` of readable source files and the map `results` of job directories.
 */
module RunAutograder {
  import opened Wrappers
  import opened Strings
  import opened Paths
  import opened Evaluations
  import opened Grading
  import Rewrite
  import PrehookLib

  const Source: string := AutograderRoot + "/source/autograder"
  const CacheDir: string := Source + "/cache"
  const Stencil: string := Source + "/stencil"

  /** `fix_imports(path, code_path, common_dir)`: the text of `path` after the two `fix_import` calls and `finalize`. */
  function FixImportsText(text: string, path: string, code: string, commonDir: string,
                          relpath: (string, string) -> string): string
  {
    var dir := Dirname(path);
    var withCode := Rewrite.FixImportText(text, "code", relpath(Dirname(code), dir), Some(Basename(code)));
    var withCommon := Rewrite.FixImportText(withCode, "common", relpath(commonDir, dir), None);
    PrehookLib.FinalizeText(withCommon, relpath(Stencil, dir))
  }

  /**
   * The job directory and status once `run` has copied and import-fixed the
   * tests (`tests` is the fixed text): compile, provisional `Timeout`, test
   * run, reclassification, cleanup. `results.json` is opened with `"w"`, so
   * it always holds the last record written.
   */
  function Protocol(job: Job, tests: string, c: Compiled, x: Executed): (JobDir, Status)
  {
    if c.exitCode != 0 || !c.artifactNonEmpty then
      (JobDir(tests, [ErrRecord(job, Compilation)], Some(c.stderr), None, c.artifactNonEmpty), Completed)
    else
      var log := c.stderr + x.stderr;
      if x.exitCode != 0 then
        (JobDir(tests, [ErrRecord(job, Timeout)], Some(log), Some(x.stdout), true), Raised(ProcessFailed(x.exitCode)))
      else
        var record :=
          if x.stdout.Json? then OkRecord(job, x.stdout.blocks)
          else if log != [] then ErrRecord(job, ErrorClass(log))
          else ErrRecord(job, Timeout);
        (JobDir(tests, [record], if log != [] then Some(log) else None, Some(x.stdout), log != []), Completed)
  }

  /** `results.json` holds exactly one record, whatever happens after the job directory is made. */
  lemma OneRecord(job: Job, tests: string, c: Compiled, x: Executed)
    ensures |Protocol(job, tests, c, x).0.results| == 1
  {
  }

  /**
   * `Compilation` is recorded exactly when compiling fails, and then no test
   * run happens: no `raw.json`, and the job completes.
   */
  lemma CompilationIffCompileFails(job: Job, tests: string, c: Compiled, x: Executed)
    ensures var (dir, status) := Protocol(job, tests, c, x);
      (dir.results == [ErrRecord(job, Compilation)] <==> CompileFailed(c))
      && (CompileFailed(c) ==> dir.raw == None && status == Completed)
  {
  }

  /**
   * After a successful compile, `Timeout` stays the record exactly when the
   * test run failed, or when it printed nothing and nothing reached `error.txt`.
   */
  lemma TimeoutRemainsIff(job: Job, tests: string, c: Compiled, x: Executed)
    requires !CompileFailed(c)
    ensures Protocol(job, tests, c, x).0.results == [ErrRecord(job, Timeout)]
      <==> x.exitCode != 0 || (x.stdout.Silent? && c.stderr + x.stderr == [])
  {
  }

  /**
   * A test run that exits nonzero raises out of `run`: the record stays
   * `Timeout` and the job's files are not cleaned up.
   */
  lemma FailedRunRaises(job: Job, tests: string, c: Compiled, x: Executed)
    requires !CompileFailed(c) && x.exitCode != 0
    ensures var (dir, status) := Protocol(job, tests, c, x);
      status == Raised(ProcessFailed(x.exitCode)) && dir.results == [ErrRecord(job, Timeout)]
      && dir.errorLog.Some? && dir.artifact
  {
  }

  /**
   * With no output, a nonempty `error.txt` (compiler and runner stderr
   * together) gives `OutOfMemory` if it mentions "memory" and `Runtime` otherwise.
   */
  lemma SilentRunClassified(job: Job, tests: string, c: Compiled, x: Executed)
    requires !CompileFailed(c) && x.exitCode == 0 && x.stdout.Silent? && c.stderr + x.stderr != []
    ensures var log := c.stderr + x.stderr;
      var rec := Protocol(job, tests, c, x).0.results[0].result;
      rec == Err(OutOfMemory) <==> exists i: nat :: OccursAt(log, "memory", i)
    ensures Protocol(job, tests, c, x).0.results[0].result in {Err(OutOfMemory), Err(Runtime)}
  {
  }

  /**
   * Output from the test run always wins: the record becomes `Ok` with the
   * blocks of `tests.arr`, even after an error was recorded, and `error.txt`
   * is kept exactly when something was written to it.
   */
  lemma OutputOverwrites(job: Job, tests: string, c: Compiled, x: Executed)
    requires !CompileFailed(c) && x.exitCode == 0 && x.stdout.Json?
    ensures var dir := Protocol(job, tests, c, x).0;
      dir.results == [OkRecord(job, x.stdout.blocks)]
      && (dir.errorLog.Some? <==> c.stderr + x.stderr != [])
  {
  }

  /** A completed job that compiled keeps `error.txt` and `tests.js` exactly when `error.txt` is nonempty. */
  lemma CleanupIffNoErrors(job: Job, tests: string, c: Compiled, x: Executed)
    requires !CompileFailed(c) && Protocol(job, tests, c, x).1 == Completed
    ensures var dir := Protocol(job, tests, c, x).0;
      (dir.errorLog.None? <==> c.stderr + x.stderr == []) && (dir.artifact <==> c.stderr + x.stderr != [])
      && (dir.errorLog.Some? ==> dir.errorLog.value != [])
  {
  }

  // ---------------------------------------------------------------------------
  // The order of a grading run

  /** Fixing each implementation's imports just before running its job. */
  function FixThenRunSteps(jobs: seq<Job>): seq<Step>
    decreases |jobs|
  {
    if jobs == [] then [] else [ImplFix(jobs[0].code), RanJob(jobs[0])] + FixThenRunSteps(jobs[1..])
  }

  lemma {:induction false} FixThenRunStepsAppend(a: seq<Job>, b: seq<Job>)
    ensures FixThenRunSteps(a + b) == FixThenRunSteps(a) + FixThenRunSteps(b)
    decreases |a|
  {
    if a == [] {
      assert a + b == b;
    } else {
      assert (a + b)[0] == a[0] && (a + b)[1..] == a[1..] + b;
      FixThenRunStepsAppend(a[1..], b);
    }
  }

  /** Every wheat or chaff job is run right after its implementation's imports are fixed. */
  lemma {:induction false} RunFollowsFix(jobs: seq<Job>)
    ensures var s := FixThenRunSteps(jobs);
      |s| == 2 * |jobs| && forall i :: 0 <= i < |jobs| ==> s[2 * i] == ImplFix(jobs[i].code) && s[2 * i + 1] == RanJob(jobs[i])
    decreases |jobs|
  {
    if jobs != [] {
      RunFollowsFix(jobs[1..]);
      var s := FixThenRunSteps(jobs);
      var rest := FixThenRunSteps(jobs[1..]);
      assert s == [ImplFix(jobs[0].code), RanJob(jobs[0])] + rest;
      forall i | 1 <= i < |jobs|
        ensures s[2 * i] == ImplFix(jobs[i].code) && s[2 * i + 1] == RanJob(jobs[i])
      {
        assert s[2 * i] == rest[2 * (i - 1)] && s[2 * i + 1] == rest[2 * (i - 1) + 1];
      }
    }
  }

  lemma {:induction false} JobsOfFixThenRunSteps(jobs: seq<Job>)
    ensures JobsRun(FixThenRunSteps(jobs)) == jobs
    decreases |jobs|
  {
    if jobs != [] {
      JobsRunAppend([ImplFix(jobs[0].code), RanJob(jobs[0])], FixThenRunSteps(jobs[1..]));
      JobsOfFixThenRunSteps(jobs[1..]);
      assert JobsRun([ImplFix(jobs[0].code), RanJob(jobs[0])]) == [jobs[0]];
    }
  }

  /** What `__main__` does once the student's files are found. */
  function PlannedSteps(student: StudentFiles, tests: seq<WalkEntry>, wheats: seq<WalkEntry>, chaffs: seq<WalkEntry>): seq<Step>
  {
    var commonDir := Dirname(student.common);
    StudentFixes(student)
      + RunSteps(TestJobs(tests, student.code, commonDir))
      + FixThenRunSteps(ImplJobs(wheats, student.tests, commonDir))
      + FixThenRunSteps(ImplJobs(chaffs, student.tests, commonDir))
  }

  /** The jobs of a full run are the job list, in its order. */
  lemma PlannedJobsAreJobList(student: StudentFiles, tests: seq<WalkEntry>, wheats: seq<WalkEntry>, chaffs: seq<WalkEntry>)
    ensures JobsRun(PlannedSteps(student, tests, wheats, chaffs))
      == JobList(tests, wheats, chaffs, student.code, student.tests, Dirname(student.common))
  {
    var commonDir := Dirname(student.common);
    var head: seq<Step> := StudentFixes(student);
    var t := RunSteps(TestJobs(tests, student.code, commonDir));
    var w := FixThenRunSteps(ImplJobs(wheats, student.tests, commonDir));
    var c := FixThenRunSteps(ImplJobs(chaffs, student.tests, commonDir));
    JobsRunAppend(head + t + w, c);
    JobsRunAppend(head + t, w);
    JobsRunAppend(head, t);
    StudentFixesRunNothing(student);
    JobsOfRunSteps(TestJobs(tests, student.code, commonDir));
    JobsOfFixThenRunSteps(ImplJobs(wheats, student.tests, commonDir));
    JobsOfFixThenRunSteps(ImplJobs(chaffs, student.tests, commonDir));
  }

  /** The steps of one wheat or chaff entry: none for `README`, else its fix and its run. */
  lemma ImplEntrySteps(e: WalkEntry, studentTests: string, commonDir: string)
    ensures var impl := Join(e.root, e.name);
      FixThenRunSteps(ImplJobs([e], studentTests, commonDir))
        == if e.name == "README" then [] else [ImplFix(impl), RanJob(Job(impl, studentTests, commonDir))]
  {
    assert [e][1..] == [];
  }

  /**
   * One step of a wheat or chaff loop, after `start`: entry `i` adds its own
   * steps to those of the entries before it, and the entries after it finish the loop.
   */
  lemma ImplStep(start: seq<Step>, entries: seq<WalkEntry>, i: nat, studentTests: string, commonDir: string)
    requires i < |entries|
    ensures var done := FixThenRunSteps(ImplJobs(entries[..i], studentTests, commonDir));
      var one := FixThenRunSteps(ImplJobs([entries[i]], studentTests, commonDir));
      FixThenRunSteps(ImplJobs(entries[..i + 1], studentTests, commonDir)) == done + one
      && start + FixThenRunSteps(ImplJobs(entries[..i + 1], studentTests, commonDir)) == start + done + one
      && FixThenRunSteps(ImplJobs(entries, studentTests, commonDir))
        == done + one + FixThenRunSteps(ImplJobs(entries[i + 1..], studentTests, commonDir))
  {
    var e := entries[i];
    assert entries[..i + 1] == entries[..i] + [e];
    assert entries[..i] + [e] + entries[i + 1..] == entries;
    ImplJobsAppend(entries[..i], [e], studentTests, commonDir);
    ImplJobsAppend(entries[..i] + [e], entries[i + 1..], studentTests, commonDir);
    var done := ImplJobs(entries[..i], studentTests, commonDir);
    var one := ImplJobs([e], studentTests, commonDir);
    var rest := ImplJobs(entries[i + 1..], studentTests, commonDir);
    FixThenRunStepsAppend(done, one);
    FixThenRunStepsAppend(done + one, rest);
    assert start + (FixThenRunSteps(done) + FixThenRunSteps(one)) == start + FixThenRunSteps(done) + FixThenRunSteps(one);
  }

  /** What a grading run changes: the source files, the results directory, and whether the compile cache exists. */
  datatype World = World(files: map<string, string>, results: map<string, JobDir>, cacheReady: bool)

  // ---------------------------------------------------------------------------
  // The script's state

  class Autograder {
    /** `os.path.relpath(path, start)`. */
    const relpath: (string, string) -> string
    /** The Pyret compiler, run on a job's import-fixed tests. */
    const compile: (Job, string) -> Compiled
    /** `node tests.js` for a job. */
    const execute: Job -> Executed
    /** The source files the script reads and rewrites, by path. */
    var files: map<string, string>
    /** The results directory: job directories by name. */
    var results: map<string, JobDir>
    /** Whether the shared compile cache directory exists. */
    var cacheReady: bool
    /** What the script has done so far. */
    ghost var log: seq<Step>

    constructor (relpath: (string, string) -> string, compile: (Job, string) -> Compiled, execute: Job -> Executed,
                 files: map<string, string>, cacheReady: bool)
      ensures this.relpath == relpath && this.compile == compile && this.execute == execute
      ensures this.files == files && this.cacheReady == cacheReady && results == map[] && log == []
    {
      this.relpath := relpath;
      this.compile := compile;
      this.execute := execute;
      this.files := files;
      this.cacheReady := cacheReady;
      results := map[];
      log := [];
    }

    /** An `ImportFixer` over `text` as the file at `path`, with the two `fix_import` calls of `fix_imports` and `finalize`. */
    method FixedText(text: string, path: string, code: string, commonDir: string) returns (fixed: string)
      ensures fixed == FixImportsText(text, path, code, commonDir, relpath)
    {
      var fixer := new PrehookLib.ImportFixer(path, Stencil, text, relpath);
      fixer.FixImport("code", Dirname(code), Some(Basename(code)));
      fixer.FixImport("common", commonDir, None);
      fixer.Finalize();
      fixed := fixer.written.value;
    }

    /** `fix_imports`: rewrites the file at `path` in place. */
    method FixImports(path: string, code: string, commonDir: string) returns (status: Status)
      modifies this
      ensures path in old(files) ==> (status == Completed
        && files == old(files)[path := FixImportsText(old(files)[path], path, code, commonDir, relpath)]
        && log == old(log) + [FixedImports(path, code, commonDir)])
      ensures path !in old(files) ==> status == Raised(FileNotFound(path)) && files == old(files) && log == old(log)
      ensures results == old(results) && cacheReady == old(cacheReady)
    {
      if path !in files {
        return Raised(FileNotFound(path));
      }
      var fixed := FixedText(files[path], path, code, commonDir);
      files := files[path := fixed];
      log := log + [FixedImports(path, code, commonDir)];
      status := Completed;
    }

    /**
     * The part of `run` after the tests are copied and fixed: compile into the
     * job directory, write `Timeout`, run the tests, reclassify, clean up.
     * `dir` is the job directory as `run` leaves it.
     */
    method Execute(job: Job, tests: string) returns (dir: JobDir, status: Status)
      ensures (dir, status) == Protocol(job, tests, compile(job, tests), execute(job))
    {
      dir := JobDir(tests, [], None, None, false);
      // compile, stderr appended to error.txt
      var c := compile(job, tests);
      var errors := c.stderr;
      dir := dir.(errorLog := Some(errors), artifact := c.artifactNonEmpty);
      if c.exitCode != 0 || !c.artifactNonEmpty {
        dir := dir.(results := [ErrRecord(job, Compilation)]);
        return dir, Completed;
      }
      dir := dir.(results := [ErrRecord(job, Timeout)]);
      // run the tests, stdout to raw.json and stderr appended to error.txt
      var x := execute(job);
      errors := errors + x.stderr;
      dir := dir.(raw := Some(x.stdout), errorLog := Some(errors));
      if x.exitCode != 0 {
        return dir, Raised(ProcessFailed(x.exitCode));
      }
      if errors != [] {
        dir := dir.(results := [ErrRecord(job, ErrorClass(errors))]);
      }
      if x.stdout.Json? {
        dir := dir.(results := [OkRecord(job, x.stdout.blocks)]);
      }
      if errors == [] {
        dir := dir.(errorLog := None, artifact := false);
      }
      status := Completed;
    }

    /** `run(code_path, test_path, common_dir)`: one job, from making its directory to cleaning up. */
    method Run(job: Job) returns (status: Status)
      modifies this
      ensures cacheReady && files == old(files) && log == old(log) + [RanJob(job)]
      ensures var name := JobName(job.code, job.test);
        if name in old(results) then
          status == Raised(FileExists(JobPath(job))) && results == old(results)
        else if job.test !in old(files) then
          status == Raised(FileNotFound(job.test)) && results == old(results)[name := JobDir("", [], None, None, false)]
        else
          var tests := FixImportsText(old(files)[job.test], CopiedTests(job), job.code, job.commonDir, relpath);
          var outcome := Protocol(job, tests, compile(job, tests), execute(job));
          results == old(results)[name := outcome.0] && status == outcome.1
    {
      log := log + [RanJob(job)];
      if !cacheReady {
        cacheReady := true;
      }
      var name := JobName(job.code, job.test);
      if name in results {
        return Raised(FileExists(JobPath(job)));
      }
      // the job directory is made before the test file is read
      if job.test !in files {
        results := results[name := JobDir("", [], None, None, false)];
        return Raised(FileNotFound(job.test));
      }
      var tests := FixedText(files[job.test], CopiedTests(job), job.code, job.commonDir);
      var dir;
      dir, status := Execute(job, tests);
      results := results[name := dir];
    }

    /** The script's state as a value. */
    function Now(): World
      reads this
    {
      World(files, results, cacheReady)
    }

    /**
     * What one step does to the state, and how it ends: `fix_imports` rewrites
     * an existing file or raises `FileNotFoundError`; `run` makes the cache
     * directory, then raises or leaves the job directory the protocol gives.
     */
    function StepOutcome(w: World, step: Step): (World, Status)
    {
      match step
      case FixedImports(path, code, commonDir) =>
        if path in w.files then
          (w.(files := w.files[path := FixImportsText(w.files[path], path, code, commonDir, relpath)]), Completed)
        else
          (w, Raised(FileNotFound(path)))
      case RanJob(job) =>
        var name := JobName(job.code, job.test);
        if name in w.results then
          (w.(cacheReady := true), Raised(FileExists(JobPath(job))))
        else if job.test !in w.files then
          (w.(cacheReady := true, results := w.results[name := JobDir("", [], None, None, false)]), Raised(FileNotFound(job.test)))
        else
          var tests := FixImportsText(w.files[job.test], CopiedTests(job), job.code, job.commonDir, relpath);
          var outcome := Protocol(job, tests, compile(job, tests), execute(job));
          (w.(cacheReady := true, results := w.results[name := outcome.0]), outcome.1)
    }

    /** The loop over the instructor tests: each non-`README` test against the student's code, stopping at the first exception. */
    method RunTests(entries: seq<WalkEntry>, code: string, commonDir: string) returns (status: Status)
      modifies this
      ensures (Now(), status) == Perform(StepOutcome, old(Now()), RunSteps(TestJobs(entries, code, commonDir)))
      ensures DidPartOf(old(log), log, RunSteps(TestJobs(entries, code, commonDir)))
      ensures status == Completed ==> log == old(log) + RunSteps(TestJobs(entries, code, commonDir))
    {
      ghost var start := log;
      ghost var w0 := Now();
      var i := 0;
      while i < |entries|
        invariant 0 <= i <= |entries|
        invariant log == start + RunSteps(TestJobs(entries[..i], code, commonDir))
        invariant Perform(StepOutcome, w0, RunSteps(TestJobs(entries[..i], code, commonDir))) == (Now(), Completed)
      {
        var e := entries[i];
        ghost var done := RunSteps(TestJobs(entries[..i], code, commonDir));
        ghost var one := RunSteps(TestJobs([e], code, commonDir));
        ghost var rest := RunSteps(TestJobs(entries[i + 1..], code, commonDir));
        TestStep(start, entries, i, code, commonDir);
        TestEntrySteps(e, code, commonDir);
        PerformAppend(StepOutcome, w0, done, one);
        ghost var w := Now();
        if e.name != "README" {
          var job := Job(code, Join(e.root, e.name), commonDir);
          var s := Run(job);
          assert (Now(), s) == StepOutcome(w, RanJob(job));
          PerformOne(StepOutcome, w, RanJob(job));
          if s.Raised? {
            PerformAppend(StepOutcome, w0, done + one, rest);
            DidAll(start + done, one);
            DidAfter(start, done, log, one);
            DidExtend(start, log, done + one, rest);
            return s;
          }
        }
        i := i + 1;
      }
      assert entries[..i] == entries;
      DidAll(start, RunSteps(TestJobs(entries, code, commonDir)));
      status := Completed;
    }

    /** One wheat or chaff: unless it is `README`, fix its imports, then run it against the student's tests. */
    method RunImpl(e: WalkEntry, studentTests: string, commonDir: string) returns (status: Status)
      modifies this
      ensures (Now(), status) == Perform(StepOutcome, old(Now()), FixThenRunSteps(ImplJobs([e], studentTests, commonDir)))
      ensures var steps := FixThenRunSteps(ImplJobs([e], studentTests, commonDir));
        DidPartOf(old(log), log, steps) && (status == Completed ==> log == old(log) + steps)
    {
      ImplEntrySteps(e, studentTests, commonDir);
      ghost var start := log;
      if e.name == "README" {
        assert start + [] == start;
        DidAll(start, []);
        return Completed;
      }
      var impl := Join(e.root, e.name);
      var job := Job(impl, studentTests, commonDir);
      ghost var steps := [ImplFix(impl), RanJob(job)];
      ghost var w0 := Now();
      status := FixImports(impl, impl, Dirname(impl));
      assert (Now(), status) == StepOutcome(w0, steps[0]);
      assert steps == [steps[0]] + [steps[1]];
      PerformAppend(StepOutcome, w0, [steps[0]], [steps[1]]);
      PerformOne(StepOutcome, w0, steps[0]);
      if status.Completed? {
        ghost var w1 := Now();
        status := Run(job);
        assert (Now(), status) == StepOutcome(w1, steps[1]);
        PerformOne(StepOutcome, w1, steps[1]);
        assert log == start + steps;
        DidAll(start, steps);
      } else {
        DidNothing(start, steps);
      }
    }

    /** The loop over wheats or chaffs, stopping at the first exception. */
    method RunImpls(entries: seq<WalkEntry>, studentTests: string, commonDir: string) returns (status: Status)
      modifies this
      ensures (Now(), status) == Perform(StepOutcome, old(Now()), FixThenRunSteps(ImplJobs(entries, studentTests, commonDir)))
      ensures DidPartOf(old(log), log, FixThenRunSteps(ImplJobs(entries, studentTests, commonDir)))
      ensures status == Completed ==> log == old(log) + FixThenRunSteps(ImplJobs(entries, studentTests, commonDir))
    {
      ghost var start := log;
      ghost var w0 := Now();
      var i := 0;
      while i < |entries|
        invariant 0 <= i <= |entries|
        invariant log == start + FixThenRunSteps(ImplJobs(entries[..i], studentTests, commonDir))
        invariant Perform(StepOutcome, w0, FixThenRunSteps(ImplJobs(entries[..i], studentTests, commonDir))) == (Now(), Completed)
      {
        ghost var done := FixThenRunSteps(ImplJobs(entries[..i], studentTests, commonDir));
        ghost var one := FixThenRunSteps(ImplJobs([entries[i]], studentTests, commonDir));
        ghost var rest := FixThenRunSteps(ImplJobs(entries[i + 1..], studentTests, commonDir));
        ImplStep(start, entries, i, studentTests, commonDir);
        PerformAppend(StepOutcome, w0, done, one);
        status := RunImpl(entries[i], studentTests, commonDir);
        if status.Raised? {
          PerformAppend(StepOutcome, w0, done + one, rest);
          DidAfter(start, done, log, one);
          DidExtend(start, log, done + one, rest);
          return;
        }
        i := i + 1;
      }
      assert entries[..i] == entries;
      DidAll(start, FixThenRunSteps(ImplJobs(entries, studentTests, commonDir)));
      status := Completed;
    }

    /** Fixing the imports of the student's common file, then of their code; a missing file raises. */
    method FixStudentFiles(student: StudentFiles) returns (status: Status)
      modifies this
      ensures (Now(), status) == Perform(StepOutcome, old(Now()), StudentFixes(student))
      ensures status == Completed <==> student.common in old(files) && student.code in old(files)
      ensures var steps := StudentFixes(student);
        DidPartOf(old(log), log, steps) && (status == Completed ==> log == old(log) + steps)
    {
      ghost var steps := StudentFixes(student);
      ghost var start := log;
      ghost var w0 := Now();
      status := FixImports(student.common, student.code, Submission);
      assert (Now(), status) == StepOutcome(w0, steps[0]);
      assert steps == [steps[0]] + [steps[1]];
      PerformAppend(StepOutcome, w0, [steps[0]], [steps[1]]);
      PerformOne(StepOutcome, w0, steps[0]);
      if status.Completed? {
        ghost var w1 := Now();
        status := FixImports(student.code, student.code, Submission);
        assert (Now(), status) == StepOutcome(w1, steps[1]);
        PerformOne(StepOutcome, w1, steps[1]);
        if status.Completed? {
          assert log == start + steps;
          DidAll(start, steps);
        } else {
          assert log == start + steps[..1];
        }
      } else {
        DidNothing(start, steps);
      }
    }

    /** What `__main__` does once the student's files are found: their fixes, then the three job loops. */
    method GradeStudent(student: StudentFiles, tests: seq<WalkEntry>, wheats: seq<WalkEntry>, chaffs: seq<WalkEntry>)
      returns (status: Status)
      modifies this
      ensures (Now(), status) == Perform(StepOutcome, old(Now()), PlannedSteps(student, tests, wheats, chaffs))
      ensures DidPartOf(old(log), log, PlannedSteps(student, tests, wheats, chaffs))
      ensures status == Completed ==> log == old(log) + PlannedSteps(student, tests, wheats, chaffs)
    {
      var commonDir := Dirname(student.common);
      ghost var head := StudentFixes(student);
      ghost var t := RunSteps(TestJobs(tests, student.code, commonDir));
      ghost var w := FixThenRunSteps(ImplJobs(wheats, student.tests, commonDir));
      ghost var c := FixThenRunSteps(ImplJobs(chaffs, student.tests, commonDir));
      ghost var start := log;
      ghost var w0 := Now();
      assert PlannedSteps(student, tests, wheats, chaffs) == head + t + w + c;
      PerformAppend(StepOutcome, w0, head + t + w, c);
      PerformAppend(StepOutcome, w0, head + t, w);
      PerformAppend(StepOutcome, w0, head, t);
      status := FixStudentFiles(student);
      if status.Raised? {
        DidExtend(start, log, head, t);
        DidExtend(start, log, head + t, w);
        DidExtend(start, log, head + t + w, c);
        return;
      }
      status := RunTests(tests, student.code, commonDir);
      if status.Raised? {
        DidAfter(start, head, log, t);
        DidExtend(start, log, head + t, w);
        DidExtend(start, log, head + t + w, c);
        return;
      }
      Regroup(start, head, t, w);
      status := RunImpls(wheats, student.tests, commonDir);
      if status.Raised? {
        DidAfter(start, head + t, log, w);
        DidExtend(start, log, head + t + w, c);
        return;
      }
      status := RunImpls(chaffs, student.tests, commonDir);
      DidAfter(start, head + t + w, log, c);
    }

    /** `__main__`: clear the results directory, find the student's files, and grade them. */
    method Grade(submission: seq<WalkEntry>, tests: seq<WalkEntry>, wheats: seq<WalkEntry>, chaffs: seq<WalkEntry>)
      returns (status: Status)
      modifies this
      ensures StudentFilesOf(submission).None? ==>
        status == Raised(AssertionFailed) && Now() == old(Now()).(results := map[]) && log == old(log)
      ensures StudentFilesOf(submission).Some? ==>
        (Now(), status) == Perform(StepOutcome, old(Now()).(results := map[]),
                                   PlannedSteps(StudentFilesOf(submission).value, tests, wheats, chaffs))
      ensures StudentFilesOf(submission).Some? ==>
        DidPartOf(old(log), log, PlannedSteps(StudentFilesOf(submission).value, tests, wheats, chaffs))
      ensures status == Completed ==> (StudentFilesOf(submission).Some?
        && log == old(log) + PlannedSteps(StudentFilesOf(submission).value, tests, wheats, chaffs))
    {
      results := map[];
      var found := Discover(submission);
      if found.None? {
        return Raised(AssertionFailed);
      }
      status := GradeStudent(found.value, tests, wheats, chaffs);
    }
  }
}
