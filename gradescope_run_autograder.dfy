/**
 * The Gradescope variant of the runner script. It differs from the top-level
 * one in four ways: records are appended to `results.json` rather than
 * overwritten; a compiler that exits nonzero raises before any record is
 * written; every job compiles into a fresh temporary cache directory; and
 * all implementations are import-fixed while the job list is built, after
 * which every job runs (a pool of workers, taken here one job after another)
 * and the first exception is re-raised at the end.
 */
module GradescopeRunAutograder {
  import opened Wrappers
  import opened Strings
  import opened Paths
  import opened Evaluations
  import opened Grading
  import Rewrite
  import GradescopePrehookLib
  import RunAutograder

  const Stencil: string := AutograderRoot + "/source/stencil"

  /** `fix_imports` with this variant's `ImportFixer`, whose `finalize` resolves only `shared-gdrive`. */
  function FixImportsText(text: string, path: string, code: string, commonDir: string,
                          relpath: (string, string) -> string): string
  {
    var dir := Dirname(path);
    var withCode := Rewrite.FixImportText(text, "code", relpath(Dirname(code), dir), Some(Basename(code)));
    var withCommon := Rewrite.FixImportText(withCode, "common", relpath(commonDir, dir), None);
    Rewrite.ResolveSharedText(withCommon, relpath(Stencil, dir))
  }

  /**
   * The job directory and status once `run` has copied and import-fixed the
   * tests. `results.json` is opened with `"a"`: `Timeout`, then the error
   * class if `error.txt` is nonempty, then jq's `Ok` record if the runner
   * printed anything.
   */
  function Protocol(job: Job, tests: string, c: Compiled, x: Executed): (JobDir, Status)
  {
    if c.exitCode != 0 then
      (JobDir(tests, [], Some(c.stderr), None, c.artifactNonEmpty), Raised(ProcessFailed(c.exitCode)))
    else if !c.artifactNonEmpty then
      (JobDir(tests, [ErrRecord(job, Compilation)], Some(c.stderr), None, false), Completed)
    else
      var log := c.stderr + x.stderr;
      if x.exitCode != 0 then
        (JobDir(tests, [ErrRecord(job, Timeout)], Some(log), Some(x.stdout), true), Raised(ProcessFailed(x.exitCode)))
      else
        var records := [ErrRecord(job, Timeout)]
          + (if log != [] then [ErrRecord(job, ErrorClass(log))] else [])
          + (if x.stdout.Json? then [OkRecord(job, x.stdout.blocks)] else []);
        (JobDir(tests, records, if log != [] then Some(log) else None, Some(x.stdout), log != []), Completed)
  }

  /** A compiler that exits nonzero raises out of `run` before any record is written. */
  lemma CompilerFailureEscapes(job: Job, tests: string, c: Compiled, x: Executed)
    requires c.exitCode != 0
    ensures var (dir, status) := Protocol(job, tests, c, x);
      status == Raised(ProcessFailed(c.exitCode)) && dir.results == [] && dir.raw == None
  {
  }

  /** `Compilation` is recorded exactly when the compiler exits 0 but leaves no nonempty `tests.js`, and is then the only record. */
  lemma CompilationIffNoArtifact(job: Job, tests: string, c: Compiled, x: Executed)
    ensures var dir := Protocol(job, tests, c, x).0;
      (ErrRecord(job, Compilation) in dir.results <==> c.exitCode == 0 && !c.artifactNonEmpty)
      && (c.exitCode == 0 && !c.artifactNonEmpty ==> dir.results == [ErrRecord(job, Compilation)])
  {
    var dir := Protocol(job, tests, c, x).0;
    if !CompileFailed(c) {
      var log := c.stderr + x.stderr;
      assert ErrorClass(log) != Compilation;
    }
  }

  /**
   * After a successful compile, `Timeout` is always the first record, an
   * `OutOfMemory` or `Runtime` record follows exactly when `error.txt` is
   * nonempty, and the last record is `Ok` exactly when the runner printed output.
   */
  lemma RecordsAfterCompile(job: Job, tests: string, c: Compiled, x: Executed)
    requires !CompileFailed(c)
    ensures var rs := Protocol(job, tests, c, x).0.results;
      1 <= |rs| <= 3 && rs[0] == ErrRecord(job, Timeout)
    ensures var rs := Protocol(job, tests, c, x).0.results;
      x.exitCode == 0 ==>
        (rs[|rs| - 1].result.Ok? <==> x.stdout.Json?)
        && (x.stdout.Json? ==> rs[|rs| - 1] == OkRecord(job, x.stdout.blocks))
        && ((exists i :: 0 < i < |rs| && rs[i].result in {Err(OutOfMemory), Err(Runtime)}) <==> c.stderr + x.stderr != [])
  {
    var rs := Protocol(job, tests, c, x).0.results;
    var log := c.stderr + x.stderr;
    if x.exitCode == 0 {
      if log != [] {
        assert rs[1].result == Err(ErrorClass(log));
      }
    }
  }

  /** A completed job that compiled keeps `error.txt` and `tests.js` exactly when `error.txt` is nonempty. */
  lemma CleanupIffNoErrors(job: Job, tests: string, c: Compiled, x: Executed)
    requires !CompileFailed(c) && Protocol(job, tests, c, x).1 == Completed
    ensures var dir := Protocol(job, tests, c, x).0;
      (dir.errorLog.None? <==> c.stderr + x.stderr == []) && (dir.artifact <==> c.stderr + x.stderr != [])
  {
  }

  /**
   * Where the compiler exits 0 the two runners agree on everything but the
   * history in `results.json`: this one's last record is the top-level
   * runner's only record.
   */
  lemma LastRecordAgrees(job: Job, tests: string, c: Compiled, x: Executed)
    requires c.exitCode == 0
    ensures var (dir, status) := Protocol(job, tests, c, x);
      var (top, topStatus) := RunAutograder.Protocol(job, tests, c, x);
      dir.results != [] && dir.(results := [dir.results[|dir.results| - 1]]) == top && status == topStatus
  {
  }

  /** Where the compiler exits nonzero, the top-level runner records `Compilation` and goes on, while this one raises with no record. */
  lemma CompilerExitDiffers(job: Job, tests: string, c: Compiled, x: Executed)
    requires c.exitCode != 0
    ensures RunAutograder.Protocol(job, tests, c, x).0.results == [ErrRecord(job, Compilation)]
    ensures RunAutograder.Protocol(job, tests, c, x).1 == Completed
    ensures Protocol(job, tests, c, x).0.results == [] && Protocol(job, tests, c, x).1.Raised?
  {
  }

  // ---------------------------------------------------------------------------
  // Temporary cache directories

  /** The length of the longest name. */
  function MaxLength(names: seq<string>): (r: nat)
    ensures forall i :: 0 <= i < |names| ==> |names[i]| <= r
    decreases |names|
  {
    if names == [] then 0
    else
      var rest := MaxLength(names[1..]);
      assert forall i :: 1 <= i < |names| ==> names[i] == names[1..][i - 1];
      if |names[0]| > rest then |names[0]| else rest
  }

  /** `tempfile.mkdtemp(dir="/tmp")`: a directory under `/tmp` that none of `used` names. */
  function FreshTemp(used: seq<string>): (r: string)
    ensures |r| >= 5 && r[..5] == "/tmp/"
    ensures r !in used
  {
    var r := "/tmp/" + seq(MaxLength(used), _ => 't');
    assert forall i :: 0 <= i < |used| ==> |used[i]| < |r|;
    r
  }

  /** No name occurs twice. */
  predicate Distinct(names: seq<string>)
  {
    forall i, j :: 0 <= i < j < |names| ==> names[i] != names[j]
  }

  /** Adding a fresh name keeps names distinct. */
  lemma DistinctAfterFresh(used: seq<string>)
    requires Distinct(used)
    ensures Distinct(used + [FreshTemp(used)])
  {
    var r := FreshTemp(used);
    forall i, j | 0 <= i < j < |used| + 1
      ensures (used + [r])[i] != (used + [r])[j]
    {
      if j == |used| {
        assert (used + [r])[i] == used[i];
        assert used[i] in used;
      }
    }
  }

  // ---------------------------------------------------------------------------
  // The order of a grading run

  /** Fixing each implementation's imports, in job order. */
  function FixSteps(jobs: seq<Job>): seq<Step>
    decreases |jobs|
  {
    if jobs == [] then [] else [ImplFix(jobs[0].code)] + FixSteps(jobs[1..])
  }

  lemma {:induction false} FixStepsAppend(a: seq<Job>, b: seq<Job>)
    ensures FixSteps(a + b) == FixSteps(a) + FixSteps(b)
    decreases |a|
  {
    if a == [] {
      assert a + b == b;
    } else {
      assert (a + b)[0] == a[0] && (a + b)[1..] == a[1..] + b;
      FixStepsAppend(a[1..], b);
    }
  }

  lemma {:induction false} FixStepsOnlyFixes(jobs: seq<Job>)
    ensures OnlyFixes(FixSteps(jobs))
    decreases |jobs|
  {
    if jobs != [] {
      FixStepsOnlyFixes(jobs[1..]);
      var s := FixSteps(jobs);
      assert forall i :: 1 <= i < |s| ==> s[i] == FixSteps(jobs[1..])[i - 1];
    }
  }

  lemma {:induction false} RunStepsAreRuns(jobs: seq<Job>)
    ensures |RunSteps(jobs)| == |jobs| && forall i :: 0 <= i < |jobs| ==> RunSteps(jobs)[i] == RanJob(jobs[i])
    decreases |jobs|
  {
    if jobs != [] {
      RunStepsAreRuns(jobs[1..]);
    }
  }

  /** The fixes of every wheat, then of every chaff. */
  function ImplFixes(wheats: seq<WalkEntry>, chaffs: seq<WalkEntry>, studentTests: string, commonDir: string): seq<Step>
  {
    FixSteps(ImplJobs(wheats, studentTests, commonDir)) + FixSteps(ImplJobs(chaffs, studentTests, commonDir))
  }

  /** The fixes done while the job list is built: the student's two files, then every wheat and every chaff. */
  function FixStage(student: StudentFiles, wheats: seq<WalkEntry>, chaffs: seq<WalkEntry>): seq<Step>
  {
    StudentFixes(student)
      + ImplFixes(wheats, chaffs, student.tests, Dirname(student.common))
  }

  /** Every step is a fix. */
  predicate OnlyFixes(steps: seq<Step>)
  {
    forall i :: 0 <= i < |steps| ==> steps[i].FixedImports?
  }

  lemma {:induction false} OnlyFixesRunNothing(steps: seq<Step>)
    requires OnlyFixes(steps)
    ensures JobsRun(steps) == []
    decreases |steps|
  {
    if steps != [] {
      assert steps == [steps[0]] + steps[1..];
      JobsRunAppend([steps[0]], steps[1..]);
      OnlyFixesRunNothing(steps[1..]);
    }
  }

  /** The fix stage runs no job. */
  lemma FixStageOnlyFixes(student: StudentFiles, wheats: seq<WalkEntry>, chaffs: seq<WalkEntry>)
    ensures OnlyFixes(FixStage(student, wheats, chaffs))
  {
    var commonDir := Dirname(student.common);
    FixStepsOnlyFixes(ImplJobs(wheats, student.tests, commonDir));
    FixStepsOnlyFixes(ImplJobs(chaffs, student.tests, commonDir));
  }

  /** What `__main__` does once the student's files are found: all fixes, then every job of the job list. */
  function PlannedSteps(student: StudentFiles, tests: seq<WalkEntry>, wheats: seq<WalkEntry>, chaffs: seq<WalkEntry>): seq<Step>
  {
    FixStage(student, wheats, chaffs)
      + RunSteps(JobList(tests, wheats, chaffs, student.code, student.tests, Dirname(student.common)))
  }

  /** Fixes followed by a run of jobs: the jobs run are those jobs, and no fix comes after a run. */
  lemma FixesThenRuns(fixes: seq<Step>, jobs: seq<Job>)
    requires OnlyFixes(fixes)
    ensures var steps := fixes + RunSteps(jobs);
      JobsRun(steps) == jobs && forall i, j :: 0 <= i < j < |steps| && steps[i].RanJob? ==> steps[j].RanJob?
  {
    OnlyFixesRunNothing(fixes);
    JobsRunAppend(fixes, RunSteps(jobs));
    JobsOfRunSteps(jobs);
    RunStepsAreRuns(jobs);
    var steps := fixes + RunSteps(jobs);
    assert forall i :: 0 <= i < |fixes| ==> steps[i] == fixes[i];
    assert forall j :: |fixes| <= j < |steps| ==> steps[j] == RunSteps(jobs)[j - |fixes|];
  }

  /** The jobs of a full run are the job list, in its order, and no job runs before every file is fixed. */
  lemma PlanFixesFirst(student: StudentFiles, tests: seq<WalkEntry>, wheats: seq<WalkEntry>, chaffs: seq<WalkEntry>)
    ensures var plan := PlannedSteps(student, tests, wheats, chaffs);
      JobsRun(plan) == JobList(tests, wheats, chaffs, student.code, student.tests, Dirname(student.common))
      && forall i, j :: 0 <= i < j < |plan| && plan[i].RanJob? ==> plan[j].RanJob?
  {
    FixStageOnlyFixes(student, wheats, chaffs);
    FixesThenRuns(FixStage(student, wheats, chaffs),
      JobList(tests, wheats, chaffs, student.code, student.tests, Dirname(student.common)));
  }

  /** One step of a wheat or chaff loop, after `start`: entry `i` adds its job and its fix, and the entries after it finish the loop. */
  lemma CollectStep(start: seq<Step>, entries: seq<WalkEntry>, i: nat, studentTests: string, commonDir: string)
    requires i < |entries|
    ensures var done := ImplJobs(entries[..i], studentTests, commonDir);
      var one := ImplJobs([entries[i]], studentTests, commonDir);
      ImplJobs(entries[..i + 1], studentTests, commonDir) == done + one
      && FixSteps(ImplJobs(entries[..i + 1], studentTests, commonDir)) == FixSteps(done) + FixSteps(one)
      && start + FixSteps(ImplJobs(entries[..i + 1], studentTests, commonDir)) == start + FixSteps(done) + FixSteps(one)
      && FixSteps(ImplJobs(entries, studentTests, commonDir))
        == FixSteps(done) + FixSteps(one) + FixSteps(ImplJobs(entries[i + 1..], studentTests, commonDir))
  {
    var e := entries[i];
    assert entries[..i + 1] == entries[..i] + [e];
    assert entries[..i] + [e] + entries[i + 1..] == entries;
    ImplJobsAppend(entries[..i], [e], studentTests, commonDir);
    ImplJobsAppend(entries[..i] + [e], entries[i + 1..], studentTests, commonDir);
    var done := ImplJobs(entries[..i], studentTests, commonDir);
    var one := ImplJobs([e], studentTests, commonDir);
    var rest := ImplJobs(entries[i + 1..], studentTests, commonDir);
    FixStepsAppend(done, one);
    FixStepsAppend(done + one, rest);
    assert start + (FixSteps(done) + FixSteps(one)) == start + FixSteps(done) + FixSteps(one);
  }

  lemma ImplEntryJob(e: WalkEntry, studentTests: string, commonDir: string)
    ensures var impl := Join(e.root, e.name);
      ImplJobs([e], studentTests, commonDir) == if e.name == "README" then [] else [Job(impl, studentTests, commonDir)]
  {
    assert [e][1..] == [];
  }

  lemma TestEntryJob(e: WalkEntry, code: string, commonDir: string)
    ensures TestJobs([e], code, commonDir) == if e.name == "README" then [] else [Job(code, Join(e.root, e.name), commonDir)]
  {
    assert [e][1..] == [];
  }

  /** The first exception among the jobs' outcomes, as `Pool.map` re-raises it, or `Completed`. */
  function FirstRaised(statuses: seq<Status>): (r: Status)
    ensures r == Completed <==> forall i :: 0 <= i < |statuses| ==> statuses[i] == Completed
    decreases |statuses|
  {
    if statuses == [] then Completed
    else if statuses[0].Raised? then statuses[0]
    else
      assert forall i :: 1 <= i < |statuses| ==> statuses[i] == statuses[1..][i - 1];
      FirstRaised(statuses[1..])
  }

  /** An exception reported is some job's, and every job before that one completed. */
  lemma {:induction false} FirstRaisedIsFirst(statuses: seq<Status>)
    requires FirstRaised(statuses).Raised?
    ensures exists i :: (0 <= i < |statuses| && statuses[i] == FirstRaised(statuses)
      && forall k :: 0 <= k < i ==> statuses[k] == Completed)
    decreases |statuses|
  {
    if !statuses[0].Raised? {
      var rest := statuses[1..];
      FirstRaisedIsFirst(rest);
      var i :| 0 <= i < |rest| && rest[i] == FirstRaised(rest) && forall k :: 0 <= k < i ==> rest[k] == Completed;
      assert statuses[i + 1] == rest[i];
      assert forall k :: 1 <= k < i + 1 ==> statuses[k] == rest[k - 1];
    }
  }

  lemma {:induction false} FirstRaisedAppend(statuses: seq<Status>, s: Status)
    ensures FirstRaised(statuses + [s]) == if FirstRaised(statuses).Raised? then FirstRaised(statuses) else s
    decreases |statuses|
  {
    if statuses == [] {
      assert [] + [s] == [s];
      assert [s][1..] == [];
    } else {
      assert (statuses + [s])[0] == statuses[0];
      assert (statuses + [s])[1..] == statuses[1..] + [s];
      FirstRaisedAppend(statuses[1..], s);
    }
  }

  // ---------------------------------------------------------------------------
  // The script's state

  class Autograder {
    /** `os.path.relpath(path, start)`. */
    const relpath: (string, string) -> string
    /** The Pyret compiler, run on a job's import-fixed tests with a cache directory. */
    const compile: (Job, string, string) -> Compiled
    /** `node tests.js` for a job. */
    const execute: Job -> Executed
    /** The source files the script reads and rewrites, by path. */
    var files: map<string, string>
    /** The results directory: job directories by name. */
    var results: map<string, JobDir>
    /** The temporary cache directories made so far, in order. */
    var tempDirs: seq<string>
    /** What the script has done so far. */
    ghost var log: seq<Step>

    constructor (relpath: (string, string) -> string, compile: (Job, string, string) -> Compiled,
                 execute: Job -> Executed, files: map<string, string>)
      ensures this.relpath == relpath && this.compile == compile && this.execute == execute
      ensures this.files == files && results == map[] && tempDirs == [] && log == []
    {
      this.relpath := relpath;
      this.compile := compile;
      this.execute := execute;
      this.files := files;
      results := map[];
      tempDirs := [];
      log := [];
    }

    /** An `ImportFixer` over `text` as the file at `path`, with the two `fix_import` calls of `fix_imports` and `finalize`. */
    method FixedText(text: string, path: string, code: string, commonDir: string) returns (fixed: string)
      ensures fixed == FixImportsText(text, path, code, commonDir, relpath)
    {
      var fixer := new GradescopePrehookLib.ImportFixer(path, Stencil, text, relpath);
      fixer.FixImport("code", Dirname(code), Some(Basename(code)));
      fixer.FixImport("common", commonDir, None);
      fixer.Finalize();
      fixed := fixer.written.value;
    }

    /** `fix_imports`: rewrites the file at `path` in place. */
    method FixImports(path: string, code: string, commonDir: string) returns (status: Status)
      modifies this
      ensures path in old(files) ==> (status == Completed
        && files == old(files)[path := FixImportsText(old(files)[path], path, code, commonDir, relpath)]
        && log == old(log) + [FixedImports(path, code, commonDir)])
      ensures path !in old(files) ==> status == Raised(FileNotFound(path)) && files == old(files) && log == old(log)
      ensures results == old(results) && tempDirs == old(tempDirs)
    {
      if path !in files {
        return Raised(FileNotFound(path));
      }
      var fixed := FixedText(files[path], path, code, commonDir);
      files := files[path := fixed];
      log := log + [FixedImports(path, code, commonDir)];
      status := Completed;
    }

    /**
     * The part of `run` after the tests are copied and fixed: compile with
     * the job's cache directory, append `Timeout`, run the tests, append the
     * error class and the output, clean up.
     */
    method Execute(job: Job, tests: string, cache: string) returns (dir: JobDir, status: Status)
      ensures (dir, status) == Protocol(job, tests, compile(job, tests, cache), execute(job))
    {
      dir := JobDir(tests, [], None, None, false);
      var c := compile(job, tests, cache);
      var errors := c.stderr;
      dir := dir.(errorLog := Some(errors), artifact := c.artifactNonEmpty);
      if c.exitCode != 0 {
        return dir, Raised(ProcessFailed(c.exitCode));
      }
      if !c.artifactNonEmpty {
        dir := dir.(results := dir.results + [ErrRecord(job, Compilation)]);
        assert dir.results == [ErrRecord(job, Compilation)];
        return dir, Completed;
      }
      dir := dir.(results := dir.results + [ErrRecord(job, Timeout)]);
      assert dir.results == [ErrRecord(job, Timeout)];
      var x := execute(job);
      errors := errors + x.stderr;
      dir := dir.(raw := Some(x.stdout), errorLog := Some(errors));
      if x.exitCode != 0 {
        return dir, Raised(ProcessFailed(x.exitCode));
      }
      ghost var classified := if errors != [] then [ErrRecord(job, ErrorClass(errors))] else [];
      ghost var printed := if x.stdout.Json? then [OkRecord(job, x.stdout.blocks)] else [];
      if errors != [] {
        dir := dir.(results := dir.results + [ErrRecord(job, ErrorClass(errors))]);
      }
      assert dir.results == [ErrRecord(job, Timeout)] + classified;
      if x.stdout.Json? {
        dir := dir.(results := dir.results + [OkRecord(job, x.stdout.blocks)]);
      }
      assert dir.results == [ErrRecord(job, Timeout)] + classified + printed;
      if errors == [] {
        dir := dir.(errorLog := None, artifact := false);
      }
      status := Completed;
    }

    /** `run(job)`: a fresh cache directory, then one job from making its directory to cleaning up. */
    method Run(job: Job) returns (status: Status)
      modifies this
      ensures files == old(files) && log == old(log) + [RanJob(job)]
      ensures tempDirs == old(tempDirs) + [FreshTemp(old(tempDirs))]
      ensures var name := JobName(job.code, job.test);
        if name in old(results) then
          status == Raised(FileExists(JobPath(job))) && results == old(results)
        else if job.test !in old(files) then
          status == Raised(FileNotFound(job.test)) && results == old(results)[name := JobDir("", [], None, None, false)]
        else
          var tests := FixImportsText(old(files)[job.test], CopiedTests(job), job.code, job.commonDir, relpath);
          var outcome := Protocol(job, tests, compile(job, tests, FreshTemp(old(tempDirs))), execute(job));
          results == old(results)[name := outcome.0] && status == outcome.1
    {
      log := log + [RanJob(job)];
      var cache := FreshTemp(tempDirs);
      tempDirs := tempDirs + [cache];
      var name := JobName(job.code, job.test);
      if name in results {
        return Raised(FileExists(JobPath(job)));
      }
      // the job directory is made before the test file is read
      if job.test !in files {
        results := results[name := JobDir("", [], None, None, false)];
        return Raised(FileNotFound(job.test));
      }
      var tests := FixedText(files[job.test], CopiedTests(job), job.code, job.commonDir);
      var dir;
      dir, status := Execute(job, tests, cache);
      results := results[name := dir];
    }

    /**
     * What one fix does to the files, and how it ends: `fix_imports` rewrites
     * an existing file or raises `FileNotFoundError`. A run leaves the files as
     * they are; the fix stage has no runs (`FixStageOnlyFixes`).
     */
    function FixOutcome(files: map<string, string>, step: Step): (map<string, string>, Status)
    {
      match step
      case FixedImports(path, code, commonDir) =>
        if path in files then (files[path := FixImportsText(files[path], path, code, commonDir, relpath)], Completed)
        else (files, Raised(FileNotFound(path)))
      case RanJob(_) => (files, Completed)
    }

    /**
     * What `run(job)` leaves in the job directories and how it ends, given
     * the files, the job directories before it, and its cache directory.
     */
    function RunOutcome(files: map<string, string>, results: map<string, JobDir>, cache: string, job: Job)
      : (map<string, JobDir>, Status)
    {
      var name := JobName(job.code, job.test);
      if name in results then (results, Raised(FileExists(JobPath(job))))
      else if job.test !in files then (results[name := JobDir("", [], None, None, false)], Raised(FileNotFound(job.test)))
      else
        var tests := FixImportsText(files[job.test], CopiedTests(job), job.code, job.commonDir, relpath);
        var outcome := Protocol(job, tests, compile(job, tests, cache), execute(job));
        (results[name := outcome.0], outcome.1)
    }

    /**
     * Each job ran on what the job before it left: `states[k]` are the job
     * directories before job `k`, `caches[k]` its cache directory, and
     * `statuses[k]` how it ended.
     */
    ghost predicate RanInOrder(files: map<string, string>, jobs: seq<Job>, caches: seq<string>,
      states: seq<map<string, JobDir>>, statuses: seq<Status>)
    {
      |caches| == |jobs| && |states| == |jobs| + 1 && |statuses| == |jobs|
      && forall k :: 0 <= k < |jobs| ==> (states[k + 1], statuses[k]) == RunOutcome(files, states[k], caches[k], jobs[k])
    }

    /** One more job, run on what the last one left. */
    lemma RanInOrderStep(files: map<string, string>, jobs: seq<Job>, caches: seq<string>,
      states: seq<map<string, JobDir>>, statuses: seq<Status>, job: Job, cache: string, after: map<string, JobDir>, s: Status)
      requires RanInOrder(files, jobs, caches, states, statuses)
      requires (after, s) == RunOutcome(files, states[|jobs|], cache, job)
      ensures RanInOrder(files, jobs + [job], caches + [cache], states + [after], statuses + [s])
    {
      var jobs', caches', states', statuses' := jobs + [job], caches + [cache], states + [after], statuses + [s];
      forall k | 0 <= k < |jobs'|
        ensures (states'[k + 1], statuses'[k]) == RunOutcome(files, states'[k], caches'[k], jobs'[k])
      {
        if k < |jobs| {
          assert states'[k + 1] == states[k + 1] && states'[k] == states[k];
        }
      }
    }

    /**
     * `pool.map(run, jobs)`: every job runs, in job order, each with a new
     * cache directory and on the job directories the one before it left, and
     * the first exception is re-raised once all are done.
     */
    method RunAll(jobs: seq<Job>) returns (status: Status, statuses: seq<Status>, ghost states: seq<map<string, JobDir>>)
      modifies this
      ensures files == old(files) && status == FirstRaised(statuses)
      ensures |tempDirs| == |old(tempDirs)| + |jobs| && tempDirs[..|old(tempDirs)|] == old(tempDirs)
      ensures RanInOrder(files, jobs, tempDirs[|old(tempDirs)|..], states, statuses)
      ensures states[0] == old(results) && states[|jobs|] == results
      ensures log == old(log) + RunSteps(jobs)
      ensures Distinct(old(tempDirs)) ==> Distinct(tempDirs)
    {
      ghost var start := log;
      ghost var startDirs := tempDirs;
      status := Completed;
      statuses := [];
      states := [results];
      var i := 0;
      while i < |jobs|
        invariant 0 <= i <= |jobs| && status == FirstRaised(statuses)
        invariant files == old(files)
        invariant |tempDirs| == |startDirs| + i && tempDirs[..|startDirs|] == startDirs
        invariant RanInOrder(files, jobs[..i], tempDirs[|startDirs|..], states, statuses)
        invariant states[0] == old(results) && states[i] == results
        invariant log == start + RunSteps(jobs[..i])
        invariant Distinct(startDirs) ==> Distinct(tempDirs)
      {
        RunStepsStep(start, jobs, i);
        ghost var before := tempDirs;
        ghost var beforeResults := results;
        if Distinct(before) {
          DistinctAfterFresh(before);
        }
        var s := Run(jobs[i]);
        assert (results, s) == RunOutcome(files, beforeResults, FreshTemp(before), jobs[i]);
        RanInOrderStep(files, jobs[..i], before[|startDirs|..], states, statuses, jobs[i], FreshTemp(before), results, s);
        assert jobs[..i + 1] == jobs[..i] + [jobs[i]];
        assert tempDirs[|startDirs|..] == before[|startDirs|..] + [FreshTemp(before)];
        FirstRaisedAppend(statuses, s);
        if status == Completed && s.Raised? {
          status := s;
        }
        statuses := statuses + [s];
        states := states + [results];
        i := i + 1;
      }
      assert jobs[..i] == jobs;
    }

    /** The loop over the instructor tests: one job per non-`README` test. */
    method CollectTests(entries: seq<WalkEntry>, code: string, commonDir: string) returns (jobs: seq<Job>)
      ensures jobs == TestJobs(entries, code, commonDir)
    {
      jobs := [];
      var i := 0;
      while i < |entries|
        invariant 0 <= i <= |entries|
        invariant jobs == TestJobs(entries[..i], code, commonDir)
      {
        var e := entries[i];
        assert entries[..i + 1] == entries[..i] + [e];
        TestJobsAppend(entries[..i], [e], code, commonDir);
        TestEntryJob(e, code, commonDir);
        if e.name != "README" {
          jobs := jobs + [Job(code, Join(e.root, e.name), commonDir)];
        }
        i := i + 1;
      }
      assert entries[..i] == entries;
    }

    /** One wheat or chaff: unless it is `README`, fix its imports and queue its job. */
    method CollectImpl(e: WalkEntry, studentTests: string, commonDir: string) returns (status: Status, jobs: seq<Job>)
      modifies this
      ensures (files, status) == Perform(FixOutcome, old(files), FixSteps(ImplJobs([e], studentTests, commonDir)))
      ensures var one := ImplJobs([e], studentTests, commonDir);
        DidPartOf(old(log), log, FixSteps(one)) && (status == Completed ==> jobs == one && log == old(log) + FixSteps(one))
      ensures results == old(results) && tempDirs == old(tempDirs)
    {
      ImplEntryJob(e, studentTests, commonDir);
      ghost var start := log;
      if e.name == "README" {
        assert start + [] == start;
        DidAll(start, []);
        return Completed, [];
      }
      var impl := Join(e.root, e.name);
      jobs := [Job(impl, studentTests, commonDir)];
      assert FixSteps(jobs) == [ImplFix(impl)];
      ghost var f0 := files;
      status := FixImports(impl, impl, Dirname(impl));
      assert (files, status) == FixOutcome(f0, ImplFix(impl));
      PerformOne(FixOutcome, f0, ImplFix(impl));
      if status.Completed? {
        DidAll(start, FixSteps(jobs));
      } else {
        DidNothing(start, FixSteps(jobs));
      }
    }

    /** The loop over wheats or chaffs: fix each implementation's imports and queue its job, stopping at the first exception. */
    method CollectImpls(entries: seq<WalkEntry>, studentTests: string, commonDir: string) returns (status: Status, jobs: seq<Job>)
      modifies this
      ensures (files, status) == Perform(FixOutcome, old(files), FixSteps(ImplJobs(entries, studentTests, commonDir)))
      ensures DidPartOf(old(log), log, FixSteps(ImplJobs(entries, studentTests, commonDir)))
      ensures status == Completed ==>
        (jobs == ImplJobs(entries, studentTests, commonDir)
         && log == old(log) + FixSteps(ImplJobs(entries, studentTests, commonDir)))
      ensures results == old(results) && tempDirs == old(tempDirs)
    {
      ghost var start := log;
      ghost var f0 := files;
      jobs := [];
      var i := 0;
      while i < |entries|
        invariant 0 <= i <= |entries| && results == old(results) && tempDirs == old(tempDirs)
        invariant jobs == ImplJobs(entries[..i], studentTests, commonDir)
        invariant log == start + FixSteps(ImplJobs(entries[..i], studentTests, commonDir))
        invariant Perform(FixOutcome, f0, FixSteps(ImplJobs(entries[..i], studentTests, commonDir))) == (files, Completed)
      {
        ghost var done := FixSteps(ImplJobs(entries[..i], studentTests, commonDir));
        ghost var one := FixSteps(ImplJobs([entries[i]], studentTests, commonDir));
        ghost var rest := FixSteps(ImplJobs(entries[i + 1..], studentTests, commonDir));
        CollectStep(start, entries, i, studentTests, commonDir);
        PerformAppend(FixOutcome, f0, done, one);
        var more;
        status, more := CollectImpl(entries[i], studentTests, commonDir);
        if status.Raised? {
          PerformAppend(FixOutcome, f0, done + one, rest);
          DidAfter(start, done, log, one);
          DidExtend(start, log, done + one, rest);
          return;
        }
        jobs := jobs + more;
        i := i + 1;
      }
      assert entries[..i] == entries;
      DidAll(start, FixSteps(ImplJobs(entries, studentTests, commonDir)));
      status := Completed;
    }

    /** Fixing the imports of the student's common file, then of their code; a missing file raises. */
    method FixStudentFiles(student: StudentFiles) returns (status: Status)
      modifies this
      ensures (files, status) == Perform(FixOutcome, old(files), StudentFixes(student))
      ensures status == Completed <==> student.common in old(files) && student.code in old(files)
      ensures var steps := StudentFixes(student);
        DidPartOf(old(log), log, steps) && (status == Completed ==> log == old(log) + steps)
      ensures results == old(results) && tempDirs == old(tempDirs)
    {
      ghost var steps := StudentFixes(student);
      ghost var start := log;
      ghost var f0 := files;
      status := FixImports(student.common, student.code, Submission);
      assert (files, status) == FixOutcome(f0, steps[0]);
      assert steps == [steps[0]] + [steps[1]];
      PerformAppend(FixOutcome, f0, [steps[0]], [steps[1]]);
      PerformOne(FixOutcome, f0, steps[0]);
      if status.Completed? {
        ghost var f1 := files;
        status := FixImports(student.code, student.code, Submission);
        assert (files, status) == FixOutcome(f1, steps[1]);
        PerformOne(FixOutcome, f1, steps[1]);
        if status.Completed? {
          assert log == start + steps;
          DidAll(start, steps);
        } else {
          assert log == start + steps[..1];
        }
      } else {
        DidNothing(start, steps);
      }
    }

    /** The wheat loop, then the chaff loop. */
    method CollectAllImpls(wheats: seq<WalkEntry>, chaffs: seq<WalkEntry>, studentTests: string, commonDir: string)
      returns (status: Status, jobs: seq<Job>)
      modifies this
      ensures (files, status) == Perform(FixOutcome, old(files), ImplFixes(wheats, chaffs, studentTests, commonDir))
      ensures DidPartOf(old(log), log, ImplFixes(wheats, chaffs, studentTests, commonDir))
      ensures status == Completed ==>
        (jobs == ImplJobs(wheats, studentTests, commonDir) + ImplJobs(chaffs, studentTests, commonDir)
         && log == old(log) + ImplFixes(wheats, chaffs, studentTests, commonDir))
      ensures results == old(results) && tempDirs == old(tempDirs)
    {
      ghost var fw := FixSteps(ImplJobs(wheats, studentTests, commonDir));
      ghost var fc := FixSteps(ImplJobs(chaffs, studentTests, commonDir));
      ghost var start := log;
      PerformAppend(FixOutcome, files, fw, fc);
      var wheatJobs, chaffJobs;
      jobs := [];
      status, wheatJobs := CollectImpls(wheats, studentTests, commonDir);
      if status.Raised? {
        DidExtend(start, log, fw, fc);
        return;
      }
      status, chaffJobs := CollectImpls(chaffs, studentTests, commonDir);
      DidAfter(start, fw, log, fc);
      jobs := wheatJobs + chaffJobs;
    }

    /**
     * The fixes and the job list: the student's two files, then the test
     * jobs, then each wheat and each chaff fixed and queued.
     */
    method BuildJobs(student: StudentFiles, tests: seq<WalkEntry>, wheats: seq<WalkEntry>, chaffs: seq<WalkEntry>)
      returns (status: Status, jobs: seq<Job>)
      modifies this
      ensures (files, status) == Perform(FixOutcome, old(files), FixStage(student, wheats, chaffs))
      ensures DidPartOf(old(log), log, FixStage(student, wheats, chaffs))
      ensures status == Completed ==>
        (jobs == JobList(tests, wheats, chaffs, student.code, student.tests, Dirname(student.common))
         && log == old(log) + FixStage(student, wheats, chaffs))
      ensures results == old(results) && tempDirs == old(tempDirs)
    {
      var commonDir := Dirname(student.common);
      ghost var head := StudentFixes(student);
      ghost var rest := ImplFixes(wheats, chaffs, student.tests, commonDir);
      ghost var start := log;
      PerformAppend(FixOutcome, files, head, rest);
      jobs := [];
      status := FixStudentFiles(student);
      if status.Raised? {
        DidExtend(start, log, head, rest);
        return;
      }
      var testJobs := CollectTests(tests, student.code, commonDir);
      var implJobs;
      status, implJobs := CollectAllImpls(wheats, chaffs, student.tests, commonDir);
      DidAfter(start, head, log, rest);
      jobs := testJobs + implJobs;
      if status.Completed? {
        Regroup(start, head, rest, []);
        JobListSplit(tests, wheats, chaffs, student.code, student.tests, commonDir);
      }
    }

    /**
     * How `__main__` ends once the student's files are found, from the files,
     * job directories and cache directories it started with. The fix stage
     * stops at its first missing file, before any job runs. Otherwise every job
     * of the job list runs in order, each on what the one before it left, and
     * the first exception among them is re-raised.
     */
    ghost predicate GradedFrom(files0: map<string, string>, results0: map<string, JobDir>, tempDirs0: seq<string>,
      student: StudentFiles, tests: seq<WalkEntry>, wheats: seq<WalkEntry>, chaffs: seq<WalkEntry>,
      status: Status, statuses: seq<Status>, states: seq<map<string, JobDir>>)
      reads this
    {
      var fixed := Perform(FixOutcome, files0, FixStage(student, wheats, chaffs));
      var jobs := JobList(tests, wheats, chaffs, student.code, student.tests, Dirname(student.common));
      files == fixed.0
      && (fixed.1.Raised? ==> status == fixed.1 && results == results0 && tempDirs == tempDirs0)
      && (fixed.1 == Completed ==>
            status == FirstRaised(statuses)
            && |tempDirs| == |tempDirs0| + |jobs| && tempDirs[..|tempDirs0|] == tempDirs0
            && RanInOrder(files, jobs, tempDirs[|tempDirs0|..], states, statuses)
            && states[0] == results0 && states[|jobs|] == results)
    }

    /** The fix stage raised, so no job ran. */
    lemma GradedAfterFailedFix(files0: map<string, string>, results0: map<string, JobDir>, tempDirs0: seq<string>,
      log0: seq<Step>, student: StudentFiles, tests: seq<WalkEntry>, wheats: seq<WalkEntry>, chaffs: seq<WalkEntry>,
      status: Status, statuses: seq<Status>, states: seq<map<string, JobDir>>)
      requires (files, status) == Perform(FixOutcome, files0, FixStage(student, wheats, chaffs)) && status.Raised?
      requires results == results0 && tempDirs == tempDirs0 && DidPartOf(log0, log, FixStage(student, wheats, chaffs))
      ensures GradedFrom(files0, results0, tempDirs0, student, tests, wheats, chaffs, status, statuses, states)
      ensures LoggedFrom(files0, log0, student, tests, wheats, chaffs, status)
    {
    }

    /** The fix stage completed, and the job list ran. */
    lemma GradedAfterJobs(files0: map<string, string>, results0: map<string, JobDir>, tempDirs0: seq<string>,
      log0: seq<Step>, student: StudentFiles, tests: seq<WalkEntry>, wheats: seq<WalkEntry>, chaffs: seq<WalkEntry>,
      status: Status, statuses: seq<Status>, states: seq<map<string, JobDir>>)
      requires Perform(FixOutcome, files0, FixStage(student, wheats, chaffs)) == (files, Completed)
      requires var jobs := JobList(tests, wheats, chaffs, student.code, student.tests, Dirname(student.common));
        status == FirstRaised(statuses)
        && |tempDirs| == |tempDirs0| + |jobs| && tempDirs[..|tempDirs0|] == tempDirs0
        && RanInOrder(files, jobs, tempDirs[|tempDirs0|..], states, statuses)
        && states[0] == results0 && states[|jobs|] == results
        && log == log0 + FixStage(student, wheats, chaffs) + RunSteps(jobs)
      ensures GradedFrom(files0, results0, tempDirs0, student, tests, wheats, chaffs, status, statuses, states)
      ensures LoggedFrom(files0, log0, student, tests, wheats, chaffs, status)
    {
      Regroup(log0, FixStage(student, wheats, chaffs),
        RunSteps(JobList(tests, wheats, chaffs, student.code, student.tests, Dirname(student.common))), []);
    }

    /**
     * The steps `__main__` takes once the student's files are found: the
     * whole plan when the fix stage completes, and otherwise part of the fix
     * stage, ending in the exception it raised.
     */
    ghost predicate LoggedFrom(files0: map<string, string>, log0: seq<Step>,
      student: StudentFiles, tests: seq<WalkEntry>, wheats: seq<WalkEntry>, chaffs: seq<WalkEntry>, status: Status)
      reads this
    {
      if Perform(FixOutcome, files0, FixStage(student, wheats, chaffs)).1 == Completed
      then log == log0 + PlannedSteps(student, tests, wheats, chaffs)
      else status.Raised? && DidPartOf(log0, log, FixStage(student, wheats, chaffs))
    }

    /**
     * What `__main__` does once the student's files are found. Either every
     * planned step happens, or the script stopped while fixing imports,
     * before any job ran.
     */
    method GradeStudent(student: StudentFiles, tests: seq<WalkEntry>, wheats: seq<WalkEntry>, chaffs: seq<WalkEntry>)
      returns (status: Status, ghost statuses: seq<Status>, ghost states: seq<map<string, JobDir>>)
      modifies this
      ensures GradedFrom(old(files), old(results), old(tempDirs), student, tests, wheats, chaffs, status, statuses, states)
      ensures LoggedFrom(old(files), old(log), student, tests, wheats, chaffs, status)
      ensures Distinct(old(tempDirs)) ==> Distinct(tempDirs)
    {
      ghost var files0, results0, tempDirs0, log0 := files, results, tempDirs, log;
      var jobs;
      statuses, states := [], [];
      status, jobs := BuildJobs(student, tests, wheats, chaffs);
      if status.Raised? {
        GradedAfterFailedFix(files0, results0, tempDirs0, log0, student, tests, wheats, chaffs, status, statuses, states);
        return;
      }
      var ran;
      status, ran, states := RunAll(jobs);
      statuses := ran;
      GradedAfterJobs(files0, results0, tempDirs0, log0, student, tests, wheats, chaffs, status, statuses, states);
    }

    /** `__main__`: clear the results directory, find the student's files, and grade them. */
    method Grade(submission: seq<WalkEntry>, tests: seq<WalkEntry>, wheats: seq<WalkEntry>, chaffs: seq<WalkEntry>)
      returns (status: Status, ghost statuses: seq<Status>, ghost states: seq<map<string, JobDir>>)
      modifies this
      ensures StudentFilesOf(submission).None? ==>
        status == Raised(AssertionFailed) && files == old(files) && results == map[] && tempDirs == old(tempDirs)
        && log == old(log)
      ensures StudentFilesOf(submission).Some? ==>
        var student := StudentFilesOf(submission).value;
        GradedFrom(old(files), map[], old(tempDirs), student, tests, wheats, chaffs, status, statuses, states)
        && LoggedFrom(old(files), old(log), student, tests, wheats, chaffs, status)
      ensures Distinct(old(tempDirs)) ==> Distinct(tempDirs)
    {
      statuses, states := [], [];
      results := map[];
      var found := Discover(submission);
      if found.None? {
        return Raised(AssertionFailed), [], [];
      }
      status, statuses, states := GradeStudent(found.value, tests, wheats, chaffs);
    }
  }
}
