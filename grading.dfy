/**
 * What the two runner scripts share: the job list built from directory walks,
 * the discovery of the student's files, job directory names, and the abstract
 * outcomes of the Pyret compiler, the test runner and jq.
 */
module Grading {
  import opened Wrappers
  import opened Strings
  import opened Paths
  import opened Evaluations

  /** One grading job: an implementation, a test suite, and the directory of the common file. */
  datatype Job = Job(code: string, test: string, commonDir: string)

  /** A file `name` found by `os.walk` in directory `root`. */
  datatype WalkEntry = WalkEntry(root: string, name: string)

  /** The compiler's run: exit status, what it wrote to stderr, and whether `tests.js` came out nonempty. */
  datatype Compiled = Compiled(exitCode: int, stderr: string, artifactNonEmpty: bool)

  /** The test runner's stdout: nothing, or the JSON array of test blocks. */
  datatype Stdout = Silent | Json(blocks: seq<TestBlock>)

  /** The test runner's run: exit status, stdout and stderr. */
  datatype Executed = Executed(exitCode: int, stdout: Stdout, stderr: string)

  /** The exceptions that end a job or the whole script. */
  datatype Exception =
    | FileExists(path: string)           // `os.mkdir` on an existing job directory
    | FileNotFound(path: string)         // reading a file that is not there
    | ProcessFailed(exitCode: int)       // `subprocess.run(.., check=True)` on a nonzero exit
    | AssertionFailed                    // a student file was not found

  datatype Status = Completed | Raised(exception: Exception)

  /**
   * A job directory: `tests.arr` after import fixing, the records written to
   * `results.json` in order, `error.txt` (None once removed), `raw.json` (None
   * if never created), and whether `tests.js` is present.
   */
  datatype JobDir = JobDir(tests: string, results: seq<Evaluation>, errorLog: Option<string>,
                           raw: Option<Stdout>, artifact: bool)

  /** An event of a grading run: `fix_imports(path, code, common_dir)`, or a job run. */
  datatype Step = FixedImports(path: string, code: string, commonDir: string) | RanJob(job: Job)

  /** The directory name of a job: `basename(code);basename(test)`. */
  function JobName(code: string, test: string): string
  {
    Basename(code) + ";" + Basename(test)
  }

  /** Two implementations with the same file name in different directories get the same job directory. */
  lemma JobNamesCollide(dir1: string, dir2: string, name: string, test: string)
    requires '/' !in name
    ensures JobName(Join(dir1, name), test) == JobName(Join(dir2, name), test)
  {
    BasenameOfJoin(dir1, name);
    BasenameOfJoin(dir2, name);
  }

  /** The block `loc`s kept by the jq filter `map(select(.loc | contains("tests.arr")))`. */
  function TestsArrBlocks(blocks: seq<TestBlock>): (r: seq<TestBlock>)
    ensures |r| <= |blocks|
    ensures forall i :: 0 <= i < |r| ==> r[i] in blocks && HasSubstring(r[i].loc, "tests.arr")
    ensures forall i :: 0 <= i < |blocks| && HasSubstring(blocks[i].loc, "tests.arr") ==> blocks[i] in r
    decreases |blocks|
  {
    if blocks == [] then []
    else if HasSubstring(blocks[0].loc, "tests.arr") then [blocks[0]] + TestsArrBlocks(blocks[1..])
    else TestsArrBlocks(blocks[1..])
  }

  /** The jq filter keeps the blocks in their order: it works block by block. */
  lemma {:induction false} TestsArrBlocksAppend(a: seq<TestBlock>, b: seq<TestBlock>)
    ensures TestsArrBlocks(a + b) == TestsArrBlocks(a) + TestsArrBlocks(b)
    decreases |a|
  {
    if a == [] {
      assert a + b == b;
    } else {
      assert (a + b)[0] == a[0] && (a + b)[1..] == a[1..] + b;
      TestsArrBlocksAppend(a[1..], b);
    }
  }

  /** A single block is kept exactly when its `loc` mentions `tests.arr`. */
  lemma TestsArrBlocksOne(b: TestBlock)
    ensures TestsArrBlocks([b]) == if HasSubstring(b.loc, "tests.arr") then [b] else []
  {
    assert [b][1..] == [];
  }

  /** The error a nonempty `error.txt` is classified as. */
  function ErrorClass(log: string): (r: Error)
    ensures r == OutOfMemory || r == Runtime
    ensures r == OutOfMemory <==> exists i: nat :: OccursAt(log, "memory", i)
  {
    HasSubstringIff(log, "memory");
    if HasSubstring(log, "memory") then OutOfMemory else Runtime
  }

  // ---------------------------------------------------------------------------
  // The job list

  /** Instructor tests against the student's code, skipping `README`, in walk order. */
  function TestJobs(entries: seq<WalkEntry>, code: string, commonDir: string): seq<Job>
    decreases |entries|
  {
    if entries == [] then []
    else
      var e := entries[0];
      var rest := TestJobs(entries[1..], code, commonDir);
      if e.name == "README" then rest else [Job(code, Join(e.root, e.name), commonDir)] + rest
  }

  /** There is a test job for exactly the walked files other than `README`. */
  lemma {:induction false} TestJobsMembers(entries: seq<WalkEntry>, code: string, commonDir: string)
    ensures forall j :: (j in TestJobs(entries, code, commonDir)
      <==> exists e :: e in entries && e.name != "README" && j == Job(code, Join(e.root, e.name), commonDir))
    decreases |entries|
  {
    if entries != [] {
      TestJobsMembers(entries[1..], code, commonDir);
      assert forall x :: x in entries <==> x == entries[0] || x in entries[1..];
    }
  }

  /** Wheats or chaffs against the student's tests, skipping `README`, in walk order. */
  function ImplJobs(entries: seq<WalkEntry>, studentTests: string, commonDir: string): seq<Job>
    decreases |entries|
  {
    if entries == [] then []
    else
      var e := entries[0];
      var rest := ImplJobs(entries[1..], studentTests, commonDir);
      if e.name == "README" then rest else [Job(Join(e.root, e.name), studentTests, commonDir)] + rest
  }

  /** There is a wheat or chaff job for exactly the walked files other than `README`. */
  lemma {:induction false} ImplJobsMembers(entries: seq<WalkEntry>, studentTests: string, commonDir: string)
    ensures forall j :: (j in ImplJobs(entries, studentTests, commonDir)
      <==> exists e :: e in entries && e.name != "README" && j == Job(Join(e.root, e.name), studentTests, commonDir))
    decreases |entries|
  {
    if entries != [] {
      ImplJobsMembers(entries[1..], studentTests, commonDir);
      assert forall x :: x in entries <==> x == entries[0] || x in entries[1..];
    }
  }

  /** The number of walk entries that are not `README`. */
  function Counted(entries: seq<WalkEntry>): nat
    decreases |entries|
  {
    if entries == [] then 0 else (if entries[0].name == "README" then 0 else 1) + Counted(entries[1..])
  }

  /** Every job list has one job per walked file other than `README`. */
  lemma {:induction false} JobCounts(entries: seq<WalkEntry>, a: string, b: string)
    ensures |TestJobs(entries, a, b)| == Counted(entries) == |ImplJobs(entries, a, b)|
    decreases |entries|
  {
    if entries != [] {
      JobCounts(entries[1..], a, b);
    }
  }

  /** All jobs, in the order the scripts queue them: instructor tests, then wheats, then chaffs. */
  function JobList(tests: seq<WalkEntry>, wheats: seq<WalkEntry>, chaffs: seq<WalkEntry>,
                   code: string, studentTests: string, commonDir: string): seq<Job>
  {
    TestJobs(tests, code, commonDir) + ImplJobs(wheats, studentTests, commonDir) + ImplJobs(chaffs, studentTests, commonDir)
  }

  /** The job list is the test jobs, then the jobs of every wheat and every chaff. */
  lemma JobListSplit(tests: seq<WalkEntry>, wheats: seq<WalkEntry>, chaffs: seq<WalkEntry>,
                     code: string, studentTests: string, commonDir: string)
    ensures JobList(tests, wheats, chaffs, code, studentTests, commonDir)
         == TestJobs(tests, code, commonDir) + (ImplJobs(wheats, studentTests, commonDir) + ImplJobs(chaffs, studentTests, commonDir))
  {
  }

  /** The job list has one job per non-`README` file of the three walks. */
  lemma JobListLength(tests: seq<WalkEntry>, wheats: seq<WalkEntry>, chaffs: seq<WalkEntry>,
                      code: string, studentTests: string, commonDir: string)
    ensures |JobList(tests, wheats, chaffs, code, studentTests, commonDir)|
      == Counted(tests) + Counted(wheats) + Counted(chaffs)
  {
    JobCounts(tests, code, commonDir);
    JobCounts(wheats, studentTests, commonDir);
    JobCounts(chaffs, studentTests, commonDir);
  }

  // ---------------------------------------------------------------------------
  // Finding the student's files

  /** The path of the last walked file whose name contains `word`. */
  function LastWith(entries: seq<WalkEntry>, word: string): (r: Option<string>)
    ensures r.Some? <==> exists i :: 0 <= i < |entries| && HasSubstring(entries[i].name, word)
    decreases |entries|
  {
    if entries == [] then None
    else
      var n := |entries| - 1;
      if HasSubstring(entries[n].name, word) then Some(Join(entries[n].root, entries[n].name))
      else
        assert forall i :: 0 <= i < n ==> entries[..n][i] == entries[i];
        LastWith(entries[..n], word)
  }

  /** The path found is that of a matching file after which no walked file matches. */
  lemma {:induction false} LastWithIsLast(entries: seq<WalkEntry>, word: string)
    requires LastWith(entries, word).Some?
    ensures exists i :: (0 <= i < |entries| && HasSubstring(entries[i].name, word)
      && LastWith(entries, word).value == Join(entries[i].root, entries[i].name)
      && forall k :: i < k < |entries| ==> !HasSubstring(entries[k].name, word))
    decreases |entries|
  {
    var n := |entries| - 1;
    if HasSubstring(entries[n].name, word) {
      assert HasSubstring(entries[n].name, word) && LastWith(entries, word).value == Join(entries[n].root, entries[n].name);
    } else {
      var prefix := entries[..n];
      LastWithIsLast(prefix, word);
      var i :| 0 <= i < |prefix| && HasSubstring(prefix[i].name, word)
        && LastWith(prefix, word).value == Join(prefix[i].root, prefix[i].name)
        && forall k :: i < k < |prefix| ==> !HasSubstring(prefix[k].name, word);
      assert prefix[i] == entries[i];
      assert forall k :: i < k < |entries| ==> !HasSubstring(entries[k].name, word) by {
        forall k | i < k < |entries| ensures !HasSubstring(entries[k].name, word) {
          if k < n { assert prefix[k] == entries[k]; }
        }
      }
    }
  }

  /** The student's common, code and tests files. */
  datatype StudentFiles = StudentFiles(common: string, code: string, tests: string)

  /** What the discovery loop leaves once all three files are found. */
  function StudentFilesOf(entries: seq<WalkEntry>): Option<StudentFiles>
  {
    var common := LastWith(entries, "common");
    var code := LastWith(entries, "code");
    var tests := LastWith(entries, "tests");
    if common.Some? && code.Some? && tests.Some? then Some(StudentFiles(common.value, code.value, tests.value))
    else None
  }

  /**
   * The walk over the submission: each of the three checks keeps the last
   * file whose name contains its word, independently of the others. `None`
   * is the failed `assert`.
   */
  method Discover(entries: seq<WalkEntry>) returns (r: Option<StudentFiles>)
    ensures r == StudentFilesOf(entries)
    ensures r.Some? <==> ((exists i :: 0 <= i < |entries| && HasSubstring(entries[i].name, "common"))
      && (exists i :: 0 <= i < |entries| && HasSubstring(entries[i].name, "code"))
      && (exists i :: 0 <= i < |entries| && HasSubstring(entries[i].name, "tests")))
  {
    var common: Option<string> := None;
    var code: Option<string> := None;
    var tests: Option<string> := None;
    var i := 0;
    while i < |entries|
      invariant 0 <= i <= |entries|
      invariant common == LastWith(entries[..i], "common")
      invariant code == LastWith(entries[..i], "code")
      invariant tests == LastWith(entries[..i], "tests")
    {
      var e := entries[i];
      assert entries[..i + 1][..i] == entries[..i] && entries[..i + 1][i] == e;
      if HasSubstring(e.name, "common") {
        common := Some(Join(e.root, e.name));
      }
      if HasSubstring(e.name, "code") {
        code := Some(Join(e.root, e.name));
      }
      if HasSubstring(e.name, "tests") {
        tests := Some(Join(e.root, e.name));
      }
      i := i + 1;
    }
    assert entries[..i] == entries;
    if common.Some? && code.Some? && tests.Some? {
      r := Some(StudentFiles(common.value, code.value, tests.value));
    } else {
      r := None;
    }
  }

  // ---------------------------------------------------------------------------
  // Job directories, records and the order of a run

  const AutograderRoot: string := "/autograder"
  const ResultsDir: string := AutograderRoot + "/results"
  const Submission: string := AutograderRoot + "/submission"

  /** `fix_imports(impl, impl, dirname(impl))`: how both scripts fix a wheat or chaff. */
  function ImplFix(impl: string): Step
  {
    FixedImports(impl, impl, Dirname(impl))
  }

  /** The fixes of the student's files: the common file, then the code, both against the submission directory. */
  function StudentFixes(student: StudentFiles): seq<Step>
  {
    [FixedImports(student.common, student.code, Submission), FixedImports(student.code, student.code, Submission)]
  }

  /** The job's directory: `RESULTS/<job name>`. */
  function JobPath(job: Job): string
  {
    ResultsDir + "/" + JobName(job.code, job.test)
  }

  /** Where the job's copy of the test suite lives; records name it as their `tests`. */
  function CopiedTests(job: Job): string
  {
    JobPath(job) + "/tests.arr"
  }

  /** The record `report_error` writes. */
  function ErrRecord(job: Job, e: Error): Evaluation
  {
    Evaluation(job.code, CopiedTests(job), Err(e))
  }

  /** The record jq writes from the runner's output. */
  function OkRecord(job: Job, blocks: seq<TestBlock>): Evaluation
  {
    Evaluation(job.code, CopiedTests(job), Ok(TestsArrBlocks(blocks)))
  }

  /** The compile step failed: the compiler exited nonzero or left no nonempty `tests.js`. */
  predicate CompileFailed(c: Compiled)
  {
    c.exitCode != 0 || !c.artifactNonEmpty
  }

  /** Running each job in turn. */
  function RunSteps(jobs: seq<Job>): seq<Step>
    decreases |jobs|
  {
    if jobs == [] then [] else [RanJob(jobs[0])] + RunSteps(jobs[1..])
  }

  lemma {:induction false} RunStepsAppend(a: seq<Job>, b: seq<Job>)
    ensures RunSteps(a + b) == RunSteps(a) + RunSteps(b)
    decreases |a|
  {
    if a == [] {
      assert a + b == b;
    } else {
      assert (a + b)[0] == a[0] && (a + b)[1..] == a[1..] + b;
      RunStepsAppend(a[1..], b);
    }
  }

  /** One more job run, after `start`. */
  lemma RunStepsStep(start: seq<Step>, jobs: seq<Job>, i: nat)
    requires i < |jobs|
    ensures start + RunSteps(jobs[..i + 1]) == start + RunSteps(jobs[..i]) + [RanJob(jobs[i])]
  {
    assert jobs[..i + 1] == jobs[..i] + [jobs[i]];
    RunStepsAppend(jobs[..i], [jobs[i]]);
    assert RunSteps([jobs[i]]) == [RanJob(jobs[i])];
    assert start + (RunSteps(jobs[..i]) + [RanJob(jobs[i])]) == start + RunSteps(jobs[..i]) + [RanJob(jobs[i])];
  }

  /** The jobs among some steps, in order. */
  function JobsRun(steps: seq<Step>): seq<Job>
    decreases |steps|
  {
    if steps == [] then []
    else (if steps[0].RanJob? then [steps[0].job] else []) + JobsRun(steps[1..])
  }

  /** Fixing the student's files runs no job. */
  lemma StudentFixesRunNothing(student: StudentFiles)
    ensures JobsRun(StudentFixes(student)) == []
  {
    var fixes := StudentFixes(student);
    assert fixes[1..][1..] == [];
    assert JobsRun(fixes[1..]) == JobsRun(fixes[1..][1..]);
  }

  lemma {:induction false} JobsRunAppend(a: seq<Step>, b: seq<Step>)
    ensures JobsRun(a + b) == JobsRun(a) + JobsRun(b)
    decreases |a|
  {
    if a == [] {
      assert a + b == b;
    } else {
      assert (a + b)[0] == a[0] && (a + b)[1..] == a[1..] + b;
      JobsRunAppend(a[1..], b);
    }
  }

  lemma {:induction false} JobsOfRunSteps(jobs: seq<Job>)
    ensures JobsRun(RunSteps(jobs)) == jobs
    decreases |jobs|
  {
    if jobs != [] {
      JobsRunAppend([RanJob(jobs[0])], RunSteps(jobs[1..]));
      JobsOfRunSteps(jobs[1..]);
    }
  }

  lemma {:induction false} TestJobsAppend(a: seq<WalkEntry>, b: seq<WalkEntry>, code: string, commonDir: string)
    ensures TestJobs(a + b, code, commonDir) == TestJobs(a, code, commonDir) + TestJobs(b, code, commonDir)
    decreases |a|
  {
    if a == [] {
      assert a + b == b;
    } else {
      assert (a + b)[0] == a[0] && (a + b)[1..] == a[1..] + b;
      TestJobsAppend(a[1..], b, code, commonDir);
    }
  }

  lemma {:induction false} ImplJobsAppend(a: seq<WalkEntry>, b: seq<WalkEntry>, tests: string, commonDir: string)
    ensures ImplJobs(a + b, tests, commonDir) == ImplJobs(a, tests, commonDir) + ImplJobs(b, tests, commonDir)
    decreases |a|
  {
    if a == [] {
      assert a + b == b;
    } else {
      assert (a + b)[0] == a[0] && (a + b)[1..] == a[1..] + b;
      ImplJobsAppend(a[1..], b, tests, commonDir);
    }
  }

  /** The steps of one instructor-test entry: none for `README`, else its run. */
  lemma TestEntrySteps(e: WalkEntry, code: string, commonDir: string)
    ensures RunSteps(TestJobs([e], code, commonDir))
      == if e.name == "README" then [] else [RanJob(Job(code, Join(e.root, e.name), commonDir))]
  {
    assert [e][1..] == [];
  }

  /**
   * One step of the test loop, after `start`: entry `i` adds its own steps to
   * those of the entries before it, and the entries after it finish the loop.
   */
  lemma TestStep(start: seq<Step>, entries: seq<WalkEntry>, i: nat, code: string, commonDir: string)
    requires i < |entries|
    ensures var done := RunSteps(TestJobs(entries[..i], code, commonDir));
      var one := RunSteps(TestJobs([entries[i]], code, commonDir));
      RunSteps(TestJobs(entries[..i + 1], code, commonDir)) == done + one
      && start + RunSteps(TestJobs(entries[..i + 1], code, commonDir)) == start + done + one
      && RunSteps(TestJobs(entries, code, commonDir)) == done + one + RunSteps(TestJobs(entries[i + 1..], code, commonDir))
  {
    var e := entries[i];
    assert entries[..i + 1] == entries[..i] + [e];
    assert entries[..i] + [e] + entries[i + 1..] == entries;
    TestJobsAppend(entries[..i], [e], code, commonDir);
    TestJobsAppend(entries[..i] + [e], entries[i + 1..], code, commonDir);
    var done := TestJobs(entries[..i], code, commonDir);
    var one := TestJobs([e], code, commonDir);
    var rest := TestJobs(entries[i + 1..], code, commonDir);
    RunStepsAppend(done, one);
    RunStepsAppend(done + one, rest);
    assert start + (RunSteps(done) + RunSteps(one)) == start + RunSteps(done) + RunSteps(one);
  }

  /**
   * The steps one after another, each by `step` on what the one before it
   * left, stopping at the first that raises: the scripts catch no exception.
   */
  function Perform<W>(step: (W, Step) -> (W, Status), w: W, steps: seq<Step>): (W, Status)
    decreases |steps|
  {
    if steps == [] then (w, Completed)
    else
      var first := step(w, steps[0]);
      if first.1.Raised? then first else Perform(step, first.0, steps[1..])
  }

  /** A plan of one step is that step. */
  lemma PerformOne<W>(step: (W, Step) -> (W, Status), w: W, s: Step)
    ensures Perform(step, w, [s]) == step(w, s)
  {
    assert [s][1..] == [];
  }

  /** Two plans in turn: the second starts, from where the first left off, only if the first completed. */
  lemma {:induction false} PerformAppend<W>(step: (W, Step) -> (W, Status), w: W, a: seq<Step>, b: seq<Step>)
    ensures Perform(step, w, a + b)
      == var r := Perform(step, w, a); if r.1.Raised? then r else Perform(step, r.0, b)
    decreases |a|
  {
    if a == [] {
      assert a + b == b;
    } else {
      assert (a + b)[0] == a[0] && (a + b)[1..] == a[1..] + b;
      var first := step(w, a[0]);
      if !first.1.Raised? {
        PerformAppend(step, first.0, a[1..], b);
      }
    }
  }

  /**
   * A plan that raises was stopped by one of its steps: every step before it
   * completed, and the exception and the final state are that step's.
   */
  lemma {:induction false} PerformRaisedAt<W>(step: (W, Step) -> (W, Status), w: W, steps: seq<Step>)
    requires Perform(step, w, steps).1.Raised?
    ensures exists k :: 0 <= k < |steps| && Perform(step, w, steps[..k]).1 == Completed
                        && step(Perform(step, w, steps[..k]).0, steps[k]) == Perform(step, w, steps)
    decreases |steps|
  {
    var first := step(w, steps[0]);
    if first.1.Raised? {
      assert steps[..0] == [];
    } else {
      PerformRaisedAt(step, first.0, steps[1..]);
      var k :| 0 <= k < |steps[1..]| && Perform(step, first.0, steps[1..][..k]).1 == Completed
        && step(Perform(step, first.0, steps[1..][..k]).0, steps[1..][k]) == Perform(step, first.0, steps[1..]);
      assert steps[..k + 1] == [steps[0]] + steps[1..][..k];
      PerformAppend(step, w, [steps[0]], steps[1..][..k]);
      PerformOne(step, w, steps[0]);
      assert steps[k + 1] == steps[1..][k];
    }
  }

  /** Conversely, a step that raises after every step before it completed stops the plan there. */
  lemma PerformRaisesFrom<W>(step: (W, Step) -> (W, Status), w: W, steps: seq<Step>, k: nat)
    requires k < |steps| && Perform(step, w, steps[..k]).1 == Completed
    requires step(Perform(step, w, steps[..k]).0, steps[k]).1.Raised?
    ensures Perform(step, w, steps) == step(Perform(step, w, steps[..k]).0, steps[k])
  {
    assert steps == steps[..k] + [steps[k]] + steps[k + 1..];
    PerformAppend(step, w, steps[..k] + [steps[k]], steps[k + 1..]);
    PerformAppend(step, w, steps[..k], [steps[k]]);
    PerformOne(step, Perform(step, w, steps[..k]).0, steps[k]);
  }

  /** A plan completes exactly when each of its steps completes on what the steps before it left. */
  lemma {:induction false} PerformCompletedIff<W>(step: (W, Step) -> (W, Status), w: W, steps: seq<Step>)
    ensures Perform(step, w, steps).1 == Completed
      <==> forall k :: 0 <= k < |steps| ==> step(Perform(step, w, steps[..k]).0, steps[k]).1 == Completed
    decreases |steps|
  {
    if steps != [] {
      var first := step(w, steps[0]);
      assert steps[..0] == [];
      if !first.1.Raised? {
        PerformCompletedIff(step, first.0, steps[1..]);
        forall k | 1 <= k <= |steps[1..]|
          ensures Perform(step, w, steps[..k]) == Perform(step, first.0, steps[1..][..k - 1])
        {
          assert steps[..k] == [steps[0]] + steps[1..][..k - 1];
          PerformAppend(step, w, [steps[0]], steps[1..][..k - 1]);
          PerformOne(step, w, steps[0]);
        }
        if Perform(step, w, steps).1 == Completed {
          forall k | 0 <= k < |steps|
            ensures step(Perform(step, w, steps[..k]).0, steps[k]).1 == Completed
          {
            if k > 0 {
              assert steps[k] == steps[1..][k - 1];
            }
          }
        }
      }
    }
  }

  /** `log` is `start` followed by the first steps of `plan`: a run that stops early has done only what was planned, in order. */
  ghost predicate DidPartOf<T>(start: seq<T>, log: seq<T>, plan: seq<T>)
  {
    exists k :: 0 <= k <= |plan| && log == start + plan[..k]
  }

  lemma DidNothing<T>(start: seq<T>, plan: seq<T>)
    ensures DidPartOf(start, start, plan)
  {
    assert start == start + plan[..0];
  }

  lemma DidAll<T>(start: seq<T>, plan: seq<T>)
    ensures DidPartOf(start, start + plan, plan)
  {
    assert plan == plan[..|plan|];
  }

  /** Part of a plan is part of any longer plan. */
  lemma DidExtend<T>(start: seq<T>, log: seq<T>, plan: seq<T>, more: seq<T>)
    requires DidPartOf(start, log, plan)
    ensures DidPartOf(start, log, plan + more)
  {
    var k :| 0 <= k <= |plan| && log == start + plan[..k];
    assert (plan + more)[..k] == plan[..k];
  }

  lemma Regroup<T>(a: seq<T>, b: seq<T>, c: seq<T>, d: seq<T>)
    ensures a + b + c == a + (b + c) && a + b + c + d == a + (b + c + d)
  {
  }

  /** Part of a stage, after the stages before it are done, is part of the stages together. */
  lemma DidAfter<T>(start: seq<T>, done: seq<T>, log: seq<T>, step: seq<T>)
    requires DidPartOf(start + done, log, step)
    ensures DidPartOf(start, log, done + step)
  {
    var k :| 0 <= k <= |step| && log == start + done + step[..k];
    assert (done + step)[..|done| + k] == done + step[..k];
    assert start + done + step[..k] == start + (done + step[..k]);
  }
}
