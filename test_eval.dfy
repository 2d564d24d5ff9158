/**
 * The post-processor's evaluation of a student's test suite: which wheats it
 * accepts, which chaffs it catches once the checks that fail on a wheat are
 * discounted, and the Gradescope report built from these and from the
 * functionality results.
 */
module TestEval {
  import opened Wrappers
  import opened Paths
  import opened SortedMap
  import opened Evaluations

  /** The `BTreeMap<Implementation, Result<Vec<TestBlock>, Error>>` handed to `summarize`. */
  type Results = seq<(string, Outcome)>

  datatype FailureReasons = FailureReasons(erroringBlocks: set<TestBlockMetadata>, failingTests: set<TestMetadata>)

  datatype TestSuiteEvaluation = TestSuiteEvaluation(
    wheatsAccepted: seq<(string, bool)>,
    chaffsRejected: seq<(string, bool)>,
    wheatFailureReasons: Option<FailureReasons>)

  // ---------------------------------------------------------------------------
  // Wheat verdicts and the checks they invalidate

  /** Every block runs without error and every test in it passes. */
  function AllBlocksPass(blocks: seq<TestBlock>): (r: bool)
    ensures r <==> forall i :: 0 <= i < |blocks| ==>
      !blocks[i].error && forall j :: 0 <= j < |blocks[i].tests| ==> blocks[i].tests[j].passed
    decreases |blocks|
  {
    if blocks == [] then true
    else !blocks[0].error && CountPassed(blocks[0].tests) == |blocks[0].tests| && AllBlocksPass(blocks[1..])
  }

  /** Some block errors or has a failing test. */
  function SomeBlockFails(blocks: seq<TestBlock>): (r: bool)
    ensures r <==> exists i :: (0 <= i < |blocks| &&
      (blocks[i].error || exists j :: 0 <= j < |blocks[i].tests| && !blocks[i].tests[j].passed))
    decreases |blocks|
  {
    if blocks == [] then false
    else blocks[0].error || CountPassed(blocks[0].tests) < |blocks[0].tests| || SomeBlockFails(blocks[1..])
  }

  /** A wheat is accepted when its suite ran and nothing in it failed. */
  function Accepted(o: Outcome): bool
  {
    match o
    case Ok(blocks) => AllBlocksPass(blocks)
    case Err(_) => false
  }

  /** A chaff is caught when its suite did not run, or something in it failed. */
  function Caught(o: Outcome): bool
  {
    match o
    case Ok(blocks) => SomeBlockFails(blocks)
    case Err(_) => true
  }

  /** On a suite that ran, catching is exactly not accepting. */
  lemma CaughtIffNotAccepted(blocks: seq<TestBlock>)
    ensures Caught(Ok(blocks)) <==> !Accepted(Ok(blocks))
  {
  }

  /** The metadata of the blocks that error. */
  function ErroringBlocks(blocks: seq<TestBlock>): (r: set<TestBlockMetadata>)
    ensures forall m :: m in r <==> exists i :: 0 <= i < |blocks| && blocks[i].error && BlockMeta(blocks[i]) == m
    decreases |blocks|
  {
    if blocks == [] then {}
    else (if blocks[0].error then {BlockMeta(blocks[0])} else {}) + ErroringBlocks(blocks[1..])
  }

  /** The metadata of the failing tests of one block. */
  function FailingTestsOf(tests: seq<Test>): (r: set<TestMetadata>)
    ensures forall m :: m in r <==> exists j :: 0 <= j < |tests| && !tests[j].passed && TestMeta(tests[j]) == m
    decreases |tests|
  {
    if tests == [] then {}
    else (if tests[0].passed then {} else {TestMeta(tests[0])}) + FailingTestsOf(tests[1..])
  }

  /** The metadata of the failing tests of all blocks. */
  function FailingTests(blocks: seq<TestBlock>): (r: set<TestMetadata>)
    ensures forall m :: m in r <==> exists i :: 0 <= i < |blocks| && m in FailingTestsOf(blocks[i].tests)
    decreases |blocks|
  {
    if blocks == [] then {}
    else FailingTestsOf(blocks[0].tests) + FailingTests(blocks[1..])
  }

  /** `invalid_blocks`: erroring blocks of the wheats whose suite ran (`flatten` skips the errors). */
  function InvalidBlocks(wheats: Results): (r: set<TestBlockMetadata>)
    ensures forall m :: m in r <==> exists i :: 0 <= i < |wheats| && wheats[i].1.Ok? && m in ErroringBlocks(wheats[i].1.value)
    decreases |wheats|
  {
    if wheats == [] then {}
    else (if wheats[0].1.Ok? then ErroringBlocks(wheats[0].1.value) else {}) + InvalidBlocks(wheats[1..])
  }

  /** `invalid_tests`: failing tests of the wheats whose suite ran. */
  function InvalidTests(wheats: Results): (r: set<TestMetadata>)
    ensures forall m :: m in r <==> exists i :: 0 <= i < |wheats| && wheats[i].1.Ok? && m in FailingTests(wheats[i].1.value)
    decreases |wheats|
  {
    if wheats == [] then {}
    else (if wheats[0].1.Ok? then FailingTests(wheats[0].1.value) else {}) + InvalidTests(wheats[1..])
  }

  /** Invalid blocks and tests exist exactly when some wheat whose suite ran is not accepted. */
  lemma {:induction false} InvalidIffWheatFails(wheats: Results)
    ensures InvalidBlocks(wheats) != {} || InvalidTests(wheats) != {}
      <==> exists i :: 0 <= i < |wheats| && wheats[i].1.Ok? && !Accepted(wheats[i].1)
  {
    if exists i :: 0 <= i < |wheats| && wheats[i].1.Ok? && !Accepted(wheats[i].1) {
      var i :| 0 <= i < |wheats| && wheats[i].1.Ok? && !Accepted(wheats[i].1);
      var blocks := wheats[i].1.value;
      var b :| 0 <= b < |blocks| && (blocks[b].error || exists j :: 0 <= j < |blocks[b].tests| && !blocks[b].tests[j].passed);
      if blocks[b].error {
        assert BlockMeta(blocks[b]) in ErroringBlocks(blocks);
        assert BlockMeta(blocks[b]) in InvalidBlocks(wheats);
      } else {
        var j :| 0 <= j < |blocks[b].tests| && !blocks[b].tests[j].passed;
        assert TestMeta(blocks[b].tests[j]) in FailingTestsOf(blocks[b].tests);
        assert TestMeta(blocks[b].tests[j]) in FailingTests(blocks);
        assert TestMeta(blocks[b].tests[j]) in InvalidTests(wheats);
      }
    }
    if InvalidBlocks(wheats) != {} {
      var m :| m in InvalidBlocks(wheats);
      var i :| 0 <= i < |wheats| && wheats[i].1.Ok? && m in ErroringBlocks(wheats[i].1.value);
      assert !Accepted(wheats[i].1);
    }
    if InvalidTests(wheats) != {} {
      var m :| m in InvalidTests(wheats);
      var i :| 0 <= i < |wheats| && wheats[i].1.Ok? && m in FailingTests(wheats[i].1.value);
      var b :| 0 <= b < |wheats[i].1.value| && m in FailingTestsOf(wheats[i].1.value[b].tests);
      assert !Accepted(wheats[i].1);
    }
  }

  // ---------------------------------------------------------------------------
  // Discounting invalid checks in the chaff results

  /** The last `/`-separated part of each invalid block's location (`rsplit('/').next()`). */
  function BlockLocNames(invalid: set<TestBlockMetadata>): (r: set<string>)
    ensures forall m :: m in invalid ==> Basename(m.loc) in r
    ensures forall n :: n in r ==> exists m :: m in invalid && Basename(m.loc) == n
  {
    set m | m in invalid :: Basename(m.loc)
  }

  /** The last `/`-separated part of each invalid test's location. */
  function TestLocNames(invalid: set<TestMetadata>): (r: set<string>)
    ensures forall m :: m in invalid ==> Basename(m.loc) in r
    ensures forall n :: n in r ==> exists m :: m in invalid && Basename(m.loc) == n
  {
    set m | m in invalid :: Basename(m.loc)
  }

  /** The blocks whose location does not end like a dropped one, in their order. */
  function KeptBlocks(blocks: seq<TestBlock>, dropped: set<string>): (r: seq<TestBlock>)
    ensures |r| <= |blocks|
    ensures forall i :: 0 <= i < |r| ==> r[i] in blocks && Basename(r[i].loc) !in dropped
    ensures forall i :: 0 <= i < |blocks| && Basename(blocks[i].loc) !in dropped ==> blocks[i] in r
    decreases |blocks|
  {
    if blocks == [] then []
    else if Basename(blocks[0].loc) in dropped then KeptBlocks(blocks[1..], dropped)
    else [blocks[0]] + KeptBlocks(blocks[1..], dropped)
  }

  /** The tests whose location does not end like a dropped one, in their order. */
  function KeptTests(tests: seq<Test>, dropped: set<string>): (r: seq<Test>)
    ensures |r| <= |tests|
    ensures forall j :: 0 <= j < |r| ==> r[j] in tests && Basename(r[j].loc) !in dropped
    ensures forall j :: 0 <= j < |tests| && Basename(tests[j].loc) !in dropped ==> tests[j] in r
    decreases |tests|
  {
    if tests == [] then []
    else if Basename(tests[0].loc) in dropped then KeptTests(tests[1..], dropped)
    else [tests[0]] + KeptTests(tests[1..], dropped)
  }

  /** Filtering blocks distributes over concatenation: it only removes, and keeps the order. */
  lemma {:induction false} KeptBlocksAppend(a: seq<TestBlock>, b: seq<TestBlock>, dropped: set<string>)
    ensures KeptBlocks(a + b, dropped) == KeptBlocks(a, dropped) + KeptBlocks(b, dropped)
    decreases |a|
  {
    if a == [] {
      assert a + b == b;
    } else {
      assert (a + b)[0] == a[0] && (a + b)[1..] == a[1..] + b;
      KeptBlocksAppend(a[1..], b, dropped);
    }
  }

  /** Filtering tests distributes over concatenation: it only removes, and keeps the order. */
  lemma {:induction false} KeptTestsAppend(a: seq<Test>, b: seq<Test>, dropped: set<string>)
    ensures KeptTests(a + b, dropped) == KeptTests(a, dropped) + KeptTests(b, dropped)
    decreases |a|
  {
    if a == [] {
      assert a + b == b;
    } else {
      assert (a + b)[0] == a[0] && (a + b)[1..] == a[1..] + b;
      KeptTestsAppend(a[1..], b, dropped);
    }
  }

  /** One more block looked at by the `retain` loop. */
  lemma KeptBlocksStep(blocks: seq<TestBlock>, i: nat, dropped: set<string>)
    requires i < |blocks|
    ensures KeptBlocks(blocks[..i + 1], dropped)
      == KeptBlocks(blocks[..i], dropped) + (if Basename(blocks[i].loc) in dropped then [] else [blocks[i]])
  {
    assert blocks[..i + 1] == blocks[..i] + [blocks[i]];
    KeptBlocksAppend(blocks[..i], [blocks[i]], dropped);
    assert [blocks[i]][1..] == [];
  }

  /** One more test looked at by the `retain` loop. */
  lemma KeptTestsStep(tests: seq<Test>, j: nat, dropped: set<string>)
    requires j < |tests|
    ensures KeptTests(tests[..j + 1], dropped)
      == KeptTests(tests[..j], dropped) + (if Basename(tests[j].loc) in dropped then [] else [tests[j]])
  {
    assert tests[..j + 1] == tests[..j] + [tests[j]];
    KeptTestsAppend(tests[..j], [tests[j]], dropped);
    assert [tests[j]][1..] == [];
  }

  /** A block with its tests filtered. */
  function WithKeptTests(b: TestBlock, droppedTests: set<string>): TestBlock
  {
    b.(tests := KeptTests(b.tests, droppedTests))
  }

  /** The chaff's blocks after both `retain` passes: blocks first, then the tests of the remaining blocks. */
  function FilterBlocks(blocks: seq<TestBlock>, droppedBlocks: set<string>, droppedTests: set<string>): (r: seq<TestBlock>)
  {
    var kept := KeptBlocks(blocks, droppedBlocks);
    seq(|kept|, i requires 0 <= i < |kept| => WithKeptTests(kept[i], droppedTests))
  }

  /** A chaff result after filtering; an error is left as it is. */
  function FilterOutcome(o: Outcome, droppedBlocks: set<string>, droppedTests: set<string>): Outcome
  {
    match o
    case Ok(blocks) => Ok(FilterBlocks(blocks, droppedBlocks, droppedTests))
    case Err(e) => Err(e)
  }

  /** A chaff block stays iff no invalid wheat block's location ends the same way. */
  lemma ChaffBlockKeptIff(blocks: seq<TestBlock>, invalid: set<TestBlockMetadata>, i: nat)
    requires i < |blocks|
    ensures blocks[i] in KeptBlocks(blocks, BlockLocNames(invalid))
      <==> !exists m :: m in invalid && Basename(m.loc) == Basename(blocks[i].loc)
  {
    var kept := KeptBlocks(blocks, BlockLocNames(invalid));
    if blocks[i] in kept {
      var k :| 0 <= k < |kept| && kept[k] == blocks[i];
      assert Basename(kept[k].loc) !in BlockLocNames(invalid);
    }
  }

  /** A chaff test stays iff no invalid wheat test's location ends the same way. */
  lemma ChaffTestKeptIff(tests: seq<Test>, invalid: set<TestMetadata>, j: nat)
    requires j < |tests|
    ensures tests[j] in KeptTests(tests, TestLocNames(invalid))
      <==> !exists m :: m in invalid && Basename(m.loc) == Basename(tests[j].loc)
  {
    var kept := KeptTests(tests, TestLocNames(invalid));
    if tests[j] in kept {
      var k :| 0 <= k < |kept| && kept[k] == tests[j];
      assert Basename(kept[k].loc) !in TestLocNames(invalid);
    }
  }

  /** A chaff whose every block is discounted is not caught. */
  lemma AllDiscountedNotCaught(blocks: seq<TestBlock>, droppedBlocks: set<string>, droppedTests: set<string>)
    requires forall i :: 0 <= i < |blocks| ==> Basename(blocks[i].loc) in droppedBlocks
    ensures !Caught(FilterOutcome(Ok(blocks), droppedBlocks, droppedTests))
  {
    NothingKept(blocks, droppedBlocks);
  }

  lemma {:induction false} NothingKept(blocks: seq<TestBlock>, dropped: set<string>)
    requires forall i :: 0 <= i < |blocks| ==> Basename(blocks[i].loc) in dropped
    ensures KeptBlocks(blocks, dropped) == []
    decreases |blocks|
  {
    if blocks != [] {
      NothingKept(blocks[1..], dropped);
    }
  }

  // ---------------------------------------------------------------------------
  // The `retain` loops

  /** `blocks.retain(..)`: drops the blocks whose location ends like a dropped one. */
  method RetainBlocks(blocks: seq<TestBlock>, dropped: set<string>) returns (kept: seq<TestBlock>)
    ensures kept == KeptBlocks(blocks, dropped)
  {
    kept := [];
    var i := 0;
    while i < |blocks|
      invariant 0 <= i <= |blocks|
      invariant kept == KeptBlocks(blocks[..i], dropped)
    {
      KeptBlocksStep(blocks, i, dropped);
      if Basename(blocks[i].loc) !in dropped {
        kept := kept + [blocks[i]];
      }
      i := i + 1;
    }
    assert blocks[..i] == blocks;
  }

  /** `block.tests.retain(..)`: drops the tests whose location ends like a dropped one. */
  method RetainTests(tests: seq<Test>, dropped: set<string>) returns (kept: seq<Test>)
    ensures kept == KeptTests(tests, dropped)
  {
    kept := [];
    var j := 0;
    while j < |tests|
      invariant 0 <= j <= |tests|
      invariant kept == KeptTests(tests[..j], dropped)
    {
      KeptTestsStep(tests, j, dropped);
      if Basename(tests[j].loc) !in dropped {
        kept := kept + [tests[j]];
      }
      j := j + 1;
    }
    assert tests[..j] == tests;
  }

  /** `block.tests.retain(..)` on one block. */
  method FilterTestsOf(block: TestBlock, droppedTests: set<string>) returns (filtered: TestBlock)
    ensures filtered == WithKeptTests(block, droppedTests)
  {
    var tests := RetainTests(block.tests, droppedTests);
    filtered := block.(tests := tests);
  }

  /** Both `retain` passes over one chaff's blocks: the blocks first, then the tests of each remaining block. */
  method FilterChaff(blocks: seq<TestBlock>, droppedBlocks: set<string>, droppedTests: set<string>)
    returns (filtered: seq<TestBlock>)
    ensures filtered == FilterBlocks(blocks, droppedBlocks, droppedTests)
  {
    var kept := RetainBlocks(blocks, droppedBlocks);
    filtered := [];
    var b := 0;
    while b < |kept|
      invariant 0 <= b <= |kept| && |filtered| == b
      invariant forall k :: 0 <= k < b ==> filtered[k] == WithKeptTests(kept[k], droppedTests)
    {
      var block := FilterTestsOf(kept[b], droppedTests);
      filtered := filtered + [block];
      b := b + 1;
    }
  }

  /** One chaff result after both passes; an error is left as it is. */
  method FilterResult(result: Outcome, droppedBlocks: set<string>, droppedTests: set<string>) returns (filtered: Outcome)
    ensures filtered == FilterOutcome(result, droppedBlocks, droppedTests)
  {
    filtered := result;
    if result.Ok? {
      var blocks := FilterChaff(result.value, droppedBlocks, droppedTests);
      filtered := Ok(blocks);
    }
  }

  /** The loop over `chaffs.values_mut()`: each result that ran loses its discounted blocks and tests. */
  method FilterChaffs(chaffs: Results, droppedBlocks: set<string>, droppedTests: set<string>)
    returns (filtered: Results)
    ensures |filtered| == |chaffs|
    ensures forall i :: 0 <= i < |chaffs| ==>
      filtered[i] == (chaffs[i].0, FilterOutcome(chaffs[i].1, droppedBlocks, droppedTests))
  {
    filtered := [];
    var i := 0;
    while i < |chaffs|
      invariant 0 <= i <= |chaffs| && |filtered| == i
      invariant forall k :: 0 <= k < i ==>
        filtered[k] == (chaffs[k].0, FilterOutcome(chaffs[k].1, droppedBlocks, droppedTests))
    {
      var result := FilterResult(chaffs[i].1, droppedBlocks, droppedTests);
      filtered := filtered + [(chaffs[i].0, result)];
      i := i + 1;
    }
  }

  // ---------------------------------------------------------------------------
  // `summarize`

  /** What `summarize` computes from the wheat and chaff results. */
  function SummarySpec(results: Results): TestSuiteEvaluation
  {
    var wheats := Restrict(results, IsWheat);
    var invalidBlocks := InvalidBlocks(wheats);
    var invalidTests := InvalidTests(wheats);
    var chaffs := Restrict(results, IsChaff);
    var dropB := BlockLocNames(invalidBlocks);
    var dropT := TestLocNames(invalidTests);
    TestSuiteEvaluation(
      MapValues(wheats, Accepted),
      MapValues(chaffs, (o: Outcome) => Caught(FilterOutcome(o, dropB, dropT))),
      if invalidBlocks != {} || invalidTests != {} then Some(FailureReasons(invalidBlocks, invalidTests)) else None)
  }

  /** `summarize`, with the chaff results filtered by the `retain` loops. */
  method Summarize(results: Results) returns (e: TestSuiteEvaluation)
    ensures e == SummarySpec(results)
  {
    var wheats := Restrict(results, IsWheat);
    var invalidBlocks := InvalidBlocks(wheats);
    var invalidTests := InvalidTests(wheats);
    var chaffs := Restrict(results, IsChaff);
    var dropB := BlockLocNames(invalidBlocks);
    var dropT := TestLocNames(invalidTests);
    var filtered := FilterChaffs(chaffs, dropB, dropT);
    var rejected := seq(|filtered|, i requires 0 <= i < |filtered| => (filtered[i].0, Caught(filtered[i].1)));
    assert rejected == MapValues(chaffs, (o: Outcome) => Caught(FilterOutcome(o, dropB, dropT)));
    var reasons := if invalidBlocks != {} || invalidTests != {} then Some(FailureReasons(invalidBlocks, invalidTests)) else None;
    e := TestSuiteEvaluation(MapValues(wheats, Accepted), rejected, reasons);
  }

  /** `wheats_accepted` has an entry exactly for each wheat, true iff its suite ran and nothing failed. */
  lemma WheatsAcceptedExactly(results: Results, k: string)
    ensures Get(SummarySpec(results).wheatsAccepted, k)
      == if IsWheat(k) && Get(results, k).Some? then Some(Accepted(Get(results, k).value)) else None
  {
    RestrictGet(results, IsWheat, k);
    MapValuesGet(Restrict(results, IsWheat), Accepted, k);
  }

  /** `chaffs_rejected` has an entry exactly for each chaff, judged on its filtered result. */
  lemma ChaffsRejectedExactly(results: Results, k: string)
    ensures var wheats := Restrict(results, IsWheat);
      var dropB := BlockLocNames(InvalidBlocks(wheats));
      var dropT := TestLocNames(InvalidTests(wheats));
      Get(SummarySpec(results).chaffsRejected, k)
        == if IsChaff(k) && Get(results, k).Some? then Some(Caught(FilterOutcome(Get(results, k).value, dropB, dropT)))
           else None
  {
    var wheats := Restrict(results, IsWheat);
    var dropB := BlockLocNames(InvalidBlocks(wheats));
    var dropT := TestLocNames(InvalidTests(wheats));
    RestrictGet(results, IsChaff, k);
    MapValuesGet(Restrict(results, IsChaff), (o: Outcome) => Caught(FilterOutcome(o, dropB, dropT)), k);
  }

  /** A suite that ran and was not accepted. */
  predicate RanAndFailed(o: Outcome)
  {
    o.Ok? && !Accepted(o)
  }

  /** Some wheat whose suite ran is not accepted, among the results or among the wheat results alone. */
  lemma FailingWheatRestricted(results: Results)
    ensures (exists i :: 0 <= i < |results| && IsWheat(results[i].0) && RanAndFailed(results[i].1))
      <==> exists i :: 0 <= i < |Restrict(results, IsWheat)| && RanAndFailed(Restrict(results, IsWheat)[i].1)
  {
    var wheats := Restrict(results, IsWheat);
    if exists i :: 0 <= i < |results| && IsWheat(results[i].0) && RanAndFailed(results[i].1) {
      var i :| 0 <= i < |results| && IsWheat(results[i].0) && RanAndFailed(results[i].1);
      assert results[i] in wheats;
      var k :| 0 <= k < |wheats| && wheats[k] == results[i];
      assert RanAndFailed(wheats[k].1);
      assert 0 <= k < |Restrict(results, IsWheat)| && RanAndFailed(Restrict(results, IsWheat)[k].1);
    }
    if exists i :: 0 <= i < |wheats| && RanAndFailed(wheats[i].1) {
      var i :| 0 <= i < |wheats| && RanAndFailed(wheats[i].1);
      assert wheats[i] in results && IsWheat(wheats[i].0);
      var k :| 0 <= k < |results| && results[k] == wheats[i];
      assert IsWheat(results[k].0) && RanAndFailed(results[k].1);
    }
  }

  /** Failure reasons are reported exactly when some wheat whose suite ran is not accepted. */
  lemma FailureReasonsIffWheatFails(results: Results)
    ensures SummarySpec(results).wheatFailureReasons.Some?
      <==> exists i :: 0 <= i < |results| && IsWheat(results[i].0) && RanAndFailed(results[i].1)
  {
    var wheats := Restrict(results, IsWheat);
    assert SummarySpec(results).wheatFailureReasons.Some? <==> InvalidBlocks(wheats) != {} || InvalidTests(wheats) != {};
    InvalidIffWheatFails(wheats);
    FailingWheatRestricted(results);
  }

  // ---------------------------------------------------------------------------
  // The Gradescope report

  datatype Visibility = AfterPublished | Visible

  /** One entry of the Gradescope report. */
  datatype Report = Report(name: string, score: nat, maxScore: nat, output: string, visibility: Visibility)

  /** The `{:?}` rendering of an error. */
  function ErrorName(e: Error): string
  {
    match e
    case Unknown => "Unknown"
    case Compilation => "Compilation"
    case OutOfMemory => "OutOfMemory"
    case Timeout => "Timeout"
    case Runtime => "Runtime"
  }

  /** One hidden report per wheat or chaff, named after its file, scoring 1 of 1 when the verdict holds. */
  function VerdictReports(verdicts: seq<(string, bool)>, output: string): (r: seq<Report>)
    ensures |r| == |verdicts|
    ensures forall i :: 0 <= i < |r| ==>
      r[i].name == Basename(verdicts[i].0) && r[i].maxScore == 1 && (r[i].score == 1 <==> verdicts[i].1)
      && r[i].score <= 1 && r[i].output == output && r[i].visibility == AfterPublished
  {
    seq(|verdicts|, i requires 0 <= i < |verdicts| =>
      Report(Basename(verdicts[i].0), if verdicts[i].1 then 1 else 0, 1, output, AfterPublished))
  }

  /**
   * The functionality reports of one evaluation: one per block scoring its
   * passing tests out of its tests, or, when the suite did not run, one
   * visible report scoring 0 of 1 named after the test suite's file.
   */
  function FunctionalityReportsOf(e: Evaluation): (r: seq<Report>)
    ensures e.result.Ok? ==> |r| == |e.result.value| && forall i :: 0 <= i < |r| ==>
      r[i].name == e.result.value[i].name && r[i].score == CountPassed(e.result.value[i].tests)
      && r[i].maxScore == |e.result.value[i].tests| && r[i].score <= r[i].maxScore
      && r[i].visibility == AfterPublished
    ensures e.result.Err? ==>
      r == [Report(Basename(e.testSuite), 0, 1, "Error: " + ErrorName(e.result.error), Visible)]
  {
    match Summary(e)
    case Ok(rows) =>
      seq(|rows|, i requires 0 <= i < |rows| => Report(rows[i].0, rows[i].1, rows[i].2, "Tests passed!", AfterPublished))
    case Err(err) =>
      [Report(Basename(e.testSuite), 0, 1, "Error: " + ErrorName(err), Visible)]
  }

  /** The functionality reports of the evaluations, one evaluation after another. */
  function FunctionalityReports(evals: seq<Evaluation>): seq<Report>
    decreases |evals|
  {
    if evals == [] then [] else FunctionalityReportsOf(evals[0]) + FunctionalityReports(evals[1..])
  }

  /** No functionality report scores above its maximum. */
  lemma {:induction false} FunctionalityScoresBounded(evals: seq<Evaluation>)
    ensures forall r :: r in FunctionalityReports(evals) ==> r.score <= r.maxScore
    decreases |evals|
  {
    if evals != [] {
      FunctionalityScoresBounded(evals[1..]);
      var here := FunctionalityReportsOf(evals[0]);
      assert forall r :: r in here ==> r.score <= r.maxScore;
    }
  }

  /** The evaluations that go to `summarize`. */
  predicate WheatOrChaff(e: Evaluation)
  {
    IsWheat(e.implementation) || IsChaff(e.implementation)
  }

  /** `partition`, first half: implementation and result of each wheat or chaff evaluation, in order. */
  function WheatChaffResults(evals: seq<Evaluation>): seq<(string, Outcome)>
    decreases |evals|
  {
    if evals == [] then []
    else if WheatOrChaff(evals[0]) then [(evals[0].implementation, evals[0].result)] + WheatChaffResults(evals[1..])
    else WheatChaffResults(evals[1..])
  }

  /** `partition`, second half: the other evaluations, in order. */
  function TestResults(evals: seq<Evaluation>): seq<Evaluation>
    decreases |evals|
  {
    if evals == [] then []
    else if WheatOrChaff(evals[0]) then TestResults(evals[1..])
    else [evals[0]] + TestResults(evals[1..])
  }

  /** Every evaluation goes to exactly one side of the partition. */
  lemma {:induction false} PartitionSplits(evals: seq<Evaluation>)
    ensures |WheatChaffResults(evals)| + |TestResults(evals)| == |evals|
    ensures forall i :: 0 <= i < |WheatChaffResults(evals)| ==>
      IsWheat(WheatChaffResults(evals)[i].0) || IsChaff(WheatChaffResults(evals)[i].0)
    ensures forall e :: e in TestResults(evals) ==> e in evals && !WheatOrChaff(e)
    ensures forall e :: e in evals && !WheatOrChaff(e) ==> e in TestResults(evals)
    ensures forall e :: e in evals && WheatOrChaff(e) ==> (e.implementation, e.result) in WheatChaffResults(evals)
    decreases |evals|
  {
    if evals != [] {
      PartitionSplits(evals[1..]);
    }
  }

  /** What `main` writes: wheat reports, then chaff reports, then functionality reports. */
  function GradescopeReport(evals: seq<Evaluation>): seq<Report>
  {
    var s := SummarySpec(FromPairs(WheatChaffResults(evals)));
    VerdictReports(s.wheatsAccepted, "Passed wheat") + VerdictReports(s.chaffsRejected, "Caught chaff")
      + FunctionalityReports(TestResults(evals))
  }

  /** `main`, minus reading and writing JSON. */
  method BuildReport(evals: seq<Evaluation>) returns (report: seq<Report>)
    ensures report == GradescopeReport(evals)
  {
    var wheatChaff := WheatChaffResults(evals);
    var tests := TestResults(evals);
    var s := Summarize(FromPairs(wheatChaff));
    report := VerdictReports(s.wheatsAccepted, "Passed wheat") + VerdictReports(s.chaffsRejected, "Caught chaff")
      + FunctionalityReports(tests);
  }

  /** Every report scores at most its maximum. */
  lemma ReportScoresBounded(evals: seq<Evaluation>)
    ensures forall r :: r in GradescopeReport(evals) ==> r.score <= r.maxScore
  {
    FunctionalityScoresBounded(TestResults(evals));
  }

  /**
   * The report lists one "Passed wheat" report per wheat, then one "Caught
   * chaff" report per chaff, each wheat and chaff once and in path order, then
   * the functionality reports.
   */
  lemma ReportSections(evals: seq<Evaluation>)
    ensures var s := SummarySpec(FromPairs(WheatChaffResults(evals)));
      var report := GradescopeReport(evals);
      var w := |s.wheatsAccepted|;
      var c := |s.chaffsRejected|;
      Sorted(s.wheatsAccepted) && Sorted(s.chaffsRejected)
      && |report| == w + c + |FunctionalityReports(TestResults(evals))|
      && (forall i :: 0 <= i < w ==> report[i].output == "Passed wheat" && report[i].maxScore == 1)
      && (forall i :: w <= i < w + c ==> report[i].output == "Caught chaff" && report[i].maxScore == 1)
      && report[w + c..] == FunctionalityReports(TestResults(evals))
  {
    var results := FromPairs(WheatChaffResults(evals));
    var s := SummarySpec(results);
    RestrictSorted(results, IsWheat);
    RestrictSorted(results, IsChaff);
    MapValuesSorted(Restrict(results, IsWheat), Accepted);
    var wheats := Restrict(results, IsWheat);
    var dropB := BlockLocNames(InvalidBlocks(wheats));
    var dropT := TestLocNames(InvalidTests(wheats));
    MapValuesSorted(Restrict(results, IsChaff), (o: Outcome) => Caught(FilterOutcome(o, dropB, dropT)));
  }
}
