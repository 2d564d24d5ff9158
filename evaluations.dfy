/**
 * The data the test runner produces and the post-processor reads: test
 * blocks with their tests, per implementation and test suite, or the error
 * that kept the suite from running.
 */
module Evaluations {
  import opened Strings

  /** One `check` test: where it is and whether it passed (`success` in the runner, every other result failing). */
  datatype Test = Test(loc: string, passed: bool)

  datatype TestMetadata = TestMetadata(loc: string)

  /** A `check` block of the suite. */
  datatype TestBlock = TestBlock(name: string, loc: string, error: bool, tests: seq<Test>)

  datatype TestBlockMetadata = TestBlockMetadata(name: string, loc: string)

  /** Why a suite produced no blocks. */
  datatype Error = Unknown | Compilation | OutOfMemory | Timeout | Runtime

  /** Rust's `Result<_, Error>`. */
  datatype Result<+T> = Ok(value: T) | Err(error: Error)

  type Outcome = Result<seq<TestBlock>>

  /** One job's record: implementation (`code`) and test suite (`tests`) paths, and the outcome. */
  datatype Evaluation = Evaluation(implementation: string, testSuite: string, result: Outcome)

  /** `Implementation::is_wheat`: the path mentions `wheat`. */
  function IsWheat(implementation: string): (r: bool)
    ensures r <==> exists i: nat :: OccursAt(implementation, "wheat", i)
  {
    HasSubstringIff(implementation, "wheat");
    HasSubstring(implementation, "wheat")
  }

  /** `Implementation::is_chaff`: the path mentions `chaff`. */
  function IsChaff(implementation: string): (r: bool)
    ensures r <==> exists i: nat :: OccursAt(implementation, "chaff", i)
  {
    HasSubstringIff(implementation, "chaff");
    HasSubstring(implementation, "chaff")
  }

  /** Nothing keeps one path from being classified both ways. */
  lemma WheatAndChaffAtOnce()
    ensures IsWheat("wheat-chaff.arr") && IsChaff("wheat-chaff.arr")
  {
    assert OccursAt("wheat-chaff.arr", "wheat", 0);
    assert OccursAt("wheat-chaff.arr", "chaff", 6);
  }

  function TestMeta(t: Test): TestMetadata
  {
    TestMetadata(t.loc)
  }

  function BlockMeta(b: TestBlock): TestBlockMetadata
  {
    TestBlockMetadata(b.name, b.loc)
  }

  /** The number of passing tests. */
  function CountPassed(tests: seq<Test>): (r: nat)
    ensures r <= |tests|
    ensures r == |tests| <==> forall j :: 0 <= j < |tests| ==> tests[j].passed
    ensures r == 0 <==> forall j :: 0 <= j < |tests| ==> !tests[j].passed
    decreases |tests|
  {
    if tests == [] then 0
    else (if tests[0].passed then 1 else 0) + CountPassed(tests[1..])
  }

  /** Counting passes distributes over concatenation. */
  lemma {:induction false} CountPassedAppend(a: seq<Test>, b: seq<Test>)
    ensures CountPassed(a + b) == CountPassed(a) + CountPassed(b)
    decreases |a|
  {
    if a == [] {
      assert a + b == b;
    } else {
      assert (a + b)[0] == a[0] && (a + b)[1..] == a[1..] + b;
      CountPassedAppend(a[1..], b);
    }
  }

  /** One summary row per block: its name, its passing tests, its tests. */
  function SummaryRows(blocks: seq<TestBlock>): (r: seq<(string, nat, nat)>)
    ensures |r| == |blocks|
    ensures forall i :: 0 <= i < |blocks| ==>
      r[i].0 == blocks[i].name && r[i].1 == CountPassed(blocks[i].tests)
      && r[i].1 <= r[i].2 && r[i].2 == |blocks[i].tests|
      && (r[i].1 == r[i].2 <==> forall j :: 0 <= j < |blocks[i].tests| ==> blocks[i].tests[j].passed)
  {
    seq(|blocks|, i requires 0 <= i < |blocks| => (blocks[i].name, CountPassed(blocks[i].tests), |blocks[i].tests|))
  }

  /** `Evaluation::summary`: the per-block pass counts, or the error unchanged. */
  function Summary(e: Evaluation): (r: Result<seq<(string, nat, nat)>>)
    ensures e.result.Err? ==> r == Err(e.result.error)
    ensures e.result.Ok? ==> r.Ok? && |r.value| == |e.result.value|
    ensures e.result.Ok? ==> forall i :: 0 <= i < |r.value| ==>
      r.value[i].0 == e.result.value[i].name && r.value[i].1 == CountPassed(e.result.value[i].tests)
      && r.value[i].1 <= r.value[i].2
      && r.value[i].2 == |e.result.value[i].tests|
      && (r.value[i].1 == r.value[i].2 <==> forall j :: 0 <= j < r.value[i].2 ==> e.result.value[i].tests[j].passed)
  {
    match e.result
    case Ok(blocks) => Ok(SummaryRows(blocks))
    case Err(err) => Err(err)
  }
}
