/** Concrete runs of the reporter, stated over the model. */
module Scenarios {
  import opened Model
  import opened FailureOutput
  import opened ResultWriter

  function Passing(name: string): TestResult<int>
  {
    TestResult(TestId("test_example", name), true, None)
  }

  /** `expect(1).equals(1)` passed, then `expect(2).equals(3)` failed. */
  function EqualsHistory(): seq<Expectation<int>>
  {
    [Expectation(1, 1, "equals", true, None), Expectation(2, 3, "equals", false, None)]
  }

  function Failing(): TestResult<int>
  {
    TestResult(TestId("test_example", "test_c"), false, Some(ExpectationFailed(EqualsHistory())))
  }

  /** Two passes and a failed `equals`: the tally is two passed and one
      failed, the run exits with `TEST_FAILED`, and only the failed test is
      reported. */
  lemma {:induction false} TwoPassedOneFailed(suite: Suite, width: nat, render: Renderer<int>)
    ensures var results := [Passing("test_a"), Passing("test_b"), Failing()];
            CountPassed(results) == 2 && CountFailed(results) == 1 &&
            ExitCodeOf(results) == TestFailed && ExitCodeOf(results).Status() == 1 &&
            ReportedTests(Transcript(suite, width, render, results)) == [Failing().test]
  {
    var results := [Passing("test_a"), Passing("test_b"), Failing()];
    assert results[..2] == [Passing("test_a"), Passing("test_b")];
    assert results[..2][..1] == [Passing("test_a")];
    assert [Passing("test_a")][..0] == [];
    assert Failures([Passing("test_a")]) == [];
    assert Failures(results[..2]) == [];
    assert Failures(results) == [Failing()];
    FailuresReportedInArrivalOrder(suite, width, render, results);
  }

  /** The failed test's report: a passing then a failing marker, and a diff
      of the expected 3 against the actual 2 as its last line. */
  lemma {:induction false} EqualsFailureReport(width: nat, render: Renderer<int>)
    ensures var out := FailureBlock(width, render, Failing());
            var ms := MarkersOf(out);
            |ms| == 2 && ms[0].Marker? && ms[0].success && ms[1].Marker? && !ms[1].success &&
            HasDiff(out) && out[|out| - 1] == Diff(render.unifiedDiff(3, 2, width - DescriptionMargin))
  {
    OneMarkerPerCheck(width, render, Failing());
    DiffShownIffLastCheckEquals(width, render, Failing());
  }

  /** An empty stream exits with `SUCCESS`, says "No tests found." and
      draws no progress bar. */
  lemma {:induction false} EmptyStream(suite: Suite, width: nat, render: Renderer<int>)
    ensures var out := Transcript(suite, width, render, []);
            ExitCodeOf<int>([]) == Success && NoTestsFound in out &&
            forall i :: 0 <= i < |out| ==> !out[i].BarRow?
  {
    NoTestsFoundIffEmpty<int>(suite, width, render, []);
  }

  /** A run in which every test passes exits with `SUCCESS` and reports no
      failure. */
  lemma {:induction false} AllPassing(suite: Suite, width: nat, render: Renderer<int>)
    ensures var results := [Passing("test_a"), Passing("test_b")];
            ExitCodeOf(results) == Success &&
            ReportedTests(Transcript(suite, width, render, results)) == []
  {
    var results := [Passing("test_a"), Passing("test_b")];
    NoFailuresIffAllPassed(results);
    FailuresReportedInArrivalOrder(suite, width, render, results);
  }
}
