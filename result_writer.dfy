/** `TestResultWriter.write_test_results_to_terminal` (ward/terminal.py):
    the run loop that tallies results as they arrive, keeps the live view
    up to date, and reports every failure once the stream ends. */
module ResultWriter {
  import opened Model
  import opened ProgressBar
  import opened FailureOutput

  /** The spinner's glyph table, cycled one glyph per result. */
  const Glyphs: string := "⠁⠁⠉⠙⠚⠒⠂⠂⠒⠲⠴⠤⠄⠄⠤⠠⠠⠤⠦⠖⠒⠐⠐⠒⠓⠋⠉⠈⠈"

  // ---------------------------------------------------------------------
  // The tally, as functions of the results seen so far

  function CountPassed<V>(results: seq<TestResult<V>>): nat
  {
    if results == [] then 0
    else CountPassed(results[..|results| - 1]) + (if results[|results| - 1].wasSuccess then 1 else 0)
  }

  function CountFailed<V>(results: seq<TestResult<V>>): nat
  {
    if results == [] then 0
    else CountFailed(results[..|results| - 1]) + (if results[|results| - 1].wasSuccess then 0 else 1)
  }

  /** The failed results, in the order they arrived. */
  function Failures<V>(results: seq<TestResult<V>>): seq<TestResult<V>>
  {
    if results == [] then []
    else
      var last := results[|results| - 1];
      Failures(results[..|results| - 1]) + (if last.wasSuccess then [] else [last])
  }

  /** The positions of the failed results, in increasing order. */
  function FailedPositions<V>(results: seq<TestResult<V>>): seq<nat>
  {
    if results == [] then []
    else
      var n := |results| - 1;
      FailedPositions(results[..n]) + (if results[n].wasSuccess then [] else [n])
  }

  /** Every result is counted once, as passed or as failed. */
  lemma {:induction false} TallyCountsEveryResult<V>(results: seq<TestResult<V>>)
    ensures CountPassed(results) + CountFailed(results) == |results|
    decreases |results|
  {
    if results != [] {
      TallyCountsEveryResult(results[..|results| - 1]);
    }
  }

  /** The failing list holds one entry per failed result, each of them a
      failed result, and each reportable when the stream's failures are. */
  lemma {:induction false} FailuresCounted<V>(results: seq<TestResult<V>>)
    ensures var fs := Failures(results);
            |fs| == CountFailed(results) &&
            (forall j :: 0 <= j < |fs| ==> !fs[j].wasSuccess) &&
            (AllReportable(results) ==> forall j :: 0 <= j < |fs| ==> Reportable(fs[j]))
    decreases |results|
  {
    if results != [] {
      var prefix := results[..|results| - 1];
      FailuresCounted(prefix);
      if AllReportable(results) {
        assert forall i :: 0 <= i < |prefix| ==> prefix[i] == results[i];
      }
    }
  }

  /** The j-th entry of the failing list is the result at the j-th failed
      position. */
  lemma {:induction false} FailuresAtFailedPositions<V>(results: seq<TestResult<V>>)
    ensures var ps := FailedPositions(results);
            var fs := Failures(results);
            |ps| == |fs| && forall j :: 0 <= j < |ps| ==> ps[j] < |results| && fs[j] == results[ps[j]]
    decreases |results|
  {
    if results != [] {
      var n := |results| - 1;
      var prefix := results[..n];
      FailuresAtFailedPositions(prefix);
      var ps := FailedPositions(results);
      var fs := Failures(results);
      forall j | 0 <= j < |FailedPositions(prefix)|
        ensures ps[j] < |results| && fs[j] == results[ps[j]]
      {
        assert ps[j] == FailedPositions(prefix)[j];
        assert fs[j] == Failures(prefix)[j];
        assert results[ps[j]] == prefix[ps[j]];
      }
    }
  }

  /** The failed positions increase, and a position is among them exactly
      when its result failed. */
  lemma {:induction false} FailedPositionsExact<V>(results: seq<TestResult<V>>)
    ensures var ps := FailedPositions(results);
            (forall j :: 0 <= j < |ps| ==> ps[j] < |results|) &&
            (forall j, k :: 0 <= j < k < |ps| ==> ps[j] < ps[k]) &&
            (forall i :: 0 <= i < |results| ==> (!results[i].wasSuccess <==> i in ps))
    decreases |results|
  {
    if results != [] {
      var n := |results| - 1;
      var prefix := results[..n];
      FailedPositionsExact(prefix);
      var ps := FailedPositions(results);
      forall i | 0 <= i < n
        ensures !results[i].wasSuccess <==> i in ps
      {
        assert results[i] == prefix[i];
        assert n !in FailedPositions(prefix);
      }
    }
  }

  /** The failing list is exactly the subsequence of failed results: its
      j-th element is the result at the j-th failed position, the positions
      increase, and a position is among them exactly when its result failed. */
  lemma {:induction false} FailuresAreFailedInOrder<V>(results: seq<TestResult<V>>)
    ensures var ps := FailedPositions(results);
            var fs := Failures(results);
            |ps| == |fs| &&
            (forall j :: 0 <= j < |ps| ==> ps[j] < |results| && fs[j] == results[ps[j]]) &&
            (forall j, k :: 0 <= j < k < |ps| ==> ps[j] < ps[k]) &&
            (forall i :: 0 <= i < |results| ==> (!results[i].wasSuccess <==> i in ps))
  {
    FailuresAtFailedPositions(results);
    FailedPositionsExact(results);
  }

  /** No result failed exactly when the failing list is empty. */
  lemma {:induction false} NoFailuresIffAllPassed<V>(results: seq<TestResult<V>>)
    ensures Failures(results) == [] <==> forall i :: 0 <= i < |results| ==> results[i].wasSuccess
  {
    FailuresAreFailedInOrder(results);
    if Failures(results) != [] {
      var ps := FailedPositions(results);
      assert !results[ps[0]].wasSuccess;
    }
  }

  // ---------------------------------------------------------------------
  // What the run writes

  /** The failed results of the stream can be reported. */
  ghost predicate AllReportable<V>(results: seq<TestResult<V>>)
  {
    forall i :: 0 <= i < |results| && !results[i].wasSuccess ==> Reportable(results[i])
  }

  /** The status line once `seen` (non-empty) has been consumed: the
      spinner has advanced once per earlier result, and the counts and rate
      are those of `seen`. */
  function StatusAfter<V>(seen: seq<TestResult<V>>): InfoBar
    requires |seen| > 0
  {
    var passed := CountPassed(seen);
    Info(Glyphs[(|seen| - 1) % |Glyphs|], |seen|, CountFailed(seen), passed,
         passed as real / |seen| as real)
  }

  /** The three rows rewritten for the last result of `seen`: the result
      itself, the progress bar and the status line. */
  function StepRows<V>(width: nat, seen: seq<TestResult<V>>): seq<Event>
    requires |seen| > 0
  {
    var last := seen[|seen| - 1];
    var info := StatusAfter(seen);
    [ResultRow(last.test, last.wasSuccess),
     BarRow(BarCells(info.passRate, 1.0 - info.passRate, width)),
     StatusRow(info)]
  }

  predicate IsLiveEvent(e: Event)
  {
    e.ResultRow? || e.BarRow? || e.StatusRow?
  }

  /** Everything the live view writes while the stream is consumed. */
  function Live<V>(width: nat, results: seq<TestResult<V>>): (out: seq<Event>)
    ensures |out| == 3 * |results|
  {
    if results == [] then []
    else Live(width, results[..|results| - 1]) + StepRows(width, results)
  }

  /** The reports of the given failed results, one after the other. */
  function FailureBlocks<V>(width: nat, render: Renderer<V>, fs: seq<TestResult<V>>): seq<Event>
    requires forall j :: 0 <= j < |fs| ==> Reportable(fs[j])
  {
    if fs == [] then []
    else FailureBlocks(width, render, fs[..|fs| - 1]) + FailureBlock(width, render, fs[|fs| - 1])
  }

  /** The reports of the stream's failed results, in arrival order. */
  function FailureReports<V>(width: nat, render: Renderer<V>, results: seq<TestResult<V>>): seq<Event>
    requires AllReportable(results)
  {
    FailuresCounted(results);
    FailureBlocks(width, render, Failures(results))
  }

  function Opening(suite: Suite): seq<Event>
  {
    [HideCursor, Blank, Banner(suite.numTests, suite.numFixtures)]
  }

  /** What is written once the stream is exhausted. */
  function Closing<V>(width: nat, render: Renderer<V>, results: seq<TestResult<V>>): seq<Event>
    requires AllReportable(results)
  {
    (if |results| == 0 then [NoTestsFound] else []) + [ResetCursor] +
    (if Failures(results) == [] then []
     else FailureReports(width, render, results) + [Blank, StatusPrinted(StatusAfter(results))])
  }

  /** The whole output of one run. */
  function Transcript<V>(suite: Suite, width: nat, render: Renderer<V>, results: seq<TestResult<V>>): seq<Event>
    requires AllReportable(results)
  {
    Opening(suite) + Live(width, results) + Closing(width, render, results)
  }

  /** The run's exit code: `TEST_FAILED` exactly when some result failed. */
  function ExitCodeOf<V>(results: seq<TestResult<V>>): (code: ExitCode)
    ensures code == TestFailed <==> exists i :: 0 <= i < |results| && !results[i].wasSuccess
  {
    NoFailuresIffAllPassed(results);
    if Failures(results) == [] then Success else TestFailed
  }

  // ---------------------------------------------------------------------
  // The run loop

  /** What the run loop keeps from one result to the next: the tally, the
      failing list, the spinner's position in its glyph table and the last
      status line. `consumed` is the results seen so far. */
  class ProgressReporter<V> {
    const width: nat
    var passed: nat
    var failed: nat
    var failingTestResults: seq<TestResult<V>>
    var spinner: nat
    var infoBar: InfoBar
    ghost var consumed: seq<TestResult<V>>

    ghost predicate Valid()
      reads this
    {
      Tracks(consumed, passed, failed, failingTestResults, spinner, infoBar)
    }

    constructor (width: nat)
      ensures Valid() && this.width == width && consumed == []
    {
      this.width := width;
      passed, failed := 0, 0;
      failingTestResults := [];
      spinner := 0;
      infoBar := NoInfo;
      consumed := [];
    }

    /** One turn of the loop: count the result, remember it if it failed,
        and write its row, the progress bar and the status line. */
    method OnResult(result: TestResult<V>) returns (rows: seq<Event>)
      requires Valid()
      modifies this
      ensures Valid() && consumed == old(consumed) + [result]
      ensures rows == StepRows(width, consumed)
    {
      ghost var seen, passed0, failed0, failing0, spinner0 := consumed, passed, failed, failingTestResults, spinner;
      StepTracks(width, seen, result, passed0, failed0, failing0, spinner0, infoBar);
      if result.wasSuccess {
        passed := passed + 1;
      } else {
        failed := failed + 1;
        failingTestResults := failingTestResults + [result];
      }
      var resultRow := ResultRow(result.test, result.wasSuccess);

      var passPct := passed as real / (passed + failed) as real;
      var failPct := 1.0 - passPct;
      var barRow := BarRow(BarCells(passPct, failPct, width));

      infoBar := Info(Glyphs[spinner], passed + failed, failed, passed, passPct);
      spinner := (spinner + 1) % |Glyphs|;
      consumed := seen + [result];
      rows := [resultRow, barRow, StatusRow(infoBar)];
    }
  }

  /** The writer: the suite's counts, the terminal (of which only its width
      matters here) and the stream of results. */
  class TestResultWriter<V> {
    const suite: Suite
    const width: nat
    const render: Renderer<V>
    const testResults: seq<TestResult<V>>

    constructor (suite: Suite, width: nat, render: Renderer<V>, testResults: seq<TestResult<V>>)
      ensures this.suite == suite && this.width == width
      ensures this.render == render && this.testResults == testResults
    {
      this.suite := suite;
      this.width := width;
      this.render := render;
      this.testResults := testResults;
    }

    /** Runs the live view over the stream, then reports the failures.
        Exits with `TEST_FAILED` exactly when some result failed. */
    method WriteTestResultsToTerminal() returns (code: ExitCode, out: seq<Event>)
      requires AllReportable(testResults)
      ensures out == Transcript(suite, width, render, testResults)
      ensures code == TestFailed <==> exists i :: 0 <= i < |testResults| && !testResults[i].wasSuccess
      ensures code == ExitCodeOf(testResults)
    {
      out := Opening(suite);
      var reporter := new ProgressReporter<V>(width);
      var live := RunLiveView(reporter);
      out := out + live;

      var total := reporter.passed + reporter.failed;
      if total == 0 {
        out := out + [NoTestsFound];
      }
      out := out + [ResetCursor];
      TallyCountsEveryResult(testResults);
      assert out == Opening(suite) + Live(width, testResults) +
                    ((if |testResults| == 0 then [NoTestsFound] else []) + [ResetCursor]);
      TranscriptShape(suite, width, render, testResults);
      NoFailuresIffAllPassed(testResults);
      FailuresCounted(testResults);

      var failingTestResults := reporter.failingTestResults;
      if failingTestResults != [] {
        var reports := WriteFailureReports(failingTestResults);
        assert reports == FailureReports(width, render, testResults);
        out := out + reports + [Blank, StatusPrinted(reporter.infoBar)];
        code := TestFailed;
      } else {
        code := Success;
      }
    }

    /** The loop over the stream: each result goes to the reporter, and
        the rows it writes are appended to the live view. */
    method RunLiveView(reporter: ProgressReporter<V>) returns (live: seq<Event>)
      requires reporter.Valid() && reporter.width == width && reporter.consumed == []
      modifies reporter
      ensures reporter.Valid() && reporter.consumed == testResults
      ensures live == Live(width, testResults)
    {
      live := [];
      var i := 0;
      while i < |testResults|
        invariant 0 <= i <= |testResults|
        invariant reporter.Valid() && reporter.width == width && reporter.consumed == testResults[..i]
        invariant live == Live(width, testResults[..i])
      {
        var rows := reporter.OnResult(testResults[i]);
        assert testResults[..i + 1] == testResults[..i] + [testResults[i]];
        assert testResults[..i + 1][..i] == testResults[..i];
        live := live + rows;
        i := i + 1;
      }
      assert testResults[..i] == testResults;
    }

    /** The loop over the failing list: each failed result's report, in
        the order of the list. */
    method WriteFailureReports(failingTestResults: seq<TestResult<V>>) returns (out: seq<Event>)
      requires forall j :: 0 <= j < |failingTestResults| ==> Reportable(failingTestResults[j])
      ensures out == FailureBlocks(width, render, failingTestResults)
    {
      out := [];
      var j := 0;
      while j < |failingTestResults|
        invariant 0 <= j <= |failingTestResults|
        invariant out == FailureBlocks(width, render, failingTestResults[..j])
      {
        assert failingTestResults[..j + 1][..j] == failingTestResults[..j];
        out := out + FailureBlock(width, render, failingTestResults[j]);
        j := j + 1;
      }
      assert failingTestResults[..j] == failingTestResults;
    }
  }

  // ---------------------------------------------------------------------
  // Steps of the proofs of the loop

  /** The run loop's state after the results `seen`: the tally, the
      failing list, the spinner position and the last status line. */
  ghost predicate Tracks<V>(seen: seq<TestResult<V>>, passed: nat, failed: nat,
                            failing: seq<TestResult<V>>, spinner: nat, infoBar: InfoBar)
  {
    passed == CountPassed(seen) && failed == CountFailed(seen) &&
    failing == Failures(seen) &&
    spinner == |seen| % |Glyphs| &&
    infoBar == (if seen == [] then NoInfo else StatusAfter(seen))
  }

  /** One turn of the loop, on values: the updated counters, list, spinner
      and status line track `seen + [r]`, and the rows written are the
      rows `StepRows` gives for it. */
  lemma {:induction false} StepTracks<V>(width: nat, seen: seq<TestResult<V>>, r: TestResult<V>, passed: nat, failed: nat,
                      failing: seq<TestResult<V>>, spinner: nat, infoBar: InfoBar)
    requires Tracks(seen, passed, failed, failing, spinner, infoBar)
    ensures var p := passed + (if r.wasSuccess then 1 else 0);
            var f := failed + (if r.wasSuccess then 0 else 1);
            var passPct := p as real / (p + f) as real;
            var info := Info(Glyphs[spinner], p + f, f, p, passPct);
            Tracks(seen + [r], p, f, failing + (if r.wasSuccess then [] else [r]),
                   (spinner + 1) % |Glyphs|, info) &&
            [ResultRow(r.test, r.wasSuccess), BarRow(BarCells(passPct, 1.0 - passPct, width)),
             StatusRow(info)] == StepRows(width, seen + [r])
  {
    var next := seen + [r];
    assert next[..|next| - 1] == seen;
    TallyCountsEveryResult(next);
    SpinnerAdvance(|seen|);
  }

  /** Advancing the spinner one glyph from position `i mod 29` gives
      position `(i + 1) mod 29`. */
  lemma {:induction false} SpinnerAdvance(i: nat)
    ensures (i % |Glyphs| + 1) % |Glyphs| == (i + 1) % |Glyphs|
  {
    assert |Glyphs| == 29;
  }

  // ---------------------------------------------------------------------
  // Properties of the run's output

  /** Result k (counting from 0) owns rows 3k to 3k + 2 of the live view,
      written from the first k + 1 results. */
  lemma {:induction false} LiveAt<V>(width: nat, results: seq<TestResult<V>>, k: nat)
    requires k < |results|
    ensures Live(width, results)[3 * k..3 * k + 3] == StepRows(width, results[..k + 1])
    decreases |results|
  {
    var n := |results| - 1;
    var prefix := results[..n];
    var earlier := Live(width, prefix);
    var step := StepRows(width, results);
    assert Live(width, results) == earlier + step;
    if k < n {
      LiveAt(width, prefix, k);
      SliceOfConcatLeft(earlier, step, 3 * k, 3 * k + 3);
      assert prefix[..k + 1] == results[..k + 1];
    } else {
      SliceOfConcatRight(earlier, step);
      assert results[..k + 1] == results;
    }
  }

  lemma {:induction false} SliceOfConcatLeft(a: seq<Event>, b: seq<Event>, i: nat, j: nat)
    requires i <= j <= |a|
    ensures (a + b)[i..j] == a[i..j]
  {
  }

  lemma {:induction false} SliceOfConcatRight(a: seq<Event>, b: seq<Event>)
    ensures (a + b)[|a|..|a| + |b|] == b
  {
  }

  /** The status line after `seen` (the k-th result being its last, k
      counted from 1) shows glyph `(k - 1) mod 29`, counts `k` results of
      which `passed` and `failed` are those of `seen`, and a pass rate
      `passed / (passed + failed)` in [0, 1]. */
  lemma {:induction false} StatusLine<V>(seen: seq<TestResult<V>>)
    requires |seen| > 0
    ensures var info := StatusAfter(seen);
            info.glyph == Glyphs[(|seen| - 1) % |Glyphs|] &&
            info.passed == CountPassed(seen) && info.failed == CountFailed(seen) &&
            info.ran == info.passed + info.failed == |seen| &&
            info.passRate == info.passed as real / info.ran as real &&
            0.0 <= info.passRate <= 1.0
  {
    TallyCountsEveryResult(seen);
    NonNegativeRate(CountPassed(seen), |seen|);
  }

  /** The progress bar drawn after `seen` fills the width exactly; before
      compensation its red and green counts are the failed and passed
      shares `failed * width / ran` and `passed * width / ran`. */
  lemma {:induction false} ProgressBarAfter<V>(width: nat, seen: seq<TestResult<V>>)
    requires |seen| > 0
    ensures var info := StatusAfter(seen);
            var b := StepRows(width, seen)[1].bar;
            b.green + b.red == width && 0 <= b.green && 0 <= b.red &&
            b.red == info.failed * width / info.ran &&
            (b.green == info.passed * width / info.ran ||
             b.green == info.passed * width / info.ran + 1)
  {
    var info := StatusAfter(seen);
    StatusLine(seen);
    RawCellsFromTally(info.passed, info.failed, width);
    NonNegativeRate(info.passed, info.ran);
    BarFillsWidth(info.passRate, 1.0 - info.passRate, width);
  }

  lemma {:induction false} NonNegativeRate(passed: nat, ran: nat)
    requires 0 < ran && passed <= ran
    ensures 0.0 <= passed as real / ran as real <= 1.0
  {
    assert passed as real <= ran as real;
  }

  /** The tests named by the failure headers of an output, in order. */
  function ReportedTests(events: seq<Event>): (ts: seq<TestId>)
    ensures |ts| <= |events|
  {
    if events == [] then []
    else
      var last := events[|events| - 1];
      ReportedTests(events[..|events| - 1]) + (if last.FailureHeader? then [last.test] else [])
  }

  /** The tests of the given results, in order. */
  function TestsOf<V>(results: seq<TestResult<V>>): (ts: seq<TestId>)
    ensures |ts| == |results| && forall i :: 0 <= i < |results| ==> ts[i] == results[i].test
  {
    if results == [] then []
    else
      var prefix := TestsOf(results[..|results| - 1]);
      assert forall i :: 0 <= i < |prefix| ==> (prefix + [results[|results| - 1].test])[i] == prefix[i];
      prefix + [results[|results| - 1].test]
  }

  lemma {:induction false} ReportedTestsConcat(a: seq<Event>, b: seq<Event>)
    ensures ReportedTests(a + b) == ReportedTests(a) + ReportedTests(b)
    decreases |b|
  {
    if b == [] {
      assert a + b == a;
    } else {
      assert (a + b)[..|a + b| - 1] == a + b[..|b| - 1];
      ReportedTestsConcat(a, b[..|b| - 1]);
    }
  }

  lemma {:induction false} ReportedTestsNone(events: seq<Event>)
    requires forall i :: 0 <= i < |events| ==> !events[i].FailureHeader?
    ensures ReportedTests(events) == []
    decreases |events|
  {
    if events != [] {
      ReportedTestsNone(events[..|events| - 1]);
    }
  }

  /** The reports come in the order of the results given, one each. */
  lemma {:induction false} FailureBlocksInOrder<V>(width: nat, render: Renderer<V>, fs: seq<TestResult<V>>)
    requires forall j :: 0 <= j < |fs| ==> Reportable(fs[j])
    ensures ReportedTests(FailureBlocks(width, render, fs)) == TestsOf(fs)
    decreases |fs|
  {
    if fs != [] {
      var prefix := fs[..|fs| - 1];
      var last := fs[|fs| - 1];
      FailureBlocksInOrder(width, render, prefix);
      ReportedTestsConcat(FailureBlocks(width, render, prefix), FailureBlock(width, render, last));
      ReportedTestsOfBlock(width, render, last);
    }
  }

  /** A report names its own test, once. */
  lemma {:induction false} ReportedTestsOfBlock<V>(width: nat, render: Renderer<V>, result: TestResult<V>)
    requires Reportable(result)
    ensures ReportedTests(FailureBlock(width, render, result)) == [result.test]
  {
    var block := FailureBlock(width, render, result);
    assert block == [block[0]] + block[1..];
    ReportedTestsConcat([block[0]], block[1..]);
    ReportedTestsNone(block[1..]);
    assert [block[0]][..0] == [];
  }

  /** The live view writes only result rows, bars and status lines. */
  lemma {:induction false} LiveRowsOnly<V>(width: nat, results: seq<TestResult<V>>)
    ensures forall i :: 0 <= i < |Live(width, results)| ==> IsLiveEvent(Live(width, results)[i])
    decreases |results|
  {
    if results != [] {
      var prefix := Live(width, results[..|results| - 1]);
      var step := StepRows(width, results);
      LiveRowsOnly(width, results[..|results| - 1]);
      assert Live(width, results) == prefix + step;
      assert forall i :: 0 <= i < |prefix| ==> (prefix + step)[i] == prefix[i];
      assert forall i :: |prefix| <= i < |prefix + step| ==> (prefix + step)[i] == step[i - |prefix|];
    }
  }

  /** The live view names no failed test and never says "No tests found.". */
  lemma {:induction false} LiveReportsNothing<V>(width: nat, results: seq<TestResult<V>>)
    ensures ReportedTests(Live(width, results)) == []
    ensures NoTestsFound !in Live(width, results)
  {
    LiveRowsOnly(width, results);
    ReportedTestsNone(Live(width, results));
  }

  predicate AllDetails(events: seq<Event>)
  {
    forall i :: 0 <= i < |events| ==> events[i].IsFailureDetail()
  }

  lemma {:induction false} AllDetailsConcat(a: seq<Event>, b: seq<Event>)
    requires AllDetails(a) && AllDetails(b)
    ensures AllDetails(a + b)
  {
    forall i | 0 <= i < |a + b|
      ensures (a + b)[i].IsFailureDetail()
    {
      if i < |a| {
        assert (a + b)[i] == a[i];
      } else {
        assert (a + b)[i] == b[i - |a|];
      }
    }
  }

  /** The failure reports are made only of failure-report lines. */
  lemma {:induction false} FailureBlocksAreDetails<V>(width: nat, render: Renderer<V>, fs: seq<TestResult<V>>)
    requires forall j :: 0 <= j < |fs| ==> Reportable(fs[j])
    ensures AllDetails(FailureBlocks(width, render, fs))
    decreases |fs|
  {
    if fs != [] {
      var prefix := FailureBlocks(width, render, fs[..|fs| - 1]);
      var block := FailureBlock(width, render, fs[|fs| - 1]);
      FailureBlocksAreDetails(width, render, fs[..|fs| - 1]);
      AllDetailsConcat(prefix, block);
    }
  }

  /** The failure reports never say "No tests found.". */
  lemma {:induction false} ReportsHaveNoNotice<V>(width: nat, render: Renderer<V>, results: seq<TestResult<V>>)
    requires AllReportable(results)
    ensures NoTestsFound !in FailureReports(width, render, results)
  {
    FailuresCounted(results);
    var reports := FailureReports(width, render, results);
    assert reports == FailureBlocks(width, render, Failures(results));
    FailureBlocksAreDetails(width, render, Failures(results));
    forall i | 0 <= i < |reports|
      ensures reports[i] != NoTestsFound
    {
      assert reports[i].IsFailureDetail();
    }
  }

  /** The transcript, cut where the failure reports begin: what precedes
      them, the reports, and the status line printed after them. */
  lemma {:induction false} TranscriptShape<V>(suite: Suite, width: nat, render: Renderer<V>, results: seq<TestResult<V>>)
    requires AllReportable(results)
    ensures var before := Opening(suite) + Live(width, results) +
                          ((if |results| == 0 then [NoTestsFound] else []) + [ResetCursor]);
            Transcript(suite, width, render, results) ==
              if Failures(results) == [] then before
              else before + FailureReports(width, render, results) + [Blank, StatusPrinted(StatusAfter(results))]
  {
  }

  /** Between parts that name no test, the middle part's names are all. */
  lemma {:induction false} ReportedTestsFramed(a: seq<Event>, b: seq<Event>, c: seq<Event>)
    requires ReportedTests(a) == [] && ReportedTests(c) == []
    ensures ReportedTests(a + b + c) == ReportedTests(b)
  {
    ReportedTestsConcat(a + b, c);
    ReportedTestsConcat(a, b);
  }

  /** Nothing written before the failure reports names a failed test. */
  lemma {:induction false} NothingReportedBefore<V>(suite: Suite, width: nat, results: seq<TestResult<V>>)
    ensures ReportedTests(Opening(suite) + Live(width, results) +
                          ((if |results| == 0 then [NoTestsFound] else []) + [ResetCursor])) == []
  {
    var live := Live(width, results);
    var head := (if |results| == 0 then [NoTestsFound] else []) + [ResetCursor];
    LiveReportsNothing(width, results);
    ReportedTestsNone(Opening(suite));
    ReportedTestsNone(head);
    ReportedTestsConcat(Opening(suite), live);
    ReportedTestsConcat(Opening(suite) + live, head);
  }

  /** The failure reports name the failed tests in arrival order. */
  lemma {:induction false} ReportsNameFailures<V>(width: nat, render: Renderer<V>, results: seq<TestResult<V>>)
    requires AllReportable(results)
    ensures ReportedTests(FailureReports(width, render, results)) == TestsOf(Failures(results))
  {
    FailuresCounted(results);
    FailureBlocksInOrder(width, render, Failures(results));
  }

  /** The names reported by a transcript assembled from parts. */
  lemma {:induction false} ReportedTestsOfParts(out: seq<Event>, before: seq<Event>, reports: seq<Event>,
                                                tail: seq<Event>, failed: bool)
    requires out == if failed then before + reports + tail else before
    requires ReportedTests(before) == [] && ReportedTests(tail) == []
    ensures ReportedTests(out) == if failed then ReportedTests(reports) else []
  {
    if failed {
      ReportedTestsFramed(before, reports, tail);
    }
  }

  /** A run reports exactly its failed results, in the order they arrived. */
  lemma {:induction false} FailuresReportedInArrivalOrder<V>(suite: Suite, width: nat, render: Renderer<V>, results: seq<TestResult<V>>)
    requires AllReportable(results)
    ensures ReportedTests(Transcript(suite, width, render, results)) == TestsOf(Failures(results))
  {
    TranscriptShape(suite, width, render, results);
    NothingReportedBefore(suite, width, results);
    ReportsNameFailures(width, render, results);
    var tail := if |results| == 0 then [] else [Blank, StatusPrinted(StatusAfter(results))];
    ReportedTestsNone(tail);
    ReportedTestsOfParts(Transcript(suite, width, render, results),
                         Opening(suite) + Live(width, results) +
                         ((if |results| == 0 then [NoTestsFound] else []) + [ResetCursor]),
                         FailureReports(width, render, results), tail, Failures(results) != []);
  }

  /** An empty stream's whole output: the opening, the notice, the reset. */
  lemma {:induction false} EmptyRunTranscript<V>(suite: Suite, width: nat, render: Renderer<V>, results: seq<TestResult<V>>)
    requires AllReportable(results) && |results| == 0
    ensures Transcript(suite, width, render, results) ==
            [HideCursor, Blank, Banner(suite.numTests, suite.numFixtures), NoTestsFound, ResetCursor]
  {
    assert Failures(results) == [];
    assert Live(width, results) == [];
  }

  /** A transcript assembled from parts that do not hold the notice does
      not hold it. */
  lemma {:induction false} NoticeOfParts(out: seq<Event>, before: seq<Event>, reports: seq<Event>,
                                         tail: seq<Event>, failed: bool)
    requires out == if failed then before + reports + tail else before
    requires NoTestsFound !in before && NoTestsFound !in reports && NoTestsFound !in tail
    ensures NoTestsFound !in out
  {
  }

  /** A non-empty stream's output never says "No tests found.". */
  lemma {:induction false} NoNoticeWhenResults<V>(suite: Suite, width: nat, render: Renderer<V>, results: seq<TestResult<V>>)
    requires AllReportable(results) && |results| > 0
    ensures NoTestsFound !in Transcript(suite, width, render, results)
  {
    TranscriptShape(suite, width, render, results);
    NoNoticeBefore(suite, width, results);
    ReportsHaveNoNotice(width, render, results);
    NoticeOfParts(Transcript(suite, width, render, results),
                  Opening(suite) + Live(width, results) +
                  ((if |results| == 0 then [NoTestsFound] else []) + [ResetCursor]),
                  FailureReports(width, render, results), [Blank, StatusPrinted(StatusAfter(results))],
                  Failures(results) != []);
  }

  /** With results, nothing before the failure reports is the notice. */
  lemma {:induction false} NoNoticeBefore<V>(suite: Suite, width: nat, results: seq<TestResult<V>>)
    requires |results| > 0
    ensures NoTestsFound !in Opening(suite) + Live(width, results) +
                             ((if |results| == 0 then [NoTestsFound] else []) + [ResetCursor])
  {
    LiveReportsNothing(width, results);
    var head := (if |results| == 0 then [NoTestsFound] else []) + [ResetCursor];
    assert head == [ResetCursor];
  }

  /** "No tests found." is written exactly when the stream was empty, and
      then no progress bar or status line is written. */
  lemma {:induction false} NoTestsFoundIffEmpty<V>(suite: Suite, width: nat, render: Renderer<V>, results: seq<TestResult<V>>)
    requires AllReportable(results)
    ensures NoTestsFound in Transcript(suite, width, render, results) <==> |results| == 0
    ensures |results| == 0 ==>
              forall i :: 0 <= i < |Transcript(suite, width, render, results)| ==>
                !Transcript(suite, width, render, results)[i].BarRow? &&
                !Transcript(suite, width, render, results)[i].StatusRow?
  {
    if |results| == 0 {
      EmptyRunTranscript(suite, width, render, results);
    } else {
      NoNoticeWhenResults(suite, width, render, results);
    }
  }
}
