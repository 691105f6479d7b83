# ward terminal reporter, modelled in Dafny

This project models the live-reporting layer of the `ward` test runner,
`ward/terminal.py`, and proves properties of the model. It covers five pieces:

- `truncate`, which shortens a description and marks the cut with `...`.
- The padding `write_over_line` adds, so that a short write hides an older, longer one.
- The cell arithmetic of `write_over_progress_bar`, including its rounding compensation.
- `write_test_failure_output`, as the sequence of lines it writes for one failed test.
- `ExitCode` and `TestResultWriter.write_test_results_to_terminal`. This is the run loop: it tallies results as they arrive, keeps the failing list, advances the spinner, rewrites the progress bar and status line, then reports every failure and picks the exit code.

The terminal is modelled as an ordered sequence of output events (`Model.Event`):

- the opening banner;
- for each result, its row, the progress bar and the status line;
- the "No tests found." notice;
- the cursor reset;
- the lines of each failure report;
- the status line printed once more at the end.

`repr` and the unified-diff renderer are parameters (`Model.Renderer`), so every property holds for any implementation of them.

Files, one module each:

- `text.dfy` (`Text`): `truncate`, Python's `s[:n]`, and the row padding.
- `progress_bar.dfy` (`ProgressBar`): `int()` as truncation toward zero, the bar's cell counts, and the compensation.
- `model.dfy` (`Model`): results, errors, expectation histories, the exit code and the output events.
- `failure_output.dfy` (`FailureOutput`): the report for one failed result.
- `result_writer.dfy` (`ResultWriter`):
  - the run loop, as two classes. `ProgressReporter` holds the loop's mutable state (`passed`, `failed`, `failing_test_results`, the spinner and `info_bar`). `TestResultWriter` mirrors the source's dataclass;
  - the functions the loop is proved against;
  - the properties of the run's whole output.
- `scenarios.dfy` (`Scenarios`): four concrete runs:
  - two passes and one failed `equals`;
  - the report of that failure;
  - an empty stream;
  - an all-passing stream.

Two behaviours of the code are worth knowing, and the model keeps both:

- `truncate(s, n)` returns `s[:n] + "..."`, which can be `n + 3` characters long. It also appends the marker to a string whose length is in `(n - 3, n]`, even though nothing was cut. `Text.TruncateCutsAtWidth` and `Text.TruncateKeepsWholeWithMarker` state both.
- The cursor hidden at the start of a run is restored only on the normal path (ward/terminal.py:123 and 165), with no `try`/`finally`. No pairing property is claimed.

## Model

| member | source | states |
|---|---|---|
| Text.PyPrefix | ward/terminal.py:24 | `s[:n]` is a prefix of `s`: `min(n, len)` characters for `n >= 0`, and `max(0, len + n)` for negative `n` |
| Text.Truncate | ward/terminal.py:22-24 | A string of length at most `n - 3` comes back unchanged. A longer one gets `...` appended after a prefix of the original. For `n >= 0` the length is `min(n, len) + 3` |
| Text.TruncateCutsAtWidth | ward/terminal.py:22-24 | A string longer than `n` becomes exactly `s[:n] + "..."`, which is `n + 3` characters |
| Text.TruncateKeepsWholeWithMarker | ward/terminal.py:22-24 | A string of length in `(n - 3, n]` is kept whole and still gets `...` |
| Text.TruncateLengthBound | ward/terminal.py:22-24 | For `n >= 0` the result is at most `n + 3` long and at most three longer than the input |
| Text.PaddedRow | ward/terminal.py:95-102 | The written row is the text followed only by spaces. Its length is `max(len, width + 37)`, so the text is padded with `max(0, width - len + 37)` spaces |
| ProgressBar.Trunc | ward/terminal.py:82-83 | `int(x)` truncates toward zero: the floor for non-negative `x`, the ceiling for negative `x` |
| ProgressBar.BarCells | ward/terminal.py:81-87 | The bar drawn for the two fractions. Red is `int(red_pct * w)` and is never changed by the compensation. Green is `int(green_pct * w)`, or one more exactly when the two raw counts are one short of the width. `BarFillsWidth` shows the bar then fills the width |
| ProgressBar.RawCellsShortByAtMostOne | ward/terminal.py:82-86 | When the two fractions are non-negative and sum to 1, the raw counts sum to `w` or `w - 1` |
| ProgressBar.BarFillsWidth | ward/terminal.py:81-89 | After compensation, red + green equals the width exactly, and both counts are non-negative |
| ProgressBar.RawCellsFromTally | ward/terminal.py:145-148 | With `pass_pct = passed / total` and `fail_pct = 1 - pass_pct`, the raw green count is `passed * w / total` and the raw red count is `failed * w / total` (integer quotients) |
| Model.ExitCode.Status | ward/terminal.py:111-113 | `SUCCESS` is status 0 and `TEST_FAILED` is status 1, the only nonzero status |
| FailureOutput.MarkerLines | ward/terminal.py:46-60 | One marker line per history entry, and nothing else |
| FailureOutput.DiffLines | ward/terminal.py:64-71 | The lines after the markers are only the diff caption and the diff |
| FailureOutput.TargetDescription | ward/terminal.py:52-55 | How a check's target is described: by its truncated name for a `satisfies` check whose target has a name, and by its truncated `repr` otherwise. `OneMarkerPerCheck` states this of every marker in a report |
| FailureOutput.MarkerLine | ward/terminal.py:46-60 | A check's line: its outcome, its operator and its target's description. `OneMarkerPerCheck` states this in history order |
| FailureOutput.SubjectLine | ward/terminal.py:40-44 | The "Expect" line: the truncated `repr` of the first check's subject. `ExpectLineShowsFirstSubject` states where it appears |
| FailureOutput.ExpectationReport | ward/terminal.py:38-71 | A failed expectation's body holds only report lines and never a second header |
| FailureOutput.FailureBlock | ward/terminal.py:27-74 | The report starts with a header naming the test, then holds only report lines and no other header. A setup error adds just its message line. Any other error adds just its trace |
| FailureOutput.ExpectationBlock | ward/terminal.py:38-71 | The structure of a failed expectation's report, used by the lemmas about it: header, blank line, the "Expect" line, blank line, the markers, then the diff if any |
| FailureOutput.OneMarkerPerCheck | ward/terminal.py:46-60 | The report has exactly one marker per history entry, in history order, with the entry's outcome (✓ iff it succeeded) and operator. The target is described by its name when the operator is `satisfies` and the target has a name. Otherwise it is described by its truncated `repr` |
| FailureOutput.MarkersOfBlock | ward/terminal.py:46-60 | The report's markers are exactly the marker lines of the history |
| FailureOutput.ExpectLineShowsFirstSubject | ward/terminal.py:40-44 | The third line shows the truncated `repr` of the first check's subject. No other line is an "Expect" line |
| FailureOutput.DiffShownIffLastCheckEquals | ward/terminal.py:64-71 | A diff is shown iff the error is a failed expectation whose last check is `equals`. It is then the last line: the diff of that check's target (expected) against its subject (actual) |
| ResultWriter.TallyCountsEveryResult | ward/terminal.py:136-141 | Every result is counted once, as passed or as failed: `passed + failed` is the number of results consumed |
| ResultWriter.CountPassed | ward/terminal.py:137-138 | The `passed` counter after a prefix of the stream. `StepTracks` shows the loop keeps it, and `TallyCountsEveryResult` and `StatusLine` state what it adds up to |
| ResultWriter.CountFailed | ward/terminal.py:139-140 | The `failed` counter after a prefix of the stream. `StepTracks` shows the loop keeps it, and `TallyCountsEveryResult` and `StatusLine` state what it adds up to |
| ResultWriter.Failures | ward/terminal.py:139-141 | The `failing_test_results` list after a prefix of the stream. `FailuresAreFailedInOrder` shows it is exactly the failed results in arrival order, and `FailuresCounted` shows it has `failed` entries |
| ResultWriter.FailuresCounted | ward/terminal.py:137-141 | The failing list has `failed` entries, each a failed result, and each reportable when the stream's failures are |
| ResultWriter.FailuresAtFailedPositions | ward/terminal.py:137-141 | The j-th entry of the failing list is the result at the j-th failed position |
| ResultWriter.FailedPositionsExact | ward/terminal.py:137-141 | The failed positions increase, and a position is among them iff its result failed |
| ResultWriter.FailuresAreFailedInOrder | ward/terminal.py:136-141 | The failing list is exactly the subsequence of failed results, in arrival order |
| ResultWriter.NoFailuresIffAllPassed | ward/terminal.py:166-173 | The failing list is empty iff every result passed |
| ResultWriter.ExitCodeOf | ward/terminal.py:166-173 | The exit code is `TEST_FAILED` exactly when some result failed, and `SUCCESS` otherwise, including for an empty stream |
| ResultWriter.StatusAfter | ward/terminal.py:150-156 | The status line after a non-empty prefix of the stream: its spinner glyph, tests ran, failed, passed and pass rate. `StatusLine` states its values |
| ResultWriter.StepRows | ward/terminal.py:143-158 | The three rows one loop turn writes: the result's row, the bar for the current pass and fail fractions, and the status line. `LiveAt` and `ProgressBarAfter` state their values |
| ResultWriter.Opening | ward/terminal.py:123-130 | The opening: the cursor is hidden, a blank line, then the banner with the suite's test and fixture counts |
| ResultWriter.Closing | ward/terminal.py:159-171 | What follows the live view: the notice for an empty stream, the cursor reset, then, when something failed, the reports and the status line printed again. `TranscriptShape` and `NoTestsFoundIffEmpty` state it |
| ResultWriter.Transcript | ward/terminal.py:122-171 | The whole output of a run. `WriteTestResultsToTerminal` is proved to write it. `FailuresReportedInArrivalOrder` and `NoTestsFoundIffEmpty` state what it reports |
| ResultWriter.Live | ward/terminal.py:136-158 | The live view writes three rows per result |
| ResultWriter.ProgressReporter.constructor | ward/terminal.py:132-135 | The loop starts with zero counts, an empty failing list, the spinner at its first glyph and an empty status line |
| ResultWriter.ProgressReporter.OnResult | ward/terminal.py:136-158 | One loop turn keeps the tally, the failing list, the spinner index (mod 29) and the status line in step with the results consumed. It writes the result row, the bar and the status line that those results call for |
| ResultWriter.StepTracks | ward/terminal.py:137-156 | The counter, list, spinner and status-line updates of one loop turn take the state for `seen` to the state for `seen + [r]` |
| ResultWriter.SpinnerAdvance | ward/terminal.py:134 | Advancing the cycled spinner one glyph from index `i mod 29` gives index `(i + 1) mod 29` |
| ResultWriter.TestResultWriter.constructor | ward/terminal.py:116-120 | The writer holds the suite, the terminal width, the renderers and the result stream it was given |
| ResultWriter.TestResultWriter.WriteTestResultsToTerminal | ward/terminal.py:122-173 | The output is the whole transcript of the run. The exit code is `TEST_FAILED` iff some result failed, and `SUCCESS` otherwise |
| ResultWriter.TestResultWriter.RunLiveView | ward/terminal.py:136-158 | After the loop, the reporter has consumed the whole stream in order and its state tracks it. The rows written are the live view of the stream |
| ResultWriter.TestResultWriter.WriteFailureReports | ward/terminal.py:166-168 | The reports are written one per failing result, in the order of the failing list |
| ResultWriter.LiveAt | ward/terminal.py:143-158 | Rows 3k to 3k+2 of the live view belong to result k: its row, then the bar and the status line computed from the first k+1 results |
| ResultWriter.StatusLine | ward/terminal.py:145-156 | The status line after the k-th result (counted from 1) shows glyph `(k - 1) mod 29`, `k` tests ran, and the failed and passed counts of the first k results. Its pass rate is `passed / ran`, in [0, 1], so the division always has a non-zero divisor |
| ResultWriter.ProgressBarAfter | ward/terminal.py:145-148 | The bar drawn after each result fills the width exactly. Red is `failed * w / ran` and green is `passed * w / ran`, plus the one compensating cell when there is one |
| ResultWriter.NonNegativeRate | ward/terminal.py:145 | `passed / ran` lies in [0, 1] |
| ResultWriter.TestsOf | ward/terminal.py:167-168 | The tests of a result list, one per result, in order |
| ResultWriter.ReportedTestsOfBlock | ward/terminal.py:27-32 | A failure report names its own test, and only once |
| ResultWriter.FailureBlocksInOrder | ward/terminal.py:166-168 | The reports name the given failed tests, one each, in order |
| ResultWriter.LiveRowsOnly | ward/terminal.py:143-158 | The live view writes only result rows, bars and status lines |
| ResultWriter.LiveReportsNothing | ward/terminal.py:136-158 | The live view names no failed test and never says "No tests found." |
| ResultWriter.FailureBlocksAreDetails | ward/terminal.py:166-168 | The failure reports are made only of report lines |
| ResultWriter.ReportsHaveNoNotice | ward/terminal.py:166-168 | The failure reports never say "No tests found." |
| ResultWriter.TranscriptShape | ward/terminal.py:159-171 | The structure of the transcript, used by the lemmas about it: what precedes the reports, then the reports and the reprinted status line, and those two only when something failed |
| ResultWriter.NothingReportedBefore | ward/terminal.py:122-165 | Nothing written before the failure reports names a failed test |
| ResultWriter.ReportsNameFailures | ward/terminal.py:166-168 | The failure reports name the failed tests in arrival order |
| ResultWriter.FailuresReportedInArrivalOrder | ward/terminal.py:132-171 | A run's whole output names exactly its failed tests, each once, in the order they arrived |
| ResultWriter.EmptyRunTranscript | ward/terminal.py:122-165 | The structure of an empty run's output: the opening, "No tests found." and the cursor reset, and nothing else |
| ResultWriter.NoNoticeWhenResults | ward/terminal.py:159-163 | A non-empty stream's output never says "No tests found." |
| ResultWriter.NoNoticeBefore | ward/terminal.py:159-165 | With results, nothing before the failure reports is the notice |
| ResultWriter.NoTestsFoundIffEmpty | ward/terminal.py:159-163 | "No tests found." is written iff the stream was empty. In that case no progress bar or status line is written |
| Scenarios.TwoPassedOneFailed | ward/terminal.py:122-173 | Two passes and a failed `equals` give 2 passed, 1 failed and `TEST_FAILED` (status 1), and only the failed test is reported |
| Scenarios.EqualsFailureReport | ward/terminal.py:38-71 | The report for `equals(1,1)` passing and `equals(2,3)` failing shows ✓ then ✗, and ends with the diff of 3 (expected) against 2 (actual) |
| Scenarios.EmptyStream | ward/terminal.py:159-173 | An empty stream exits with `SUCCESS`, says "No tests found." and draws no progress bar |
| Scenarios.AllPassing | ward/terminal.py:166-173 | An all-passing stream exits with `SUCCESS` and reports no failure |

## Left out

- Terminal I/O: `blessings.Terminal` (`location`, `move`, `height`, `hide_cursor`, `normal_cursor`), `sys.stdout`, `print` and the colorama colour codes. Output is an ordered sequence of events. The comments on `Model.Event` say which row each one is written to, or that it is printed at the cursor.
- Screen position of failure reports: the header, setup message, "Expect" line, marker lines and trace are written with `write_over_line(..., 0, term)` (ward/terminal.py:32, 37, 40-44, 56-60, 74). That overwrites the bottom row and restores the cursor after each write. The model keeps only their order in the output, not that overwrite-and-restore.
- Terminal resizing: the source reads `term.width` at every write, while the model takes one width for the whole run.
- Padding of events: the events carry the text before padding. `Text.PaddedRow` states the padding `write_over_line` adds, separately.
- Floating point: the fractions are exact rationals, so the possible drift of `1.0 - pass_pct` and the `:.2f` formatting of the pass rate are not modelled. The status line carries the exact rate.
- External code: `repr`, `ward.diff.build_unified_diff`, `str(test_result)` and `traceback.format_exception` are not part of this model. `repr` and the diff are the `Renderer` parameters. `str(test_result)` becomes a result row holding the test and its outcome. The traceback becomes the text stored in `OtherError`. Whether a target has `__name__` is a field of the expectation.
- FailureOutput.FailureBlock: requires a reportable result. A failed result with no error, or a failed expectation with an empty history, makes the source raise (at `err.__traceback__` and at `history[0]`), and such results are outside the model. This is why `write_test_results_to_terminal` requires every failed result to be reportable.
- Blank lines: the `print()` calls of the failure report become `Blank` events. The diff caption's embedded newlines are part of the `DiffCaption` event.
- Cursor hiding and showing: the cursor is restored only on the normal path, so no pairing property is claimed.
- Spinner: the `cycle` iterator is an index modulo the 29-glyph table. The status line holds the glyph as a character.
- The loop's split: the source's single `for` loop is split into a loop method, `RunLiveView`, and a per-result method, `ProgressReporter.OnResult`. This keeps each proof small and does not change what is written or returned.
- `build_split_diff` is imported (ward/terminal.py:13) but never called: its one call, at line 67, is commented out. It is not modelled.
- `tests/test_config.py` tests the configuration loader, which is not part of this model.
