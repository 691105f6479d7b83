/** The values the reporting layer of ward/terminal.py consumes and what it
    writes, with the terminal abstracted to a sequence of output events. */
module Model {
  import opened ProgressBar

  datatype Option<T> = None | Some(value: T)

  /** A test's module `__name__` and its own name, used for display only. */
  datatype TestId = TestId(moduleName: string, name: string)

  /** One recorded check of `expect(...)`: `subject` is the source's `this`
      (the actual value), `target` its `that`, `op` the comparator's name
      and `success` its outcome. `targetName` is `that.__name__` when the
      target has one. */
  datatype Expectation<V> = Expectation(
    subject: V, target: V, op: string, success: bool, targetName: Option<string>)

  /** The ways a test fails: `TestSetupError`, `ExpectationFailed` with its
      history, or any other exception, kept as its formatted traceback. */
  datatype TestError<V> =
    | SetupError(message: string)
    | ExpectationFailed(history: seq<Expectation<V>>)
    | OtherError(trace: string)

  datatype TestResult<V> = TestResult(test: TestId, wasSuccess: bool, error: Option<TestError<V>>)

  /** The counts the suite reports before the run starts. */
  datatype Suite = Suite(numTests: nat, numFixtures: nat)

  datatype ExitCode = Success | TestFailed
  {
    /** The process exit status: `SUCCESS = 0`, `TEST_FAILED = 1`. */
    function Status(): (n: int)
      ensures n == 0 <==> Success?
      ensures n == 0 || n == 1
    {
      match this
      case Success => 0
      case TestFailed => 1
    }
  }

  /** The status line of the live view: spinner glyph, tests run, failed,
      passed and the pass rate as an exact fraction. `NoInfo` is the empty
      line before any result arrives. */
  datatype InfoBar =
    | NoInfo
    | Info(glyph: char, ran: nat, failed: nat, passed: nat, passRate: real)

  /** What the reporter writes, in order. The banner, the live view and the
      notice overwrite rows counted from the bottom of the terminal. The
      lines of a failure report that name the test, the subject, the checks
      or the trace overwrite the bottom row (row 0) with the cursor restored
      after each; the blank lines, the diff and the reprinted status line
      are printed at the cursor. */
  datatype Event =
    | HideCursor
    | Blank
    | Banner(numTests: nat, numFixtures: nat)    // row 4: discovered and running counts
    | ResultRow(test: TestId, wasSuccess: bool)  // row 2: `str(result)`
    | BarRow(bar: Bar)                           // row 1: the progress bar
    | StatusRow(info: InfoBar)                   // row 0: the status line
    | NoTestsFound                               // row 1
    | ResetCursor
    | FailureHeader(test: TestId)                // row 0
    | SetupMessage(message: string)              // row 0
    | ExpectSubject(text: string)                // row 0
    | Marker(success: bool, op: string, target: string)  // row 0
    | DiffCaption                                // printed
    | Diff(text: string)                         // printed
    | Trace(text: string)                        // row 0
    | StatusPrinted(info: InfoBar)               // the status line again, for scrollback
  {
    /** The kinds of line a failure report is made of. */
    predicate IsFailureDetail()
    {
      FailureHeader? || Blank? || SetupMessage? || ExpectSubject? ||
      Marker? || DiffCaption? || Diff? || Trace?
    }
  }

  /** The collaborators the terminal layer calls but does not define:
      `repr` and `ward.diff.build_unified_diff(expected, actual, width)`. */
  datatype Renderer<!V> = Renderer(repr: V -> string, unifiedDiff: (V, V, int) -> string)
}
