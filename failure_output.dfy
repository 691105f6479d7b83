/** `write_test_failure_output` (ward/terminal.py) as the sequence of lines
    it writes for one failed test. */
module FailureOutput {
  import opened Model
  import opened Text

  /** Columns kept free of the subject and target descriptions. */
  const DescriptionMargin: int := 30

  /** A failed result the report can be written for: it carries an error
      (the report reads its traceback otherwise), and a failed expectation
      has a history (its first entry is read unconditionally). */
  predicate Reportable<V>(result: TestResult<V>)
  {
    result.error.Some? &&
    (result.error.value.ExpectationFailed? ==> |result.error.value.history| > 0)
  }

  /** What the marker line says the check was against: the target's name
      for a `satisfies` check whose target has one, its `repr` otherwise. */
  function TargetDescription<V>(e: Expectation<V>, width: nat, render: Renderer<V>): string
  {
    if e.op == "satisfies" && e.targetName.Some? then
      Truncate(e.targetName.value, width - DescriptionMargin)
    else
      Truncate(render.repr(e.target), width - DescriptionMargin)
  }

  function MarkerLine<V>(e: Expectation<V>, width: nat, render: Renderer<V>): Event
  {
    Marker(e.success, e.op, TargetDescription(e, width, render))
  }

  /** The lines the loop over the history writes, one per check. */
  function MarkerLines<V>(history: seq<Expectation<V>>, width: nat, render: Renderer<V>): (lines: seq<Event>)
    ensures |lines| == |history|
    ensures forall i :: 0 <= i < |lines| ==> lines[i].Marker?
  {
    if history == [] then []
    else MarkerLines(history[..|history| - 1], width, render) + [MarkerLine(history[|history| - 1], width, render)]
  }

  /** The diff shown after the markers when the last check was `equals`:
      expected value (the target) first, actual value (the subject) second. */
  function DiffLines<V>(history: seq<Expectation<V>>, width: nat, render: Renderer<V>): (lines: seq<Event>)
    ensures forall i :: 0 <= i < |lines| ==> lines[i].DiffCaption? || lines[i].Diff?
  {
    if |history| > 0 && history[|history| - 1].op == "equals" then
      var last := history[|history| - 1];
      [DiffCaption, Diff(render.unifiedDiff(last.target, last.subject, width - DescriptionMargin))]
    else []
  }

  /** The lines a report may hold below its header. */
  predicate BodyLines(lines: seq<Event>)
  {
    forall i :: 0 <= i < |lines| ==> lines[i].IsFailureDetail() && !lines[i].FailureHeader?
  }

  /** The "Expect" line: the truncated `repr` of the first check's subject. */
  function SubjectLine<V>(history: seq<Expectation<V>>, width: nat, render: Renderer<V>): Event
    requires |history| > 0
  {
    ExpectSubject(Truncate(render.repr(history[0].subject), width - DescriptionMargin))
  }

  /** The body of a failed expectation's report: the subject between blank
      lines, one marker line per check, then the diff if any. */
  function ExpectationReport<V>(history: seq<Expectation<V>>, width: nat, render: Renderer<V>): (lines: seq<Event>)
    requires |history| > 0
    ensures BodyLines(lines)
  {
    [Blank, SubjectLine(history, width, render), Blank] +
    MarkerLines(history, width, render) + DiffLines(history, width, render)
  }

  /** The report for one failed result: a header naming the test, then the
      body its kind of error calls for. */
  function FailureBlock<V>(width: nat, render: Renderer<V>, result: TestResult<V>): (out: seq<Event>)
    requires Reportable(result)
    ensures |out| >= 2 && out[0] == FailureHeader(result.test)
    ensures forall i :: 0 <= i < |out| ==> out[i].IsFailureDetail()
    ensures forall i :: 1 <= i < |out| ==> !out[i].FailureHeader?
    ensures result.error.value.SetupError? ==>
              out == [FailureHeader(result.test), SetupMessage(result.error.value.message)]
    ensures result.error.value.OtherError? ==>
              out == [FailureHeader(result.test), Trace(result.error.value.trace)]
  {
    var header := [FailureHeader(result.test)];
    match result.error.value
    case SetupError(message) => header + [SetupMessage(message)]
    case ExpectationFailed(history) =>
      var body := ExpectationReport(history, width, render);
      assert forall i :: 1 <= i < |header + body| ==> (header + body)[i] == body[i - 1];
      header + body
    case OtherError(trace) => header + [Trace(trace)]
  }

  /** A failed expectation's report, part by part: header, subject between
      blank lines, markers, diff. */
  lemma {:induction false} ExpectationBlock<V>(width: nat, render: Renderer<V>, result: TestResult<V>)
    requires Reportable(result) && result.error.value.ExpectationFailed?
    ensures var history := result.error.value.history;
            FailureBlock(width, render, result) ==
            [FailureHeader(result.test), Blank, SubjectLine(history, width, render), Blank] +
            MarkerLines(history, width, render) + DiffLines(history, width, render)
  {
    var history := result.error.value.history;
    var head := [Blank, SubjectLine(history, width, render), Blank];
    var markers := MarkerLines(history, width, render);
    var diff := DiffLines(history, width, render);
    assert FailureBlock(width, render, result) ==
           [FailureHeader(result.test)] + ExpectationReport(history, width, render);
    assert ExpectationReport(history, width, render) == head + markers + diff;
    HeadRegroups(FailureHeader(result.test), head, markers, diff);
  }

  /** Putting a header line in front of a three-part body. */
  lemma {:induction false} HeadRegroups(h: Event, head: seq<Event>, markers: seq<Event>, diff: seq<Event>)
    requires |head| == 3
    ensures [h] + (head + markers + diff) == [h, head[0], head[1], head[2]] + markers + diff
  {
    assert [h] + head == [h, head[0], head[1], head[2]];
  }

  /** The marker lines of an event sequence, in order. */
  function MarkersOf(events: seq<Event>): (ms: seq<Event>)
    ensures |ms| <= |events|
  {
    if events == [] then []
    else MarkersOf(events[..|events| - 1]) +
         (if events[|events| - 1].Marker? then [events[|events| - 1]] else [])
  }

  lemma {:induction false} MarkersOfConcat(a: seq<Event>, b: seq<Event>)
    ensures MarkersOf(a + b) == MarkersOf(a) + MarkersOf(b)
    decreases |b|
  {
    if b == [] {
      assert a + b == a;
    } else {
      var b' := b[..|b| - 1];
      assert (a + b)[..|a + b| - 1] == a + b';
      MarkersOfConcat(a, b');
    }
  }

  lemma {:induction false} MarkersOfOnlyMarkers(events: seq<Event>)
    requires forall i :: 0 <= i < |events| ==> events[i].Marker?
    ensures MarkersOf(events) == events
    decreases |events|
  {
    if events != [] {
      MarkersOfOnlyMarkers(events[..|events| - 1]);
    }
  }

  lemma {:induction false} MarkersOfNoMarkers(events: seq<Event>)
    requires forall i :: 0 <= i < |events| ==> !events[i].Marker?
    ensures MarkersOf(events) == []
    decreases |events|
  {
    if events != [] {
      MarkersOfNoMarkers(events[..|events| - 1]);
    }
  }

  /** Markers framed by lines that are not markers are all that is found. */
  lemma {:induction false} MarkersOfFramed(a: seq<Event>, b: seq<Event>, c: seq<Event>)
    requires forall i :: 0 <= i < |a| ==> !a[i].Marker?
    requires forall i :: 0 <= i < |b| ==> b[i].Marker?
    requires forall i :: 0 <= i < |c| ==> !c[i].Marker?
    ensures MarkersOf(a + b + c) == b
  {
    MarkersOfConcat(a + b, c);
    MarkersOfConcat(a, b);
    MarkersOfNoMarkers(a);
    MarkersOfOnlyMarkers(b);
    MarkersOfNoMarkers(c);
  }

  /** A failed expectation's report holds exactly one marker line per check
      of its history, in history order. The i-th reports the i-th check:
      its outcome (✓ exactly when it succeeded), its operator, and the
      target's name for a `satisfies` check on a named target, the target's
      truncated `repr` otherwise. */
  lemma {:induction false} OneMarkerPerCheck<V>(width: nat, render: Renderer<V>, result: TestResult<V>)
    requires Reportable(result) && result.error.value.ExpectationFailed?
    ensures var history := result.error.value.history;
            var ms := MarkersOf(FailureBlock(width, render, result));
            |ms| == |history| &&
            forall i :: 0 <= i < |ms| ==>
              ms[i].Marker? && ms[i].success == history[i].success && ms[i].op == history[i].op &&
              (history[i].op == "satisfies" && history[i].targetName.Some? ==>
                 ms[i].target == Truncate(history[i].targetName.value, width - DescriptionMargin)) &&
              (!(history[i].op == "satisfies" && history[i].targetName.Some?) ==>
                 ms[i].target == Truncate(render.repr(history[i].target), width - DescriptionMargin))
  {
    var history := result.error.value.history;
    var ms := MarkersOf(FailureBlock(width, render, result));
    MarkersOfBlock(width, render, result);
    forall i | 0 <= i < |ms|
      ensures ms[i] == MarkerLine(history[i], width, render)
    {
      MarkerLineAt(history, width, render, i);
    }
  }

  /** The markers of a failed expectation's report are the lines of the
      loop over its history, and nothing else. */
  lemma {:induction false} MarkersOfBlock<V>(width: nat, render: Renderer<V>, result: TestResult<V>)
    requires Reportable(result) && result.error.value.ExpectationFailed?
    ensures MarkersOf(FailureBlock(width, render, result)) ==
            MarkerLines(result.error.value.history, width, render)
  {
    var history := result.error.value.history;
    ExpectationBlock(width, render, result);
    MarkersOfFramed([FailureHeader(result.test), Blank, SubjectLine(history, width, render), Blank],
                    MarkerLines(history, width, render), DiffLines(history, width, render));
  }

  lemma {:induction false} MarkerLineAt<V>(history: seq<Expectation<V>>, width: nat, render: Renderer<V>, i: nat)
    requires i < |history|
    ensures MarkerLines(history, width, render)[i] == MarkerLine(history[i], width, render)
    decreases |history|
  {
    if i < |history| - 1 {
      MarkerLineAt(history[..|history| - 1], width, render, i);
    }
  }

  /** In a four-line head whose third line is the only "Expect" line, then
      markers and diff lines, no other line is an "Expect" line. */
  lemma {:induction false} SubjectOnlyInHead(head: seq<Event>, markers: seq<Event>, diff: seq<Event>)
    requires |head| == 4 && forall i :: 0 <= i < 4 && i != 2 ==> !head[i].ExpectSubject?
    requires forall i :: 0 <= i < |markers| ==> markers[i].Marker?
    requires forall i :: 0 <= i < |diff| ==> diff[i].DiffCaption? || diff[i].Diff?
    ensures var out := head + markers + diff;
            out[2] == head[2] && forall i :: 0 <= i < |out| && i != 2 ==> !out[i].ExpectSubject?
  {
    var out := head + markers + diff;
    forall i | 0 <= i < |out| && i != 2
      ensures !out[i].ExpectSubject?
    {
      if i < 4 {
        assert out[i] == head[i];
      } else if i < 4 + |markers| {
        assert out[i] == markers[i - 4];
      } else {
        assert out[i] == diff[i - 4 - |markers|];
      }
    }
  }

  /** The "Expect" line is written once, and shows the truncated `repr` of
      the subject of the history's first check. */
  lemma {:induction false} ExpectLineShowsFirstSubject<V>(width: nat, render: Renderer<V>, result: TestResult<V>)
    requires Reportable(result) && result.error.value.ExpectationFailed?
    ensures var out := FailureBlock(width, render, result);
            var history := result.error.value.history;
            out[2] == ExpectSubject(Truncate(render.repr(history[0].subject), width - DescriptionMargin)) &&
            forall i :: 0 <= i < |out| && i != 2 ==> !out[i].ExpectSubject?
  {
    var history := result.error.value.history;
    ExpectationBlock(width, render, result);
    SubjectOnlyInHead([FailureHeader(result.test), Blank, SubjectLine(history, width, render), Blank],
                      MarkerLines(history, width, render), DiffLines(history, width, render));
  }

  predicate HasDiff(events: seq<Event>)
  {
    exists i :: 0 <= i < |events| && events[i].Diff?
  }

  /** With no diff before it, a sequence shows a diff exactly when its
      tail does, and ends as its tail ends. */
  lemma {:induction false} DiffOnlyInTail(head: seq<Event>, markers: seq<Event>, diff: seq<Event>)
    requires forall i :: 0 <= i < |head| ==> !head[i].Diff?
    requires forall i :: 0 <= i < |markers| ==> markers[i].Marker?
    ensures HasDiff(head + markers + diff) <==> HasDiff(diff)
    ensures |diff| > 0 ==> (head + markers + diff)[|head + markers + diff| - 1] == diff[|diff| - 1]
  {
    var out := head + markers + diff;
    var k := |head| + |markers|;
    if HasDiff(out) {
      var i :| 0 <= i < |out| && out[i].Diff?;
      if k <= i {
        assert diff[i - k] == out[i];
      }
    }
    if HasDiff(diff) {
      var i :| 0 <= i < |diff| && diff[i].Diff?;
      assert out[k + i] == diff[i];
    }
  }

  /** In a failed expectation's report, a diff is shown exactly when the
      last check was `equals`, as its last line. */
  lemma {:induction false} DiffOfReport<V>(width: nat, render: Renderer<V>, result: TestResult<V>)
    requires Reportable(result) && result.error.value.ExpectationFailed?
    ensures var out := FailureBlock(width, render, result);
            var history := result.error.value.history;
            var last := history[|history| - 1];
            (HasDiff(out) <==> last.op == "equals") &&
            (last.op == "equals" ==>
               out[|out| - 1] == Diff(render.unifiedDiff(last.target, last.subject, width - DescriptionMargin)))
  {
    var history := result.error.value.history;
    var diff := DiffLines(history, width, render);
    ExpectationBlock(width, render, result);
    DiffOnlyInTail([FailureHeader(result.test), Blank, SubjectLine(history, width, render), Blank],
                   MarkerLines(history, width, render), diff);
    if history[|history| - 1].op == "equals" {
      assert diff[1].Diff?;
    }
  }

  /** A diff is shown exactly for a failed expectation whose last check was
      `equals`, and it is the diff of that check's target (expected) against
      its subject (actual). */
  lemma {:induction false} DiffShownIffLastCheckEquals<V>(width: nat, render: Renderer<V>, result: TestResult<V>)
    requires Reportable(result)
    ensures var out := FailureBlock(width, render, result);
            var e := result.error.value;
            HasDiff(out) <==> (e.ExpectationFailed? && e.history[|e.history| - 1].op == "equals")
    ensures var out := FailureBlock(width, render, result);
            var e := result.error.value;
            e.ExpectationFailed? && e.history[|e.history| - 1].op == "equals" ==>
              var last := e.history[|e.history| - 1];
              out[|out| - 1] == Diff(render.unifiedDiff(last.target, last.subject, width - DescriptionMargin))
  {
    var out := FailureBlock(width, render, result);
    if result.error.value.ExpectationFailed? {
      DiffOfReport(width, render, result);
    } else {
      assert !out[0].Diff? && !out[1].Diff?;
    }
  }
}
