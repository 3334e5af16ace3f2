/** From the children to the reports: what the server's report of a run or of a submission says,
    given only what the children did.
 */
module ChildReports {
  import opened Common
  import opened BoundedOutput
  import Grading

  /** Whatever the children did, the server accepts the harness's list. */
  lemma HarnessIsAccepted<V>(children: seq<Child<V>>, errorLimit: nat)
    ensures Grading.IsPermutation(Grading.Indexes(Results(children, errorLimit)), |children|)
  {
    assert Grading.Indexes(Results(children, errorLimit)) == Grading.Range(|children|);
  }

  predicate Right<V(==)>(child: Child<V>, test: Grading.TestCase<V>) {
    child.Finished? && child.ending == Returned(test.expectedOutput)
  }

  ghost function RightOnes<V>(children: seq<Child<V>>, tests: seq<Grading.TestCase<V>>): set<int>
    requires |children| == |tests|
  {
    set i | 0 <= i < |tests| && Right(children[i], tests[i])
  }

  // ---------------------------------------------------------------------------------------
  // What the client is shown of a child
  // ---------------------------------------------------------------------------------------

  /** The text that explains why the child failed: its traceback, or what became of it. */
  function Complaint<V>(child: Child<V>): Option<string> {
    match child
    case Died(error) => Some(if error.Some? then error.value else "Execution process failed.")
    case Finished(_, _, Raised(traceback)) => Some(traceback)
    case _ => None
  }

  /** What the child gave instead of the expected value, as the client sees it. */
  function Gave<V>(child: Child<V>, errorLimit: nat, format: V -> string): Option<string> {
    match child
    case Finished(_, _, Returned(value)) => Some(format(value))
    case Finished(_, _, NotJson(repr)) => Some(First(repr, errorLimit))
    case _ => None
  }

  /** One case of a run's report. A right child is shown without details. A wrong one is shown
      with the input, and either with its complaint, cut to the limit and flagged exactly when
      that cuts something off, or with what it gave against what was expected. */
  ghost predicate ShowsChild<V>(k: Grading.CaseReport, child: Child<V>, test: Grading.TestCase<V>, errorLimit: nat,
                                format: V -> string) {
    var details := (k.input, k.error, k.errorTruncated, k.got, k.expected);
    var none: Option<string> := None;
    && (k.passed <==> Right(child, test))
    && k.elapsedMs == (if child.Finished? then child.elapsedMs else 0.0)
    && (k.slow <==> k.elapsedMs > 500.0)
    && (Right(child, test) ==> details == (none, none, false, none, none))
    && (!Right(child, test) ==>
          match Complaint(child)
          case Some(text) =>
            details == (Some(test.input), if First(text, errorLimit) != "" then Some(First(text, errorLimit)) else None,
                        First(text, errorLimit) != "" && |text| > errorLimit, none, none)
          case None =>
            details == (Some(test.input), none, false, Gave(child, errorLimit, format),
                        Some(format(test.expectedOutput))))
  }

  /** The first failure of a submission: the same texts for a visible test, and nothing of the
      child for a hidden one. */
  ghost predicate FailureShowsChild<V>(f: Grading.Failure, child: Child<V>, test: Grading.TestCase<V>, errorLimit: nat,
                                       format: V -> string) {
    if !test.isVisible then
      f == Grading.Failure(f.index, "", "Output did not match a hidden test case.", "Hidden test case expectation.",
                           false)
    else
      match Complaint(child)
      case Some(text) =>
        f == Grading.Failure(f.index, test.input, First(text, errorLimit), "", |text| > errorLimit)
      case None =>
        && Gave(child, errorLimit, format).Some?
        && f == Grading.Failure(f.index, test.input, Gave(child, errorLimit, format).value,
                                format(test.expectedOutput), false)
  }

  /** What the server's submit report must say, given only what the children did. */
  ghost predicate ReportsTheChildren<V>(report: Grading.SubmitReport, children: seq<Child<V>>,
                                        tests: seq<Grading.TestCase<V>>, errorLimit: nat, format: V -> string)
    requires |children| == |tests|
  {
    && report.total == |tests| && report.passed == |RightOnes(children, tests)|
    && (report.firstFailure.None? <==> forall i :: 0 <= i < |tests| ==> Right(children[i], tests[i]))
    && (report.firstFailure.Some? ==>
          var k := report.firstFailure.value.index;
          && 0 <= k < |tests| && !Right(children[k], tests[k])
          && (forall i :: 0 <= i < k ==> Right(children[i], tests[i]))
          && FailureShowsChild(report.firstFailure.value, children[k], tests[k], errorLimit, format))
  }

  /** From the children to the report: a submission is always graded, its count is the number
      of children that returned the expected value, and its first failure is the first child
      that did not, shown as it ended. */
  lemma SubmissionReportsTheChildren<V>(children: seq<Child<V>>, tests: seq<Grading.TestCase<V>>, errorLimit: nat,
                                        format: V -> string)
    requires |children| == |tests|
    ensures var r := Grading.SubmitOf(Results(children, errorLimit), tests, format);
            r.Some? && ReportsTheChildren(r.value, children, tests, errorLimit, format)
  {
    var results := Results(children, errorLimit);
    HarnessIsAccepted(children, errorLimit);
    Grading.SubmitReportIsRight(results, tests, format);
    forall i | 0 <= i < |tests| ensures Grading.Passes(results, tests, i) <==> Right(children[i], tests[i]) {
      PassesWhenRight(children, tests, errorLimit, i);
    }
    assert Grading.Passing(results, tests, |tests|) == RightOnes(children, tests);
    var failure := Grading.SubmitOf(results, tests, format).value.firstFailure;
    if failure.Some? {
      FailureReportsTheChild(children, tests, errorLimit, format, failure.value.index);
    }
  }

  lemma FailureReportsTheChild<V>(children: seq<Child<V>>, tests: seq<Grading.TestCase<V>>, errorLimit: nat,
                                  format: V -> string, k: nat)
    requires k < |children| == |tests|
    requires var r := Grading.SubmitOf(Results(children, errorLimit), tests, format);
             r.Some? && r.value.firstFailure.Some? && r.value.firstFailure.value.index == k
    ensures var f := Grading.SubmitOf(Results(children, errorLimit), tests, format).value.firstFailure.value;
            FailureShowsChild(f, children[k], tests[k], errorLimit, format)
  {
    var results := Results(children, errorLimit);
    HarnessIsAccepted(children, errorLimit);
    Grading.SubmitReportIsRight(results, tests, format);
    assert results[k] in results && results[k].index == k;
    Grading.FailureShowsItsResult(results, tests, format, results[k]);
  }

  lemma PassesWhenRight<V>(children: seq<Child<V>>, tests: seq<Grading.TestCase<V>>, errorLimit: nat, i: nat)
    requires i < |children| == |tests|
    ensures Grading.Passes(Results(children, errorLimit), tests, i) <==> Right(children[i], tests[i])
  {
    assert Results(children, errorLimit)[i] in Results(children, errorLimit);
  }

  /** What a run's report must say, given only what the children did: the verdict and the ending
      of each, in order, and the first part of everything they wrote. */
  ghost predicate ReportsTheRun<V>(report: Grading.RunReport, children: seq<Child<V>>,
                                   tests: seq<Grading.TestCase<V>>, stdoutLimit: nat, errorLimit: nat,
                                   format: V -> string)
    requires |children| == |tests|
  {
    && report.total == |tests| == |report.cases| && report.passed == |RightOnes(children, tests)|
    && (forall i :: 0 <= i < |tests| ==>
          report.cases[i].index == i && ShowsChild(report.cases[i], children[i], tests[i], errorLimit, format))
    && report.userStdout == First(AllOutput(children), stdoutLimit)
    && (report.truncated <==> |AllOutput(children)| > stdoutLimit)
  }

  lemma CaseReportsTheChild<V>(children: seq<Child<V>>, tests: seq<Grading.TestCase<V>>, errorLimit: nat,
                               userStdout: string, truncated: bool, format: V -> string, i: nat)
    requires i < |children| == |tests|
    ensures var r := Grading.RunOf(Results(children, errorLimit), userStdout, tests, format, truncated);
            && r.Some? && |r.value.cases| == |tests| && r.value.cases[i].index == i
            && ShowsChild(r.value.cases[i], children[i], tests[i], errorLimit, format)
  {
    var results := Results(children, errorLimit);
    HarnessIsAccepted(children, errorLimit);
    Grading.RunReportIsRight(results, userStdout, tests, format, truncated);
    PassesWhenRight(children, tests, errorLimit, i);
    assert results[i] in results && results[i].index == i;
    Grading.CaseShowsItsResult(results, userStdout, tests, format, truncated, results[i]);
    var report := Grading.RunOf(results, userStdout, tests, format, truncated).value;
    ResultShowsTheChild(report.cases[i], children[i], i, tests[i], errorLimit, format);
  }

  lemma ResultShowsTheChild<V>(k: Grading.CaseReport, child: Child<V>, i: nat, test: Grading.TestCase<V>,
                               errorLimit: nat, format: V -> string)
    requires (k.passed <==> Right(child, test)) && Grading.ShowsCase(k, ResultOf(child, i, errorLimit), test, format)
    ensures ShowsChild(k, child, test, errorLimit, format)
  {
  }

  /** The same from the children to a run's report, with what the parent captured. */
  lemma RunReportsTheChildren<V>(children: seq<Child<V>>, tests: seq<Grading.TestCase<V>>, stdoutLimit: nat,
                                 errorLimit: nat, format: V -> string)
    requires |children| == |tests|
    ensures var all := AllOutput(children);
            var r := Grading.RunOf(Results(children, errorLimit), First(all, stdoutLimit), tests, format,
                                   |all| > stdoutLimit);
            r.Some? && ReportsTheRun(r.value, children, tests, stdoutLimit, errorLimit, format)
  {
    var results, all := Results(children, errorLimit), AllOutput(children);
    HarnessIsAccepted(children, errorLimit);
    Grading.RunReportIsRight(results, First(all, stdoutLimit), tests, format, |all| > stdoutLimit);
    forall i | 0 <= i < |tests| ensures Grading.Passes(results, tests, i) <==> Right(children[i], tests[i]) {
      PassesWhenRight(children, tests, errorLimit, i);
    }
    assert Grading.Passing(results, tests, |tests|) == RightOnes(children, tests);
    var report := Grading.RunOf(results, First(all, stdoutLimit), tests, format, |all| > stdoutLimit).value;
    forall i | 0 <= i < |tests|
      ensures report.cases[i].index == i && ShowsChild(report.cases[i], children[i], tests[i], errorLimit, format)
    {
      CaseReportsTheChild(children, tests, errorLimit, First(all, stdoutLimit), |all| > stdoutLimit, format, i);
    }
  }
}
