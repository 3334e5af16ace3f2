/** Grading the harness's results: the index check, the per-case verdicts and the two reports.

    `V` is the type of JSON values with deep equality; `format` is the JSON text of a value.
 */
module Grading {
  import opened Common

  const SLOW_CASE_THRESHOLD_MS: real := 500.0

  datatype HarnessCase<V> =
    | OkCase(index: int, elapsedMs: Option<real>, gotJson: V)
    | Unserializable(index: int, elapsedMs: Option<real>, gotRepr: string)
    | ErrorCase(index: int, elapsedMs: Option<real>, error: string, errorTruncated: bool)

  /** `input` is the test's input as JSON text. */
  datatype TestCase<V> = TestCase(input: string, expectedOutput: V, isVisible: bool)

  datatype Graded = Graded(
    index: int, passed: bool, elapsedMs: Option<real>,
    got: Option<string>, expected: Option<string>, error: Option<string>, errorTruncated: bool)

  // ---------------------------------------------------------------------------------------
  // The index check
  // ---------------------------------------------------------------------------------------

  function Indexes<V>(results: seq<HarnessCase<V>>): seq<int> {
    seq(|results|, i requires 0 <= i < |results| => results[i].index)
  }

  function Range(n: nat): seq<int> { seq(n, i => i) }

  /** The indexes are 0 to n-1 in some order. */
  ghost predicate IsPermutation(indexes: seq<int>, n: nat) {
    multiset(indexes) == multiset(Range(n))
  }

  ghost predicate NoRepeats(xs: seq<int>) {
    forall i, j :: 0 <= i < j < |xs| ==> xs[i] != xs[j]
  }

  ghost function Elements(xs: seq<int>): set<int> { set x | x in xs }

  lemma {:induction false} DistinctSize(xs: seq<int>)
    requires NoRepeats(xs)
    ensures |Elements(xs)| == |xs| && forall x :: multiset(xs)[x] == if x in xs then 1 else 0
    decreases |xs|
  {
    if xs != [] {
      var n := |xs| - 1;
      assert xs == xs[..n] + [xs[n]];
      DistinctSize(xs[..n]);
      assert Elements(xs) == Elements(xs[..n]) + {xs[n]};
    }
  }

  lemma Fills(a: set<int>, b: set<int>)
    requires a <= b && |a| == |b|
    ensures a == b
  {
    assert b == a + (b - a);
    assert |b| == |a| + |b - a|;
    assert b - a == {};
  }

  lemma RangeElements(n: nat)
    ensures |Range(n)| == n && NoRepeats(Range(n)) && forall x :: x in Range(n) <==> 0 <= x < n
  {
    forall x | 0 <= x < n ensures x in Range(n) {
      assert Range(n)[x] == x;
    }
  }

  lemma Twice(xs: seq<int>, i: nat, j: nat)
    requires i < j < |xs| && xs[i] == xs[j]
    ensures multiset(xs)[xs[i]] >= 2
  {
    assert xs == xs[..j] + xs[j..];
    assert xs[..j][i] == xs[i] && xs[j..][0] == xs[i];
    assert xs[i] in multiset(xs[..j]) && xs[i] in multiset(xs[j..]);
  }

  /** Pigeonhole: n distinct numbers from 0 to n-1 are all of them. */
  lemma DistinctInRangeIsPermutation(xs: seq<int>, n: nat)
    requires |xs| == n && NoRepeats(xs) && forall x :: x in xs ==> 0 <= x < n
    ensures IsPermutation(xs, n)
  {
    RangeElements(n);
    DistinctSize(xs);
    DistinctSize(Range(n));
    Fills(Elements(xs), Elements(Range(n)));
    forall x ensures multiset(xs)[x] == multiset(Range(n))[x] {
      assert x in xs <==> x in Elements(xs);
      assert x in Range(n) <==> x in Elements(Range(n));
    }
  }

  lemma PermutationIsDistinctInRange(xs: seq<int>, n: nat)
    requires IsPermutation(xs, n)
    ensures |xs| == n && NoRepeats(xs) && forall x :: x in xs ==> 0 <= x < n
  {
    RangeElements(n);
    DistinctSize(Range(n));
    assert |multiset(xs)| == |multiset(Range(n))|;
    forall x | x in xs ensures 0 <= x < n {
      assert x in multiset(xs);
      assert x in Range(n);
    }
    forall i, j | 0 <= i < j < |xs| ensures xs[i] != xs[j] {
      if xs[i] == xs[j] {
        Twice(xs, i, j);
      }
    }
  }

  lemma NotAPermutation(xs: seq<int>, i: nat, n: nat)
    requires i < |xs| && (xs[i] < 0 || xs[i] >= n || xs[i] in Elements(xs[..i]))
    ensures !IsPermutation(xs, n)
  {
    assert xs[i] in xs;
    assert xs[i] in Elements(xs[..i]) ==> !NoRepeats(xs);
    if IsPermutation(xs, n) {
      PermutationIsDistinctInRange(xs, n);
    }
  }

  ghost predicate AllBelow(xs: seq<int>, n: nat) {
    forall x :: x in xs ==> 0 <= x < n
  }

  lemma SeenOneMore(xs: seq<int>, i: nat, n: nat)
    requires i < |xs| && NoRepeats(xs[..i]) && AllBelow(xs[..i], n)
    requires 0 <= xs[i] < n && xs[i] !in Elements(xs[..i])
    ensures Elements(xs[..i + 1]) == Elements(xs[..i]) + {xs[i]}
    ensures NoRepeats(xs[..i + 1]) && AllBelow(xs[..i + 1], n)
  {
    assert xs[..i + 1] == xs[..i] + [xs[i]];
  }

  method HasExactCaseIndexes<V>(results: seq<HarnessCase<V>>, testCaseCount: nat) returns (exact: bool)
    ensures exact <==> IsPermutation(Indexes(results), testCaseCount)
  {
    ghost var indexes := Indexes(results);
    if |results| != testCaseCount {
      assert |multiset(indexes)| != |multiset(Range(testCaseCount))|;
      return false;
    }
    var seen: set<int> := {};
    for i := 0 to |results|
      invariant seen == Elements(indexes[..i]) && |seen| == i
      invariant NoRepeats(indexes[..i]) && AllBelow(indexes[..i], testCaseCount)
    {
      var index := results[i].index;
      assert indexes[i] == index;
      if index < 0 || index >= testCaseCount || index in seen {
        NotAPermutation(indexes, i, testCaseCount);
        return false;
      }
      SeenOneMore(indexes, i, testCaseCount);
      seen := seen + {index};
    }
    assert indexes[..|results|] == indexes;
    DistinctInRangeIsPermutation(indexes, testCaseCount);
    return |seen| == testCaseCount;
  }

  // ---------------------------------------------------------------------------------------
  // Grading
  // ---------------------------------------------------------------------------------------

  function Insert<V>(c: HarnessCase<V>, sorted: seq<HarnessCase<V>>): (r: seq<HarnessCase<V>>)
    ensures |r| == |sorted| + 1 && multiset(r) == multiset(sorted) + multiset{c}
    decreases |sorted|
  {
    if sorted == [] || c.index < sorted[0].index then [c] + sorted
    else
      assert sorted == [sorted[0]] + sorted[1..];
      [sorted[0]] + Insert(c, sorted[1..])
  }

  /** A stable sort by index. */
  function SortByIndex<V>(results: seq<HarnessCase<V>>): (r: seq<HarnessCase<V>>)
    ensures |r| == |results| && multiset(r) == multiset(results)
    decreases |results|
  {
    if results == [] then []
    else
      var n := |results| - 1;
      assert results == results[..n] + [results[n]];
      Insert(results[n], SortByIndex(results[..n]))
  }

  function GradeCase<V(==)>(result: HarnessCase<V>, expectedOutput: V, format: V -> string): Graded {
    match result
    case ErrorCase(index, elapsed, error, truncated) =>
      Graded(index, false, elapsed, None, None, Some(error), truncated)
    case Unserializable(index, elapsed, repr) =>
      Graded(index, false, elapsed, Some(repr), Some(format(expectedOutput)), None, false)
    case OkCase(index, elapsed, got) =>
      if got == expectedOutput then Graded(index, true, elapsed, None, None, None, false)
      else Graded(index, false, elapsed, Some(format(got)), Some(format(expectedOutput)), None, false)
  }

  /** Grades cases whose indexes name test cases. */
  function GradeAll<V(==)>(sorted: seq<HarnessCase<V>>, tests: seq<TestCase<V>>, format: V -> string): (r: seq<Graded>)
    requires forall c :: c in sorted ==> 0 <= c.index < |tests|
    ensures |r| == |sorted|
    ensures forall i :: 0 <= i < |r| ==> r[i] == GradeCase(sorted[i], tests[sorted[i].index].expectedOutput, format)
    decreases |sorted|
  {
    if sorted == [] then []
    else
      assert sorted[0] in sorted;
      assert forall c :: c in sorted[1..] ==> c in sorted;
      [GradeCase(sorted[0], tests[sorted[0].index].expectedOutput, format)] + GradeAll(sorted[1..], tests, format)
  }

  ghost predicate Sorted<V>(s: seq<HarnessCase<V>>) {
    forall i, j :: 0 <= i < j < |s| ==> s[i].index <= s[j].index
  }

  lemma {:induction false} InsertSorts<V>(c: HarnessCase<V>, sorted: seq<HarnessCase<V>>)
    requires Sorted(sorted)
    ensures Sorted(Insert(c, sorted))
    decreases |sorted|
  {
    if sorted != [] && c.index >= sorted[0].index {
      InsertSorts(c, sorted[1..]);
      var rest := Insert(c, sorted[1..]);
      forall x | x in rest ensures sorted[0].index <= x.index {
        assert x in multiset(rest);
        assert x == c || x in sorted[1..];
      }
      assert Insert(c, sorted) == [sorted[0]] + rest;
    }
  }

  lemma {:induction false} SortSorts<V>(results: seq<HarnessCase<V>>)
    ensures Sorted(SortByIndex(results))
    decreases |results|
  {
    if results != [] {
      SortSorts(results[..|results| - 1]);
      InsertSorts(results[|results| - 1], SortByIndex(results[..|results| - 1]));
    }
  }

  lemma Removed<T>(s: seq<T>, k: nat)
    requires k < |s|
    ensures multiset(s) == multiset(s[..k] + s[k + 1..]) + multiset{s[k]}
  {
    assert s == s[..k] + [s[k]] + s[k + 1..];
  }

  lemma IndexesWithout<V>(s: seq<HarnessCase<V>>, k: nat)
    requires k < |s|
    ensures multiset(Indexes(s)) == multiset(Indexes(s[..k] + s[k + 1..])) + multiset{s[k].index}
  {
    Removed(Indexes(s), k);
    assert Indexes(s)[..k] + Indexes(s)[k + 1..] == Indexes(s[..k] + s[k + 1..]);
  }

  lemma SameWithout<T>(a: multiset<T>, b: multiset<T>, x: T)
    requires a + multiset{x} == b + multiset{x}
    ensures a == b
  {
    assert a == (a + multiset{x}) - multiset{x} && b == (b + multiset{x}) - multiset{x};
  }

  lemma {:induction false} IndexesOfMultiset<V>(a: seq<HarnessCase<V>>, b: seq<HarnessCase<V>>)
    requires multiset(a) == multiset(b)
    ensures multiset(Indexes(a)) == multiset(Indexes(b))
    decreases |a|
  {
    assert |a| == |multiset(a)| == |multiset(b)| == |b|;
    if a != [] {
      assert a[0] in multiset(b);
      var k :| 0 <= k < |b| && b[k] == a[0];
      Removed(a, 0);
      Removed(b, k);
      var fewer, less := a[..0] + a[1..], b[..k] + b[k + 1..];
      SameWithout(multiset(fewer), multiset(less), a[0]);
      IndexesOfMultiset(fewer, less);
      IndexesWithout(a, 0);
      IndexesWithout(b, k);
    }
  }

  ghost predicate Increasing(xs: seq<int>) {
    forall k :: 0 <= k < |xs| - 1 ==> xs[k] < xs[k + 1]
  }

  /** Increasing numbers are at least as far apart as their places. */
  lemma {:induction false} Spread(xs: seq<int>, i: nat, j: nat)
    requires Increasing(xs) && i <= j < |xs|
    ensures xs[j] - xs[i] >= j - i
    decreases j - i
  {
    if i < j {
      Spread(xs, i, j - 1);
      assert xs[j - 1] < xs[j - 1 + 1];
    }
  }

  lemma IncreasingInRange(xs: seq<int>, i: nat)
    requires Increasing(xs) && i < |xs| && forall x :: x in xs ==> 0 <= x < |xs|
    ensures xs[i] == i
  {
    Spread(xs, 0, i);
    Spread(xs, i, |xs| - 1);
    assert xs[0] in xs && xs[|xs| - 1] in xs;
  }

  lemma SortedDistinctIncreasing<V>(sorted: seq<HarnessCase<V>>)
    requires Sorted(sorted) && NoRepeats(Indexes(sorted))
    ensures Increasing(Indexes(sorted))
  {
    var xs := Indexes(sorted);
    forall k | 0 <= k < |xs| - 1 ensures xs[k] < xs[k + 1] {
      assert sorted[k].index <= sorted[k + 1].index && xs[k] != xs[k + 1];
    }
  }

  lemma SortKeepsIndexes<V>(results: seq<HarnessCase<V>>, n: nat)
    requires IsPermutation(Indexes(results), n)
    ensures IsPermutation(Indexes(SortByIndex(results)), n)
  {
    IndexesOfMultiset(results, SortByIndex(results));
  }

  /** After the index check, sorting puts the result for test i at place i. */
  lemma SortedByPlace<V>(results: seq<HarnessCase<V>>, n: nat)
    requires IsPermutation(Indexes(results), n)
    ensures |results| == n
    ensures forall i :: 0 <= i < n ==> SortByIndex(results)[i].index == i
  {
    var sorted := SortByIndex(results);
    SortSorts(results);
    SortKeepsIndexes(results, n);
    PermutationIsDistinctInRange(Indexes(sorted), n);
    SortedDistinctIncreasing(sorted);
    forall i | 0 <= i < n ensures sorted[i].index == i {
      IncreasingInRange(Indexes(sorted), i);
    }
  }

  /** The order in which the results arrive does not matter. */
  lemma SortOfReordering<V>(a: seq<HarnessCase<V>>, b: seq<HarnessCase<V>>, n: nat)
    requires IsPermutation(Indexes(a), n) && multiset(a) == multiset(b)
    ensures IsPermutation(Indexes(b), n) && SortByIndex(a) == SortByIndex(b)
  {
    IndexesOfMultiset(a, b);
    SortedByPlace(a, n);
    SortedByPlace(b, n);
    var x, y := SortByIndex(a), SortByIndex(b);
    forall i | 0 <= i < n ensures x[i] == y[i] {
      assert x[i] in multiset(y);
      var k :| 0 <= k < |y| && y[k] == x[i];
    }
  }

  /** `gradeHarnessResults`: nothing unless the indexes are exact. */
  ghost function Grade<V>(results: seq<HarnessCase<V>>, tests: seq<TestCase<V>>,
                          format: V -> string): Option<seq<Graded>> {
    if IsPermutation(Indexes(results), |tests|) then
      SortedByPlace(results, |tests|);
      assert forall c :: c in SortByIndex(results) ==> 0 <= c.index < |tests|;
      Some(GradeAll(SortByIndex(results), tests, format))
    else None
  }

  method GradeHarnessResults<V(==)>(results: seq<HarnessCase<V>>, tests: seq<TestCase<V>>, format: V -> string)
    returns (graded: Option<seq<Graded>>)
    ensures graded == Grade(results, tests, format)
  {
    var exact := HasExactCaseIndexes(results, |tests|);
    if !exact {
      return None;
    }
    SortedByPlace(results, |tests|);
    assert forall c :: c in SortByIndex(results) ==> 0 <= c.index < |tests|;
    return Some(GradeAll(SortByIndex(results), tests, format));
  }

  // ---------------------------------------------------------------------------------------
  // The reports
  // ---------------------------------------------------------------------------------------

  datatype CaseReport = CaseReport(
    index: int, passed: bool, elapsedMs: real, slow: bool,
    error: Option<string>, errorTruncated: bool, got: Option<string>, expected: Option<string>, input: Option<string>)

  datatype Failure = Failure(index: int, input: string, got: string, expected: string, errorTruncated: bool)

  datatype RunReport = RunReport(passed: nat, total: nat, cases: seq<CaseReport>, userStdout: string, truncated: bool)

  datatype SubmitReport = SubmitReport(passed: nat, total: nat, firstFailure: Option<Failure>)

  function ReportCase<V>(g: Graded, tests: seq<TestCase<V>>): CaseReport {
    var elapsed := if g.elapsedMs.Some? then g.elapsedMs.value else 0.0;
    var plain := CaseReport(g.index, g.passed, elapsed, elapsed > SLOW_CASE_THRESHOLD_MS, None, false, None, None,
                            None);
    if g.passed then plain
    else
      var explained :=
        if g.error.Some? && g.error.value != "" then plain.(error := g.error, errorTruncated := g.errorTruncated)
        else plain.(got := g.got, expected := g.expected);
      if 0 <= g.index < |tests| then explained.(input := Some(tests[g.index].input)) else explained
  }

  function ReportCases<V>(graded: seq<Graded>, tests: seq<TestCase<V>>): (r: seq<CaseReport>)
    ensures |r| == |graded|
    ensures forall i :: 0 <= i < |r| ==> r[i] == ReportCase(graded[i], tests)
    decreases |graded|
  {
    if graded == [] then [] else [ReportCase(graded[0], tests)] + ReportCases(graded[1..], tests)
  }

  function CountPassed(graded: seq<Graded>): nat
    decreases |graded|
  {
    if graded == [] then 0 else (if graded[0].passed then 1 else 0) + CountPassed(graded[1..])
  }

  /** The place of the first case that did not pass, or the number of cases. */
  function FirstFailed(graded: seq<Graded>): (k: nat)
    ensures k <= |graded| && (k < |graded| ==> !graded[k].passed)
    ensures forall i :: 0 <= i < k ==> graded[i].passed
    decreases |graded|
  {
    if graded == [] || !graded[0].passed then 0
    else
      var rest := FirstFailed(graded[1..]);
      assert forall i :: 1 <= i <= rest ==> graded[i] == graded[1..][i - 1];
      rest + 1
  }

  function Explain<V>(g: Graded, tests: seq<TestCase<V>>): Failure {
    var known := 0 <= g.index < |tests|;
    if known && !tests[g.index].isVisible then
      Failure(g.index, "", "Output did not match a hidden test case.", "Hidden test case expectation.", false)
    else
      Failure(g.index, if known then tests[g.index].input else "",
              if g.got.Some? then g.got.value else if g.error.Some? then g.error.value else "",
              if g.expected.Some? then g.expected.value else "", g.errorTruncated)
  }

  method BuildRunResult<V(==)>(results: seq<HarnessCase<V>>, userStdout: string, tests: seq<TestCase<V>>,
                               format: V -> string, truncated: bool) returns (report: Option<RunReport>)
    ensures report == RunOf(results, userStdout, tests, format, truncated)
  {
    var graded := GradeHarnessResults(results, tests, format);
    if graded.None? {
      return None;
    }
    return Some(RunReport(CountPassed(graded.value), |graded.value|, ReportCases(graded.value, tests), userStdout,
                          truncated));
  }

  method BuildSubmitResult<V(==)>(results: seq<HarnessCase<V>>, tests: seq<TestCase<V>>, format: V -> string)
    returns (report: Option<SubmitReport>)
    ensures report == SubmitOf(results, tests, format)
  {
    var graded := GradeHarnessResults(results, tests, format);
    if graded.None? {
      return None;
    }
    var k := FirstFailed(graded.value);
    return Some(SubmitReport(CountPassed(graded.value), |graded.value|,
                             if k < |graded.value| then Some(Explain(graded.value[k], tests)) else None));
  }

  ghost function RunOf<V>(results: seq<HarnessCase<V>>, userStdout: string, tests: seq<TestCase<V>>,
                          format: V -> string, truncated: bool): Option<RunReport> {
    match Grade(results, tests, format)
    case None => None
    case Some(g) => Some(RunReport(CountPassed(g), |g|, ReportCases(g, tests), userStdout, truncated))
  }

  ghost function SubmitOf<V>(results: seq<HarnessCase<V>>, tests: seq<TestCase<V>>,
                             format: V -> string): Option<SubmitReport> {
    match Grade(results, tests, format)
    case None => None
    case Some(g) =>
      var k := FirstFailed(g);
      Some(SubmitReport(CountPassed(g), |g|, if k < |g| then Some(Explain(g[k], tests)) else None))
  }

  /** Test `i` passed: the result that carries index `i` is a value equal to the expected one. */
  ghost predicate Passes<V>(results: seq<HarnessCase<V>>, tests: seq<TestCase<V>>, i: int) {
    0 <= i < |tests| && exists c :: c in results && c.OkCase? && c.index == i && c.gotJson == tests[i].expectedOutput
  }

  ghost function Passing<V>(results: seq<HarnessCase<V>>, tests: seq<TestCase<V>>, n: nat): set<int> {
    set i | 0 <= i < n && Passes(results, tests, i)
  }

  lemma TheOneWithIndex<V>(results: seq<HarnessCase<V>>, n: nat, i: nat, c: HarnessCase<V>)
    requires IsPermutation(Indexes(results), n) && i < n && c.index == i
    ensures |results| == n && (c in results <==> c == SortByIndex(results)[i])
  {
    SortedByPlace(results, n);
    var sorted := SortByIndex(results);
    assert c in results <==> c in multiset(sorted);
    assert sorted[i] in multiset(sorted);
    if c in sorted {
      var k :| 0 <= k < |sorted| && sorted[k] == c;
    }
  }

  lemma GradedPasses<V>(results: seq<HarnessCase<V>>, tests: seq<TestCase<V>>, format: V -> string, i: nat)
    requires IsPermutation(Indexes(results), |tests|) && i < |tests|
    ensures var g := Grade(results, tests, format);
            && g.Some? && |g.value| == |tests| && g.value[i].index == i
            && (g.value[i].passed <==> Passes(results, tests, i))
  {
    SortedByPlace(results, |tests|);
    var c := SortByIndex(results)[i];
    TheOneWithIndex(results, |tests|, i, c);
    forall d | d in results && d.index == i ensures d == c {
      TheOneWithIndex(results, |tests|, i, d);
    }
  }

  lemma PassingGrows<V>(results: seq<HarnessCase<V>>, tests: seq<TestCase<V>>, n: nat)
    ensures |Passing(results, tests, n + 1)|
            == |Passing(results, tests, n)| + if Passes(results, tests, n) then 1 else 0
  {
    if Passes(results, tests, n) {
      assert Passing(results, tests, n + 1) == Passing(results, tests, n) + {n};
    } else {
      assert Passing(results, tests, n + 1) == Passing(results, tests, n);
    }
  }

  lemma {:induction false} CountIsPassing<V>(results: seq<HarnessCase<V>>, tests: seq<TestCase<V>>,
                                             graded: seq<Graded>, n: nat)
    requires n <= |graded| && forall i :: 0 <= i < n ==> (graded[i].passed <==> Passes(results, tests, i))
    ensures CountPassed(graded[..n]) == |Passing(results, tests, n)|
    decreases n
  {
    if n == 0 {
      assert Passing(results, tests, 0) == {};
    } else {
      CountIsPassing(results, tests, graded, n - 1);
      CountAppend(graded[..n - 1], graded[n - 1]);
      assert graded[..n] == graded[..n - 1] + [graded[n - 1]];
      PassingGrows(results, tests, n - 1);
    }
  }

  lemma {:induction false} CountAppend(graded: seq<Graded>, g: Graded)
    ensures CountPassed(graded + [g]) == CountPassed(graded) + if g.passed then 1 else 0
    decreases |graded|
  {
    if graded != [] {
      assert (graded + [g])[1..] == graded[1..] + [g];
      CountAppend(graded[1..], g);
    } else {
      assert [] + [g] == [g] && [g][1..] == [];
    }
  }

  lemma AllGradedPasses<V>(results: seq<HarnessCase<V>>, tests: seq<TestCase<V>>, format: V -> string)
    requires IsPermutation(Indexes(results), |tests|)
    ensures var g := Grade(results, tests, format).value;
            && |g| == |tests|
            && (forall i :: 0 <= i < |g| ==> g[i].index == i && (g[i].passed <==> Passes(results, tests, i)))
            && CountPassed(g) == |Passing(results, tests, |tests|)|
  {
    var g := Grade(results, tests, format).value;
    SortedByPlace(results, |tests|);
    forall i | 0 <= i < |g| ensures g[i].index == i && (g[i].passed <==> Passes(results, tests, i)) {
      GradedPasses(results, tests, format, i);
    }
    CountIsPassing(results, tests, g, |g|);
    assert g[..|g|] == g;
  }

  lemma FirstFailedIsLeast<V>(results: seq<HarnessCase<V>>, tests: seq<TestCase<V>>, g: seq<Graded>)
    requires |g| == |tests| && forall i :: 0 <= i < |g| ==> (g[i].passed <==> Passes(results, tests, i))
    ensures var k := FirstFailed(g);
            && (k == |g| <==> forall i :: 0 <= i < |tests| ==> Passes(results, tests, i))
            && (k < |g| ==> !Passes(results, tests, k) && forall i :: 0 <= i < k ==> Passes(results, tests, i))
  {
    var k := FirstFailed(g);
    if k < |g| {
      assert !Passes(results, tests, k);
    }
  }

  /** A submit report is made exactly for result lists whose indexes are 0 to n-1 in some
      order; it counts exactly the passing tests; it names no failure exactly when all pass,
      and otherwise the failing test with the least index, of which a hidden one gives nothing
      away. */
  lemma SubmitReportIsRight<V>(results: seq<HarnessCase<V>>, tests: seq<TestCase<V>>, format: V -> string)
    ensures SubmitOf(results, tests, format).Some? <==> IsPermutation(Indexes(results), |tests|)
    ensures IsPermutation(Indexes(results), |tests|) ==>
              var r := SubmitOf(results, tests, format).value;
              && r.total == |tests| && r.passed == |Passing(results, tests, |tests|)|
              && (r.firstFailure.None? <==> forall i :: 0 <= i < |tests| ==> Passes(results, tests, i))
              && (r.firstFailure.Some? ==>
                    var k := r.firstFailure.value.index;
                    && 0 <= k < |tests| && !Passes(results, tests, k)
                    && (forall i :: 0 <= i < k ==> Passes(results, tests, i))
                    && r.firstFailure.value.input == (if tests[k].isVisible then tests[k].input else "")
                    && (!tests[k].isVisible ==> r.firstFailure.value == Failure(k, "",
                          "Output did not match a hidden test case.", "Hidden test case expectation.", false)))
  {
    if IsPermutation(Indexes(results), |tests|) {
      AllGradedPasses(results, tests, format);
      FirstFailedIsLeast(results, tests, Grade(results, tests, format).value);
    }
  }

  lemma RunReportFromGrades<V>(results: seq<HarnessCase<V>>, tests: seq<TestCase<V>>, g: seq<Graded>, i: nat)
    requires i < |g| && g[i].index == i && (g[i].passed <==> Passes(results, tests, i))
    ensures ReportCases(g, tests)[i].index == i && (ReportCases(g, tests)[i].passed <==> Passes(results, tests, i))
  {
    assert ReportCases(g, tests)[i] == ReportCase(g[i], tests);
  }

  /** The same for a run: one case report per test, in order, with its verdict. */
  lemma RunReportIsRight<V>(results: seq<HarnessCase<V>>, userStdout: string, tests: seq<TestCase<V>>,
                            format: V -> string, truncated: bool)
    ensures RunOf(results, userStdout, tests, format, truncated).Some? <==> IsPermutation(Indexes(results), |tests|)
    ensures IsPermutation(Indexes(results), |tests|) ==>
              var r := RunOf(results, userStdout, tests, format, truncated).value;
              && r.total == |r.cases| == |tests| && r.passed == |Passing(results, tests, |tests|)|
              && forall i :: 0 <= i < |tests| ==>
                   r.cases[i].index == i && (r.cases[i].passed <==> Passes(results, tests, i))
  {
    if IsPermutation(Indexes(results), |tests|) {
      AllGradedPasses(results, tests, format);
      var g := Grade(results, tests, format).value;
      forall i | 0 <= i < |tests|
        ensures ReportCases(g, tests)[i].index == i && (ReportCases(g, tests)[i].passed <==> Passes(results, tests, i))
      {
        RunReportFromGrades(results, tests, g, i);
      }
    }
  }

  /** What a failing result shows the user as its output. */
  function Shown<V>(c: HarnessCase<V>, format: V -> string): string {
    match c
    case OkCase(_, _, got) => format(got)
    case Unserializable(_, _, repr) => repr
    case ErrorCase(_, _, error, _) => error
  }

  /** The first failure of a submission shows the result that carries its index against the
      expected value, and an error against nothing. */
  lemma FailureShowsItsResult<V>(results: seq<HarnessCase<V>>, tests: seq<TestCase<V>>, format: V -> string,
                                 c: HarnessCase<V>)
    requires IsPermutation(Indexes(results), |tests|) && c in results
    ensures var r := SubmitOf(results, tests, format);
            && r.Some? && 0 <= c.index < |tests|
            && var f := r.value.firstFailure;
            f.Some? && f.value.index == c.index && tests[c.index].isVisible ==>
              && f.value.got == Shown(c, format)
              && f.value.expected == (if c.ErrorCase? then "" else format(tests[c.index].expectedOutput))
              && f.value.errorTruncated == (c.ErrorCase? && c.errorTruncated)
  {
    IndexInRange(results, |tests|, c);
    AllGradedPasses(results, tests, format);
    GradedCase(results, tests, format, c);
  }

  lemma IndexInRange<V>(results: seq<HarnessCase<V>>, n: nat, c: HarnessCase<V>)
    requires IsPermutation(Indexes(results), n) && c in results
    ensures 0 <= c.index < n
  {
    PermutationIsDistinctInRange(Indexes(results), n);
    var k :| 0 <= k < |results| && results[k] == c;
    assert Indexes(results)[k] in Indexes(results);
  }

  /** What a run shows for the result `c` of a test with this input and expected value: for a
      failing one either its error or what it gave and what was expected, and the input; for a
      passing one none of these. */
  ghost predicate ShowsCase<V>(k: CaseReport, c: HarnessCase<V>, test: TestCase<V>, format: V -> string) {
    && (k.passed ==> k.input.None? && k.error.None? && k.got.None? && k.expected.None?)
    && (!k.passed ==> k.input == Some(test.input))
    && (!k.passed && c.ErrorCase? ==>
          k.error == (if c.error != "" then Some(c.error) else None) && k.got.None? && k.expected.None?)
    && (k.errorTruncated <==> c.ErrorCase? && c.error != "" && c.errorTruncated)
    && (!k.passed && !c.ErrorCase? ==>
          k.error.None? && k.got == Some(Shown(c, format)) && k.expected == Some(format(test.expectedOutput)))
    && (k.slow <==> k.elapsedMs > SLOW_CASE_THRESHOLD_MS)
    && k.elapsedMs == if c.elapsedMs.Some? then c.elapsedMs.value else 0.0
  }

  /** Every case of a run's report shows the result that carries its index. */
  lemma CaseShowsItsResult<V>(results: seq<HarnessCase<V>>, userStdout: string, tests: seq<TestCase<V>>,
                              format: V -> string, truncated: bool, c: HarnessCase<V>)
    requires IsPermutation(Indexes(results), |tests|) && c in results
    ensures var r := RunOf(results, userStdout, tests, format, truncated);
            && r.Some? && 0 <= c.index < |tests| == |r.value.cases|
            && ShowsCase(r.value.cases[c.index], c, tests[c.index], format)
  {
    IndexInRange(results, |tests|, c);
    GradedCase(results, tests, format, c);
    ReportedCase(c, tests, format);
  }

  lemma GradedCase<V>(results: seq<HarnessCase<V>>, tests: seq<TestCase<V>>, format: V -> string, c: HarnessCase<V>)
    requires IsPermutation(Indexes(results), |tests|) && c in results && 0 <= c.index < |tests|
    ensures var g := Grade(results, tests, format);
            g.Some? && |g.value| == |tests| && g.value[c.index] == GradeCase(c, tests[c.index].expectedOutput, format)
  {
    SortedByPlace(results, |tests|);
    TheOneWithIndex(results, |tests|, c.index, c);
  }

  lemma ReportedCase<V>(c: HarnessCase<V>, tests: seq<TestCase<V>>, format: V -> string)
    requires 0 <= c.index < |tests|
    ensures ShowsCase(ReportCase(GradeCase(c, tests[c.index].expectedOutput, format), tests), c, tests[c.index], format)
  {
  }

  /** Every reordering of the results gives the same reports. */
  lemma ReportsIgnoreOrder<V>(a: seq<HarnessCase<V>>, b: seq<HarnessCase<V>>, userStdout: string,
                              tests: seq<TestCase<V>>, format: V -> string, truncated: bool)
    requires multiset(a) == multiset(b)
    ensures SubmitOf(a, tests, format) == SubmitOf(b, tests, format)
    ensures RunOf(a, userStdout, tests, format, truncated) == RunOf(b, userStdout, tests, format, truncated)
  {
    IndexesOfMultiset(a, b);
    if IsPermutation(Indexes(a), |tests|) {
      SortOfReordering(a, b, |tests|);
    }
  }
}
