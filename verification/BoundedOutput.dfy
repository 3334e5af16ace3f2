/** The harness that runs the user's program: bounded capture of what it prints, one child
    process per test case, and the parent that collects their results.

    What a child does is data: the texts it writes and how it ends. Processes, time limits and
    the JSON between child and parent are not modelled; a child whose answer is missing, late,
    too long or not JSON is one that `Died`.
 */
module BoundedOutput {
  import opened Common
  import Grading

  function Concat(pieces: seq<string>): string
    decreases |pieces|
  {
    if pieces == [] then "" else Concat(pieces[..|pieces| - 1]) + pieces[|pieces| - 1]
  }

  function First(text: string, limit: nat): string {
    if |text| <= limit then text else text[..limit]
  }

  /** A stream that keeps the first `limit` characters written to it. */
  class BoundedStdout {
    const limit: nat
    var size: nat
    var parts: seq<string>
    var truncated: bool
    /** Everything ever written. */
    ghost var written: string

    ghost predicate Valid()
      reads this
    {
      && size == |Concat(parts)|
      && Concat(parts) == First(written, limit)
      && (|written| > limit ==> truncated)
    }

    constructor (limit: nat)
      ensures Valid() && this.limit == limit && written == "" && !truncated
    {
      this.limit := limit;
      size, parts, truncated, written := 0, [], false, "";
    }

    method Write(text: string) returns (count: nat)
      requires Valid()
      modifies this
      ensures Valid() && written == old(written) + text && count == |text|
      ensures truncated <==> old(truncated) || |written| > limit
    {
      var remaining := limit - size;
      written := written + text;
      if remaining > 0 {
        var chunk := First(text, remaining);
        parts := parts + [chunk];
        size := size + |chunk|;
        assert parts[..|parts| - 1] == old(parts);
      }
      if |text| > remaining {
        truncated := true;
      }
      return |text|;
    }

    method GetValue() returns (text: string)
      requires Valid()
      ensures text == First(written, limit)
    {
      text := "";
      for i := 0 to |parts|
        invariant text == Concat(parts[..i])
      {
        assert parts[..i + 1][..i] == parts[..i];
        text := text + parts[i];
      }
      assert parts[..|parts|] == parts;
    }
  }

  /** The first `limit` characters, and whether there were more. */
  method TruncateText(text: string, limit: nat) returns (kept: string, cut: bool)
    ensures kept == First(text, limit) && (cut <==> |text| > limit)
    ensures kept == text <==> !cut
  {
    if |text| <= limit {
      return text, false;
    }
    return text[..limit], true;
  }

  /** How the user's code ends for one test case. */
  datatype Ending<V> = Returned(value: V) | NotJson(repr: string) | Raised(traceback: string)

  /** One child process. */
  datatype Child<V> =
    | Finished(writes: seq<string>, elapsedMs: real, ending: Ending<V>)
    | Died(error: Option<string>)

  /** What the harness says of a child that died without a message. */
  const NO_ANSWER := "Execution process failed."

  /** The result the harness reports for the child that ran test `index`. */
  function ResultOf<V>(child: Child<V>, index: nat, errorLimit: nat): Grading.HarnessCase<V> {
    match child
    case Died(error) =>
      var message := if error.Some? then error.value else NO_ANSWER;
      Grading.ErrorCase(index, Some(0.0), First(message, errorLimit), |message| > errorLimit)
    case Finished(_, elapsed, Returned(value)) => Grading.OkCase(index, Some(elapsed), value)
    case Finished(_, elapsed, NotJson(repr)) => Grading.Unserializable(index, Some(elapsed), First(repr, errorLimit))
    case Finished(_, elapsed, Raised(traceback)) =>
      Grading.ErrorCase(index, Some(elapsed), First(traceback, errorLimit), |traceback| > errorLimit)
  }

  method CaseErrorResult<V>(index: nat, elapsed: real, error: string, errorLimit: nat)
    returns (result: Grading.HarnessCase<V>)
    ensures result == Grading.ErrorCase(index, Some(elapsed), First(error, errorLimit), |error| > errorLimit)
  {
    var kept, cut := TruncateText(error, errorLimit);
    return Grading.ErrorCase(index, Some(elapsed), kept, cut);
  }

  /** A child that finishes: its program's writes go to a stream of its own. */
  method ChildCase<V>(child: Child<V>, index: nat, stdoutLimit: nat, errorLimit: nat)
    returns (result: Grading.HarnessCase<V>, userStdout: string, userStdoutTruncated: bool)
    requires child.Finished?
    ensures result == ResultOf(child, index, errorLimit)
    ensures userStdout == First(Concat(child.writes), stdoutLimit)
    ensures userStdoutTruncated <==> |Concat(child.writes)| > stdoutLimit
  {
    var capture := new BoundedStdout(stdoutLimit);
    for i := 0 to |child.writes|
      invariant fresh(capture) && capture.Valid() && capture.limit == stdoutLimit
      invariant capture.written == Concat(child.writes[..i])
      invariant capture.truncated <==> |capture.written| > stdoutLimit
    {
      assert child.writes[..i + 1][..i] == child.writes[..i];
      var count := capture.Write(child.writes[i]);
    }
    assert child.writes[..|child.writes|] == child.writes;
    match child.ending {
      case Returned(value) => result := Grading.OkCase(index, Some(child.elapsedMs), value);
      case NotJson(repr) =>
        var kept, cut := TruncateText(repr, errorLimit);
        result := Grading.Unserializable(index, Some(child.elapsedMs), kept);
      case Raised(traceback) => result := CaseErrorResult(index, child.elapsedMs, traceback, errorLimit);
    }
    userStdout := capture.GetValue();
    userStdoutTruncated := capture.truncated;
  }

  function OutputOf<V>(child: Child<V>): string {
    match child
    case Finished(writes, _, _) => Concat(writes)
    case Died(_) => ""
  }

  /** Everything the children that finished ever wrote. */
  function AllOutput<V>(children: seq<Child<V>>): string
    decreases |children|
  {
    if children == [] then ""
    else AllOutput(children[..|children| - 1]) + OutputOf(children[|children| - 1])
  }

  lemma AllOutputStep<V>(children: seq<Child<V>>, n: nat)
    requires n < |children|
    ensures AllOutput(children[..n + 1]) == AllOutput(children[..n]) + OutputOf(children[n])
  {
    assert children[..n + 1][..n] == children[..n];
  }

  /** Cutting a piece to the limit before it is added to a text changes nothing that is kept,
      even when only a part of the text before it was kept. */
  lemma CutTwice(written: string, all: string, piece: string, limit: nat)
    requires First(written, limit) == First(all, limit) && (|written| > limit ==> |all| > limit)
    ensures First(written + First(piece, limit), limit) == First(all + piece, limit)
    ensures |all| > limit || |written + First(piece, limit)| > limit || |piece| > limit <==> |all + piece| > limit
  {
  }

  /** One round of the parent's loop: the child's result, and its captured output, if it
      finished, added to the parent's own capture. `all` is what the earlier children wrote. */
  method Collect<V>(stdout: BoundedStdout, child: Child<V>, index: nat, errorLimit: nat, ghost all: string)
    returns (result: Grading.HarnessCase<V>)
    requires stdout.Valid() && First(stdout.written, stdout.limit) == First(all, stdout.limit)
    requires stdout.truncated <==> |all| > stdout.limit
    modifies stdout
    ensures result == ResultOf(child, index, errorLimit)
    ensures stdout.Valid() && First(stdout.written, stdout.limit) == First(all + OutputOf(child), stdout.limit)
    ensures stdout.truncated <==> |all + OutputOf(child)| > stdout.limit
  {
    match child {
      case Finished(writes, _, _) =>
        var text, cut;
        result, text, cut := ChildCase(child, index, stdout.limit, errorLimit);
        CutTwice(stdout.written, all, Concat(writes), stdout.limit);
        var count := stdout.Write(text);
        if cut {
          stdout.truncated := true;
        }
      case Died(error) =>
        assert all + "" == all;
        var message := if error.Some? then error.value else NO_ANSWER;
        result := CaseErrorResult(index, 0.0, message, errorLimit);
    }
  }

  /** One result per child, each under its child's index. */
  function Results<V>(children: seq<Child<V>>, errorLimit: nat): (r: seq<Grading.HarnessCase<V>>)
    ensures |r| == |children|
    ensures forall i :: 0 <= i < |r| ==> r[i] == ResultOf(children[i], i, errorLimit)
  {
    seq(|children|, i requires 0 <= i < |children| => ResultOf(children[i], i, errorLimit))
  }

  /** The parent: one child per test, in order. However the limits interact, the captured text
      is the first `stdoutLimit` characters of everything the children wrote, and the flag is
      set exactly when that cuts something off. */
  method ParentMain<V>(children: seq<Child<V>>, stdoutLimit: nat, errorLimit: nat)
    returns (results: seq<Grading.HarnessCase<V>>, userStdout: string, truncated: bool)
    ensures results == Results(children, errorLimit)
    ensures userStdout == First(AllOutput(children), stdoutLimit)
    ensures truncated <==> |AllOutput(children)| > stdoutLimit
  {
    var stdout := new BoundedStdout(stdoutLimit);
    results := [];
    for index := 0 to |children|
      invariant fresh(stdout) && stdout.Valid() && stdout.limit == stdoutLimit
      invariant |results| == index
      invariant forall i :: 0 <= i < index ==> results[i] == ResultOf(children[i], i, errorLimit)
      invariant First(stdout.written, stdoutLimit) == First(AllOutput(children[..index]), stdoutLimit)
      invariant stdout.truncated <==> |AllOutput(children[..index])| > stdoutLimit
    {
      AllOutputStep(children, index);
      var result := Collect(stdout, children[index], index, errorLimit, AllOutput(children[..index]));
      results := results + [result];
    }
    assert children[..|children|] == children;
    userStdout := stdout.GetValue();
    truncated := stdout.truncated;
  }
}
