/** From the children to the report: the harness captures, frames and prints; the server looks
    for a module error, finds the result's frame, validates it, checks the indexes and grades.

    The JSON between the two is a pair of functions that undo each other on what is sent.
 */
module ExecutionPipeline {
  import opened Common
  import opened MarkerFrames
  import opened BoundedOutput
  import opened ChildReports
  import Grading

  datatype Payload<V> = Payload(results: seq<Grading.HarnessCase<V>>, userStdout: string, userStdoutTruncated: bool)

  /** The user's module is first run by itself. */
  datatype Preflight = Passed | SyntaxError(error: string) | RuntimeError(error: string)

  datatype Tag = Result | CompilationError | RuntimeErrorTag

  function NameOf(tag: Tag): string {
    match tag
    case Result => "HARNESS_RESULT_"
    case CompilationError => "HARNESS_COMPILATION_ERROR_"
    case RuntimeErrorTag => "HARNESS_RUNTIME_ERROR_"
  }

  function StartTag(tag: Tag, nonce: string): string { "===" + NameOf(tag) + nonce + "===" }

  function EndTag(tag: Tag, nonce: string): string { "===END_" + NameOf(tag) + nonce + "===" }

  /** What is sent as JSON, the results or the error of the preflight run; the schema of the
      results; and the removal of paths from an error. */
  datatype Host<!V> = Host(
    encode: Payload<V> -> string, decode: string -> Option<Payload<V>>, accepts: Payload<V> -> bool,
    encodeError: string -> string, decodeError: string -> Option<string>, strip: string -> string)

  /** What the harness sends for these children. */
  function PayloadOf<V>(children: seq<Child<V>>, stdoutLimit: nat, errorLimit: nat): Payload<V> {
    Payload(Results(children, errorLimit), First(AllOutput(children), stdoutLimit), |AllOutput(children)| > stdoutLimit)
  }

  function FrameOf(tag: Tag, nonce: string, json: string): string {
    Frame(StartTag(tag, nonce), json, EndTag(tag, nonce))
  }

  /** What the harness prints. */
  function Printed<V>(preflight: Preflight, children: seq<Child<V>>, stdoutLimit: nat, errorLimit: nat,
                      nonce: string, host: Host<V>): string {
    match preflight
    case SyntaxError(error) => FrameOf(CompilationError, nonce, host.encodeError(error))
    case RuntimeError(error) => FrameOf(RuntimeErrorTag, nonce, host.encodeError(error))
    case Passed => FrameOf(Result, nonce, host.encode(PayloadOf(children, stdoutLimit, errorLimit)))
  }

  method EmitTaggedPayload(tag: Tag, nonce: string, json: string) returns (printed: string)
    ensures printed == FrameOf(tag, nonce, json)
  {
    printed := StartTag(tag, nonce) + "\n";
    printed := printed + json;
    printed := printed + ("\n" + EndTag(tag, nonce) + "\n");
    assert printed == FrameOf(tag, nonce, json);
  }

  /** The harness's main run: a failed preflight run is all there is to report. */
  method RunHarness<V>(preflight: Preflight, children: seq<Child<V>>, stdoutLimit: nat, errorLimit: nat,
                       nonce: string, host: Host<V>) returns (printed: string)
    ensures printed == Printed(preflight, children, stdoutLimit, errorLimit, nonce, host)
  {
    match preflight {
      case SyntaxError(error) =>
        printed := EmitTaggedPayload(CompilationError, nonce, host.encodeError(error));
      case RuntimeError(error) =>
        printed := EmitTaggedPayload(RuntimeErrorTag, nonce, host.encodeError(error));
      case Passed =>
        var results, userStdout, truncated := ParentMain(children, stdoutLimit, errorLimit);
        printed := EmitTaggedPayload(Result, nonce, host.encode(Payload(results, userStdout, truncated)));
    }
  }

  // ---------------------------------------------------------------------------------------
  // The server's side
  // ---------------------------------------------------------------------------------------

  const MAX_STDERR_CHARS := 500

  function SanitizeStderr(stderr: string, strip: string -> string): string {
    if stderr == "" then "Unknown error."
    else if |strip(stderr)| > MAX_STDERR_CHARS then First(strip(stderr), MAX_STDERR_CHARS) + "..."
    else strip(stderr)
  }

  datatype ModuleError = ModuleError(error: string, compilation: bool)

  datatype ExecutionType = Run | Submit

  /** What the client gets to see. */
  datatype Answer =
    | ModuleFailed(moduleError: ModuleError)
    | OutputLimit
    | Unparsable
    | Invalid
    | RunResult(run: Grading.RunReport)
    | SubmitResult(submit: Grading.SubmitReport)

  function ParseModuleError(stdout: string, nonce: string, parse: string -> Option<string>): Option<ModuleError> {
    match ParseTagged(stdout, StartTag(CompilationError, nonce), EndTag(CompilationError, nonce), parse)
    case Ok(error) => Some(ModuleError(error, true))
    case Err(_) =>
      match ParseTagged(stdout, StartTag(RuntimeErrorTag, nonce), EndTag(RuntimeErrorTag, nonce), parse)
      case Ok(error) => Some(ModuleError(error, false))
      case Err(_) => None
  }

  /** The report of a payload that the schema accepts. */
  ghost function Reported<V>(kind: ExecutionType, payload: Payload<V>, tests: seq<Grading.TestCase<V>>,
                             format: V -> string): Answer {
    match kind
    case Run =>
      (match Grading.RunOf(payload.results, payload.userStdout, tests, format, payload.userStdoutTruncated)
       case None => Invalid
       case Some(report) => RunResult(report))
    case Submit =>
      (match Grading.SubmitOf(payload.results, tests, format)
       case None => Invalid
       case Some(report) => SubmitResult(report))
  }

  ghost function Answered<V>(kind: ExecutionType, stdout: string, nonce: string, host: Host<V>,
                             tests: seq<Grading.TestCase<V>>, format: V -> string): Answer {
    match ParseModuleError(stdout, nonce, host.decodeError)
    case Some(ModuleError(error, compilation)) =>
      ModuleFailed(ModuleError(SanitizeStderr(error, host.strip), compilation))
    case None =>
      match ParseTagged(stdout, StartTag(Result, nonce), EndTag(Result, nonce), host.decode)
      case Err(reason) => if reason == PayloadTooLarge then OutputLimit else Unparsable
      case Ok(payload) => if host.accepts(payload) then Reported(kind, payload, tests, format) else Invalid
  }

  method EmitExecutionResult<V(==)>(kind: ExecutionType, payload: Payload<V>, tests: seq<Grading.TestCase<V>>,
                                    format: V -> string) returns (answer: Answer)
    ensures answer == Reported(kind, payload, tests, format)
  {
    if kind == Run {
      var run := Grading.BuildRunResult(payload.results, payload.userStdout, tests, format,
                                        payload.userStdoutTruncated);
      return if run.None? then Invalid else RunResult(run.value);
    }
    var submit := Grading.BuildSubmitResult(payload.results, tests, format);
    return if submit.None? then Invalid else SubmitResult(submit.value);
  }

  method HandleAcceptedExecutionResult<V(==)>(kind: ExecutionType, stdout: string, nonce: string, host: Host<V>,
                                              tests: seq<Grading.TestCase<V>>, format: V -> string)
    returns (answer: Answer)
    requires '\n' !in nonce
    ensures answer == Answered(kind, stdout, nonce, host, tests, format)
  {
    TagsOf(nonce);
    var compilation := ParseTaggedJson(stdout, StartTag(CompilationError, nonce), EndTag(CompilationError, nonce),
                                       host.decodeError);
    if compilation.Ok? {
      return ModuleFailed(ModuleError(SanitizeStderr(compilation.data, host.strip), true));
    }
    var runtime := ParseTaggedJson(stdout, StartTag(RuntimeErrorTag, nonce), EndTag(RuntimeErrorTag, nonce),
                                   host.decodeError);
    if runtime.Ok? {
      return ModuleFailed(ModuleError(SanitizeStderr(runtime.data, host.strip), false));
    }
    var parsed := ParseTaggedJson(stdout, StartTag(Result, nonce), EndTag(Result, nonce), host.decode);
    if parsed.Err? {
      return if parsed.reason == PayloadTooLarge then OutputLimit else Unparsable;
    }
    if !host.accepts(parsed.data) {
      return Invalid;
    }
    answer := EmitExecutionResult(kind, parsed.data, tests, format);
  }

  /** The two characters that tell the names apart. */
  function InitialsOf(tag: Tag): string {
    match tag case Result => "RE" case CompilationError => "CO" case RuntimeErrorTag => "RU"
  }

  lemma NameShape(tag: Tag)
    ensures |NameOf(tag)| > 10 && '\n' !in NameOf(tag)
    ensures NameOf(tag)[0] == 'H' && NameOf(tag)[8] == InitialsOf(tag)[0] && NameOf(tag)[9] == InitialsOf(tag)[1]
  {
  }

  lemma TagShape(tag: Tag, nonce: string)
    requires '\n' !in nonce
    ensures var (start, end) := (StartTag(tag, nonce), EndTag(tag, nonce));
            && IsTag(start) && IsTag(end) && |start| > 13 && |end| > 13 && start[3] == 'H' && end[3] == 'E'
            && start[11] == InitialsOf(tag)[0] && start[12] == InitialsOf(tag)[1]
  {
    NameShape(tag);
    assert StartTag(tag, nonce)[3..13] == NameOf(tag)[..10];
    assert StartTag(tag, nonce)[11] == StartTag(tag, nonce)[3..13][8];
    assert StartTag(tag, nonce)[12] == StartTag(tag, nonce)[3..13][9];
  }

  lemma TagsOf(nonce: string)
    requires '\n' !in nonce
    ensures forall tag :: IsTag(StartTag(tag, nonce)) && IsTag(EndTag(tag, nonce))
    ensures forall tag, other :: StartTag(tag, nonce) != EndTag(other, nonce)
    ensures forall tag, other :: tag != other ==> StartTag(tag, nonce) != StartTag(other, nonce)
  {
    TagShape(Result, nonce);
    TagShape(CompilationError, nonce);
    TagShape(RuntimeErrorTag, nonce);
  }

  /** Whole lines, none of them the start of a module error's frame. */
  ghost predicate Harmless(prefix: string, nonce: string) {
    && (prefix == "" || prefix[|prefix| - 1] == '\n')
    && HoldsNoStart(prefix, StartTag(CompilationError, nonce))
    && HoldsNoStart(prefix, StartTag(RuntimeErrorTag, nonce))
  }

  lemma NoModuleError(prefix: string, nonce: string, json: string, parse: string -> Option<string>)
    requires '\n' !in nonce && Harmless(prefix, nonce) && IsPayload(json)
    ensures ParseModuleError(prefix + FrameOf(Result, nonce, json), nonce, parse) == None
  {
    TagsOf(nonce);
    OnlyItsOwnMarkers(prefix, StartTag(Result, nonce), json, EndTag(Result, nonce),
                      StartTag(CompilationError, nonce), EndTag(CompilationError, nonce), parse);
    OnlyItsOwnMarkers(prefix, StartTag(Result, nonce), json, EndTag(Result, nonce),
                      StartTag(RuntimeErrorTag, nonce), EndTag(RuntimeErrorTag, nonce), parse);
  }

  /** What the answer to a payload that arrives and is accepted must say. */
  ghost predicate AnswersRightly<V>(answer: Answer, kind: ExecutionType, children: seq<Child<V>>,
                                    tests: seq<Grading.TestCase<V>>, stdoutLimit: nat, errorLimit: nat,
                                    format: V -> string)
    requires |children| == |tests|
  {
    match kind
    case Run => answer.RunResult? && ReportsTheRun(answer.run, children, tests, stdoutLimit, errorLimit, format)
    case Submit => answer.SubmitResult? && ReportsTheChildren(answer.submit, children, tests, errorLimit, format)
  }

  lemma ReportedRightly<V>(kind: ExecutionType, children: seq<Child<V>>, tests: seq<Grading.TestCase<V>>,
                           stdoutLimit: nat, errorLimit: nat, format: V -> string)
    requires |children| == |tests|
    ensures AnswersRightly(Reported(kind, PayloadOf(children, stdoutLimit, errorLimit), tests, format),
                           kind, children, tests, stdoutLimit, errorLimit, format)
  {
    match kind
    case Run => RunReportsTheChildren(children, tests, stdoutLimit, errorLimit, format);
    case Submit => SubmissionReportsTheChildren(children, tests, errorLimit, format);
  }

  /** For every behaviour of the children and whatever harmless lines were printed before, even
      earlier result frames, the server's answer to a run or a submission is decided by the
      payload alone: refused exactly when it is too large or the schema rejects it, and
      otherwise a report that says rightly what the children did. */
  lemma EndToEnd<V>(kind: ExecutionType, children: seq<Child<V>>, tests: seq<Grading.TestCase<V>>,
                    stdoutLimit: nat, errorLimit: nat, nonce: string, prefix: string, host: Host<V>,
                    format: V -> string)
    requires |children| == |tests| && '\n' !in nonce && Harmless(prefix, nonce)
    requires var sent := PayloadOf(children, stdoutLimit, errorLimit);
             IsPayload(host.encode(sent)) && host.decode(host.encode(sent)) == Some(sent)
    ensures var sent := PayloadOf(children, stdoutLimit, errorLimit);
            var answer := Answered(kind, prefix + Printed(Passed, children, stdoutLimit, errorLimit, nonce, host),
                                   nonce, host, tests, format);
            if |host.encode(sent)| > HARNESS_PAYLOAD_CHARS then answer == OutputLimit
            else if !host.accepts(sent) then answer == Invalid
            else AnswersRightly(answer, kind, children, tests, stdoutLimit, errorLimit, format)
  {
    var sent := PayloadOf(children, stdoutLimit, errorLimit);
    TagsOf(nonce);
    NoModuleError(prefix, nonce, host.encode(sent), host.decodeError);
    FrameRoundTrip(prefix, StartTag(Result, nonce), EndTag(Result, nonce), host.encode(sent), host.decode, sent);
    ReportedRightly(kind, children, tests, stdoutLimit, errorLimit, format);
  }

  /** A failed preflight run reaches the client with its error sanitized, the compilation error
      even past any whole lines printed before. */
  lemma PreflightReachesTheClient<V>(kind: ExecutionType, preflight: Preflight, children: seq<Child<V>>,
                                     stdoutLimit: nat, errorLimit: nat, nonce: string, prefix: string, host: Host<V>,
                                     tests: seq<Grading.TestCase<V>>, format: V -> string)
    requires '\n' !in nonce && !preflight.Passed?
    requires prefix == "" || prefix[|prefix| - 1] == '\n'
    requires preflight.RuntimeError? ==> HoldsNoStart(prefix, StartTag(CompilationError, nonce))
    requires var json := host.encodeError(preflight.error);
             IsPayload(json) && |json| <= HARNESS_PAYLOAD_CHARS && host.decodeError(json) == Some(preflight.error)
    ensures Answered(kind, prefix + Printed(preflight, children, stdoutLimit, errorLimit, nonce, host),
                     nonce, host, tests, format)
            == ModuleFailed(ModuleError(SanitizeStderr(preflight.error, host.strip), preflight.SyntaxError?))
  {
    var json := host.encodeError(preflight.error);
    var tag := if preflight.SyntaxError? then CompilationError else RuntimeErrorTag;
    TagsOf(nonce);
    FrameRoundTrip(prefix, StartTag(tag, nonce), EndTag(tag, nonce), json, host.decodeError, preflight.error);
    if preflight.RuntimeError? {
      OnlyItsOwnMarkers(prefix, StartTag(tag, nonce), json, EndTag(tag, nonce),
                        StartTag(CompilationError, nonce), EndTag(CompilationError, nonce), host.decodeError);
    }
  }

  lemma EndIsNoPrefix(nonce: string)
    requires '\n' !in nonce
    ensures !(EndTag(Result, nonce) <= StartTag(Result, nonce))
  {
    TagShape(Result, nonce);
  }

  lemma NoModuleErrorInACut(prefix: string, nonce: string, json: string, n: nat, parse: string -> Option<string>)
    requires '\n' !in nonce && Harmless(prefix, nonce) && IsPayload(json)
    requires n <= |FrameOf(Result, nonce, json)|
    ensures ParseModuleError(prefix + FrameOf(Result, nonce, json)[..n], nonce, parse) == None
  {
    TagsOf(nonce);
    CutHoldsOnlyItsOwnMarkers(prefix, StartTag(Result, nonce), json, EndTag(Result, nonce),
                              StartTag(CompilationError, nonce), EndTag(CompilationError, nonce), n, parse);
    CutHoldsOnlyItsOwnMarkers(prefix, StartTag(Result, nonce), json, EndTag(Result, nonce),
                              StartTag(RuntimeErrorTag, nonce), EndTag(RuntimeErrorTag, nonce), n, parse);
  }

  lemma CutResult<V>(children: seq<Child<V>>, stdoutLimit: nat, errorLimit: nat, nonce: string, prefix: string,
                     host: Host<V>, n: nat)
    requires '\n' !in nonce && IsPayload(host.encode(PayloadOf(children, stdoutLimit, errorLimit)))
    requires prefix == "" || prefix[|prefix| - 1] == '\n'
    requires n + 1 < |Printed(Passed, children, stdoutLimit, errorLimit, nonce, host)|
    ensures var (start, end) := (StartTag(Result, nonce), EndTag(Result, nonce));
            var cut := prefix + Printed(Passed, children, stdoutLimit, errorLimit, nonce, host)[..n];
            ParseTagged(cut, start, end, host.decode)
            == if |start| < n then Err(MissingMarkers) else ParseTagged(prefix, start, end, host.decode)
  {
    var (start, end) := (StartTag(Result, nonce), EndTag(Result, nonce));
    var json := host.encode(PayloadOf(children, stdoutLimit, errorLimit));
    TagsOf(nonce);
    EndIsNoPrefix(nonce);
    if |start| < n {
      CutFrameIsMissing(prefix, start, end, json, n, host.decode);
      assert (prefix + Frame(start, json, end))[..|prefix| + n] == prefix + Frame(start, json, end)[..n];
    } else {
      CutStartLineIsNothing(prefix, start, end, n, host.decode);
      assert Frame(start, json, end)[..n] == start[..n];
    }
  }

  /** A run cut off while its result's frame is being printed is never graded on that frame: once
      the start tag is out the client is told that nothing could be read, whatever was printed
      before, and until then the cut is read as if nothing of the frame had been printed. */
  lemma CutRunIsNotGraded<V>(kind: ExecutionType, children: seq<Child<V>>, tests: seq<Grading.TestCase<V>>,
                             stdoutLimit: nat, errorLimit: nat, nonce: string, prefix: string, host: Host<V>,
                             format: V -> string, n: nat)
    requires '\n' !in nonce && Harmless(prefix, nonce)
    requires IsPayload(host.encode(PayloadOf(children, stdoutLimit, errorLimit)))
    requires n + 1 < |Printed(Passed, children, stdoutLimit, errorLimit, nonce, host)|
    ensures var cut := prefix + Printed(Passed, children, stdoutLimit, errorLimit, nonce, host)[..n];
            Answered(kind, cut, nonce, host, tests, format)
            == if |StartTag(Result, nonce)| < n then Unparsable else Answered(kind, prefix, nonce, host, tests, format)
  {
    var json := host.encode(PayloadOf(children, stdoutLimit, errorLimit));
    CutResult(children, stdoutLimit, errorLimit, nonce, prefix, host, n);
    NoModuleErrorInACut(prefix, nonce, json, n, host.decodeError);
    NoModuleErrorInACut(prefix, nonce, json, 0, host.decodeError);
    assert prefix + FrameOf(Result, nonce, json)[..0] == prefix;
  }

  // ---------------------------------------------------------------------------------------
  // Refusals
  // ---------------------------------------------------------------------------------------

  /** An accepted payload is reported as asked exactly when the indexes of its results are those
      of the tests in some order, and refused otherwise. */
  lemma ReportedExactlyWhen<V>(kind: ExecutionType, payload: Payload<V>, tests: seq<Grading.TestCase<V>>,
                               format: V -> string)
    ensures var answer := Reported(kind, payload, tests, format);
            var exact := Grading.IsPermutation(Grading.Indexes(payload.results), |tests|);
            && (answer == Invalid <==> !exact)
            && (answer.RunResult? <==> exact && kind == Run)
            && (answer.SubmitResult? <==> exact && kind == Submit)
  {
    Grading.RunReportIsRight(payload.results, payload.userStdout, tests, format, payload.userStdoutTruncated);
    Grading.SubmitReportIsRight(payload.results, tests, format);
  }

  /** Why the client gets what it gets: a module error before everything; then the output limit
      for a payload that is too large, and nothing readable for missing markers or broken JSON;
      then a refusal by the schema or the index check; and otherwise a report. */
  lemma AnsweredByCause<V>(kind: ExecutionType, stdout: string, nonce: string, host: Host<V>,
                           tests: seq<Grading.TestCase<V>>, format: V -> string)
    ensures var answer := Answered(kind, stdout, nonce, host, tests, format);
            var failed := ParseModuleError(stdout, nonce, host.decodeError).Some?;
            var parsed := ParseTagged(stdout, StartTag(Result, nonce), EndTag(Result, nonce), host.decode);
            var exact := parsed.Ok? && Grading.IsPermutation(Grading.Indexes(parsed.data.results), |tests|);
            && (answer.ModuleFailed? <==> failed)
            && (answer == OutputLimit <==> !failed && parsed == Err(PayloadTooLarge))
            && (answer == Unparsable <==> !failed && (parsed == Err(MissingMarkers) || parsed == Err(MalformedJson)))
            && (answer == Invalid <==> !failed && parsed.Ok? && (!host.accepts(parsed.data) || !exact))
            && (answer.RunResult? || answer.SubmitResult? <==> !failed && exact && host.accepts(parsed.data))
  {
    var parsed := ParseTagged(stdout, StartTag(Result, nonce), EndTag(Result, nonce), host.decode);
    if parsed.Ok? {
      ReportedExactlyWhen(kind, parsed.data, tests, format);
    }
  }

  /** The client never sees more than 503 characters of an error, never an empty one for a
      process that said nothing, and everything that is left after the paths are taken out if
      that fits. */
  lemma SanitizedFits(stderr: string, strip: string -> string)
    ensures var shown := SanitizeStderr(stderr, strip);
            && |shown| <= 503
            && (stderr == "" ==> shown == "Unknown error.")
            && (stderr != "" && |strip(stderr)| <= 500 ==> shown == strip(stderr))
            && (stderr != "" && |strip(stderr)| > 500 ==> shown == strip(stderr)[..500] + "...")
  {
  }
}
