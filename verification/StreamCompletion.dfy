/** A streamed completion behind the circuit breaker. The breaker is told how the request went
    when the response arrives; what becomes of the stream is never recorded.
 */
module StreamCompletion {
  import opened CircuitBreaker
  import opened Text
  import StreamReader

  /** A request that fails, or a response whose body arrives in these chunks until it ends or
      a read fails. */
  datatype Response = NoResponse | Streaming(chunks: seq<string>, fails: bool)

  datatype Result = Rejected | RequestFailed | Read(yielded: seq<string>, outcome: StreamReader.Outcome)

  function ReadingOf(response: Response, parse: string -> StreamReader.Datum): Result
    requires response.Streaming?
  {
    var r := StreamReader.Incremental(response.chunks, "", parse, response.fails);
    Read(r.yielded, r.outcome)
  }

  predicate Threw(outcome: StreamReader.Outcome) {
    outcome == StreamReader.InvalidJson || outcome == StreamReader.ReadFailed
  }

  /** The call begins and, unless it is turned away, completes. */
  function Called(c: Config, s: System, call: nat, succeeded: bool, asked: int, answered: int): System {
    var t := Apply(c, s, Begin(call, asked));
    Apply(c, t, if succeeded then Succeed(call, answered) else Fail(call, answered))
  }

  /** What the code records: the request. */
  function Recorded(c: Config, s: System, call: nat, response: Response, asked: int, answered: int): System {
    Called(c, s, call, response.Streaming?, asked, answered)
  }

  /** What a breaker around the whole stream records: whether the generator throws. */
  function Covering(c: Config, s: System, call: nat, response: Response, parse: string -> StreamReader.Datum,
                    asked: int, answered: int): System {
    Called(c, s, call, response.Streaming? && !Threw(ReadingOf(response, parse).outcome), asked, answered)
  }

  /** The success is recorded before the first chunk is read: the breaker's state depends on the
      request only, and the reading on the body only. */
  method StreamCompletion(breaker: CircuitBreaker, call: nat, response: Response, parse: string -> StreamReader.Datum,
                          asked: int, answered: int) returns (result: Result)
    requires breaker.Valid() && call !in breaker.Abstract().begun
    modifies breaker
    ensures breaker.Valid()
    ensures breaker.Abstract() == Recorded(breaker.config, old(breaker.Abstract()), call, response, asked, answered)
    ensures result == if old(breaker.state) == Open then Rejected
                      else if response.NoResponse? then RequestFailed
                      else ReadingOf(response, parse)
  {
    var gate := breaker.Execute(call, asked);
    if gate == CircuitOpen {
      return Rejected;
    }
    breaker.AfterCall(call, response.Streaming?, answered);
    if response.NoResponse? {
      return RequestFailed;
    }
    var yielded, outcome := StreamReader.ReadStreamChunks(response.chunks, parse, response.fails);
    return Read(yielded, outcome);
  }

  /** The text and the ending of the body make the reading throw. */
  predicate Broken(response: Response, parse: string -> StreamReader.Datum) {
    response.Streaming? && StreamReader.Throws(StreamReader.Total(response.chunks), parse, response.fails)
  }

  lemma BrokenThrows(response: Response, parse: string -> StreamReader.Datum)
    ensures Broken(response, parse) <==> response.Streaming? && Threw(ReadingOf(response, parse).outcome)
  {
    if response.Streaming? {
      StreamReader.ThrowsExactlyWhen(response.chunks, parse, response.fails);
    }
  }

  /** The code's breaker and one around the whole stream record differently exactly for a call
      that is admitted and answered with a body whose first complete line that stops the reading
      is invalid, or that has no such line and ends in a failing read. */
  lemma RecordsAlikeExactlyWhen(c: Config, s: System, call: nat, response: Response,
                                parse: string -> StreamReader.Datum, asked: int, answered: int)
    requires Inv(c, s) && call !in s.begun
    ensures Recorded(c, s, call, response, asked, answered) == Covering(c, s, call, response, parse, asked, answered)
            <==> s.breaker.state == Open || !Broken(response, parse)
  {
    BrokenThrows(response, parse);
    if s.breaker.state != Open && Broken(response, parse) {
      var t := Apply(c, s, Begin(call, asked));
      assert Apply(c, t, Succeed(call, answered)).breaker.consecutiveFailures == 0;
      assert Apply(c, t, Fail(call, answered)).breaker.consecutiveFailures == s.breaker.consecutiveFailures + 1;
    }
  }

  /** A body whose read fails before any complete line is broken, whatever had arrived of it. */
  lemma LostConnectionIsBroken(chunks: seq<string>, parse: string -> StreamReader.Datum)
    requires '\n' !in StreamReader.Total(chunks)
    ensures Broken(Streaming(chunks, true), parse)
  {
    StreamReader.NoNewlineOneLine(StreamReader.Total(chunks));
  }

  /** So is one that starts with a complete data line that is not JSON. */
  lemma InvalidLineIsBroken(line: string, fails: bool, parse: string -> StreamReader.Datum)
    requires '\n' !in line && StreamReader.IsData(line) && Trimmed(line)
    requires line[6..] != "[DONE]" && parse(line[6..]).Invalid?
    ensures Broken(Streaming([line + "\n"], fails), parse)
  {
    var text := line + "\n";
    assert StreamReader.Total([text]) == text by {
      assert [text][1..] == [] && text + "" == text;
    }
    StreamReader.LineSplits(line);
    assert StreamReader.Complete(text) == [line];
    TrimPadded("", line, "");
    assert "" + line + "" == line;
    assert StreamReader.Judge(line, parse) == StreamReader.Stop(StreamReader.InvalidJson);
  }

  // ---------------------------------------------------------------------------------------
  // Any number of broken streams
  // ---------------------------------------------------------------------------------------

  /** One completion after another, with calls numbered from `call` on. */
  function AfterAll(c: Config, s: System, call: nat, responses: seq<Response>, parse: string -> StreamReader.Datum,
                    covering: bool, now: int): System
    decreases |responses|
  {
    if responses == [] then s
    else
      var t := if covering then Covering(c, s, call, responses[0], parse, now, now)
               else Recorded(c, s, call, responses[0], now, now);
      AfterAll(c, t, call + 1, responses[1..], parse, covering, now)
  }

  ghost predicate NotBegun(s: System, call: nat) {
    forall k :: k in s.begun ==> k < call
  }

  lemma CalledEffect(c: Config, s: System, call: nat, succeeded: bool, now: int)
    requires NotBegun(s, call) && s.inFlight <= s.begun
    ensures var t := Called(c, s, call, succeeded, now, now);
            && NotBegun(t, call + 1) && t.inFlight <= t.begun
            && t.breaker == if s.breaker.state == Open then s.breaker
                            else if succeeded then RecordSuccess(s.breaker) else RecordFailure(c, s.breaker, now)
  {
  }

  lemma {:induction false} UnnoticedFrom(c: Config, s: System, call: nat, responses: seq<Response>,
                                         parse: string -> StreamReader.Datum, now: int)
    requires NotBegun(s, call) && s.inFlight <= s.begun && s.breaker == INITIAL
    requires forall r :: r in responses ==> r.Streaming?
    ensures AfterAll(c, s, call, responses, parse, false, now).breaker == INITIAL
    decreases |responses|
  {
    if responses != [] {
      assert responses[0] in responses;
      CalledEffect(c, s, call, true, now);
      UnnoticedFrom(c, Called(c, s, call, true, now, now), call + 1, responses[1..], parse, now);
    }
  }

  lemma {:induction false} CountedFrom(c: Config, s: System, call: nat, responses: seq<Response>,
                                       parse: string -> StreamReader.Datum, now: int)
    requires NotBegun(s, call) && s.inFlight <= s.begun
    requires s.breaker.state == Open
              || (s.breaker.state == Closed && 0 <= s.breaker.consecutiveFailures < c.Threshold())
    requires forall r :: r in responses ==> Broken(r, parse)
    ensures s.breaker.state == Open || s.breaker.consecutiveFailures + |responses| >= c.Threshold()
            ==> AfterAll(c, s, call, responses, parse, true, now).breaker.state == Open
    decreases |responses|
  {
    if responses != [] {
      assert responses[0] in responses;
      BrokenThrows(responses[0], parse);
      CalledEffect(c, s, call, false, now);
      CountedFrom(c, Called(c, s, call, false, now, now), call + 1, responses[1..], parse, now);
    }
  }

  /** Streams that are all broken never open the circuit, however many there are; a breaker
      around the whole stream would open after the threshold. */
  lemma BrokenStreamsGoUnnoticed(c: Config, responses: seq<Response>, parse: string -> StreamReader.Datum, now: int)
    requires forall r :: r in responses ==> Broken(r, parse)
    ensures AfterAll(c, START, 0, responses, parse, false, now).breaker == INITIAL
    ensures |responses| >= c.Threshold() ==> AfterAll(c, START, 0, responses, parse, true, now).breaker.state == Open
  {
    UnnoticedFrom(c, START, 0, responses, parse, now);
    CountedFrom(c, START, 0, responses, parse, now);
  }

  /** For example: every connection is lost right after the response, and the circuit never
      opens. */
  lemma LostConnectionsGoUnnoticed(c: Config, n: nat, parse: string -> StreamReader.Datum, now: int)
    requires n >= c.Threshold()
    ensures var lost := seq(n, i => Streaming([], true));
            && AfterAll(c, START, 0, lost, parse, false, now).breaker == INITIAL
            && AfterAll(c, START, 0, lost, parse, true, now).breaker.state == Open
  {
    var lost := seq(n, i => Streaming([], true));
    LostConnectionIsBroken([], parse);
    assert forall r :: r in lost ==> r == Streaming([], true);
    BrokenStreamsGoUnnoticed(c, lost, parse, now);
  }
}
