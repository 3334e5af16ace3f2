/** The reader of a streamed chat completion: decoded chunks in, contents out.

    Bytes, their decoding and the requests are not modelled; a read is the text that the decoder
    returned for it. Either the last of them reported the end, or the read after them rejects
    (`fails`), as it does when the connection or the time allowed for it is lost.
 */
module StreamReader {
  import opened Text

  /** What JSON.parse and the content lookup make of a data line: `Content` is never empty. */
  datatype Datum = Invalid | NoContent | Content(text: string)

  datatype Outcome = Finished | EndOfStream | InvalidJson | ReadFailed

  /** How the generator ends when no line of the stream stops it: the reads come to an end, or
      one of them rejects and throws. */
  function AtEnd(fails: bool): Outcome { if fails then ReadFailed else EndOfStream }

  /** What was yielded, in order, and how the generator ended, if it has. */
  datatype Reading = Going(yielded: seq<string>) | Ended(yielded: seq<string>, outcome: Outcome)

  function Prepend(yielded: seq<string>, r: Reading): Reading {
    match r
    case Going(more) => Going(yielded + more)
    case Ended(more, outcome) => Ended(yielded + more, outcome)
  }

  // ---------------------------------------------------------------------------------------
  // Lines
  // ---------------------------------------------------------------------------------------

  /** `split("\n")`. */
  function Split(s: string): (r: seq<string>)
    ensures |r| > 0
    decreases |s|
  {
    if s == "" then [""]
    else if s[0] == '\n' then [""] + Split(s[1..])
    else InFront(s[0], Split(s[1..]))
  }

  /** The lines with `c` put in front of the first. */
  function InFront(c: char, lines: seq<string>): (r: seq<string>)
    requires |lines| > 0
    ensures |r| == |lines|
  {
    [[c] + lines[0]] + lines[1..]
  }

  /** The lines that a newline has ended. */
  function Complete(s: string): seq<string> { Split(s)[..|Split(s)| - 1] }

  /** What follows the last newline. */
  function Rest(s: string): string { Split(s)[|Split(s)| - 1] }

  function Joined(lines: seq<string>): string
    decreases |lines|
  {
    if lines == [] then "" else lines[0] + "\n" + Joined(lines[1..])
  }

  lemma InFrontConcat(c: char, a: seq<string>, b: seq<string>)
    requires |a| > 0
    ensures InFront(c, a + b) == InFront(c, a) + b
  {
  }

  /** `c` joins the first complete line, or, if there is none, what is left over. */
  lemma SplitCons(c: char, s: string)
    requires c != '\n'
    ensures Complete(s) == [] ==> Complete([c] + s) == [] && Rest([c] + s) == [c] + Rest(s)
    ensures Complete(s) != [] ==> Complete([c] + s) == InFront(c, Complete(s)) && Rest([c] + s) == Rest(s)
  {
    assert ([c] + s)[1..] == s;
    var lines := Split(s);
    assert lines == Complete(s) + [Rest(s)];
    if |lines| > 1 {
      InFrontConcat(c, Complete(s), [Rest(s)]);
    }
  }

  lemma SplitNewline(s: string)
    ensures Complete("\n" + s) == [""] + Complete(s) && Rest("\n" + s) == Rest(s)
  {
    assert ("\n" + s)[1..] == s;
  }

  lemma JoinedCons(line: string, lines: seq<string>)
    ensures Joined([line] + lines) == line + "\n" + Joined(lines)
  {
    assert ([line] + lines)[1..] == lines;
  }

  lemma JoinedInFront(c: char, lines: seq<string>)
    requires |lines| > 0
    ensures Joined(InFront(c, lines)) == [c] + Joined(lines)
  {
    JoinedCons([c] + lines[0], lines[1..]);
    Associative([c], lines[0], "\n", Joined(lines[1..]));
  }

  lemma Associative(a: string, b: string, c: string, d: string)
    ensures a + b + c + d == a + (b + c + d)
  {
  }

  /** Joining what splitting gives is the text again. */
  lemma {:induction false} SplitJoins(s: string)
    ensures s == Joined(Complete(s)) + Rest(s)
    decreases |s|
  {
    if s == "" {
      assert Complete(s) == [];
    } else {
      var c, tail := s[0], s[1..];
      assert s == [c] + tail;
      SplitJoins(tail);
      if c == '\n' {
        assert s == "\n" + tail;
        SplitNewline(tail);
        JoinedCons("", Complete(tail));
        Associative("", "\n", Joined(Complete(tail)), Rest(tail));
        assert "" + "\n" == "\n";
      } else {
        SplitCons(c, tail);
        if Complete(tail) != [] {
          JoinedInFront(c, Complete(tail));
        }
      }
    }
  }

  /** No line holds a newline. */
  lemma {:induction false} SplitLines(s: string)
    ensures forall i :: 0 <= i < |Split(s)| ==> '\n' !in Split(s)[i]
    decreases |s|
  {
    if s != "" {
      SplitLines(s[1..]);
    }
  }

  /** A text arriving in two parts: the lines complete in the first part stay, and what was left
      over goes in front of the second. */
  lemma {:induction false} SplitConcat(a: string, b: string)
    ensures Split(a + b) == Complete(a) + Split(Rest(a) + b)
    decreases |a|
  {
    if a == "" {
      assert a + b == b && Rest(a) + b == b && Complete(a) == [];
    } else {
      var c, tail := a[0], a[1..];
      assert a == [c] + tail && (a + b)[0] == c && (a + b)[1..] == tail + b;
      SplitConcat(tail, b);
      if c == '\n' {
        assert a == "\n" + tail;
        SplitNewline(tail);
      } else {
        SplitCons(c, tail);
        if Complete(tail) == [] {
          assert (Rest(a) + b)[0] == c && (Rest(a) + b)[1..] == Rest(tail) + b;
        } else {
          InFrontConcat(c, Complete(tail), Split(Rest(tail) + b));
        }
      }
    }
  }

  lemma {:induction false} NoNewlineOneLine(line: string)
    requires '\n' !in line
    ensures Split(line) == [line]
    decreases |line|
  {
    if line != "" {
      assert line[0] in line && forall c :: c in line[1..] ==> c in line;
      NoNewlineOneLine(line[1..]);
      assert line == [line[0]] + line[1..];
    }
  }

  lemma {:induction false} LineSplits(line: string)
    requires '\n' !in line
    ensures Split(line + "\n") == [line, ""]
    decreases |line|
  {
    if line == "" {
      assert ("" + "\n")[1..] == "";
    } else {
      assert (line + "\n")[1..] == line[1..] + "\n";
      LineSplits(line[1..]);
      assert line == [line[0]] + line[1..];
    }
  }

  /** Joining lines and splitting again gives the lines back. */
  lemma {:induction false} JoinSplits(lines: seq<string>, rest: string)
    requires '\n' !in rest && forall i :: 0 <= i < |lines| ==> '\n' !in lines[i]
    ensures Split(Joined(lines) + rest) == lines + [rest]
    decreases |lines|
  {
    if lines == [] {
      assert "" + rest == rest;
      NoNewlineOneLine(rest);
    } else {
      var first, more := lines[0] + "\n", Joined(lines[1..]) + rest;
      LineSplits(lines[0]);
      SplitConcat(first, more);
      JoinSplits(lines[1..], rest);
      assert Joined(lines) + rest == first + more;
      assert Complete(first) == [lines[0]] && Rest(first) + more == more;
    }
  }

  /** Splitting gives the only lines without a newline in them that join to the text. */
  lemma LinesAreUnique(s: string, lines: seq<string>, rest: string)
    ensures lines == Complete(s) && rest == Rest(s)
            <==> s == Joined(lines) + rest && '\n' !in rest && forall i :: 0 <= i < |lines| ==> '\n' !in lines[i]
  {
    SplitJoins(s);
    SplitLines(s);
    if s == Joined(lines) + rest && '\n' !in rest && forall i :: 0 <= i < |lines| ==> '\n' !in lines[i] {
      JoinSplits(lines, rest);
    }
  }

  lemma CompleteConcat(a: string, b: string)
    ensures Complete(a + b) == Complete(a) + Complete(Rest(a) + b) && Rest(a + b) == Rest(Rest(a) + b)
  {
    SplitConcat(a, b);
  }

  // ---------------------------------------------------------------------------------------
  // What a line means
  // ---------------------------------------------------------------------------------------

  datatype Verdict = Skip | Yield(text: string) | Stop(outcome: Outcome)

  predicate IsData(line: string) { |line| >= 6 && line[..6] == "data: " }

  function Judge(frame: string, parse: string -> Datum): Verdict {
    var line := Trim(frame);
    if !IsData(line) then Skip
    else if line[6..] == "[DONE]" then Stop(Finished)
    else
      match parse(line[6..])
      case Invalid => Stop(InvalidJson)
      case NoContent => Skip
      case Content(text) => Yield(text)
  }

  function Consume(frames: seq<string>, parse: string -> Datum): Reading
    decreases |frames|
  {
    if frames == [] then Going([])
    else
      match Judge(frames[0], parse)
      case Skip => Consume(frames[1..], parse)
      case Yield(text) => Prepend([text], Consume(frames[1..], parse))
      case Stop(outcome) => Ended([], outcome)
  }

  /** The line that ends the stream. */
  predicate IsEndMark(frame: string) { Trim(frame) == "data: [DONE]" }

  /** A data line other than the end mark, and what `parse` makes of its data. */
  predicate Holds(frame: string, parse: string -> Datum, datum: Datum) {
    var line := Trim(frame);
    line != "data: [DONE]" && |line| >= 6 && line[..6] == "data: " && parse(line[6..]) == datum
  }

  /** The contents of the data lines, in order. */
  function Contents(frames: seq<string>, parse: string -> Datum): seq<string>
    decreases |frames|
  {
    if frames == [] then []
    else
      var line := Trim(frames[0]);
      (if |line| >= 6 && Holds(frames[0], parse, parse(line[6..])) && parse(line[6..]).Content?
       then [parse(line[6..]).text] else [])
      + Contents(frames[1..], parse)
  }

  lemma DataOfMark(line: string)
    ensures line == "data: [DONE]" <==> IsData(line) && line[6..] == "[DONE]"
  {
    if IsData(line) && line[6..] == "[DONE]" {
      assert line == line[..6] + line[6..];
    }
  }

  /** A line ends the reading as finished exactly when it is the end mark, as a mistake exactly
      when it is another data line that does not parse; its content is yielded exactly when it
      has one; and every other line is passed over. */
  lemma EveryLine(frame: string, parse: string -> Datum)
    ensures Judge(frame, parse) == Stop(Finished) <==> IsEndMark(frame)
    ensures Judge(frame, parse) == Stop(InvalidJson) <==> Holds(frame, parse, Invalid)
    ensures forall text :: Judge(frame, parse) == Yield(text) <==> Holds(frame, parse, Content(text))
    ensures Judge(frame, parse).Stop? ==> Judge(frame, parse).outcome in {Finished, InvalidJson}
  {
    DataOfMark(Trim(frame));
  }

  /** The line ends the stream, well or by mistake. */
  predicate Ends(frame: string, parse: string -> Datum) {
    IsEndMark(frame) || Holds(frame, parse, Invalid)
  }

  /** The place of the first line that ends the stream, or the number of lines. */
  function StopPlace(frames: seq<string>, parse: string -> Datum): (k: nat)
    ensures k <= |frames| && (k < |frames| ==> Ends(frames[k], parse))
    ensures forall i :: 0 <= i < k ==> !Ends(frames[i], parse)
    decreases |frames|
  {
    if frames == [] || Ends(frames[0], parse) then 0
    else
      assert forall i :: 1 <= i < |frames| ==> frames[i] == frames[1..][i - 1];
      StopPlace(frames[1..], parse) + 1
  }

  /** How the reading ends at such a line. */
  function OutcomeAt(frame: string): Outcome { if IsEndMark(frame) then Finished else InvalidJson }

  lemma ContentsStep(frames: seq<string>, parse: string -> Datum)
    requires frames != []
    ensures Contents(frames, parse)
            == match Judge(frames[0], parse)
               case Yield(text) => [text] + Contents(frames[1..], parse)
               case _ => Contents(frames[1..], parse)
  {
    EveryLine(frames[0], parse);
    DataOfMark(Trim(frames[0]));
  }

  lemma FirstContents(frames: seq<string>, k: nat, parse: string -> Datum)
    requires k < |frames|
    ensures Contents(frames[..k + 1], parse)
            == match Judge(frames[0], parse)
               case Yield(text) => [text] + Contents(frames[1..][..k], parse)
               case _ => Contents(frames[1..][..k], parse)
  {
    ContentsStep(frames[..k + 1], parse);
    assert frames[..k + 1][1..] == frames[1..][..k];
  }

  /** Yielded are exactly the contents of the lines before the first end mark or mistake, which
      decides the outcome. */
  lemma {:induction false} ConsumesUpToTheStop(frames: seq<string>, parse: string -> Datum)
    ensures var k := StopPlace(frames, parse);
            Consume(frames, parse) == if k < |frames| then Ended(Contents(frames[..k], parse), OutcomeAt(frames[k]))
                                      else Going(Contents(frames, parse))
    decreases |frames|
  {
    if frames != [] {
      EveryLine(frames[0], parse);
      if !Ends(frames[0], parse) {
        var k := StopPlace(frames[1..], parse);
        ConsumesUpToTheStop(frames[1..], parse);
        ContentsStep(frames, parse);
        if k < |frames| - 1 {
          FirstContents(frames, k, parse);
        }
      }
    }
  }

  lemma {:induction false} ConsumeConcat(a: seq<string>, b: seq<string>, parse: string -> Datum)
    ensures Consume(a + b, parse) == match Consume(a, parse)
                                     case Going(yielded) => Prepend(yielded, Consume(b, parse))
                                     case Ended(_, _) => Consume(a, parse)
    decreases |a|
  {
    if a == [] {
      assert a + b == b;
      PrependNothing(Consume(b, parse));
    } else {
      assert (a + b)[0] == a[0] && (a + b)[1..] == a[1..] + b;
      ConsumeConcat(a[1..], b, parse);
      var rest := Consume(a[1..], parse);
      match Judge(a[0], parse) {
        case Yield(text) => PrependTwice([text], rest.yielded, Consume(b, parse));
        case _ =>
      }
    }
  }

  lemma PrependNothing(r: Reading)
    ensures Prepend([], r) == r
  {
    assert [] + r.yielded == r.yielded;
  }

  lemma PrependTwice(a: seq<string>, b: seq<string>, r: Reading)
    ensures Prepend(a, Prepend(b, r)) == Prepend(a + b, r)
  {
    assert a + (b + r.yielded) == a + b + r.yielded;
  }

  // ---------------------------------------------------------------------------------------
  // Reading chunk by chunk
  // ---------------------------------------------------------------------------------------

  function Total(chunks: seq<string>): string
    decreases |chunks|
  {
    if chunks == [] then "" else chunks[0] + Total(chunks[1..])
  }

  /** What the generator does with the reads still to come, with `buffer` left from before. */
  function Incremental(chunks: seq<string>, buffer: string, parse: string -> Datum, fails: bool): (r: Reading)
    ensures r.Ended?
    decreases |chunks|, 0
  {
    if chunks == [] then Ended([], AtEnd(fails))
    else
      var text := buffer + chunks[0];
      Resume(Complete(text), chunks[1..], Rest(text), parse, fails)
  }

  /** The same in the middle of a read, with some of its lines still to be judged. */
  function Resume(frames: seq<string>, chunks: seq<string>, buffer: string, parse: string -> Datum,
                  fails: bool): (r: Reading)
    ensures r.Ended?
    decreases |chunks|, 1
  {
    match Consume(frames, parse)
    case Ended(yielded, outcome) => Ended(yielded, outcome)
    case Going(yielded) => Prepend(yielded, Incremental(chunks, buffer, parse, fails))
  }

  lemma ResumeStep(frames: seq<string>, chunks: seq<string>, buffer: string, parse: string -> Datum, fails: bool)
    ensures frames == [] ==> Resume(frames, chunks, buffer, parse, fails) == Incremental(chunks, buffer, parse, fails)
    ensures frames != [] ==>
              var rest := Resume(frames[1..], chunks, buffer, parse, fails);
              Resume(frames, chunks, buffer, parse, fails) == match Judge(frames[0], parse)
                                                       case Skip => rest
                                                       case Yield(text) => Prepend([text], rest)
                                                       case Stop(outcome) => Ended([], outcome)
  {
    PrependNothing(Incremental(chunks, buffer, parse, fails));
    if frames != [] && Judge(frames[0], parse).Yield? {
      PrependTwice([Judge(frames[0], parse).text], Consume(frames[1..], parse).yielded,
                   Incremental(chunks, buffer, parse, fails));
    }
  }

  /** One line of the loop, seen from the whole reading. */
  lemma LineJudged(all: Reading, yielded: seq<string>, frames: seq<string>, chunks: seq<string>, buffer: string,
                   parse: string -> Datum, fails: bool)
    requires frames != [] && all == Prepend(yielded, Resume(frames, chunks, buffer, parse, fails))
    ensures match Judge(frames[0], parse)
            case Skip => all == Prepend(yielded, Resume(frames[1..], chunks, buffer, parse, fails))
            case Yield(text) => all == Prepend(yielded + [text], Resume(frames[1..], chunks, buffer, parse, fails))
            case Stop(outcome) => all == Ended(yielded, outcome)
  {
    ResumeStep(frames, chunks, buffer, parse, fails);
    match Judge(frames[0], parse) {
      case Yield(text) => PrependTwice(yielded, [text], Resume(frames[1..], chunks, buffer, parse, fails));
      case _ =>
    }
  }

  method ReadStreamChunks(chunks: seq<string>, parse: string -> Datum, fails: bool)
    returns (yielded: seq<string>, outcome: Outcome)
    ensures Ended(yielded, outcome) == Incremental(chunks, "", parse, fails)
  {
    yielded := [];
    var buffer := "";
    ghost var all := Incremental(chunks, "", parse, fails);
    PrependNothing(all);
    for i := 0 to |chunks|
      invariant all == Prepend(yielded, Incremental(chunks[i..], buffer, parse, fails))
    {
      assert chunks[i..][0] == chunks[i] && chunks[i..][1..] == chunks[i + 1..];
      buffer := buffer + chunks[i];
      var frames := Split(buffer);
      buffer := frames[|frames| - 1];
      frames := frames[..|frames| - 1];
      for k := 0 to |frames|
        invariant all == Prepend(yielded, Resume(frames[k..], chunks[i + 1..], buffer, parse, fails))
      {
        assert frames[k..][0] == frames[k] && frames[k..][1..] == frames[k + 1..];
        LineJudged(all, yielded, frames[k..], chunks[i + 1..], buffer, parse, fails);
        var line := Trim(frames[k]);
        if !IsData(line) {
          continue;
        }
        var data := line[6..];
        if data == "[DONE]" {
          return yielded, Finished;
        }
        match parse(data) {
          case Invalid =>
            return yielded, InvalidJson;
          case NoContent =>
          case Content(content) =>
            yielded := yielded + [content];
        }
      }
      ResumeStep(frames[|frames|..], chunks[i + 1..], buffer, parse, fails);
    }
    return yielded, AtEnd(fails);
  }

  /** The whole text at once: its complete lines, in order; what follows the last newline is
      never looked at. */
  function Batch(text: string, parse: string -> Datum, fails: bool): Reading {
    match Consume(Complete(text), parse)
    case Going(yielded) => Ended(yielded, AtEnd(fails))
    case Ended(yielded, outcome) => Ended(yielded, outcome)
  }

  /** However the stream is cut into reads, reading it chunk by chunk is reading it at once. */
  lemma {:induction false} IncrementalIsBatch(chunks: seq<string>, buffer: string, parse: string -> Datum, fails: bool)
    requires Complete(buffer) == []
    ensures Incremental(chunks, buffer, parse, fails) == Batch(buffer + Total(chunks), parse, fails)
    decreases |chunks|
  {
    if chunks == [] {
      assert buffer + "" == buffer;
    } else {
      var text := buffer + chunks[0];
      var rest := Rest(text);
      assert buffer + Total(chunks) == text + Total(chunks[1..]);
      CompleteConcat(text, Total(chunks[1..]));
      ConsumeConcat(Complete(text), Complete(rest + Total(chunks[1..])), parse);
      RestIsOpen(text);
      IncrementalIsBatch(chunks[1..], rest, parse, fails);
    }
  }

  /** What is left over holds no complete line. */
  lemma RestIsOpen(text: string)
    ensures Complete(Rest(text)) == []
  {
    CompleteConcat(text, "");
    assert text + "" == text && Rest(text) + "" == Rest(text);
  }

  /** Two ways of cutting the same stream, ending alike, give the same contents and the same outcome. */
  lemma ChunkingIndependent(chunks: seq<string>, others: seq<string>, parse: string -> Datum, fails: bool)
    requires Total(chunks) == Total(others)
    ensures Incremental(chunks, "", parse, fails) == Incremental(others, "", parse, fails)
  {
    IncrementalIsBatch(chunks, "", parse, fails);
    IncrementalIsBatch(others, "", parse, fails);
  }

  /** However the stream is cut, nothing after the first end mark or mistake matters, and a last
      line without a newline is dropped. */
  lemma OnlyCompleteLinesUpToTheStop(chunks: seq<string>, parse: string -> Datum, fails: bool)
    ensures var frames := Complete(Total(chunks));
            var k := StopPlace(frames, parse);
            Incremental(chunks, "", parse, fails)
            == if k < |frames| then Ended(Contents(frames[..k], parse), OutcomeAt(frames[k]))
               else Ended(Contents(frames, parse), AtEnd(fails))
  {
    assert "" + Total(chunks) == Total(chunks);
    IncrementalIsBatch(chunks, "", parse, fails);
    ConsumesUpToTheStop(Complete(Total(chunks)), parse);
  }

  /** Whatever follows the end mark, and even if the connection is lost then: the stream has
      finished with the contents before it. */
  lemma NothingAfterTheEndMark(before: seq<string>, after: string, chunks: seq<string>, parse: string -> Datum,
                               fails: bool)
    requires forall i :: 0 <= i < |before| ==> '\n' !in before[i] && !Ends(before[i], parse)
    requires Total(chunks) == Joined(before) + ("data: [DONE]" + "\n") + after
    ensures Incremental(chunks, "", parse, fails) == Ended(Contents(before, parse), Finished)
  {
    var mark := "data: [DONE]";
    LinesBefore(before, mark, after);
    MarkIsTheEnd(mark);
    var frames := Complete(Total(chunks));
    forall i | 0 <= i < |before| ensures !Ends(frames[i], parse) {
      assert frames[i] == before[i];
    }
    OnlyCompleteLinesUpToTheStop(chunks, parse, fails);
  }

  lemma MarkIsTheEnd(mark: string)
    requires mark == "data: [DONE]"
    ensures IsEndMark(mark) && '\n' !in mark
  {
    assert Trimmed(mark);
    TrimPadded("", mark, "");
    assert "" + mark + "" == mark;
  }

  lemma LinesBefore(before: seq<string>, mark: string, after: string)
    requires '\n' !in mark && forall i :: 0 <= i < |before| ==> '\n' !in before[i]
    ensures var frames := Complete(Joined(before) + (mark + "\n") + after);
            |before| < |frames| && frames[..|before|] == before && frames[|before|] == mark
  {
    var lines := before + [mark];
    JoinedMore(before, mark);
    JoinSplits(lines, "");
    assert Joined(lines) + "" == Joined(lines);
    CompleteConcat(Joined(lines), after);
    assert Complete(Joined(lines) + after) == lines + Complete(Rest(Joined(lines)) + after);
  }

  lemma {:induction false} JoinedMore(lines: seq<string>, line: string)
    ensures Joined(lines + [line]) == Joined(lines) + (line + "\n")
    decreases |lines|
  {
    if lines == [] {
      assert [line][1..] == [] && line + "\n" + "" == line + "\n";
    } else {
      assert (lines + [line])[1..] == lines[1..] + [line];
      JoinedMore(lines[1..], line);
      Associative(lines[0], "\n", Joined(lines[1..]), line + "\n");
    }
  }

  /** The stream's text and its ending throw: the first line that stops the reading is invalid,
      or there is none and a read fails. */
  predicate Throws(text: string, parse: string -> Datum, fails: bool) {
    var frames := Complete(text);
    var k := StopPlace(frames, parse);
    if k < |frames| then Holds(frames[k], parse, Invalid) else fails
  }

  /** However the stream is cut, the generator throws exactly when its text and ending do. */
  lemma ThrowsExactlyWhen(chunks: seq<string>, parse: string -> Datum, fails: bool)
    ensures Incremental(chunks, "", parse, fails).outcome in {InvalidJson, ReadFailed}
            <==> Throws(Total(chunks), parse, fails)
  {
    OnlyCompleteLinesUpToTheStop(chunks, parse, fails);
  }

  /** Reading that also looks at what follows the last newline. */
  function ReadAll(text: string, parse: string -> Datum, fails: bool): Reading {
    match Consume(Split(text), parse)
    case Going(yielded) => Ended(yielded, AtEnd(fails))
    case Ended(yielded, outcome) => Ended(yielded, outcome)
  }

  lemma ConsumeOne(frame: string, parse: string -> Datum)
    ensures Consume([frame], parse) == match Judge(frame, parse)
                                       case Skip => Going([])
                                       case Yield(text) => Going([text])
                                       case Stop(outcome) => Ended([], outcome)
    ensures Judge(frame, parse).Stop? ==> Judge(frame, parse).outcome in {Finished, InvalidJson}
  {
    assert [frame][1..] == [];
    assert Consume([], parse) == Going([]);
    assert forall text: string :: [text] + [] == [text];
  }

  lemma OneMoreLine(frames: seq<string>, last: string, parse: string -> Datum)
    ensures match Consume(frames, parse)
            case Ended(_, _) => Consume(frames + [last], parse) == Consume(frames, parse)
            case Going(yielded) =>
              Consume(frames + [last], parse) == match Judge(last, parse)
                                                 case Skip => Going(yielded)
                                                 case Yield(text) => Going(yielded + [text])
                                                 case Stop(outcome) => Ended(yielded, outcome)
  {
    ConsumeConcat(frames, [last], parse);
    ConsumeOne(last, parse);
    match Consume(frames, parse)
    case Going(yielded) => assert yielded + [] == yielded;
    case Ended(_, _) =>
  }

  /** However the stream is cut, every line of it is read exactly when the reading stops at a
      line that a newline ends, or what follows the last newline is no data line with content,
      mistake or end in it. */
  lemma LastLineReadExactlyWhen(chunks: seq<string>, parse: string -> Datum, fails: bool)
    ensures var t := Total(chunks);
            Incremental(chunks, "", parse, fails) == ReadAll(t, parse, fails)
            <==> Consume(Complete(t), parse).Ended? || Judge(Rest(t), parse).Skip?
  {
    var t := Total(chunks);
    assert "" + t == t;
    IncrementalIsBatch(chunks, "", parse, fails);
    assert Split(t) == Complete(t) + [Rest(t)];
    OneMoreLine(Complete(t), Rest(t), parse);
    ConsumeOne(Rest(t), parse);
  }

  /** A stream without any newline yields nothing, whatever its only line holds. */
  lemma UnendedLineIsLost(chunks: seq<string>, parse: string -> Datum, fails: bool)
    requires '\n' !in Total(chunks)
    ensures Incremental(chunks, "", parse, fails) == Ended([], AtEnd(fails))
  {
    NoNewlineOneLine(Total(chunks));
    assert "" + Total(chunks) == Total(chunks);
    IncrementalIsBatch(chunks, "", parse, fails);
  }

  lemma LineWithContent(line: string, data: string, parse: string -> Datum)
    requires IsData(line) && Trimmed(line) && data == line[6..] && data != "[DONE]" && parse(data).Content?
    ensures Judge(line, parse) == Yield(parse(data).text)
  {
    TrimPadded("", line, "");
    assert "" + line + "" == line;
  }

  /** For example: a content that any other reading would have yielded is lost. */
  lemma LostContent(line: string, parse: string -> Datum, fails: bool)
    requires '\n' !in line && IsData(line) && Trimmed(line) && line[6..] != "[DONE]" && parse(line[6..]).Content?
    ensures Incremental([line], "", parse, fails) == Ended([], AtEnd(fails))
    ensures ReadAll(line, parse, fails) == Ended([parse(line[6..]).text], AtEnd(fails))
  {
    assert Total([line]) == line by {
      assert [line][1..] == [] && line + "" == line;
    }
    UnendedLineIsLost([line], parse, fails);
    NoNewlineOneLine(line);
    ConsumeOne(line, parse);
    LineWithContent(line, line[6..], parse);
  }
}
