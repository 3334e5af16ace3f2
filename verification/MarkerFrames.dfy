/** The frames in which the harness hands its results to the server through standard output:
    emitting them, finding the marker lines, and parsing what lies between. */
module MarkerFrames {
  import opened Common
  import opened Text

  const HARNESS_PAYLOAD_CHARS := 256 * 1024

  datatype ParseFailure = MissingMarkers | MalformedJson | PayloadTooLarge

  datatype Parsed<T> = Ok(data: T) | Err(reason: ParseFailure)

  predicate LineStart(s: string, i: int) {
    i == 0 || (0 < i <= |s| && s[i - 1] == '\n')
  }

  /** A start marker must be a line of its own, ended by a newline. */
  predicate StartsAt(s: string, marker: string, i: int) {
    OccursAt(s, marker, i) && LineStart(s, i) && i + |marker| < |s| && s[i + |marker|] == '\n'
  }

  /** An end marker may also be the last thing in the text. */
  predicate EndsAt(s: string, marker: string, i: int) {
    OccursAt(s, marker, i) && LineStart(s, i) && (i + |marker| == |s| || s[i + |marker|] == '\n')
  }

  /** The greatest start marker at or before `upTo`. */
  function LastMarker(s: string, marker: string, upTo: int): Option<nat>
    decreases upTo
  {
    if upTo < 0 then None
    else if StartsAt(s, marker, upTo) then Some(upTo)
    else LastMarker(s, marker, upTo - 1)
  }

  /** The least end marker at or after `from`. */
  function NextMarker(s: string, marker: string, from: nat): Option<nat>
    decreases if from > |s| then 0 else |s| + 1 - from
  {
    if from > |s| then None
    else if EndsAt(s, marker, from) then Some(from)
    else NextMarker(s, marker, from + 1)
  }

  /** What `LastMarker` finds is the greatest start marker there is, and nothing only when there
      is none. */
  lemma {:induction false} LastMarkerIsGreatest(s: string, marker: string, upTo: int)
    ensures match LastMarker(s, marker, upTo)
            case Some(i) => i <= upTo && StartsAt(s, marker, i) && forall j :: i < j <= upTo ==> !StartsAt(s, marker, j)
            case None => forall j :: j <= upTo ==> !StartsAt(s, marker, j)
    decreases upTo
  {
    if upTo >= 0 && !StartsAt(s, marker, upTo) {
      LastMarkerIsGreatest(s, marker, upTo - 1);
    }
  }

  /** What `NextMarker` finds is the least end marker at or after `from`, and nothing only when
      there is none. */
  lemma {:induction false} NextMarkerIsLeast(s: string, marker: string, from: nat)
    ensures match NextMarker(s, marker, from)
            case Some(i) => i >= from && EndsAt(s, marker, i) && forall j :: from <= j < i ==> !EndsAt(s, marker, j)
            case None => forall j :: from <= j ==> !EndsAt(s, marker, j)
    decreases if from > |s| then 0 else |s| + 1 - from
  {
    if from <= |s| && !EndsAt(s, marker, from) {
      NextMarkerIsLeast(s, marker, from + 1);
    }
  }

  method FindLastMarkerLine(stdout: string, marker: string) returns (r: Option<nat>)
    ensures r == LastMarker(stdout, marker, |stdout|)
  {
    var searchFrom: int := |stdout|;
    while searchFrom >= 0
      invariant -1 <= searchFrom <= |stdout|
      invariant LastMarker(stdout, marker, |stdout|) == LastMarker(stdout, marker, searchFrom)
      decreases searchFrom
    {
      var markerIdx := LastIndexOf(stdout, marker, searchFrom);
      if markerIdx == -1 {
        LastMarkerIsGreatest(stdout, marker, searchFrom);
        return None;
      }
      LastMarkerSkips(stdout, marker, searchFrom, markerIdx);
      var hasLineStart := markerIdx == 0 || stdout[markerIdx - 1] == '\n';
      if hasLineStart && markerIdx + |marker| < |stdout| && stdout[markerIdx + |marker|] == '\n' {
        return Some(markerIdx);
      }
      searchFrom := markerIdx - 1;
    }
    return None;
  }

  lemma {:induction false} LastMarkerSkips(s: string, marker: string, from: nat, down: nat)
    requires down <= from && forall j :: down < j <= from ==> !StartsAt(s, marker, j)
    ensures LastMarker(s, marker, from) == LastMarker(s, marker, down)
    decreases from
  {
    if down < from {
      LastMarkerSkips(s, marker, from - 1, down);
    }
  }

  lemma {:induction false} NextMarkerSkips(s: string, marker: string, from: nat, up: nat)
    requires from <= up && forall j :: from <= j < up ==> !EndsAt(s, marker, j)
    ensures NextMarker(s, marker, from) == NextMarker(s, marker, up)
    decreases up - from
  {
    if from < up {
      NextMarkerSkips(s, marker, from + 1, up);
    }
  }

  /** A marker that is no line of its own hides none: an occurrence overlapping it from the
      right would need a newline inside the marker. */
  lemma NoLineInsideAMarker(s: string, marker: string, i: nat, j: nat)
    requires '\n' !in marker && OccursAt(s, marker, i) && i < j < i + |marker|
    ensures !EndsAt(s, marker, j)
  {
    assert s[j - 1] == s[i..i + |marker|][j - 1 - i];
  }

  lemma NextFromOccurrence(s: string, marker: string, from: nat)
    ensures var i := IndexOf(s, marker, from);
            NextMarker(s, marker, from) == if i == -1 then None else NextMarker(s, marker, i)
  {
    var i := IndexOf(s, marker, from);
    if i == -1 {
      NextMarkerIsLeast(s, marker, from);
    } else {
      NextMarkerSkips(s, marker, from, i);
    }
  }

  lemma NextAfterMarker(s: string, marker: string, i: nat)
    requires '\n' !in marker && OccursAt(s, marker, i) && !EndsAt(s, marker, i)
    ensures NextMarker(s, marker, i) == NextMarker(s, marker, i + |marker|)
  {
    forall j | i < j < i + |marker| ensures !EndsAt(s, marker, j) {
      NoLineInsideAMarker(s, marker, i, j);
    }
    NextMarkerSkips(s, marker, i, i + |marker|);
  }

  /** Jumps over whole markers and still finds the first one that is a line. */
  method FindNextMarkerLine(stdout: string, marker: string, searchFrom: nat) returns (r: Option<nat>)
    requires marker != "" && '\n' !in marker
    ensures r == NextMarker(stdout, marker, searchFrom)
  {
    var markerIdx := IndexOf(stdout, marker, searchFrom);
    NextFromOccurrence(stdout, marker, searchFrom);
    while markerIdx != -1
      invariant markerIdx == -1 || OccursAt(stdout, marker, markerIdx)
      invariant NextMarker(stdout, marker, searchFrom)
                == if markerIdx == -1 then None else NextMarker(stdout, marker, markerIdx)
      decreases if markerIdx == -1 then 0 else |stdout| + 1 - markerIdx
    {
      var hasLineStart := markerIdx == 0 || stdout[markerIdx - 1] == '\n';
      if hasLineStart && (markerIdx + |marker| == |stdout| || stdout[markerIdx + |marker|] == '\n') {
        return Some(markerIdx);
      }
      NextAfterMarker(stdout, marker, markerIdx);
      NextFromOccurrence(stdout, marker, markerIdx + |marker|);
      markerIdx := IndexOf(stdout, marker, markerIdx + |marker|);
    }
    return None;
  }

  function Slice(s: string, from: nat, to: nat): string {
    if from <= to <= |s| then s[from..to] else ""
  }

  /** `parseTaggedJson`; `parse` is `JSON.parse`, with `None` for a syntax error. */
  function ParseTagged<T>(stdout: string, startTag: string, endTag: string, parse: string -> Option<T>): Parsed<T> {
    match LastMarker(stdout, startTag, |stdout|)
    case None => Err(MissingMarkers)
    case Some(start) =>
      ParseSpan(stdout, start + |startTag| + 1, NextMarker(stdout, endTag, start + |startTag|), parse)
  }

  function ParseSpan<T>(stdout: string, from: nat, end: Option<nat>, parse: string -> Option<T>): Parsed<T> {
    match end
    case None => Err(MissingMarkers)
    case Some(e) => ParsePayload(Trim(Slice(stdout, from, e)), parse)
  }

  function ParsePayload<T>(json: string, parse: string -> Option<T>): Parsed<T> {
    if |json| > HARNESS_PAYLOAD_CHARS then Err(PayloadTooLarge)
    else match parse(json) case Some(data) => Ok(data) case None => Err(MalformedJson)
  }

  /** Why parsing fails: no start marker or no end marker after it; more than the limit between
      them; or what is between them is no JSON. */
  lemma FailsByCause<T>(stdout: string, startTag: string, endTag: string, parse: string -> Option<T>)
    ensures var r := ParseTagged(stdout, startTag, endTag, parse);
            var start := LastMarker(stdout, startTag, |stdout|);
            var end := if start.Some? then NextMarker(stdout, endTag, start.value + |startTag|) else None;
            var json := if end.Some? then Trim(Slice(stdout, start.value + |startTag| + 1, end.value)) else "";
            && (r == Err(MissingMarkers) <==> start.None? || end.None?)
            && (r == Err(PayloadTooLarge) <==> end.Some? && |json| > 262_144)
            && (r == Err(MalformedJson) <==> end.Some? && |json| <= 262_144 && parse(json).None?)
            && (r.Ok? <==> end.Some? && |json| <= 262_144 && parse(json).Some?)
            && (r.Ok? ==> parse(json) == Some(r.data))
  {
  }

  method ParseTaggedJson<T>(stdout: string, startTag: string, endTag: string, parse: string -> Option<T>)
    returns (r: Parsed<T>)
    requires endTag != "" && '\n' !in endTag
    ensures r == ParseTagged(stdout, startTag, endTag, parse)
  {
    var startIdx := FindLastMarkerLine(stdout, startTag);
    if startIdx.None? {
      return Err(MissingMarkers);
    }
    var startMarkerEnd := startIdx.value + |startTag|;
    var endIdx := FindNextMarkerLine(stdout, endTag, startMarkerEnd);
    if endIdx.None? {
      return Err(MissingMarkers);
    }
    var json := Trim(Slice(stdout, startMarkerEnd + 1, endIdx.value));
    if |json| > HARNESS_PAYLOAD_CHARS {
      return Err(PayloadTooLarge);
    }
    match parse(json)
    case Some(data) => return Ok(data);
    case None => return Err(MalformedJson);
  }

  // ---------------------------------------------------------------------------------------
  // What the harness emits is what the server reads
  // ---------------------------------------------------------------------------------------

  /** `_emit_tagged_payload`. */
  function Frame(startTag: string, json: string, endTag: string): string {
    startTag + "\n" + json + "\n" + endTag + "\n"
  }

  predicate IsTag(tag: string) {
    tag != "" && tag[0] == '=' && '\n' !in tag
  }

  /** What `json.dumps` writes for an object: one line that starts with a brace and has no
      white space at its ends. */
  predicate IsPayload(json: string) {
    json != "" && json[0] == '{' && '\n' !in json && Trimmed(json)
  }

  /** At a line whose content is known, a start marker is that content. */
  lemma MarkerIsTheLine(s: string, marker: string, i: nat, line: string)
    requires '\n' !in marker && '\n' !in line
    requires OccursAt(s, line, i) && i + |line| < |s| && s[i + |line|] == '\n'
    ensures StartsAt(s, marker, i) ==> marker == line
  {
    if StartsAt(s, marker, i) {
      NoNewlineIn(s, line, i);
      NoNewlineIn(s, marker, i);
      assert |marker| == |line|;
    }
  }

  /** Where the end tag's line starts when the payload's line starts at `a`. */
  function EndLine(a: nat, json: string): nat { a + |json| + 1 }

  /** The text `s` holds, from `p` to its end, one frame. */
  ghost predicate Framed(s: string, p: nat, startTag: string, json: string, endTag: string) {
    var a := p + |startTag| + 1;
    var b := EndLine(a, json);
    && |s| == b + |endTag| + 1
    && OccursAt(s, startTag, p) && s[a - 1] == '\n'
    && OccursAt(s, json, a) && s[b - 1] == '\n'
    && OccursAt(s, endTag, b) && s[b + |endTag|] == '\n'
  }

  lemma FrameIsFramed(prefix: string, startTag: string, json: string, endTag: string)
    ensures Framed(prefix + Frame(startTag, json, endTag), |prefix|, startTag, json, endTag)
  {
  }

  ghost predicate Tags(startTag: string, endTag: string, json: string) {
    IsTag(startTag) && IsTag(endTag) && IsPayload(json)
  }

  lemma NoNewlineIn(s: string, part: string, i: nat)
    requires OccursAt(s, part, i) && '\n' !in part
    ensures forall k :: i <= k < i + |part| ==> s[k] != '\n'
  {
    forall k | i <= k < i + |part| ensures s[k] != '\n' {
      assert s[k] == s[i..i + |part|][k - i];
    }
  }

  /** Where the lines of a frame start. */
  lemma FrameLines(s: string, p: nat, startTag: string, json: string, endTag: string)
    requires Framed(s, p, startTag, json, endTag) && Tags(startTag, endTag, json)
    ensures var a := p + |startTag| + 1;
            forall j :: p < j <= |s| && LineStart(s, j) ==> j == a || j == EndLine(a, json) || j == |s|
  {
    NoNewlineIn(s, startTag, p);
    NoNewlineIn(s, json, p + |startTag| + 1);
    NoNewlineIn(s, endTag, EndLine(p + |startTag| + 1, json));
  }

  lemma FrameStart(s: string, p: nat, startTag: string, json: string, endTag: string)
    requires Framed(s, p, startTag, json, endTag) && Tags(startTag, endTag, json) && startTag != endTag
    requires LineStart(s, p)
    ensures LastMarker(s, startTag, |s|) == Some(p)
  {
    var a := p + |startTag| + 1;
    FrameLines(s, p, startTag, json, endTag);
    Head(s, json, a);
    Head(s, startTag, a);
    MarkerIsTheLine(s, startTag, EndLine(a, json), endTag);
    assert StartsAt(s, startTag, p);
    LastMarkerSkips(s, startTag, |s|, p);
  }

  lemma FrameEnd(s: string, p: nat, startTag: string, json: string, endTag: string)
    requires Framed(s, p, startTag, json, endTag) && Tags(startTag, endTag, json)
    ensures NextMarker(s, endTag, p + |startTag|) == Some(EndLine(p + |startTag| + 1, json))
  {
    var a := p + |startTag| + 1;
    FrameLines(s, p, startTag, json, endTag);
    Head(s, json, a);
    Head(s, endTag, a);
    assert EndsAt(s, endTag, EndLine(a, json));
    NextMarkerSkips(s, endTag, p + |startTag|, EndLine(a, json));
  }

  lemma FramePayload(s: string, p: nat, startTag: string, json: string, endTag: string)
    requires Framed(s, p, startTag, json, endTag) && IsPayload(json)
    ensures var a := p + |startTag| + 1; Trim(Slice(s, a, EndLine(a, json))) == json
  {
    var a := p + |startTag| + 1;
    assert s[a..EndLine(a, json)] == s[a..a + |json|] + "\n";
    TrimLine(json);
  }

  lemma FoundSpan<T>(s: string, from: nat, end: nat, json: string, parse: string -> Option<T>)
    requires Trim(Slice(s, from, end)) == json && parse(json).Some?
    ensures ParseSpan(s, from, Some(end), parse)
            == if |json| <= HARNESS_PAYLOAD_CHARS then Ok(parse(json).value) else Err(PayloadTooLarge)
  {
  }

  lemma Found<T>(s: string, start: nat, end: nat, startTag: string, endTag: string, json: string,
                 parse: string -> Option<T>)
    requires LastMarker(s, startTag, |s|) == Some(start) && NextMarker(s, endTag, start + |startTag|) == Some(end)
    requires Trim(Slice(s, start + |startTag| + 1, end)) == json && parse(json).Some?
    ensures ParseTagged(s, startTag, endTag, parse)
            == if |json| <= HARNESS_PAYLOAD_CHARS then Ok(parse(json).value) else Err(PayloadTooLarge)
  {
    FoundSpan(s, start + |startTag| + 1, end, json, parse);
    assert ParseTagged(s, startTag, endTag, parse) == ParseSpan(s, start + |startTag| + 1, Some(end), parse);
  }

  lemma FramedParses<T>(s: string, p: nat, startTag: string, endTag: string, json: string, parse: string -> Option<T>)
    requires Framed(s, p, startTag, json, endTag) && Tags(startTag, endTag, json) && startTag != endTag
              && LineStart(s, p)
    requires parse(json).Some?
    ensures ParseTagged(s, startTag, endTag, parse)
            == if |json| <= HARNESS_PAYLOAD_CHARS then Ok(parse(json).value) else Err(PayloadTooLarge)
  {
    FrameStart(s, p, startTag, json, endTag);
    FrameEnd(s, p, startTag, json, endTag);
    FramePayload(s, p, startTag, json, endTag);
    Found(s, p, EndLine(p + |startTag| + 1, json), startTag, endTag, json, parse);
  }

  lemma LineAfter(prefix: string, rest: string)
    requires prefix == "" || prefix[|prefix| - 1] == '\n'
    ensures LineStart(prefix + rest, |prefix|)
  {
  }

  /** Whatever was printed before, as long as it ended its line, and even if it held earlier
      frames, parsing gives back exactly the payload of the frame emitted last, unless it is
      over the size limit. */
  lemma FrameRoundTrip<T>(prefix: string, startTag: string, endTag: string, json: string, parse: string -> Option<T>,
                          data: T)
    requires prefix == "" || prefix[|prefix| - 1] == '\n'
    requires IsTag(startTag) && IsTag(endTag) && startTag != endTag && IsPayload(json)
    requires parse(json) == Some(data)
    ensures ParseTagged(prefix + Frame(startTag, json, endTag), startTag, endTag, parse)
            == if |json| <= HARNESS_PAYLOAD_CHARS then Ok(data) else Err(PayloadTooLarge)
  {
    FrameIsFramed(prefix, startTag, json, endTag);
    LineAfter(prefix, Frame(startTag, json, endTag));
    FramedParses(prefix + Frame(startTag, json, endTag), |prefix|, startTag, endTag, json, parse);
  }

  ghost predicate HoldsNoStart(s: string, tag: string) {
    forall j :: !StartsAt(s, tag, j)
  }

  lemma NoStartBefore(prefix: string, rest: string, tag: string, j: nat)
    requires prefix != "" ==> prefix[|prefix| - 1] == '\n'
    requires '\n' !in tag && HoldsNoStart(prefix, tag) && j < |prefix|
    ensures !StartsAt(prefix + rest, tag, j)
  {
    var s := prefix + rest;
    if StartsAt(s, tag, j) {
      NoNewlineIn(s, tag, j);
      assert s[|prefix| - 1] == '\n';
      assert j + |tag| <= |prefix| - 1;
      assert s[j..j + |tag|] == prefix[j..j + |tag|];
      assert StartsAt(prefix, tag, j);
    }
  }

  lemma NoStartInFrame(s: string, p: nat, startTag: string, json: string, endTag: string, tag: string, j: nat)
    requires Framed(s, p, startTag, json, endTag) && Tags(startTag, endTag, json)
    requires IsTag(tag) && tag != startTag && tag != endTag && p <= j
    ensures !StartsAt(s, tag, j)
  {
    var a := p + |startTag| + 1;
    FrameLines(s, p, startTag, json, endTag);
    MarkerIsTheLine(s, tag, p, startTag);
    MarkerIsTheLine(s, tag, EndLine(a, json), endTag);
    Head(s, json, a);
    Head(s, tag, a);
  }

  lemma FrameHoldsNoStart(prefix: string, startTag: string, json: string, endTag: string, tag: string)
    requires prefix != "" ==> prefix[|prefix| - 1] == '\n'
    requires Tags(startTag, endTag, json) && IsTag(tag) && tag != startTag && tag != endTag && HoldsNoStart(prefix, tag)
    ensures HoldsNoStart(prefix + Frame(startTag, json, endTag), tag)
  {
    var s := prefix + Frame(startTag, json, endTag);
    FrameIsFramed(prefix, startTag, json, endTag);
    forall j: nat | j <= |s| ensures !StartsAt(s, tag, j) {
      if j < |prefix| {
        NoStartBefore(prefix, Frame(startTag, json, endTag), tag, j);
      } else {
        NoStartInFrame(s, |prefix|, startTag, json, endTag, tag, j);
      }
    }
  }

  lemma NoStartIsMissing<T>(s: string, tag: string, otherEnd: string, parse: string -> Option<T>)
    requires HoldsNoStart(s, tag)
    ensures ParseTagged(s, tag, otherEnd, parse) == Err(MissingMarkers)
  {
    LastMarkerIsGreatest(s, tag, |s|);
  }

  /** Cutting a text brings out no start marker that it did not hold. */
  lemma CutHoldsNoStart(s: string, n: nat, tag: string)
    requires HoldsNoStart(s, tag) && n <= |s|
    ensures HoldsNoStart(s[..n], tag)
  {
    forall j: nat | j + |tag| < n ensures !StartsAt(s[..n], tag, j) {
      assert s[..n][j..j + |tag|] == s[j..j + |tag|];
      assert !StartsAt(s, tag, j);
    }
  }

  /** A frame holds no marker but its own. */
  lemma OnlyItsOwnMarkers<T>(prefix: string, startTag: string, json: string, endTag: string,
                             tag: string, otherEnd: string, parse: string -> Option<T>)
    requires prefix != "" ==> prefix[|prefix| - 1] == '\n'
    requires Tags(startTag, endTag, json) && IsTag(tag) && tag != startTag && tag != endTag && HoldsNoStart(prefix, tag)
    ensures ParseTagged(prefix + Frame(startTag, json, endTag), tag, otherEnd, parse) == Err(MissingMarkers)
  {
    FrameHoldsNoStart(prefix, startTag, json, endTag, tag);
    NoStartIsMissing(prefix + Frame(startTag, json, endTag), tag, otherEnd, parse);
  }

  /** Nor does any part of it that was printed. */
  lemma CutHoldsOnlyItsOwnMarkers<T>(prefix: string, startTag: string, json: string, endTag: string,
                                     tag: string, otherEnd: string, n: nat, parse: string -> Option<T>)
    requires prefix != "" ==> prefix[|prefix| - 1] == '\n'
    requires Tags(startTag, endTag, json) && IsTag(tag) && tag != startTag && tag != endTag && HoldsNoStart(prefix, tag)
    requires n <= |Frame(startTag, json, endTag)|
    ensures ParseTagged(prefix + Frame(startTag, json, endTag)[..n], tag, otherEnd, parse) == Err(MissingMarkers)
  {
    var whole := prefix + Frame(startTag, json, endTag);
    FrameHoldsNoStart(prefix, startTag, json, endTag, tag);
    CutHoldsNoStart(whole, |prefix| + n, tag);
    NoStartIsMissing(whole[..|prefix| + n], tag, otherEnd, parse);
    assert whole[..|prefix| + n] == prefix + Frame(startTag, json, endTag)[..n];
  }

  // ---------------------------------------------------------------------------------------
  // Output that is cut short
  // ---------------------------------------------------------------------------------------

  /** In a frame cut before the end of its end tag nothing after the start of the start tag is an
      end marker. */
  lemma CutHasNoEnd(whole: string, p: nat, startTag: string, json: string, endTag: string, n: nat, j: nat)
    requires Framed(whole, p, startTag, json, endTag) && Tags(startTag, endTag, json)
    requires n < EndLine(p + |startTag| + 1, json) + |endTag| && p < j
    ensures !EndsAt(whole[..n], endTag, j)
  {
    var a := p + |startTag| + 1;
    FrameLines(whole, p, startTag, json, endTag);
    Head(whole, json, a);
    Head(whole[..n], endTag, j);
  }

  lemma StartSurvives(whole: string, p: nat, startTag: string, json: string, endTag: string, n: nat)
    requires Framed(whole, p, startTag, json, endTag) && LineStart(whole, p) && p + |startTag| < n <= |whole|
    ensures StartsAt(whole[..n], startTag, p)
  {
    assert whole[..n][p..p + |startTag|] == whole[p..p + |startTag|];
  }

  lemma CutMissing<T>(whole: string, p: nat, startTag: string, json: string, endTag: string, n: nat,
                      parse: string -> Option<T>)
    requires Framed(whole, p, startTag, json, endTag) && Tags(startTag, endTag, json) && LineStart(whole, p)
    requires p + |startTag| < n < EndLine(p + |startTag| + 1, json) + |endTag|
    ensures ParseTagged(whole[..n], startTag, endTag, parse) == Err(MissingMarkers)
  {
    var cut := whole[..n];
    StartSurvives(whole, p, startTag, json, endTag, n);
    LastMarkerIsGreatest(cut, startTag, n);
    var start := LastMarker(cut, startTag, n).value;
    forall j: nat | p < j ensures !EndsAt(cut, endTag, j) {
      CutHasNoEnd(whole, p, startTag, json, endTag, n, j);
    }
    NextMarkerIsLeast(cut, endTag, start + |startTag|);
  }

  /** A frame cut anywhere after its start tag and before the end of its end tag yields no result:
      never a part of one, and never that of an earlier frame. */
  lemma CutFrameIsMissing<T>(prefix: string, startTag: string, endTag: string, json: string, n: nat,
                             parse: string -> Option<T>)
    requires prefix != "" ==> prefix[|prefix| - 1] == '\n'
    requires IsTag(startTag) && IsTag(endTag) && IsPayload(json)
    requires |startTag| < n < |startTag| + 1 + |json| + 1 + |endTag|
    ensures ParseTagged((prefix + Frame(startTag, json, endTag))[..|prefix| + n], startTag, endTag, parse)
            == Err(MissingMarkers)
  {
    FrameIsFramed(prefix, startTag, json, endTag);
    LineAfter(prefix, Frame(startTag, json, endTag));
    CutMissing(prefix + Frame(startTag, json, endTag), |prefix|, startTag, json, endTag, |prefix| + n, parse);
  }

  lemma StartsInTheWhole(whole: string, n: nat, tag: string, j: nat)
    requires n <= |whole| && StartsAt(whole[..n], tag, j)
    ensures StartsAt(whole, tag, j)
  {
    assert whole[..n][j..j + |tag|] == whole[j..j + |tag|];
  }

  lemma EndsInTheWhole(whole: string, n: nat, tag: string, j: nat)
    requires n <= |whole| && EndsAt(whole[..n], tag, j) && j + |tag| < n
    ensures EndsAt(whole, tag, j)
  {
    assert whole[..n][j..j + |tag|] == whole[j..j + |tag|];
  }

  lemma UnendedMarkers(whole: string, p: nat, startTag: string, json: string, endTag: string)
    requires Framed(whole, p, startTag, json, endTag) && Tags(startTag, endTag, json) && startTag != endTag
    requires LineStart(whole, p)
    ensures var cut := whole[..|whole| - 1];
            && LastMarker(cut, startTag, |cut|) == Some(p)
            && NextMarker(cut, endTag, p + |startTag|) == Some(EndLine(p + |startTag| + 1, json))
  {
    var n, b := |whole| - 1, EndLine(p + |startTag| + 1, json);
    var cut := whole[..n];
    FrameStart(whole, p, startTag, json, endTag);
    FrameEnd(whole, p, startTag, json, endTag);
    LastMarkerIsGreatest(whole, startTag, |whole|);
    NextMarkerIsLeast(whole, endTag, p + |startTag|);
    StartSurvives(whole, p, startTag, json, endTag, n);
    forall j: nat | p < j <= n ensures !StartsAt(cut, startTag, j) {
      if StartsAt(cut, startTag, j) {
        StartsInTheWhole(whole, n, startTag, j);
      }
    }
    LastMarkerSkips(cut, startTag, n, p);
    forall j | p + |startTag| <= j < b ensures !EndsAt(cut, endTag, j) {
      if EndsAt(cut, endTag, j) {
        EndsInTheWhole(whole, n, endTag, j);
      }
    }
    assert cut[b..b + |endTag|] == whole[b..b + |endTag|];
    NextMarkerSkips(cut, endTag, p + |startTag|, b);
  }

  lemma UnendedParses<T>(whole: string, p: nat, startTag: string, json: string, endTag: string,
                         parse: string -> Option<T>)
    requires Framed(whole, p, startTag, json, endTag) && Tags(startTag, endTag, json) && startTag != endTag
    requires LineStart(whole, p) && parse(json).Some?
    ensures ParseTagged(whole[..|whole| - 1], startTag, endTag, parse)
            == if |json| <= HARNESS_PAYLOAD_CHARS then Ok(parse(json).value) else Err(PayloadTooLarge)
  {
    var a := p + |startTag| + 1;
    var cut := whole[..|whole| - 1];
    UnendedMarkers(whole, p, startTag, json, endTag);
    FramePayload(whole, p, startTag, json, endTag);
    assert cut[a..EndLine(a, json)] == whole[a..EndLine(a, json)];
    Found(cut, p, EndLine(a, json), startTag, endTag, json, parse);
  }

  /** The last newline of a frame may be missing: once the end tag is out, the payload is there. */
  lemma LastNewlineIsOptional<T>(prefix: string, startTag: string, endTag: string, json: string,
                                 parse: string -> Option<T>, data: T)
    requires prefix == "" || prefix[|prefix| - 1] == '\n'
    requires Tags(startTag, endTag, json) && startTag != endTag && parse(json) == Some(data)
    ensures ParseTagged(prefix + (startTag + "\n" + json + "\n" + endTag), startTag, endTag, parse)
            == if |json| <= HARNESS_PAYLOAD_CHARS then Ok(data) else Err(PayloadTooLarge)
  {
    var whole := prefix + Frame(startTag, json, endTag);
    FrameIsFramed(prefix, startTag, json, endTag);
    LineAfter(prefix, Frame(startTag, json, endTag));
    UnendedParses(whole, |prefix|, startTag, json, endTag, parse);
    assert whole[..|whole| - 1] == prefix + (startTag + "\n" + json + "\n" + endTag);
  }

  /** An occurrence without a newline that starts in whole lines ends in the same line. */
  lemma StaysInItsLine(prefix: string, rest: string, part: string, j: nat)
    requires prefix != "" ==> prefix[|prefix| - 1] == '\n'
    requires '\n' !in part && part != "" && j < |prefix| && OccursAt(prefix + rest, part, j)
    ensures j + |part| < |prefix| && OccursAt(prefix, part, j)
  {
    var s := prefix + rest;
    NoNewlineIn(s, part, j);
    assert s[|prefix| - 1] == '\n';
    assert s[j..j + |part|] == prefix[j..j + |part|];
  }

  lemma OccursStill(prefix: string, rest: string, part: string, j: nat)
    requires OccursAt(prefix, part, j)
    ensures OccursAt(prefix + rest, part, j)
  {
    assert (prefix + rest)[j..j + |part|] == prefix[j..j + |part|];
  }

  lemma SameStarts(prefix: string, rest: string, tag: string, j: nat)
    requires prefix != "" ==> prefix[|prefix| - 1] == '\n'
    requires '\n' !in tag && tag != "" && |rest| <= |tag|
    ensures StartsAt(prefix + rest, tag, j) <==> StartsAt(prefix, tag, j)
  {
    if StartsAt(prefix + rest, tag, j) {
      StaysInItsLine(prefix, rest, tag, j);
    }
    if StartsAt(prefix, tag, j) {
      OccursStill(prefix, rest, tag, j);
    }
  }

  lemma NoEndInRest(prefix: string, rest: string, tag: string, j: nat)
    requires tag != "" && '\n' !in rest && !(tag <= rest) && j >= |prefix|
    ensures !EndsAt(prefix + rest, tag, j)
  {
    var s := prefix + rest;
    if |prefix| < j <= |s| {
      assert s[j - 1] == rest[j - 1 - |prefix|];
    } else if |prefix| + |tag| <= |s| {
      assert s[|prefix|..|prefix| + |tag|] == rest[..|tag|];
    }
  }

  lemma SameEnds(prefix: string, rest: string, tag: string, j: nat)
    requires prefix != "" ==> prefix[|prefix| - 1] == '\n'
    requires '\n' !in tag && tag != "" && '\n' !in rest && !(tag <= rest)
    ensures EndsAt(prefix + rest, tag, j) <==> EndsAt(prefix, tag, j)
  {
    var s := prefix + rest;
    if EndsAt(prefix, tag, j) {
      OccursStill(prefix, "", tag, j);
      assert prefix + "" == prefix;
      StaysInItsLine(prefix, "", tag, j);
      OccursStill(prefix, rest, tag, j);
    }
    if EndsAt(s, tag, j) {
      if j < |prefix| {
        StaysInItsLine(prefix, rest, tag, j);
      } else {
        NoEndInRest(prefix, rest, tag, j);
      }
    }
  }

  lemma SameLast(prefix: string, rest: string, tag: string)
    requires forall j: nat :: StartsAt(prefix + rest, tag, j) <==> StartsAt(prefix, tag, j)
    ensures LastMarker(prefix + rest, tag, |prefix + rest|) == LastMarker(prefix, tag, |prefix|)
  {
    LastMarkerIsGreatest(prefix + rest, tag, |prefix + rest|);
    LastMarkerIsGreatest(prefix, tag, |prefix|);
  }

  lemma SameNext(prefix: string, rest: string, tag: string, from: nat)
    requires forall j: nat :: EndsAt(prefix + rest, tag, j) <==> EndsAt(prefix, tag, j)
    ensures NextMarker(prefix + rest, tag, from) == NextMarker(prefix, tag, from)
    ensures NextMarker(prefix, tag, from).Some? ==> NextMarker(prefix, tag, from).value <= |prefix|
  {
    NextMarkerIsLeast(prefix + rest, tag, from);
    NextMarkerIsLeast(prefix, tag, from);
  }

  /** Output cut inside the line of its last start tag is read as if that line were not there:
      the result, if any, is that of the frames before. */
  lemma CutStartLineIsNothing<T>(prefix: string, startTag: string, endTag: string, n: nat, parse: string -> Option<T>)
    requires prefix != "" ==> prefix[|prefix| - 1] == '\n'
    requires IsTag(startTag) && IsTag(endTag) && n <= |startTag| && !(endTag <= startTag)
    ensures ParseTagged(prefix + startTag[..n], startTag, endTag, parse) == ParseTagged(prefix, startTag, endTag, parse)
  {
    var rest := startTag[..n];
    assert endTag <= rest ==> endTag <= startTag;
    forall j: nat ensures StartsAt(prefix + rest, startTag, j) <==> StartsAt(prefix, startTag, j) {
      SameStarts(prefix, rest, startTag, j);
    }
    forall j: nat ensures EndsAt(prefix + rest, endTag, j) <==> EndsAt(prefix, endTag, j) {
      SameEnds(prefix, rest, endTag, j);
    }
    SameLast(prefix, rest, startTag);
    match LastMarker(prefix, startTag, |prefix|) {
      case None =>
      case Some(start) =>
        SameNext(prefix, rest, endTag, start + |startTag|);
        SameSpan(prefix, rest, start + |startTag| + 1, NextMarker(prefix, endTag, start + |startTag|), parse);
    }
  }

  lemma SameSpan<T>(prefix: string, rest: string, from: nat, end: Option<nat>, parse: string -> Option<T>)
    requires end.Some? ==> end.value <= |prefix|
    ensures ParseSpan(prefix + rest, from, end, parse) == ParseSpan(prefix, from, end, parse)
  {
    if end.Some? {
      assert Slice(prefix + rest, from, end.value) == Slice(prefix, from, end.value);
    }
  }
}
