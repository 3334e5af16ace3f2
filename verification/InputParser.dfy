/** The importer's reader of example inputs such as `nums = [2,7], target = 9`. */
module InputParser {
  import opened Common
  import opened Text
  import opened JsonText

  datatype ParseError = NoEquals | Unsupported(text: string) | JsonSyntax | MissingParameter(name: string)

  datatype Outcome<T> = Ok(value: T) | Err(error: ParseError)

  /** `JSON.parse`, with `None` for a syntax error, and `Number`. Numbers are known by the text
      that prints them: `number` gives that text for any other text of the same number. */
  datatype Reader = Reader(parse: string -> Option<Json>, number: string -> string)

  /** What an import yields: a record of values by name. */
  type Record = map<string, Json>

  // ---------------------------------------------------------------------------------------
  // The scanner
  // ---------------------------------------------------------------------------------------

  datatype Scan = Scan(quote: Option<char>, escaped: bool, square: int, curly: int, paren: int)

  const START := Scan(None, false, 0, 0, 0)

  function Step(s: Scan, c: char): Scan {
    match s.quote
    case Some(q) =>
      if s.escaped then s.(escaped := false)
      else if c == '\\' then s.(escaped := true)
      else if c == q then s.(quote := None)
      else s
    case None =>
      if c == '\"' || c == '\'' then s.(quote := Some(c))
      else if c == '[' then s.(square := s.square + 1)
      else if c == ']' then s.(square := s.square - 1)
      else if c == '{' then s.(curly := s.curly + 1)
      else if c == '}' then s.(curly := s.curly - 1)
      else if c == '(' then s.(paren := s.paren + 1)
      else if c == ')' then s.(paren := s.paren - 1)
      else s
  }

  /** The scanner cuts at `c`: the delimiter, outside quotes and all brackets. */
  predicate Cuts(s: Scan, c: char, delimiter: char) {
    && s.quote.None? && c != '\"' && c != '\'' && c == delimiter
    && Step(s, c).square == 0 && Step(s, c).curly == 0 && Step(s, c).paren == 0
  }

  /** The pieces of the text still to come, when `current` has been read since the last cut. */
  function Pieces(source: string, delimiter: char, s: Scan, current: string): seq<string>
    decreases |source|
  {
    if source == "" then
      if Trim(current) != "" then [Trim(current)] else []
    else if Cuts(s, source[0], delimiter) then
      [Trim(current)] + Pieces(source[1..], delimiter, Step(s, source[0]), "")
    else Pieces(source[1..], delimiter, Step(s, source[0]), current + [source[0]])
  }

  method SplitTopLevel(source: string, delimiter: char) returns (parts: seq<string>)
    ensures parts == Pieces(source, delimiter, START, "")
  {
    parts := [];
    var current := "";
    var squareDepth, curlyDepth, parenDepth := 0, 0, 0;
    var quote: Option<char> := None;
    var escaped := false;
    for i := 0 to |source|
      invariant parts + Pieces(source[i..], delimiter, Scan(quote, escaped, squareDepth, curlyDepth, parenDepth),
                               current)
                == Pieces(source, delimiter, START, "")
    {
      var c := source[i];
      ghost var before := Scan(quote, escaped, squareDepth, curlyDepth, parenDepth);
      assert source[i..][0] == c && source[i..][1..] == source[i + 1..];
      current := current + [c];
      if quote.Some? {
        if escaped {
          escaped := false;
        } else if c == '\\' {
          escaped := true;
        } else if c == quote.value {
          quote := None;
        }
        assert Scan(quote, escaped, squareDepth, curlyDepth, parenDepth) == Step(before, c);
        continue;
      }
      if c == '\"' || c == '\'' {
        quote := Some(c);
        continue;
      }
      if c == '[' {
        squareDepth := squareDepth + 1;
      } else if c == ']' {
        squareDepth := squareDepth - 1;
      } else if c == '{' {
        curlyDepth := curlyDepth + 1;
      } else if c == '}' {
        curlyDepth := curlyDepth - 1;
      } else if c == '(' {
        parenDepth := parenDepth + 1;
      } else if c == ')' {
        parenDepth := parenDepth - 1;
      }
      assert Scan(quote, escaped, squareDepth, curlyDepth, parenDepth) == Step(before, c);
      if c == delimiter && squareDepth == 0 && curlyDepth == 0 && parenDepth == 0 {
        parts := parts + [Trim(current[..|current| - 1])];
        current := "";
      }
    }
    if Trim(current) != "" {
      parts := parts + [Trim(current)];
    }
  }

  // ---------------------------------------------------------------------------------------
  // Values
  // ---------------------------------------------------------------------------------------

  predicate EnclosedBy(s: string, quote: char) {
    s != "" && s[0] == quote && s[|s| - 1] == quote
  }

  /** `slice(1, -1)`: of a lone quote nothing is left. */
  function Inside(s: string): string {
    if |s| < 2 then "" else s[1..|s| - 1]
  }

  function ParseScalar(raw: string, reader: Reader): Outcome<Json> {
    var trimmed := Trim(raw);
    if trimmed == "true" then Ok(Bool(true))
    else if trimmed == "false" then Ok(Bool(false))
    else if trimmed == "null" then Ok(Null)
    else if PlainNumber(trimmed) then Ok(Num(reader.number(trimmed)))
    else if EnclosedBy(trimmed, '\"') || EnclosedBy(trimmed, '\'') then Ok(Str(Inside(trimmed)))
    else Err(Unsupported(trimmed))
  }

  function ParseValue(raw: string, reader: Reader): Outcome<Json> {
    var trimmed := Trim(raw);
    if trimmed != "" && (trimmed[0] == '[' || trimmed[0] == '{') then
      match reader.parse(trimmed) case Some(v) => Ok(v) case None => Err(JsonSyntax)
    else ParseScalar(trimmed, reader)
  }

  // ---------------------------------------------------------------------------------------
  // Assignments
  // ---------------------------------------------------------------------------------------

  /** `replace(/\s+/g, " ")`; `after` says that the character before was white space. */
  function Collapse(s: string, after: bool): string
    decreases |s|
  {
    if s == "" then ""
    else if !IsSpace(s[0]) then [s[0]] + Collapse(s[1..], false)
    else (if after then "" else " ") + Collapse(s[1..], true)
  }

  function ParseAssignment(assignment: string, reader: Reader): Outcome<(string, Json)> {
    var equalsIndex := IndexOf(assignment, "=", 0);
    if equalsIndex == -1 then Err(NoEquals)
    else
      match ParseValue(Trim(assignment[equalsIndex + 1..]), reader)
      case Ok(v) => Ok((Trim(assignment[..equalsIndex]), v))
      case Err(e) => Err(e)
  }

  function ParseAssignments(assignments: seq<string>, reader: Reader): Outcome<seq<(string, Json)>>
    decreases |assignments|
  {
    if assignments == [] then Ok([])
    else
      match ParseAssignment(assignments[0], reader)
      case Err(e) => Err(e)
      case Ok(entry) =>
        match ParseAssignments(assignments[1..], reader)
        case Err(e) => Err(e)
        case Ok(entries) => Ok([entry] + entries)
  }

  /** `Object.fromEntries`: a later entry of the same name wins. */
  function FromEntries(entries: seq<(string, Json)>): Record
    decreases |entries|
  {
    if entries == [] then map[]
    else FromEntries(entries[..|entries| - 1])[entries[|entries| - 1].0 := entries[|entries| - 1].1]
  }

  /** The names every object inherits: for these `in` holds of any record. */
  predicate Inherited(name: string) {
    || name == "constructor" || name == "toString" || name == "valueOf" || name == "toLocaleString"
    || name == "hasOwnProperty" || name == "isPrototypeOf" || name == "propertyIsEnumerable" || name == "__proto__"
    || name == "__defineGetter__" || name == "__defineSetter__" || name == "__lookupGetter__"
        || name == "__lookupSetter__"
  }

  predicate Present(name: string, record: Record) { name in record || Inherited(name) }

  /** The first parameter that is missing. */
  function FirstMissing(names: seq<string>, record: Record): (r: Option<string>)
    ensures r.None? <==> forall i :: 0 <= i < |names| ==> Present(names[i], record)
    ensures r.Some? ==> r.value in names && r.value !in record
    decreases |names|
  {
    if names == [] then None
    else if !Present(names[0], record) then Some(names[0])
    else
      assert forall i :: 1 <= i < |names| ==> names[i] == names[1..][i - 1];
      FirstMissing(names[1..], record)
  }

  function Normalized(input: string): string { Trim(Collapse(input, false)) }

  function Finish(parsed: Outcome<seq<(string, Json)>>, names: seq<string>): Outcome<Record> {
    match parsed
    case Err(e) => Err(e)
    case Ok(entries) =>
      match FirstMissing(names, FromEntries(entries))
      case Some(name) => Err(MissingParameter(name))
      case None => Ok(FromEntries(entries))
  }

  function ParseInput(input: string, names: seq<string>, reader: Reader): Outcome<Record> {
    Finish(ParseAssignments(Pieces(Normalized(input), ',', START, ""), reader), names)
  }

  method ParseInputAssignments(input: string, parameterNames: seq<string>, reader: Reader)
    returns (result: Outcome<Record>)
    ensures result == ParseInput(input, parameterNames, reader)
  {
    var normalized := Normalized(input);
    var assignments := SplitTopLevel(normalized, ',');
    var parsed := ParseAssignments(assignments, reader);
    if parsed.Err? {
      return Err(parsed.error);
    }
    var inputRecord := FromEntries(parsed.value);
    for i := 0 to |parameterNames|
      invariant forall k :: 0 <= k < i ==> Present(parameterNames[k], inputRecord)
    {
      if !Present(parameterNames[i], inputRecord) {
        FirstIs(parameterNames, inputRecord, i);
        return Err(MissingParameter(parameterNames[i]));
      }
    }
    return Ok(inputRecord);
  }

  lemma {:induction false} FirstIs(names: seq<string>, record: Record, i: nat)
    requires i < |names| && !Present(names[i], record) && forall k :: 0 <= k < i ==> Present(names[k], record)
    ensures FirstMissing(names, record) == Some(names[i])
    decreases i
  {
    if i > 0 {
      assert Present(names[0], record);
      assert forall k :: 0 <= k < i - 1 ==> names[1..][k] == names[k + 1];
      FirstIs(names[1..], record, i - 1);
    }
  }
}
