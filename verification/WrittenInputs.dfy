/** Inputs as people write them: quotes of either kind, escapes, brackets of all three kinds, and
    names given twice. What the importer's scanner and its reader of values make of them.
 */
module WrittenInputs {
  import opened Common
  import opened Text
  import opened JsonText
  import opened InputParser
  import opened PrintedValues
  import opened InputRoundTrip

  // ---------------------------------------------------------------------------------------
  // Only the commas between values cut
  // ---------------------------------------------------------------------------------------

  /** What may stand between quotes: the quote itself only after a backslash. */
  predicate Enclosable(quote: char, body: string)
    decreases |body|
  {
    if body == "" then true
    else if body[0] == '\\' then |body| >= 2 && Enclosable(quote, body[2..])
    else body[0] != quote && Enclosable(quote, body[1..])
  }

  datatype Kind = Square | Curly | Round

  function Opening(kind: Kind): char { match kind case Square => '[' case Curly => '{' case Round => '(' }

  function Closing(kind: Kind): char { match kind case Square => ']' case Curly => '}' case Round => ')' }

  /** A written value: words, quoted texts and groups in brackets, in any order. */
  datatype Part = Word(chars: string) | Quote(mark: char, body: string) | Group(kind: Kind, inner: Parts)

  datatype Parts = End | Then(first: Part, rest: Parts)

  function TextOf(part: Part): string {
    match part
    case Word(chars) => chars
    case Quote(mark, body) => [mark] + body + [mark]
    case Group(kind, inner) => [Opening(kind)] + TextOfAll(inner) + [Closing(kind)]
  }

  function TextOfAll(parts: Parts): string {
    match parts
    case End => ""
    case Then(first, rest) => TextOf(first) + TextOfAll(rest)
  }

  /** Words hold no quotes and no brackets, and commas only inside a group. */
  ghost predicate Written(part: Part, grouped: bool) {
    match part
    case Word(chars) => forall i :: 0 <= i < |chars| ==> Neutral(chars[i]) || (grouped && chars[i] == ',')
    case Quote(mark, body) => IsQuote(mark) && Enclosable(mark, body)
    case Group(_, inner) => AllWritten(inner, true)
  }

  ghost predicate AllWritten(parts: Parts, grouped: bool) {
    match parts
    case End => true
    case Then(first, rest) => Written(first, grouped) && AllWritten(rest, grouped)
  }

  lemma {:induction false} WordPasses(s: Scan, chars: string)
    requires Outside(s)
    requires forall i :: 0 <= i < |chars| ==> Neutral(chars[i]) || (Nested(s) && chars[i] == ',')
    ensures Passes(s, chars)
    decreases |chars|
  {
    if chars != "" {
      assert Neutral(chars[0]) || (Nested(s) && chars[0] == ',');
      assert forall i :: 0 <= i < |chars| - 1 ==> chars[1..][i] == chars[i + 1];
      WordPasses(s, chars[1..]);
    }
  }

  lemma {:induction false} BodyPasses(s: Scan, quote: char, body: string)
    requires s.quote == Some(quote) && !s.escaped && Enclosable(quote, body)
    ensures Passes(s, body)
    decreases |body|
  {
    if body != "" {
      if body[0] == '\\' {
        assert body == [body[0]] + ([body[1]] + body[2..]);
        assert body[1..][1..] == body[2..];
        BodyPasses(s, quote, body[2..]);
      } else {
        BodyPasses(s, quote, body[1..]);
      }
    }
  }

  /** Between two quotes of one kind nothing cuts, whatever it is. */
  lemma QuotePasses(s: Scan, mark: char, body: string)
    requires Outside(s) && IsQuote(mark) && Enclosable(mark, body)
    ensures Passes(s, [mark] + body + [mark])
  {
    var inside := Step(s, mark);
    assert [mark] + body + [mark] == [mark] + (body + [mark]);
    After1(s, mark);
    ScanConcat(s, [mark], body + [mark]);
    BodyPasses(inside, mark, body);
    ScanConcat(inside, body, [mark]);
    After1(inside, mark);
  }

  lemma {:induction false} PartPasses(part: Part, s: Scan)
    requires Outside(s) && Written(part, Nested(s))
    ensures Passes(s, TextOf(part))
    decreases part
  {
    match part
    case Word(chars) => WordPasses(s, chars);
    case Quote(mark, body) => QuotePasses(s, mark, body);
    case Group(kind, inner) =>
      PartsPass(inner, Step(s, Opening(kind)));
      BracketsPass(s, Opening(kind), TextOfAll(inner), Closing(kind));
  }

  lemma {:induction false} PartsPass(parts: Parts, s: Scan)
    requires Outside(s) && AllWritten(parts, Nested(s))
    ensures Passes(s, TextOfAll(parts))
    decreases parts
  {
    match parts
    case End =>
    case Then(first, rest) =>
      PartPasses(first, s);
      PartsPass(rest, s);
      PassesConcat(s, TextOf(first), TextOfAll(rest));
  }

  function Listed(values: seq<Parts>): string
    decreases |values|
  {
    if values == [] then ""
    else if |values| == 1 then TextOfAll(values[0])
    else TextOfAll(values[0]) + ", " + Listed(values[1..])
  }

  ghost predicate IsValue(parts: Parts) {
    AllWritten(parts, false) && TextOfAll(parts) != "" && Trimmed(TextOfAll(parts))
  }

  /** However the values nest quotes and brackets, the splitter finds exactly the values. */
  lemma {:induction false} SplitsWhatIsWritten(values: seq<Parts>, lead: string)
    requires values != [] && AllSpace(lead) && forall i :: 0 <= i < |values| ==> IsValue(values[i])
    ensures var parts := Pieces(Listed(values), ',', START, lead);
            |parts| == |values| && forall i :: 0 <= i < |values| ==> parts[i] == TextOfAll(values[i])
    decreases |values|
  {
    var text := TextOfAll(values[0]);
    assert IsValue(values[0]);
    PartsPass(values[0], START);
    LeadDropped(lead, text);
    if |values| == 1 {
      LastAssignment(text, lead);
    } else {
      NextAssignment(text, lead, Listed(values[1..]));
      assert forall i :: 0 <= i < |values| - 1 ==> values[1..][i] == values[i + 1];
      SplitsWhatIsWritten(values[1..], " ");
    }
  }

  // ---------------------------------------------------------------------------------------
  // Reading a value
  // ---------------------------------------------------------------------------------------

  /** Text between quotes of either kind is taken as it stands, escapes included. */
  lemma QuotedValue(mark: char, body: string, reader: Reader)
    requires IsQuote(mark)
    ensures ParseValue([mark] + body + [mark], reader) == Ok(Str(body))
  {
    var text := [mark] + body + [mark];
    assert text[0] == mark && text[|text| - 1] == mark;
    TrimOwn(text);
    NotANumber(text);
    assert Inside(text) == body;
  }

  /** The scalars are three words, plain numbers and quoted texts; anything else is refused by its
      own text. */
  lemma ScalarsExactly(raw: string, reader: Reader)
    ensures var t := Trim(raw);
            var result := ParseScalar(raw, reader);
            var quoted := t != "" && IsQuote(t[0]) && t[|t| - 1] == t[0];
            && (t == "true" ==> result == Ok(Bool(true))) && (t == "false" ==> result == Ok(Bool(false)))
            && (t == "null" ==> result == Ok(Null))
            && (PlainNumber(t) ==> result == Ok(Num(reader.number(t))))
            && (quoted ==> result == Ok(Str(if |t| == 1 then "" else t[1..|t| - 1])))
            && (result == Err(Unsupported(t))
                <==> t != "true" && t != "false" && t != "null" && !PlainNumber(t) && !quoted)
            && (result.Err? ==> result == Err(Unsupported(t)))
  {
    var t := Trim(raw);
    if t == "true" || t == "false" || t == "null" || (t != "" && IsQuote(t[0])) {
      NotANumber(t);
    }
  }

  /** Lists and records are what `JSON.parse` makes of them, and refused when it throws. */
  lemma ListsAndRecords(raw: string, reader: Reader)
    requires var t := Trim(raw); t != "" && (t[0] == '[' || t[0] == '{')
    ensures ParseValue(raw, reader)
            == match reader.parse(Trim(raw)) case Some(v) => Ok(v) case None => Err(JsonSyntax)
  {
  }

  /** A plain number is made of digits, after an optional minus sign, with at most one point,
      which stands between two of them. */
  lemma PlainNumberExactly(t: string)
    ensures var u := if t != "" && t[0] == '-' then t[1..] else t;
            PlainNumber(t)
            <==> && u != ""
                 && (forall i :: 0 <= i < |u| ==> '0' <= u[i] <= '9' || (u[i] == '.' && 0 < i < |u| - 1))
                 && (forall i, j :: 0 <= i < j < |u| ==> u[i] != '.' || u[j] != '.')
  {
    var u := Unsigned(t);
    if k :| 0 <= k < |u| && u[k] == '.' {
      PointedExactly(u, k);
    } else {
      assert Digits(u) <==> u != "" && forall i :: 0 <= i < |u| ==> Digit(u[i]);
    }
  }

  lemma PointedExactly(u: string, k: nat)
    requires k < |u| && u[k] == '.'
    ensures !Digits(u)
    ensures (exists j :: 0 <= j < |u| && u[j] == '.' && Digits(u[..j]) && Digits(u[j + 1..]))
            <==> && (forall i :: 0 <= i < |u| ==> Digit(u[i]) || (u[i] == '.' && 0 < i < |u| - 1))
                 && (forall i, j :: 0 <= i < j < |u| ==> u[i] != '.' || u[j] != '.')
  {
    assert u[k] in u;
    if j :| 0 <= j < |u| && u[j] == '.' && Digits(u[..j]) && Digits(u[j + 1..]) {
      forall i | 0 <= i < |u| && i != j ensures Digit(u[i]) {
        if i < j {
          DigitAt(u[..j], i);
        } else {
          DigitAt(u[j + 1..], i - j - 1);
        }
      }
    }
    if (forall i :: 0 <= i < |u| ==> Digit(u[i]) || (u[i] == '.' && 0 < i < |u| - 1))
       && (forall i, j :: 0 <= i < j < |u| ==> u[i] != '.' || u[j] != '.') {
      OnlyDigits(u, 0, k);
      OnlyDigits(u, k + 1, |u|);
      assert u[..k] == u[0..k] && u[k + 1..] == u[k + 1..|u|];
    }
  }

  lemma OnlyDigits(u: string, from: nat, end: nat)
    requires from < end <= |u| && forall i :: from <= i < end ==> Digit(u[i])
    ensures Digits(u[from..end])
  {
    forall c | c in u[from..end] ensures Digit(c) {
      var i :| 0 <= i < end - from && u[from..end][i] == c;
      assert u[from + i] == c;
    }
  }

  /** Of the numbers of JSON the importer takes exactly those that are written without exponent. */
  lemma PlainExactlyWithoutExponent(text: string)
    requires IsNumber(text)
    ensures PlainNumber(text) <==> 'e' !in text && 'E' !in text
  {
    if PlainNumber(text) {
      PlainNumberChars(text);
    }
  }

  // ---------------------------------------------------------------------------------------
  // From the assignments to the record
  // ---------------------------------------------------------------------------------------

  /** An assignment without an equals sign is refused. */
  lemma NoEqualsRefused(assignment: string, reader: Reader)
    ensures '=' !in assignment ==> ParseAssignment(assignment, reader) == Err(NoEquals)
    ensures ParseAssignment(assignment, reader) == Err(NoEquals) ==> '=' !in assignment
  {
    var i := IndexOf(assignment, "=", 0);
    if i != -1 {
      Head(assignment, "=", i);
      assert assignment[i] in assignment;
    }
    if '=' in assignment {
      var j :| 0 <= j < |assignment| && assignment[j] == '=';
      assert assignment[j..j + 1] == "=" && OccursAt(assignment, "=", j);
    }
  }

  /** The first assignment that is refused is the error of the whole import. */
  lemma {:induction false} FirstRefusal(assignments: seq<string>, k: nat, reader: Reader)
    requires k < |assignments| && ParseAssignment(assignments[k], reader).Err?
    requires forall i :: 0 <= i < k ==> ParseAssignment(assignments[i], reader).Ok?
    ensures ParseAssignments(assignments, reader) == Err(ParseAssignment(assignments[k], reader).error)
    decreases k
  {
    if k > 0 {
      assert forall i :: 0 <= i < k - 1 ==> assignments[1..][i] == assignments[i + 1];
      FirstRefusal(assignments[1..], k - 1, reader);
    }
  }

  /** A name that is given more than once has the value that is given last. */
  lemma {:induction false} LastWins(entries: seq<(string, Json)>, k: nat)
    requires k < |entries| && forall i :: k < i < |entries| ==> entries[i].0 != entries[k].0
    ensures entries[k].0 in FromEntries(entries) && FromEntries(entries)[entries[k].0] == entries[k].1
    decreases |entries|
  {
    var n := |entries| - 1;
    if k < n {
      LastWins(entries[..n], k);
    }
  }

  // ---------------------------------------------------------------------------------------
  // A whole import
  // ---------------------------------------------------------------------------------------

  /** All white space is single blanks. */
  ghost predicate Even(s: string) {
    forall i :: 0 <= i < |s| && IsSpace(s[i]) ==> s[i] == ' ' && (i + 1 < |s| ==> !IsSpace(s[i + 1]))
  }

  lemma {:induction false} CollapseEven(s: string, after: bool)
    requires Even(s) && (after && s != "" ==> !IsSpace(s[0]))
    ensures Collapse(s, after) == s
    decreases |s|
  {
    if s != "" {
      assert forall i :: 0 <= i < |s| - 1 ==> s[1..][i] == s[i + 1];
      CollapseEven(s[1..], IsSpace(s[0]));
    }
  }

  function QuotedAssignment(name: string, mark: char, body: string): string {
    name + " = " + ([mark] + body + [mark])
  }

  lemma QuotedIsEven(name: string, mark: char, body: string)
    requires IsName(name) && IsQuote(mark) && Even(body)
    ensures Even(QuotedAssignment(name, mark, body))
  {
    var text, n := QuotedAssignment(name, mark, body), |name|;
    assert forall i :: 0 <= i < n ==> text[i] == name[i] && !IsSpace(name[i]);
    forall i | 0 <= i < |text| && IsSpace(text[i])
      ensures text[i] == ' ' && (i + 1 < |text| ==> !IsSpace(text[i + 1]))
    {
      if i >= n + 4 && i < n + 4 + |body| {
        assert text[i] == body[i - n - 4];
        assert i + 1 < n + 4 + |body| ==> text[i + 1] == body[i - n - 3];
      }
    }
  }

  lemma QuotedNormalized(name: string, mark: char, body: string)
    requires IsName(name) && IsQuote(mark) && Even(body)
    ensures Normalized(QuotedAssignment(name, mark, body)) == QuotedAssignment(name, mark, body)
  {
    var text := QuotedAssignment(name, mark, body);
    QuotedIsEven(name, mark, body);
    CollapseEven(text, false);
    assert text[0] == name[0] && text[|text| - 1] == mark;
    TrimOwn(text);
  }

  lemma QuotedSplits(name: string, mark: char, body: string)
    requires IsName(name) && IsQuote(mark) && Enclosable(mark, body)
    ensures var text := QuotedAssignment(name, mark, body); Pieces(text, ',', START, "") == [text]
  {
    var text := QuotedAssignment(name, mark, body);
    NeutralPasses(START, name);
    NeutralPasses(START, " = ");
    PassesConcat(START, name, " = ");
    QuotePasses(START, mark, body);
    PassesConcat(START, name + " = ", [mark] + body + [mark]);
    assert text[0] == name[0] && text[|text| - 1] == mark;
    LeadDropped("", text);
    LastAssignment(text, "");
  }

  lemma QuotedParses(name: string, mark: char, body: string, reader: Reader)
    requires IsName(name) && IsQuote(mark)
    ensures ParseAssignment(QuotedAssignment(name, mark, body), reader) == Ok((name, Str(body)))
  {
    var value := [mark] + body + [mark];
    var text := name + " = " + value;
    EqualsAfterName(name, value);
    assert text[..|name| + 1] == "" + name + " ";
    assert text[|name| + 2..] == " " + value + "";
    TrimPadded("", name, " ");
    assert value[0] == mark && value[|value| - 1] == mark;
    TrimPadded(" ", value, "");
    QuotedValue(mark, body, reader);
  }

  /** A text in quotes of either kind comes back as it was written, commas, brackets, the other
      quote and escapes included, when its white space is single blanks. */
  lemma QuotedTextComesBack(name: string, mark: char, body: string, reader: Reader)
    requires IsName(name) && IsQuote(mark) && Enclosable(mark, body) && Even(body)
    ensures ParseInput(QuotedAssignment(name, mark, body), [name], reader) == Ok(map[name := Str(body)])
  {
    var text := QuotedAssignment(name, mark, body);
    QuotedNormalized(name, mark, body);
    QuotedSplits(name, mark, body);
    QuotedParses(name, mark, body, reader);
    var entries := [(name, Str(body))];
    assert [text][1..] == [] && ParseAssignments([], reader) == Ok([]);
    assert ParseAssignments([text], reader) == Ok(entries + []);
    assert entries + [] == entries && entries[..0] == [];
    assert FromEntries(entries) == map[name := Str(body)];
    assert Present(name, FromEntries(entries));
  }
}
