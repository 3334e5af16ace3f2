/** Reading back printed inputs: what the importer makes of `n1 = v1, n2 = v2, ...` for all names
    and all values, and exactly when that is what was printed. */
module InputRoundTrip {
  import opened Common
  import opened Text
  import opened JsonText
  import opened InputParser
  import opened PrintedValues
  import PrintInjective

  type Assignment = (string, Json)

  function PrintAssignment(a: Assignment): string { a.0 + " = " + Print(a.1) }

  function PrintInput(pairs: seq<Assignment>): string
    decreases |pairs|
  {
    if pairs == [] then ""
    else if |pairs| == 1 then PrintAssignment(pairs[0])
    else PrintAssignment(pairs[0]) + ", " + PrintInput(pairs[1..])
  }

  /** No white space, quote, bracket, comma or equals sign: every identifier is a name. */
  predicate IsName(name: string) {
    name != "" && forall i :: 0 <= i < |name| ==> Neutral(name[i]) && !IsSpace(name[i]) && name[i] != '='
  }

  predicate Good(a: Assignment) {
    IsName(a.0) && WellFormed(a.1) && WellFormed(Settled(a.1))
  }

  ghost predicate AllGood(pairs: seq<Assignment>) {
    forall i :: 0 <= i < |pairs| ==> Good(pairs[i])
  }

  ghost predicate Distinct(pairs: seq<Assignment>) {
    forall i, j :: 0 <= i < j < |pairs| ==> pairs[i].0 != pairs[j].0
  }

  /** The host reads these values back from their text, once the text is normalized: lists and
      records through `JSON.parse`, numbers through `Number`. */
  ghost predicate Reads(reader: Reader, v: Json) {
    && (v.Array? || v.Object? ==> reader.parse(Print(Settled(v))) == Some(Settled(v)))
    && (v.Num? ==> reader.number(v.text) == v.text)
  }

  ghost predicate ReadsAll(reader: Reader, pairs: seq<Assignment>) {
    forall i :: 0 <= i < |pairs| ==> Reads(reader, pairs[i].1)
  }

  ghost predicate ReadsEverything(reader: Reader) {
    forall v :: WellFormed(Settled(v)) ==> Reads(reader, v)
  }

  /** Nothing impossible is asked of the host: one reader reads back all well-formed values,
      since no two of them print alike. (`Number` and `JSON.parse` do so for the texts that
      numbers are printed as; another text of the same number stands for no other value.) */
  lemma SomeReaderReadsEverything()
    ensures exists reader :: ReadsEverything(reader)
  {
    var reader := Reader(PrintInjective.ReadBack, text => text);
    forall v | WellFormed(Settled(v)) ensures Reads(reader, v) {
      PrintInjective.ReadBackReads(Settled(v));
    }
    assert ReadsEverything(reader);
  }

  // ---------------------------------------------------------------------------------------
  // Normalizing
  // ---------------------------------------------------------------------------------------

  function SettledAll(pairs: seq<Assignment>): seq<Assignment>
    decreases |pairs|
  {
    if pairs == [] then [] else [(pairs[0].0, Settled(pairs[0].1))] + SettledAll(pairs[1..])
  }

  lemma CollapsesJoined(a: string, x: string, separator: string, b: string, y: string)
    requires CollapsesTo(a, x) && CollapsesTo(b, y) && Collapse(separator, false) == separator
    ensures CollapsesTo(a + separator + b, x + separator + y)
  {
    forall after ensures Collapse(a + separator + b, after) == x + separator + y {
      CollapseConcat(a + separator, b, after);
      CollapseConcat(a, separator, after);
    }
  }

  lemma Separators()
    ensures Collapse(" = ", false) == " = " && Collapse(", ", false) == ", "
  {
    assert " = "[1..] == "= " && "= "[1..] == " " && " "[1..] == "" && ", "[1..] == " ";
  }

  lemma AssignmentCollapses(a: Assignment)
    requires Good(a)
    ensures CollapsesTo(PrintAssignment(a), PrintAssignment((a.0, Settled(a.1))))
  {
    SolidCollapses(a.0);
    PrintCollapses(a.1);
    Separators();
    CollapsesJoined(a.0, a.0, " = ", Print(a.1), Print(Settled(a.1)));
  }

  lemma {:induction false} InputCollapses(pairs: seq<Assignment>)
    requires AllGood(pairs) && pairs != []
    ensures CollapsesTo(PrintInput(pairs), PrintInput(SettledAll(pairs)))
    decreases |pairs|
  {
    var a := pairs[0];
    AssignmentCollapses(a);
    if |pairs| == 1 {
      assert SettledAll(pairs) == [(a.0, Settled(a.1))];
    } else {
      InputCollapses(pairs[1..]);
      Separators();
      var rest := SettledAll(pairs[1..]);
      CollapsesJoined(PrintAssignment(a), PrintAssignment((a.0, Settled(a.1))), ", ", PrintInput(pairs[1..]),
                      PrintInput(rest));
      assert SettledAll(pairs)[1..] == rest && |rest| > 0;
    }
  }

  lemma TrimOwn(s: string)
    requires Trimmed(s) && s != ""
    ensures Trim(s) == s
  {
    TrimPadded("", s, "");
    assert "" + s + "" == s;
  }

  lemma AssignmentTrimmed(a: Assignment)
    requires IsName(a.0) && WellFormed(a.1)
    ensures PrintAssignment(a) != "" && Trimmed(PrintAssignment(a))
  {
    PrintTrimmed(a.1);
    assert PrintAssignment(a)[0] == a.0[0];
  }

  ghost predicate Readable(pairs: seq<Assignment>) {
    forall i :: 0 <= i < |pairs| ==> IsName(pairs[i].0) && WellFormed(pairs[i].1)
  }

  lemma {:induction false} InputTrimmed(pairs: seq<Assignment>)
    requires Readable(pairs) && pairs != []
    ensures PrintInput(pairs) != "" && Trimmed(PrintInput(pairs))
    decreases |pairs|
  {
    AssignmentTrimmed(pairs[0]);
    if |pairs| > 1 {
      InputTrimmed(pairs[1..]);
    }
  }

  lemma {:induction false} SettledReadable(pairs: seq<Assignment>)
    requires AllGood(pairs)
    ensures |SettledAll(pairs)| == |pairs| && Readable(SettledAll(pairs))
    ensures forall i :: 0 <= i < |pairs| ==> SettledAll(pairs)[i] == (pairs[i].0, Settled(pairs[i].1))
    decreases |pairs|
  {
    if pairs != [] {
      assert AllGood(pairs[1..]);
      SettledReadable(pairs[1..]);
      assert Good(pairs[0]);
    }
  }

  lemma NormalizedInput(pairs: seq<Assignment>)
    requires AllGood(pairs)
    ensures Normalized(PrintInput(pairs)) == PrintInput(SettledAll(pairs))
  {
    if pairs != [] {
      InputCollapses(pairs);
      SettledReadable(pairs);
      InputTrimmed(SettledAll(pairs));
      TrimOwn(PrintInput(SettledAll(pairs)));
    }
  }

  // ---------------------------------------------------------------------------------------
  // Splitting
  // ---------------------------------------------------------------------------------------

  /** Text that is not cut only adds to the current piece. */
  lemma {:induction false} PiecesSkip(a: string, b: string, s: Scan, current: string)
    requires NoCuts(s, a, ',')
    ensures Pieces(a + b, ',', s, current) == Pieces(b, ',', After(s, a), current + a)
    decreases |a|
  {
    if a == "" {
      assert a + b == b && current + a == current;
    } else {
      assert (a + b)[0] == a[0] && (a + b)[1..] == a[1..] + b;
      PiecesSkip(a[1..], b, Step(s, a[0]), current + [a[0]]);
      assert current + [a[0]] + a[1..] == current + a;
    }
  }

  lemma AssignmentPasses(a: Assignment)
    requires IsName(a.0) && WellFormed(a.1)
    ensures Passes(START, PrintAssignment(a))
  {
    NeutralPasses(START, a.0);
    NeutralPasses(START, " = ");
    PassesConcat(START, a.0, " = ");
    PrintPasses(a.1, START);
    PassesConcat(START, a.0 + " = ", Print(a.1));
  }

  function Printed(pairs: seq<Assignment>): seq<string>
    decreases |pairs|
  {
    if pairs == [] then [] else [PrintAssignment(pairs[0])] + Printed(pairs[1..])
  }

  lemma AfterTheCut(more: string)
    ensures forall current :: Pieces(", " + more, ',', START, current)
              == [Trim(current)] + Pieces(more, ',', START, " ")
  {
    assert (", " + more)[1..] == " " + more && (" " + more)[1..] == more;
    assert "" + [' '] == " ";
  }

  lemma LeadDropped(lead: string, text: string)
    requires AllSpace(lead) && text != "" && Trimmed(text)
    ensures Trim(lead + text) == text
  {
    TrimPadded(lead, text, "");
    assert lead + text + "" == lead + text;
  }

  lemma LastAssignment(text: string, lead: string)
    requires Passes(START, text) && Trim(lead + text) == text && text != ""
    ensures Pieces(text, ',', START, lead) == [text]
  {
    PiecesSkip(text, "", START, lead);
    assert text + "" == text;
  }

  lemma NextAssignment(text: string, lead: string, more: string)
    requires Passes(START, text) && Trim(lead + text) == text
    ensures Pieces(text + ", " + more, ',', START, lead) == [text] + Pieces(more, ',', START, " ")
  {
    PiecesSkip(text, ", " + more, START, lead);
    assert text + ", " + more == text + (", " + more);
    AfterTheCut(more);
  }

  /** The splitter finds exactly the printed assignments. */
  lemma {:induction false} SplitsIntoAssignments(pairs: seq<Assignment>, lead: string)
    requires Readable(pairs) && pairs != [] && AllSpace(lead)
    ensures Pieces(PrintInput(pairs), ',', START, lead) == Printed(pairs)
    decreases |pairs|
  {
    var text := PrintAssignment(pairs[0]);
    AssignmentPasses(pairs[0]);
    AssignmentTrimmed(pairs[0]);
    LeadDropped(lead, text);
    if |pairs| == 1 {
      LastAssignment(text, lead);
      assert Printed(pairs) == [text];
    } else {
      NextAssignment(text, lead, PrintInput(pairs[1..]));
      SplitsIntoAssignments(pairs[1..], " ");
    }
  }

  // ---------------------------------------------------------------------------------------
  // Reading the values
  // ---------------------------------------------------------------------------------------

  /** What the importer makes of a printed value: white space in strings is settled, a string
      of its own keeps its escapes, a number with an exponent is refused. */
  function TopValue(v: Json): Outcome<Json> {
    match v
    case Num(text) => if PlainNumber(text) then Ok(v) else Err(Unsupported(text))
    case Str(chars) => Ok(Str(Escape(Settle(chars, false))))
    case _ => Ok(Settled(v))
  }

  lemma NotANumber(t: string)
    requires t != "" && t[0] != '-' && !Digit(t[0])
    ensures !PlainNumber(t)
  {
    if PlainNumber(t) {
      PlainNumberChars(t);
    }
  }

  lemma NumberText(text: string)
    requires IsNumber(text)
    ensures Trim(text) == text && text != "" && (text[0] == '-' || Digit(text[0]))
  {
    PrintTrimmed(Num(text));
    TrimOwn(text);
    NumberChars(text);
  }

  lemma ParsesBare(text: string, reader: Reader)
    requires Trim(text) == text && text != "" && (text[0] == '-' || Digit(text[0]))
    ensures ParseScalar(text, reader)
            == if PlainNumber(text) then Ok(Num(reader.number(text))) else Err(Unsupported(text))
  {
    assert text[0] != 't' && text[0] != 'f' && text[0] != 'n';
    assert !EnclosedBy(text, '\"') && !EnclosedBy(text, '\'');
  }

  lemma ParsesNumber(text: string, reader: Reader)
    requires IsNumber(text)
    ensures ParseScalar(text, reader)
            == if PlainNumber(text) then Ok(Num(reader.number(text))) else Err(Unsupported(text))
  {
    NumberText(text);
    ParsesBare(text, reader);
  }

  lemma ParsesString(chars: string, reader: Reader)
    ensures ParseScalar(Quoted(chars), reader) == Ok(Str(Escape(chars)))
  {
    var text := Quoted(chars);
    PrintTrimmed(Str(chars));
    TrimOwn(text);
    assert text[0] == '\"' && text[|text| - 1] == '\"';
    NotANumber(text);
    assert Inside(text) == Escape(chars);
  }

  lemma ParsesWord(v: Json, reader: Reader)
    requires v.Null? || v.Bool?
    ensures ParseScalar(Print(v), reader) == Ok(v)
  {
    PrintTrimmed(v);
    TrimOwn(Print(v));
    assert Print(v)[0] == if v.Null? then 'n' else if v.value then 't' else 'f';
  }

  lemma ParsesScalar(v: Json, reader: Reader)
    requires WellFormed(v) && !v.Array? && !v.Object?
    ensures ParseScalar(Print(v), reader)
            == match v
               case Num(text) => if PlainNumber(text) then Ok(Num(reader.number(text))) else Err(Unsupported(text))
               case Str(chars) => Ok(Str(Escape(chars)))
               case _ => Ok(v)
  {
    match v {
      case Num(text) => ParsesNumber(text, reader);
      case Str(chars) => ParsesString(chars, reader);
      case _ => ParsesWord(v, reader);
    }
  }

  lemma ParsesValue(v: Json, reader: Reader)
    requires WellFormed(v) && WellFormed(Settled(v)) && Reads(reader, v)
    ensures ParseValue(Print(Settled(v)), reader) == TopValue(v)
  {
    var w := Settled(v);
    PrintTrimmed(w);
    TrimOwn(Print(w));
    if !w.Array? && !w.Object? {
      ParsesScalar(w, reader);
    }
  }

  /** The first equals sign is the one after the name. */
  lemma EqualsAfterName(name: string, value: string)
    requires IsName(name)
    ensures IndexOf(name + " = " + value, "=", 0) == |name| + 1
  {
    var text := name + " = " + value;
    assert text[|name| + 1..|name| + 2] == "=";
    assert OccursAt(text, "=", |name| + 1);
    forall j | 0 <= j < |name| + 1 ensures !OccursAt(text, "=", j) {
      assert text[j] == if j < |name| then name[j] else ' ';
      Head(text, "=", j);
    }
  }

  lemma ParsesAssignment(a: Assignment, reader: Reader)
    requires Good(a) && Reads(reader, a.1)
    ensures ParseAssignment(PrintAssignment((a.0, Settled(a.1))), reader)
            == match TopValue(a.1) case Ok(v) => Ok((a.0, v)) case Err(e) => Err(e)
  {
    var value := Print(Settled(a.1));
    var text := a.0 + " = " + value;
    EqualsAfterName(a.0, value);
    assert text[..|a.0| + 1] == "" + a.0 + " ";
    assert text[|a.0| + 2..] == " " + value + "";
    TrimPadded("", a.0, " ");
    PrintTrimmed(Settled(a.1));
    TrimPadded(" ", value, "");
    ParsesValue(a.1, reader);
  }

  function TopValues(pairs: seq<Assignment>): Outcome<seq<Assignment>>
    decreases |pairs|
  {
    if pairs == [] then Ok([])
    else
      match TopValue(pairs[0].1)
      case Err(e) => Err(e)
      case Ok(v) =>
        match TopValues(pairs[1..])
        case Err(e) => Err(e)
        case Ok(rest) => Ok([(pairs[0].0, v)] + rest)
  }

  lemma {:induction false} ParsesAssignments(pairs: seq<Assignment>, reader: Reader)
    requires AllGood(pairs) && ReadsAll(reader, pairs)
    ensures ParseAssignments(Printed(SettledAll(pairs)), reader) == TopValues(pairs)
    decreases |pairs|
  {
    if pairs != [] {
      assert Good(pairs[0]) && Reads(reader, pairs[0].1);
      assert AllGood(pairs[1..]) && ReadsAll(reader, pairs[1..]);
      ParsesAssignment(pairs[0], reader);
      ParsesAssignments(pairs[1..], reader);
      var all := SettledAll(pairs);
      assert all[0] == (pairs[0].0, Settled(pairs[0].1)) && all[1..] == SettledAll(pairs[1..]);
      assert Printed(all)[0] == PrintAssignment(all[0]) && Printed(all)[1..] == Printed(all[1..]);
    }
  }

  /** The importer on every printed input: each name gets the value `TopValue` tells, in order,
      or the first refused value or missing parameter is the error. */
  lemma PrintedInputParses(pairs: seq<Assignment>, names: seq<string>, reader: Reader)
    requires AllGood(pairs) && ReadsAll(reader, pairs)
    ensures ParseInput(PrintInput(pairs), names, reader) == Finish(TopValues(pairs), names)
  {
    NormalizedInput(pairs);
    SettledReadable(pairs);
    if pairs != [] {
      SplitsIntoAssignments(SettledAll(pairs), "");
    }
    ParsesAssignments(pairs, reader);
  }

  // ---------------------------------------------------------------------------------------
  // Exactly when the printed values come back
  // ---------------------------------------------------------------------------------------

  /** All its white space is single blanks (that escaping does not replace anyway). */
  ghost predicate SingleSpaced(chars: string) {
    forall i :: 0 <= i < |chars| && RawSpace(chars[i]) ==>
      chars[i] == ' ' && (i + 1 < |chars| ==> !RawSpace(chars[i + 1]))
  }

  /** Every string in the value is single spaced. */
  ghost predicate Spaced(v: Json) {
    match v
    case Str(chars) => SingleSpaced(chars)
    case Array(items) => SpacedItems(items)
    case Object(fields) => SpacedFields(fields)
    case _ => true
  }

  ghost predicate SpacedItems(items: Items) {
    items.Item? ==> Spaced(items.head) && SpacedItems(items.tail)
  }

  ghost predicate SpacedFields(fields: Fields) {
    fields.Field? ==> SingleSpaced(fields.name) && Spaced(fields.value) && SpacedFields(fields.rest)
  }

  /** What a caller can check before importing. */
  ghost predicate Importable(v: Json) {
    && Spaced(v)
    && (v.Str? ==> Plain(v.chars))
    && (v.Num? ==> PlainNumber(v.text))
  }

  lemma {:induction false} SettleKeeps(chars: string, after: bool)
    ensures |Settle(chars, after)| <= |chars|
    ensures Settle(chars, after) == chars <==> SingleSpaced(chars) && (after && chars != "" ==> !RawSpace(chars[0]))
    decreases |chars|
  {
    if chars != "" {
      var c, rest := chars[0], chars[1..];
      SettleKeeps(rest, RawSpace(c));
      assert chars == [c] + rest;
      assert SingleSpaced(chars)
          <==> SingleSpaced(rest) && (RawSpace(c) ==> c == ' ' && (rest != "" ==> !RawSpace(rest[0]))) by {
        SingleSpacedStep(chars);
      }
      if !RawSpace(c) || !after {
        var head := if RawSpace(c) then ' ' else c;
        assert Settle(chars, after) == [head] + Settle(rest, RawSpace(c));
        assert ([head] + Settle(rest, RawSpace(c)))[1..] == Settle(rest, RawSpace(c));
      }
    }
  }

  lemma SingleSpacedStep(chars: string)
    requires chars != ""
    ensures var c, rest := chars[0], chars[1..];
            SingleSpaced(chars)
            <==> SingleSpaced(rest) && (RawSpace(c) ==> c == ' ' && (rest != "" ==> !RawSpace(rest[0])))
  {
    var rest := chars[1..];
    if SingleSpaced(chars) {
      forall i | 0 <= i < |rest| && RawSpace(rest[i])
        ensures rest[i] == ' ' && (i + 1 < |rest| ==> !RawSpace(rest[i + 1]))
      {
        assert rest[i] == chars[i + 1];
      }
    }
    if SingleSpaced(rest) && (RawSpace(chars[0]) ==> chars[0] == ' ' && (rest != "" ==> !RawSpace(rest[0]))) {
      forall i | 0 <= i < |chars| && RawSpace(chars[i])
        ensures chars[i] == ' ' && (i + 1 < |chars| ==> !RawSpace(chars[i + 1]))
      {
        assert i > 0 ==> chars[i] == rest[i - 1];
        assert i + 1 < |chars| ==> chars[i + 1] == rest[i];
      }
    }
  }

  lemma {:induction false} SettledKeeps(v: Json)
    ensures Settled(v) == v <==> Spaced(v)
    decreases v, 1
  {
    match v {
      case Str(chars) => SettleKeeps(chars, false);
      case Array(items) => SettledItemsKeep(items);
      case Object(fields) => SettledFieldsKeep(fields);
      case _ =>
    }
  }

  lemma {:induction false} SettledItemsKeep(items: Items)
    ensures SettledItems(items) == items <==> SpacedItems(items)
    decreases items, 0
  {
    if items.Item? {
      SettledKeeps(items.head);
      SettledItemsKeep(items.tail);
    }
  }

  lemma {:induction false} SettledFieldsKeep(fields: Fields)
    ensures SettledFields(fields) == fields <==> SpacedFields(fields)
    decreases fields, 0
  {
    if fields.Field? {
      SettleKeeps(fields.name, false);
      SettledKeeps(fields.value);
      SettledFieldsKeep(fields.rest);
    }
  }

  /** How many characters are not raw white space. */
  function Marks(s: string): nat
    decreases |s|
  {
    if s == "" then 0 else (if RawSpace(s[0]) then 0 else 1) + Marks(s[1..])
  }

  lemma {:induction false} MarksConcat(a: string, b: string)
    ensures Marks(a + b) == Marks(a) + Marks(b)
    decreases |a|
  {
    if a == "" {
      assert a + b == b;
    } else {
      assert (a + b)[0] == a[0] && (a + b)[1..] == a[1..] + b;
      MarksConcat(a[1..], b);
    }
  }

  lemma {:induction false} SettleKeepsMarks(chars: string, after: bool)
    ensures Marks(Settle(chars, after)) == Marks(chars)
    decreases |chars|
  {
    if chars != "" {
      var rest := Settle(chars[1..], RawSpace(chars[0]));
      SettleKeepsMarks(chars[1..], RawSpace(chars[0]));
      if RawSpace(chars[0]) {
        assert (" " + rest)[1..] == rest && "" + rest == rest;
      } else {
        assert ([chars[0]] + rest)[1..] == rest;
      }
    }
  }

  lemma {:induction false} SolidMarks(s: string)
    requires Solid(s)
    ensures Marks(s) == |s|
    decreases |s|
  {
    if s != "" {
      assert forall i :: 0 <= i < |s| - 1 ==> s[1..][i] == s[i + 1];
      SolidMarks(s[1..]);
    }
  }

  /** Escaping adds marks unless it changes nothing. */
  lemma {:induction false} EscapeAddsMarks(s: string)
    ensures Marks(Escape(s)) >= Marks(s) && (Marks(Escape(s)) == Marks(s) ==> Escape(s) == s)
    decreases |s|
  {
    if s != "" {
      var e := EscapeChar(s[0]);
      EscapeCharShape(s[0]);
      EscapeAddsMarks(s[1..]);
      MarksConcat(e, Escape(s[1..]));
      assert s == [s[0]] + s[1..];
      if e == [s[0]] {
        assert e[1..] == "";
      } else {
        SolidMarks(e);
      }
    }
  }

  lemma StringComesBack(chars: string)
    ensures Escape(Settle(chars, false)) == chars <==> SingleSpaced(chars) && Plain(chars)
  {
    var settled := Settle(chars, false);
    SettleKeeps(chars, false);
    EscapeKeeps(settled);
    if Escape(settled) == chars {
      SettleKeepsMarks(chars, false);
      EscapeAddsMarks(settled);
    }
  }

  lemma ValueComesBack(v: Json)
    ensures TopValue(v) == Ok(v) <==> Importable(v)
  {
    SettledKeeps(v);
    if v.Str? {
      StringComesBack(v.chars);
    }
  }

  ghost predicate AllImportable(pairs: seq<Assignment>) {
    forall i :: 0 <= i < |pairs| ==> Importable(pairs[i].1)
  }

  lemma AllImportableStep(pairs: seq<Assignment>)
    requires pairs != []
    ensures AllImportable(pairs) <==> Importable(pairs[0].1) && AllImportable(pairs[1..])
  {
    var rest := pairs[1..];
    if AllImportable(pairs) {
      forall i | 0 <= i < |rest| ensures Importable(rest[i].1) {
        assert rest[i] == pairs[i + 1];
      }
    }
    if Importable(pairs[0].1) && AllImportable(rest) {
      forall i | 0 <= i < |pairs| ensures Importable(pairs[i].1) {
        assert i > 0 ==> pairs[i] == rest[i - 1];
      }
    }
  }

  lemma {:induction false} ValuesComeBack(pairs: seq<Assignment>)
    ensures TopValues(pairs) == Ok(pairs) <==> AllImportable(pairs)
    decreases |pairs|
  {
    if pairs != [] {
      var a, rest := pairs[0], pairs[1..];
      ValueComesBack(a.1);
      ValuesComeBack(rest);
      AllImportableStep(pairs);
      assert pairs == [a] + rest;
      if TopValue(a.1).Ok? && TopValues(rest).Ok? {
        var all := [(a.0, TopValue(a.1).value)] + TopValues(rest).value;
        assert all[0] == (a.0, TopValue(a.1).value) && all[1..] == TopValues(rest).value;
      }
    }
  }

  lemma {:induction false} TopValuesNames(pairs: seq<Assignment>)
    ensures TopValues(pairs).Ok? ==>
              && |TopValues(pairs).value| == |pairs|
              && forall i :: 0 <= i < |pairs| ==> TopValues(pairs).value[i].0 == pairs[i].0
    decreases |pairs|
  {
    if pairs != [] {
      TopValuesNames(pairs[1..]);
      if TopValues(pairs).Ok? {
        var all, rest := TopValues(pairs).value, TopValues(pairs[1..]).value;
        forall i | 0 <= i < |pairs| ensures all[i].0 == pairs[i].0 {
          assert i > 0 ==> all[i] == rest[i - 1] && pairs[i] == pairs[1..][i - 1];
        }
      }
    }
  }

  /** With distinct names the record holds exactly the pairs. */
  lemma {:induction false} RecordHolds(pairs: seq<Assignment>)
    requires Distinct(pairs)
    ensures forall i :: 0 <= i < |pairs| ==>
              pairs[i].0 in FromEntries(pairs) && FromEntries(pairs)[pairs[i].0] == pairs[i].1
    ensures forall name :: name in FromEntries(pairs) ==> exists i :: 0 <= i < |pairs| && pairs[i].0 == name
    decreases |pairs|
  {
    if pairs != [] {
      var n := |pairs| - 1;
      RecordHolds(pairs[..n]);
      assert forall i :: 0 <= i < n ==> pairs[..n][i] == pairs[i];
      forall name | name in FromEntries(pairs) ensures exists i :: 0 <= i < |pairs| && pairs[i].0 == name {
        if name == pairs[n].0 {
          assert pairs[n].0 == name;
        } else {
          assert name in FromEntries(pairs[..n]);
        }
      }
    }
  }

  lemma SameRecord(entries: seq<Assignment>, pairs: seq<Assignment>)
    requires Distinct(pairs) && |entries| == |pairs| && forall i :: 0 <= i < |pairs| ==> entries[i].0 == pairs[i].0
    requires FromEntries(entries) == FromEntries(pairs)
    ensures entries == pairs
  {
    RecordHolds(pairs);
    RecordHolds(entries);
    forall i | 0 <= i < |pairs| ensures entries[i] == pairs[i] {
      assert entries[i].1 == FromEntries(entries)[entries[i].0] == FromEntries(pairs)[pairs[i].0] == pairs[i].1;
    }
  }

  ghost predicate Covers(pairs: seq<Assignment>, names: seq<string>) {
    forall i :: 0 <= i < |names| ==> exists j :: 0 <= j < |pairs| && pairs[j].0 == names[i]
  }

  lemma NoneMissing(pairs: seq<Assignment>, names: seq<string>)
    requires Distinct(pairs) && Covers(pairs, names)
    ensures FirstMissing(names, FromEntries(pairs)).None?
  {
    RecordHolds(pairs);
    forall i | 0 <= i < |names| ensures Present(names[i], FromEntries(pairs)) {
      var j :| 0 <= j < |pairs| && pairs[j].0 == names[i];
    }
  }

  lemma FinishedAsGiven(entries: seq<Assignment>, pairs: seq<Assignment>, names: seq<string>)
    requires Distinct(pairs) && Covers(pairs, names)
    requires |entries| == |pairs| && forall i :: 0 <= i < |pairs| ==> entries[i].0 == pairs[i].0
    ensures Finish(Ok(entries), names) == Ok(FromEntries(pairs)) <==> entries == pairs
  {
    NoneMissing(pairs, names);
    if Finish(Ok(entries), names) == Ok(FromEntries(pairs)) {
      SameRecord(entries, pairs);
    }
  }

  /** The round trip holds exactly for importable values: white space in strings only as single
      blanks, top-level strings without anything to escape, top-level numbers without exponent. */
  lemma RoundTripExactly(pairs: seq<Assignment>, names: seq<string>, reader: Reader)
    requires AllGood(pairs) && Distinct(pairs) && ReadsAll(reader, pairs) && Covers(pairs, names)
    ensures ParseInput(PrintInput(pairs), names, reader) == Ok(FromEntries(pairs))
            <==> AllImportable(pairs)
  {
    PrintedInputParses(pairs, names, reader);
    ValuesComeBack(pairs);
    TopValuesNames(pairs);
    if TopValues(pairs).Ok? {
      FinishedAsGiven(TopValues(pairs).value, pairs, names);
    }
  }

  lemma OneValue(name: string, v: Json, reader: Reader)
    requires Good((name, v)) && Reads(reader, v)
    ensures ParseInput(PrintInput([(name, v)]), [], reader)
            == match TopValue(v) case Ok(w) => Ok(map[name := w]) case Err(e) => Err(e)
  {
    var pairs := [(name, v)];
    PrintedInputParses(pairs, [], reader);
    assert pairs[1..] == [] && TopValues(pairs[1..]) == Ok([]);
    match TopValue(v)
    case Err(_) =>
    case Ok(w) =>
      assert [(name, w)] + [] == [(name, w)];
      assert [(name, w)][..0] == [];
      assert FromEntries([(name, w)]) == map[name := w];
  }

  /** Three values that do not come back: a quotation mark keeps its escape, two blanks become
      one, and a number that prints with an exponent is refused. */
  lemma QuoteDoesNotComeBack(name: string, reader: Reader)
    requires IsName(name)
    ensures ParseInput(PrintInput([(name, Str("\""))]), [], reader) == Ok(map[name := Str("\\\"")])
  {
    QuoteIsKeptEscaped();
    OneValue(name, Str("\""), reader);
  }

  lemma BlanksDoNotComeBack(name: string, reader: Reader)
    requires IsName(name)
    ensures ParseInput(PrintInput([(name, Str("a  b"))]), [], reader) == Ok(map[name := Str("a b")])
  {
    BlanksBecomeOne();
    OneValue(name, Str("a  b"), reader);
  }

  lemma ExponentDoesNotComeBack(name: string, reader: Reader)
    requires IsName(name) && reader.number("1e+21") == "1e+21"
    ensures ParseInput(PrintInput([(name, Num("1e+21"))]), [], reader) == Err(Unsupported("1e+21"))
  {
    ExponentIsRefused();
    OneValue(name, Num("1e+21"), reader);
  }

  lemma QuoteIsKeptEscaped()
    ensures TopValue(Str("\"")) == Ok(Str("\\\""))
  {
    assert Settle("\"", false) == "\"";
    assert "\""[1..] == "";
    assert Escape("") == "" && EscapeChar('\"') + "" == "\\\"";
    assert Escape("\"") == EscapeChar('\"') + Escape("");
  }

  lemma BlanksBecomeOne()
    ensures TopValue(Str("a  b")) == Ok(Str("a b"))
  {
    assert "a  b"[1..] == "  b" && "  b"[1..] == " b" && " b"[1..] == "b" && "b"[1..] == "";
    assert Settle("b", true) == "b" && Settle(" b", true) == "b" && Settle("  b", false) == " b";
    assert Settle("a  b", false) == "a b";
    EscapeKeeps("a b");
  }

  lemma ExponentIsRefused()
    ensures IsNumber("1e+21") && !PlainNumber("1e+21")
  {
    var t := "1e+21";
    assert t[1] == 'e' && t[..1] == "1" && t[2..] == "+21" && "+21"[1..] == "21";
    assert Digits("1") && PlainNumber("1") && NoLeadingZero("1") && Digits("21") && Exponent("+21");
    assert !Digit(t[1]) && t[1] != '-' && t[1] != '.';
    if PlainNumber(t) {
      PlainNumberChars(t);
    }
  }

  predicate Named(pairs: seq<Assignment>, name: string) {
    exists i :: 0 <= i < |pairs| && pairs[i].0 == name
  }

  lemma {:induction false} RecordNames(entries: seq<Assignment>, name: string)
    ensures name in FromEntries(entries) <==> Named(entries, name)
    decreases |entries|
  {
    if entries != [] {
      var n := |entries| - 1;
      RecordNames(entries[..n], name);
      if Named(entries[..n], name) {
        var i :| 0 <= i < n && entries[..n][i].0 == name;
        assert entries[i].0 == name;
      }
      if entries[n].0 == name {
        assert Named(entries, name);
      } else if Named(entries, name) {
        var i :| 0 <= i < |entries| && entries[i].0 == name;
        assert entries[..n][i].0 == name;
      }
    }
  }

  /** The parameter is neither assigned nor the name of something every object inherits. */
  predicate Missing(pairs: seq<Assignment>, name: string) {
    !Named(pairs, name) && !Inherited(name)
  }

  lemma MissingMeans(pairs: seq<Assignment>, entries: seq<Assignment>, name: string)
    requires |entries| == |pairs| && forall i :: 0 <= i < |pairs| ==> entries[i].0 == pairs[i].0
    ensures Missing(pairs, name) <==> !Present(name, FromEntries(entries))
  {
    RecordNames(entries, name);
    if Named(pairs, name) {
      var i :| 0 <= i < |pairs| && pairs[i].0 == name;
      assert entries[i].0 == name;
    }
    if Named(entries, name) {
      var i :| 0 <= i < |entries| && entries[i].0 == name;
      assert pairs[i].0 == name;
    }
  }

  /** When all values are accepted, a missing parameter is reported exactly when some parameter
      is neither assigned nor inherited by every object, and it is the first such. */
  lemma MissingIsReported(pairs: seq<Assignment>, names: seq<string>, reader: Reader)
    requires AllGood(pairs) && ReadsAll(reader, pairs) && TopValues(pairs).Ok?
    ensures var result := ParseInput(PrintInput(pairs), names, reader);
            && (result.Err? <==> exists i :: 0 <= i < |names| && Missing(pairs, names[i]))
            && (result.Err? ==> exists i :: 0 <= i < |names| && result == Err(MissingParameter(names[i]))
                                            && Missing(pairs, names[i])
                                            && forall k :: 0 <= k < i ==> !Missing(pairs, names[k]))
  {
    PrintedInputParses(pairs, names, reader);
    TopValuesNames(pairs);
    var entries := TopValues(pairs).value;
    forall name ensures Missing(pairs, name) <==> !Present(name, FromEntries(entries)) {
      MissingMeans(pairs, entries, name);
    }
    if i :| 0 <= i < |names| && Missing(pairs, names[i]) {
      var first := FirstAt(pairs, names, i);
      FirstIs(names, FromEntries(entries), first);
    }
  }

  lemma FirstAt(pairs: seq<Assignment>, names: seq<string>, i: nat) returns (first: nat)
    requires i < |names| && Missing(pairs, names[i])
    ensures first <= i && Missing(pairs, names[first]) && forall k :: 0 <= k < first ==> !Missing(pairs, names[k])
  {
    first := 0;
    while !Missing(pairs, names[first])
      invariant first <= i && forall k :: 0 <= k < first ==> !Missing(pairs, names[k])
      decreases i - first
    {
      first := first + 1;
    }
  }

  /** For example: of two parameters that are not assigned only one is reported. */
  lemma InheritedNamesPass(reader: Reader)
    ensures ParseInput("", ["target"], reader) == Err(MissingParameter("target"))
    ensures ParseInput("", ["constructor"], reader) == Ok(map[])
  {
  }
}
