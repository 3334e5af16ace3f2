/** Printed values under the importer's scanner and under its collapsing of white space. */
module PrintedValues {
  import opened Common
  import opened Text
  import opened JsonText
  import opened InputParser

  // ---------------------------------------------------------------------------------------
  // A printed value leaves the scanner where it was and is never cut
  // ---------------------------------------------------------------------------------------

  function After(s: Scan, text: string): Scan
    decreases |text|
  {
    if text == "" then s else After(Step(s, text[0]), text[1..])
  }

  predicate NoCuts(s: Scan, text: string, delimiter: char)
    decreases |text|
  {
    text == "" || (!Cuts(s, text[0], delimiter) && NoCuts(Step(s, text[0]), text[1..], delimiter))
  }

  /** Reading `text` from `s` cuts nothing and comes back to `s`. */
  predicate Passes(s: Scan, text: string) {
    After(s, text) == s && NoCuts(s, text, ',')
  }

  lemma {:induction false} ScanConcat(s: Scan, a: string, b: string)
    ensures After(s, a + b) == After(After(s, a), b)
    ensures NoCuts(s, a + b, ',') <==> NoCuts(s, a, ',') && NoCuts(After(s, a), b, ',')
    decreases |a|
  {
    if a == "" {
      assert a + b == b;
    } else {
      assert (a + b)[0] == a[0] && (a + b)[1..] == a[1..] + b;
      ScanConcat(Step(s, a[0]), a[1..], b);
    }
  }

  lemma PassesConcat(s: Scan, a: string, b: string)
    requires Passes(s, a) && Passes(s, b)
    ensures Passes(s, a + b)
  {
    ScanConcat(s, a, b);
  }

  lemma After1(s: Scan, c: char)
    ensures After(s, [c]) == Step(s, c) && (NoCuts(s, [c], ',') <==> !Cuts(s, c, ','))
  {
    assert [c][1..] == "";
  }

  predicate IsQuote(c: char) { c == '\"' || c == '\'' }

  predicate IsBracket(c: char) { c == '[' || c == ']' || c == '{' || c == '}' || c == '(' || c == ')' }

  /** Outside quotes such a character changes nothing. */
  predicate Neutral(c: char) { !IsQuote(c) && !IsBracket(c) && c != ',' }

  lemma {:induction false} NeutralPasses(s: Scan, text: string)
    requires s.quote.None? && forall i :: 0 <= i < |text| ==> Neutral(text[i])
    ensures Passes(s, text)
    decreases |text|
  {
    if text != "" {
      assert Neutral(text[0]);
      assert forall i :: 0 <= i < |text| - 1 ==> text[1..][i] == text[i + 1];
      NeutralPasses(s, text[1..]);
    }
  }

  function InQuote(s: Scan): Scan { s.(quote := Some('\"'), escaped := false) }

  lemma EscapedCharPasses(s: Scan, c: char)
    requires s == InQuote(s)
    ensures Passes(s, EscapeChar(c))
  {
    EscapeCharShape(c);
    var e := EscapeChar(c);
    if e == [c] {
      After1(s, c);
    } else {
      var escaping := s.(escaped := true);
      assert e == [e[0]] + ([e[1]] + e[2..]);
      After1(s, e[0]);
      ScanConcat(s, [e[0]], [e[1]] + e[2..]);
      After1(escaping, e[1]);
      ScanConcat(escaping, [e[1]], e[2..]);
      QuietInQuote(s, e[2..]);
    }
  }

  lemma {:induction false} QuietInQuote(s: Scan, text: string)
    requires s == InQuote(s) && forall i :: 0 <= i < |text| ==> text[i] != '\"' && text[i] != '\\'
    ensures Passes(s, text)
    decreases |text|
  {
    if text != "" {
      assert forall i :: 0 <= i < |text| - 1 ==> text[1..][i] == text[i + 1];
      QuietInQuote(s, text[1..]);
    }
  }

  lemma {:induction false} EscapePasses(s: Scan, chars: string)
    requires s == InQuote(s)
    ensures Passes(s, Escape(chars))
    decreases |chars|
  {
    if chars != "" {
      EscapedCharPasses(s, chars[0]);
      EscapePasses(s, chars[1..]);
      PassesConcat(s, EscapeChar(chars[0]), Escape(chars[1..]));
    }
  }

  /** Outside quotes, and no bracket is closed more often than it is opened. */
  predicate Outside(s: Scan) {
    s.quote.None? && !s.escaped && s.square >= 0 && s.curly >= 0 && s.paren >= 0
  }

  lemma QuotedPasses(s: Scan, chars: string)
    requires Outside(s)
    ensures Passes(s, Quoted(chars))
  {
    var e := Escape(chars);
    assert Quoted(chars) == "\"" + (e + "\"");
    After1(s, '\"');
    ScanConcat(s, "\"", e + "\"");
    EscapePasses(InQuote(s), chars);
    ScanConcat(InQuote(s), e, "\"");
    After1(InQuote(s), '\"');
  }

  predicate Nested(s: Scan) { Outside(s) && s.square + s.curly + s.paren > 0 }

  lemma CommaPasses(s: Scan)
    requires Nested(s)
    ensures Passes(s, ",")
  {
    After1(s, ',');
  }

  /** Brackets around a text that passes inside them. */
  lemma BracketsPass(s: Scan, open_: char, body: string, close: char)
    requires Outside(s)
    requires (open_ == '[' && close == ']') || (open_ == '{' && close == '}') || (open_ == '(' && close == ')')
    requires Passes(Step(s, open_), body)
    ensures Passes(s, [open_] + body + [close])
  {
    var inner := Step(s, open_);
    assert [open_] + body + [close] == [open_] + (body + [close]);
    After1(s, open_);
    ScanConcat(s, [open_], body + [close]);
    ScanConcat(inner, body, [close]);
    After1(inner, close);
  }

  /** Every printed value, read outside quotes at any depth, leaves the scanner as it found it
      and is not cut. */
  lemma {:induction false} PrintPasses(v: Json, s: Scan)
    requires WellFormed(v) && Outside(s)
    ensures Passes(s, Print(v))
    decreases v, 1
  {
    match v {
      case Null => NeutralPasses(s, "null");
      case Bool(value) => NeutralPasses(s, Print(v));
      case Num(text) =>
        NumberChars(text);
        NeutralPasses(s, text);
      case Str(chars) => QuotedPasses(s, chars);
      case Array(items) =>
        PrintItemsPass(items, Step(s, '['));
        BracketsPass(s, '[', PrintItems(items), ']');
      case Object(fields) =>
        PrintFieldsPass(fields, Step(s, '{'));
        BracketsPass(s, '{', PrintFields(fields), '}');
    }
  }

  lemma {:induction false} PrintItemsPass(items: Items, s: Scan)
    requires WellFormedItems(items) && Nested(s)
    ensures Passes(s, PrintItems(items))
    decreases items, 0
  {
    if items.Item? {
      PrintPasses(items.head, s);
      PrintItemsPass(items.tail, s);
      CommaPasses(s);
      PassesConcat(s, ",", PrintItems(items.tail));
      var more := if items.tail.NoItems? then "" else "," + PrintItems(items.tail);
      PassesConcat(s, Print(items.head), more);
    }
  }

  lemma {:induction false} PrintFieldsPass(fields: Fields, s: Scan)
    requires WellFormedFields(fields) && Nested(s)
    ensures Passes(s, PrintFields(fields))
    decreases fields, 0
  {
    if fields.Field? {
      QuotedPasses(s, fields.name);
      NeutralPasses(s, ":");
      PassesConcat(s, Quoted(fields.name), ":");
      PrintPasses(fields.value, s);
      PassesConcat(s, Quoted(fields.name) + ":", Print(fields.value));
      PrintFieldsPass(fields.rest, s);
      CommaPasses(s);
      PassesConcat(s, ",", PrintFields(fields.rest));
      var more := if fields.rest.NoFields? then "" else "," + PrintFields(fields.rest);
      PassesConcat(s, Quoted(fields.name) + ":" + Print(fields.value), more);
    }
  }

  // ---------------------------------------------------------------------------------------
  // Collapsing white space
  // ---------------------------------------------------------------------------------------

  /** White space that escaping leaves as it is. */
  predicate RawSpace(c: char) { IsSpace(c) && c >= ' ' }

  /** A string with every run of such white space replaced by one blank. */
  function Settle(chars: string, after: bool): string
    decreases |chars|
  {
    if chars == "" then ""
    else if !RawSpace(chars[0]) then [chars[0]] + Settle(chars[1..], false)
    else (if after then "" else " ") + Settle(chars[1..], true)
  }

  function Settled(v: Json): Json {
    match v
    case Str(chars) => Str(Settle(chars, false))
    case Array(items) => Array(SettledItems(items))
    case Object(fields) => Object(SettledFields(fields))
    case _ => v
  }

  function SettledItems(items: Items): Items {
    match items
    case NoItems => NoItems
    case Item(head, tail) => Item(Settled(head), SettledItems(tail))
  }

  function SettledFields(fields: Fields): Fields {
    match fields
    case NoFields => NoFields
    case Field(name, value, rest) => Field(Settle(name, false), Settled(value), SettledFields(rest))
  }

  function EndsInSpace(s: string, after: bool): bool {
    if s == "" then after else IsSpace(s[|s| - 1])
  }

  lemma {:induction false} CollapseConcat(a: string, b: string, after: bool)
    ensures Collapse(a + b, after) == Collapse(a, after) + Collapse(b, EndsInSpace(a, after))
    decreases |a|
  {
    if a == "" {
      assert a + b == b;
    } else {
      assert (a + b)[0] == a[0] && (a + b)[1..] == a[1..] + b;
      CollapseConcat(a[1..], b, IsSpace(a[0]));
    }
  }

  predicate Solid(s: string) { forall i :: 0 <= i < |s| ==> !IsSpace(s[i]) }

  lemma {:induction false} CollapseSolid(s: string, after: bool)
    requires Solid(s)
    ensures Collapse(s, after) == s
    decreases |s|
  {
    if s != "" {
      assert forall i :: 0 <= i < |s| - 1 ==> s[1..][i] == s[i + 1];
      CollapseSolid(s[1..], false);
    }
  }

  /** Collapsing the escaped text of a string is escaping the settled string. */
  lemma {:induction false} CollapseEscape(chars: string, after: bool)
    ensures Collapse(Escape(chars), after) == Escape(Settle(chars, after))
    decreases |chars|
  {
    if chars != "" {
      var c, e := chars[0], EscapeChar(chars[0]);
      EscapeCharShape(c);
      CollapseConcat(e, Escape(chars[1..]), after);
      CollapseEscape(chars[1..], RawSpace(c));
      if RawSpace(c) {
        assert [c][1..] == "";
        EscapeBlank(Settle(chars[1..], true));
      } else {
        CollapseSolid(e, after);
        EscapeFirst(c, Settle(chars[1..], false));
      }
    }
  }

  lemma EscapeFirst(c: char, rest: string)
    ensures Escape([c] + rest) == EscapeChar(c) + Escape(rest)
  {
    assert ([c] + rest)[1..] == rest;
  }

  lemma EscapeBlank(rest: string)
    ensures Escape(" " + rest) == " " + Escape(rest)
    ensures Escape("" + rest) == Escape(rest)
  {
    EscapeFirst(' ', rest);
    assert "" + rest == rest;
  }

  /** `a` collapses to `b`, whatever came before it, and does not end in white space. */
  ghost predicate CollapsesTo(a: string, b: string) {
    a != "" && !IsSpace(a[|a| - 1]) && forall after :: Collapse(a, after) == b
  }

  lemma CollapsesConcat(a: string, x: string, b: string, y: string)
    requires CollapsesTo(a, x) && CollapsesTo(b, y)
    ensures CollapsesTo(a + b, x + y)
  {
    forall after ensures Collapse(a + b, after) == x + y {
      CollapseConcat(a, b, after);
    }
  }

  lemma SolidCollapses(s: string)
    requires s != "" && Solid(s)
    ensures CollapsesTo(s, s)
  {
    forall after ensures Collapse(s, after) == s {
      CollapseSolid(s, after);
    }
  }

  lemma QuotedCollapses(chars: string)
    ensures CollapsesTo(Quoted(chars), Quoted(Settle(chars, false)))
  {
    var e := Escape(chars);
    forall after ensures Collapse(Quoted(chars), after) == Quoted(Settle(chars, false)) {
      assert Quoted(chars) == "\"" + (e + "\"");
      CollapseConcat("\"", e + "\"", after);
      CollapseConcat(e, "\"", false);
      CollapseSolid("\"", after);
      CollapseSolid("\"", EndsInSpace(e, false));
      CollapseEscape(chars, false);
    }
  }

  lemma {:induction false} PrintCollapses(v: Json)
    requires WellFormed(v)
    ensures CollapsesTo(Print(v), Print(Settled(v)))
    decreases v, 1
  {
    match v {
      case Null => SolidCollapses("null");
      case Bool(value) => SolidCollapses(Print(v));
      case Num(text) =>
        NumberChars(text);
        SolidCollapses(text);
      case Str(chars) => QuotedCollapses(chars);
      case Array(items) =>
        if items.Item? {
          ItemsCollapse(items);
        }
        BracketsCollapse("[", PrintItems(items), PrintItems(SettledItems(items)), "]");
      case Object(fields) =>
        if fields.Field? {
          FieldsCollapse(fields);
        }
        BracketsCollapse("{", PrintFields(fields), PrintFields(SettledFields(fields)), "}");
    }
  }

  lemma BracketsCollapse(open_: string, a: string, b: string, close: string)
    requires open_ != "" && close != "" && Solid(open_) && Solid(close)
    requires (a == "" && b == "") || CollapsesTo(a, b)
    ensures CollapsesTo(open_ + a + close, open_ + b + close)
  {
    SolidCollapses(open_);
    SolidCollapses(close);
    if a == "" {
      assert open_ + a == open_ && open_ + b == open_;
    } else {
      CollapsesConcat(open_, open_, a, b);
    }
    CollapsesConcat(open_ + a, open_ + b, close, close);
  }

  lemma {:induction false} ItemsCollapse(items: Items)
    requires WellFormedItems(items) && items.Item?
    ensures CollapsesTo(PrintItems(items), PrintItems(SettledItems(items)))
    decreases items, 0
  {
    PrintCollapses(items.head);
    if items.tail.Item? {
      ItemsCollapse(items.tail);
      SolidCollapses(",");
      var a, b := PrintItems(items.tail), PrintItems(SettledItems(items.tail));
      CollapsesConcat(",", ",", a, b);
      CollapsesConcat(Print(items.head), Print(Settled(items.head)), "," + a, "," + b);
    } else {
      assert PrintItems(items) == Print(items.head);
      assert PrintItems(SettledItems(items)) == Print(Settled(items.head));
    }
  }

  lemma {:induction false} FieldsCollapse(fields: Fields)
    requires WellFormedFields(fields) && fields.Field?
    ensures CollapsesTo(PrintFields(fields), PrintFields(SettledFields(fields)))
    decreases fields, 0
  {
    var name, settled := Quoted(fields.name), Quoted(Settle(fields.name, false));
    QuotedCollapses(fields.name);
    SolidCollapses(":");
    CollapsesConcat(name, settled, ":", ":");
    PrintCollapses(fields.value);
    CollapsesConcat(name + ":", settled + ":", Print(fields.value), Print(Settled(fields.value)));
    if fields.rest.Field? {
      FieldsCollapse(fields.rest);
      SolidCollapses(",");
      var a, b := PrintFields(fields.rest), PrintFields(SettledFields(fields.rest));
      CollapsesConcat(",", ",", a, b);
      CollapsesConcat(name + ":" + Print(fields.value), settled + ":" + Print(Settled(fields.value)), "," + a, "," + b);
    } else {
      assert PrintFields(fields) == name + ":" + Print(fields.value);
      assert PrintFields(SettledFields(fields)) == settled + ":" + Print(Settled(fields.value));
    }
  }
}
