/** Printed values can be read back: no two well-formed values print alike. */
module PrintInjective {
  import opened Common
  import opened Text
  import opened JsonText

  /** What may follow a value in a text: nothing, or a character that no number goes on with. */
  predicate Follows(rest: string) { rest == "" || !NumberChar(rest[0]) }

  predicate Starts(c: char, v: Json) {
    match v
    case Null => c == 'n'
    case Bool(value) => c == if value then 't' else 'f'
    case Num(_) => c == '-' || Digit(c)
    case Str(_) => c == '\"'
    case Array(_) => c == '['
    case Object(_) => c == '{'
  }

  lemma FirstChar(v: Json)
    requires WellFormed(v)
    ensures Print(v) != "" && Starts(Print(v)[0], v)
  {
    if v.Num? {
      NumberChars(v.text);
    }
  }

  lemma SameHead(a: string, x: string, b: string, y: string)
    requires a + x == b + y && a != "" && b != ""
    ensures a[0] == b[0]
  {
    assert (a + x)[0] == a[0] && (b + y)[0] == b[0];
  }

  lemma SameRest(a: string, x: string, b: string, y: string)
    requires a + x == b + y && |a| == |b|
    ensures a == b && x == y
  {
    assert (a + x)[..|a|] == a && (b + y)[..|b|] == b;
    assert (a + x)[|a|..] == x && (b + y)[|b|..] == y;
  }

  /** Where the first text ends before the second does, they go on alike. */
  lemma GoesOn(t: string, a: string, u: string, b: string)
    requires t + a == u + b && |t| < |u|
    ensures a != "" && a[0] == u[|t|]
  {
    assert (t + a)[|t|] == (u + b)[|t|];
  }

  lemma Associative(a: string, b: string, c: string)
    ensures a + b + c == a + (b + c)
  {
  }

  // Numbers

  lemma NumberIsNotLonger(t: string, a: string, u: string, b: string)
    requires IsNumber(u) && Follows(a) && t + a == u + b
    ensures |u| <= |t|
  {
    NumberChars(u);
    if |t| < |u| {
      GoesOn(t, a, u, b);
    }
  }

  lemma NumberUnique(t: string, a: string, u: string, b: string)
    requires IsNumber(t) && IsNumber(u) && Follows(a) && Follows(b) && t + a == u + b
    ensures t == u && a == b
  {
    NumberIsNotLonger(t, a, u, b);
    NumberIsNotLonger(u, b, t, a);
    SameRest(t, a, u, b);
  }

  // Strings

  lemma EscapedUnique(c: char, d: char)
    requires |EscapeChar(c)| >= 2 && |EscapeChar(d)| >= 2 && EscapeChar(c)[1] == EscapeChar(d)[1]
    requires EscapeChar(c)[1] == 'u' ==> EscapeChar(c) == EscapeChar(d)
    ensures c == d
  {
    if EscapeChar(c)[1] == 'u' {
      assert EscapeChar(c)[4] == HexDigit(c as int / 16) && EscapeChar(c)[5] == HexDigit(c as int % 16);
      assert EscapeChar(d)[4] == HexDigit(d as int / 16) && EscapeChar(d)[5] == HexDigit(d as int % 16);
      assert c as int == 16 * (c as int / 16) + c as int % 16;
      assert d as int == 16 * (d as int / 16) + d as int % 16;
    }
  }

  /** How long the text of an escaped character is shows in its second character. */
  lemma EscapedLength(c: char)
    ensures |EscapeChar(c)| == 1 || |EscapeChar(c)| == (if EscapeChar(c)[1] == 'u' then 6 else 2)
  {
  }

  lemma CharUnique(c: char, x: string, d: char, y: string)
    requires EscapeChar(c) + x == EscapeChar(d) + y
    ensures c == d && x == y
  {
    var e, f := EscapeChar(c), EscapeChar(d);
    EscapeCharShape(c);
    EscapeCharShape(d);
    SameHead(e, x, f, y);
    if |e| >= 2 && |f| >= 2 {
      assert (e + x)[1] == e[1] && (f + y)[1] == f[1];
      EscapedLength(c);
      EscapedLength(d);
      SameRest(e, x, f, y);
      EscapedUnique(c, d);
    }
    SameRest(e, x, f, y);
  }

  /** The rest of a string ends where its closing quote is the next character. */
  lemma EscapedStart(s: string, a: string)
    ensures (Escape(s) + ("\"" + a))[0] == '\"' <==> s == ""
    ensures s == "" ==> Escape(s) + ("\"" + a) == "\"" + a
    ensures s != "" ==> Escape(s) + ("\"" + a) == EscapeChar(s[0]) + (Escape(s[1..]) + ("\"" + a))
  {
    if s == "" {
      assert "" + ("\"" + a) == "\"" + a;
    } else {
      EscapeCharShape(s[0]);
      Associative(EscapeChar(s[0]), Escape(s[1..]), "\"" + a);
    }
  }

  lemma {:induction false} EscapeUnique(s: string, a: string, t: string, b: string)
    requires Escape(s) + ("\"" + a) == Escape(t) + ("\"" + b)
    ensures s == t && a == b
    decreases |s|
  {
    EscapedStart(s, a);
    EscapedStart(t, b);
    if s == "" {
      SameRest("\"", a, "\"", b);
    } else {
      CharUnique(s[0], Escape(s[1..]) + ("\"" + a), t[0], Escape(t[1..]) + ("\"" + b));
      EscapeUnique(s[1..], a, t[1..], b);
      assert s == [s[0]] + s[1..] && t == [t[0]] + t[1..];
    }
  }

  lemma QuotedText(s: string, a: string)
    ensures Quoted(s) + a == "\"" + (Escape(s) + ("\"" + a))
  {
    Associative("\"" + Escape(s), "\"", a);
    Associative("\"", Escape(s), "\"" + a);
  }

  lemma QuotedUnique(s: string, a: string, t: string, b: string)
    requires Quoted(s) + a == Quoted(t) + b
    ensures s == t && a == b
  {
    QuotedText(s, a);
    QuotedText(t, b);
    SameRest("\"", Escape(s) + ("\"" + a), "\"", Escape(t) + ("\"" + b));
    EscapeUnique(s, a, t, b);
  }

  // Values

  lemma SameKind(v: Json, a: string, w: Json, b: string)
    requires WellFormed(v) && WellFormed(w) && Print(v) + a == Print(w) + b
    ensures v.Null? == w.Null? && v.Bool? == w.Bool? && v.Num? == w.Num?
            && v.Str? == w.Str? && v.Array? == w.Array? && v.Object? == w.Object?
    ensures v.Bool? ==> v == w
  {
    FirstChar(v);
    FirstChar(w);
    SameHead(Print(v), a, Print(w), b);
  }

  lemma ListText(items: Items, a: string)
    ensures Print(Array(items)) + a == "[" + (PrintItems(items) + ("]" + a))
  {
    Associative("[" + PrintItems(items), "]", a);
    Associative("[", PrintItems(items), "]" + a);
  }

  lemma RecordText(fields: Fields, a: string)
    ensures Print(Object(fields)) + a == "{" + (PrintFields(fields) + ("}" + a))
  {
    Associative("{" + PrintFields(fields), "}", a);
    Associative("{", PrintFields(fields), "}" + a);
  }

  /** A text that starts with a printed value starts with no other. */
  lemma {:induction false} PrintUnique(v: Json, a: string, w: Json, b: string)
    requires WellFormed(v) && WellFormed(w) && Follows(a) && Follows(b) && Print(v) + a == Print(w) + b
    ensures v == w && a == b
    decreases v, 1
  {
    SameKind(v, a, w, b);
    match v {
      case Null => SameRest(Print(v), a, Print(w), b);
      case Bool(_) => SameRest(Print(v), a, Print(w), b);
      case Num(text) => NumberUnique(text, a, w.text, b);
      case Str(chars) => QuotedUnique(chars, a, w.chars, b);
      case Array(items) => ListUnique(items, a, w.items, b);
      case Object(fields) => RecordUnique(fields, a, w.fields, b);
    }
  }

  lemma {:induction false} ListUnique(x: Items, a: string, y: Items, b: string)
    requires WellFormedItems(x) && WellFormedItems(y) && Print(Array(x)) + a == Print(Array(y)) + b
    ensures x == y && a == b
    decreases x, 1
  {
    ListText(x, a);
    ListText(y, b);
    SameRest("[", PrintItems(x) + ("]" + a), "[", PrintItems(y) + ("]" + b));
    ItemsUnique(x, a, y, b);
  }

  lemma {:induction false} RecordUnique(x: Fields, a: string, y: Fields, b: string)
    requires WellFormedFields(x) && WellFormedFields(y) && Print(Object(x)) + a == Print(Object(y)) + b
    ensures x == y && a == b
    decreases x, 1
  {
    RecordText(x, a);
    RecordText(y, b);
    SameRest("{", PrintFields(x) + ("}" + a), "{", PrintFields(y) + ("}" + b));
    FieldsUnique(x, a, y, b);
  }

  /** The text after the first item, up to the end of the list and beyond. */
  function AfterItem(tail: Items, a: string): string {
    if tail.NoItems? then "]" + a else "," + (PrintItems(tail) + ("]" + a))
  }

  lemma ItemsText(items: Items, a: string)
    ensures items.NoItems? ==> PrintItems(items) + ("]" + a) == "]" + a
    ensures items.Item? ==> PrintItems(items) + ("]" + a) == Print(items.head) + AfterItem(items.tail, a)
  {
    match items
    case NoItems => assert "" + ("]" + a) == "]" + a;
    case Item(head, tail) =>
      var more := if tail.NoItems? then "" else "," + PrintItems(tail);
      Associative(Print(head), more, "]" + a);
      if tail.NoItems? {
        assert "" + ("]" + a) == "]" + a;
      } else {
        Associative(",", PrintItems(tail), "]" + a);
      }
  }

  lemma ItemsStart(items: Items, a: string)
    requires WellFormedItems(items)
    ensures (PrintItems(items) + ("]" + a))[0] == ']' <==> items.NoItems?
  {
    ItemsText(items, a);
    if items.Item? {
      FirstChar(items.head);
    }
  }

  lemma {:induction false} ItemsUnique(x: Items, a: string, y: Items, b: string)
    requires WellFormedItems(x) && WellFormedItems(y) && PrintItems(x) + ("]" + a) == PrintItems(y) + ("]" + b)
    ensures x == y && a == b
    decreases x, 0
  {
    ItemsStart(x, a);
    ItemsStart(y, b);
    ItemsText(x, a);
    ItemsText(y, b);
    if x.NoItems? {
      SameRest("]", a, "]", b);
    } else {
      PrintUnique(x.head, AfterItem(x.tail, a), y.head, AfterItem(y.tail, b));
      TailUnique(x.tail, a, y.tail, b);
    }
  }

  lemma {:induction false} TailUnique(x: Items, a: string, y: Items, b: string)
    requires WellFormedItems(x) && WellFormedItems(y) && AfterItem(x, a) == AfterItem(y, b)
    ensures x == y && a == b
    decreases x, 1
  {
    assert AfterItem(x, a)[0] == if x.NoItems? then ']' else ',';
    assert AfterItem(y, b)[0] == if y.NoItems? then ']' else ',';
    if x.NoItems? {
      SameRest("]", a, "]", b);
    } else {
      SameRest(",", PrintItems(x) + ("]" + a), ",", PrintItems(y) + ("]" + b));
      ItemsUnique(x, a, y, b);
    }
  }

  function AfterValue(rest: Fields, a: string): string {
    if rest.NoFields? then "}" + a else "," + (PrintFields(rest) + ("}" + a))
  }

  lemma FieldsText(fields: Fields, a: string)
    ensures fields.NoFields? ==> PrintFields(fields) + ("}" + a) == "}" + a
    ensures fields.Field? ==>
              PrintFields(fields) + ("}" + a)
              == Quoted(fields.name) + (":" + (Print(fields.value) + AfterValue(fields.rest, a)))
  {
    match fields
    case NoFields => assert "" + ("}" + a) == "}" + a;
    case Field(name, value, rest) =>
      var more := if rest.NoFields? then "" else "," + PrintFields(rest);
      Associative(Quoted(name) + ":" + Print(value), more, "}" + a);
      Associative(Quoted(name) + ":", Print(value), more + ("}" + a));
      Associative(Quoted(name), ":", Print(value) + (more + ("}" + a)));
      if rest.NoFields? {
        assert "" + ("}" + a) == "}" + a;
      } else {
        Associative(",", PrintFields(rest), "}" + a);
      }
  }

  lemma FieldsStart(fields: Fields, a: string)
    ensures (PrintFields(fields) + ("}" + a))[0] == '}' <==> fields.NoFields?
  {
    FieldsText(fields, a);
  }

  lemma {:induction false} FieldsUnique(x: Fields, a: string, y: Fields, b: string)
    requires WellFormedFields(x) && WellFormedFields(y) && PrintFields(x) + ("}" + a) == PrintFields(y) + ("}" + b)
    ensures x == y && a == b
    decreases x, 0
  {
    FieldsStart(x, a);
    FieldsStart(y, b);
    FieldsText(x, a);
    FieldsText(y, b);
    if x.NoFields? {
      SameRest("}", a, "}", b);
    } else {
      var restX, restY := Print(x.value) + AfterValue(x.rest, a), Print(y.value) + AfterValue(y.rest, b);
      QuotedUnique(x.name, ":" + restX, y.name, ":" + restY);
      SameRest(":", restX, ":", restY);
      PrintUnique(x.value, AfterValue(x.rest, a), y.value, AfterValue(y.rest, b));
      RestUnique(x.rest, a, y.rest, b);
    }
  }

  lemma {:induction false} RestUnique(x: Fields, a: string, y: Fields, b: string)
    requires WellFormedFields(x) && WellFormedFields(y) && AfterValue(x, a) == AfterValue(y, b)
    ensures x == y && a == b
    decreases x, 1
  {
    assert AfterValue(x, a)[0] == if x.NoFields? then '}' else ',';
    assert AfterValue(y, b)[0] == if y.NoFields? then '}' else ',';
    if x.NoFields? {
      SameRest("}", a, "}", b);
    } else {
      SameRest(",", PrintFields(x) + ("}" + a), ",", PrintFields(y) + ("}" + b));
      FieldsUnique(x, a, y, b);
    }
  }

  /** No two well-formed values print alike. */
  lemma PrintIsInjective(v: Json, w: Json)
    requires WellFormed(v) && WellFormed(w) && Print(v) == Print(w)
    ensures v == w
  {
    assert Print(v) + "" == Print(v) && Print(w) + "" == Print(w);
    PrintUnique(v, "", w, "");
  }

  ghost function ReadBack(text: string): Option<Json> {
    if v :| WellFormed(v) && Print(v) == text then Some(v) else None
  }

  /** So there is a reader that gives back every well-formed value. */
  lemma ReadBackReads(v: Json)
    requires WellFormed(v)
    ensures ReadBack(Print(v)) == Some(v)
  {
    var w := ReadBack(Print(v)).value;
    PrintIsInjective(w, v);
  }
}
