/** JSON values and their compact text, with strings escaped as section 7 of RFC 8259 says. */
module JsonText {
  import opened Text

  /** A number is its decimal text. */
  datatype Json =
    | Null
    | Bool(value: bool)
    | Num(text: string)
    | Str(chars: string)
    | Array(items: Items)
    | Object(fields: Fields)

  datatype Items = NoItems | Item(head: Json, tail: Items)

  datatype Fields = NoFields | Field(name: string, value: Json, rest: Fields)

  // ---------------------------------------------------------------------------------------
  // Printing
  // ---------------------------------------------------------------------------------------

  function HexDigit(n: int): char
    requires 0 <= n < 16
  {
    if n < 10 then ('0' as int + n) as char else ('a' as int + n - 10) as char
  }

  function EscapeChar(c: char): string {
    if c == '\"' then "\\\""
    else if c == '\\' then "\\\\"
    else if c == '\U{0008}' then "\\b"
    else if c == '\t' then "\\t"
    else if c == '\n' then "\\n"
    else if c == '\U{000C}' then "\\f"
    else if c == '\r' then "\\r"
    else if c < ' ' then "\\u00" + [HexDigit(c as int / 16), HexDigit(c as int % 16)]
    else [c]
  }

  function Escape(s: string): string
    decreases |s|
  {
    if s == "" then "" else EscapeChar(s[0]) + Escape(s[1..])
  }

  function Quoted(s: string): string { "\"" + Escape(s) + "\"" }

  function Print(v: Json): string {
    match v
    case Null => "null"
    case Bool(value) => if value then "true" else "false"
    case Num(text) => text
    case Str(chars) => Quoted(chars)
    case Array(items) => "[" + PrintItems(items) + "]"
    case Object(fields) => "{" + PrintFields(fields) + "}"
  }

  function PrintItems(items: Items): string {
    match items
    case NoItems => ""
    case Item(head, tail) => Print(head) + if tail.NoItems? then "" else "," + PrintItems(tail)
  }

  function PrintFields(fields: Fields): string {
    match fields
    case NoFields => ""
    case Field(name, value, rest) =>
      Quoted(name) + ":" + Print(value) + if rest.NoFields? then "" else "," + PrintFields(rest)
  }

  // ---------------------------------------------------------------------------------------
  // Well-formed values
  // ---------------------------------------------------------------------------------------

  predicate Digit(c: char) { '0' <= c <= '9' }

  predicate Digits(s: string) { s != "" && forall c :: c in s ==> Digit(c) }

  function Unsigned(t: string): string { if t != "" && t[0] == '-' then t[1..] else t }

  /** Digits, or digits, a point and digits, after an optional minus sign. */
  predicate PlainNumber(t: string) {
    var u := Unsigned(t);
    Digits(u) || exists k :: 0 <= k < |u| && u[k] == '.' && Digits(u[..k]) && Digits(u[k + 1..])
  }

  predicate NoLeadingZero(t: string) {
    var u := Unsigned(t);
    |u| >= 2 && u[0] == '0' ==> u[1] == '.'
  }

  predicate Exponent(t: string) {
    Digits(if t != "" && (t[0] == '+' || t[0] == '-') then t[1..] else t)
  }

  /** The number grammar of section 6 of RFC 8259. */
  predicate IsNumber(t: string) {
    || (PlainNumber(t) && NoLeadingZero(t))
    || exists k :: 0 <= k < |t| && (t[k] == 'e' || t[k] == 'E') && PlainNumber(t[..k]) && NoLeadingZero(t[..k])
                   && Exponent(t[k + 1..])
  }

  predicate HasName(fields: Fields, name: string) {
    fields.Field? && (fields.name == name || HasName(fields.rest, name))
  }

  /** Numbers are numbers, and no object uses a name twice. */
  predicate WellFormed(v: Json) {
    match v
    case Num(text) => IsNumber(text)
    case Array(items) => WellFormedItems(items)
    case Object(fields) => WellFormedFields(fields)
    case _ => true
  }

  predicate WellFormedItems(items: Items) {
    items.Item? ==> WellFormed(items.head) && WellFormedItems(items.tail)
  }

  predicate WellFormedFields(fields: Fields) {
    fields.Field? ==> WellFormed(fields.value) && !HasName(fields.rest, fields.name) && WellFormedFields(fields.rest)
  }

  predicate NumberChar(c: char) { Digit(c) || c == '-' || c == '+' || c == '.' || c == 'e' || c == 'E' }

  lemma DigitAt(s: string, i: nat)
    requires Digits(s) && i < |s|
    ensures Digit(s[i])
  {
    assert s[i] in s;
  }

  lemma UnsignedCharAt(u: string, k: nat, i: nat)
    requires i < |u| && k < |u| && u[k] == '.' && Digits(u[..k]) && Digits(u[k + 1..])
    ensures k > 0 && (Digit(u[i]) || (u[i] == '.' && i > 0))
  {
    if i < k {
      DigitAt(u[..k], i);
    } else if i > k {
      DigitAt(u[k + 1..], i - k - 1);
    }
  }

  lemma UnsignedAt(u: string, i: nat)
    requires PlainNumber(u) && Unsigned(u) == u && i < |u|
    ensures Digit(u[i]) || (u[i] == '.' && i > 0)
  {
    if Digits(u) {
      DigitAt(u, i);
    } else {
      var k :| 0 <= k < |u| && u[k] == '.' && Digits(u[..k]) && Digits(u[k + 1..]);
      UnsignedCharAt(u, k, i);
    }
  }

  lemma PlainNumberChars(t: string)
    requires PlainNumber(t)
    ensures t != "" && (t[0] == '-' || Digit(t[0]))
    ensures forall i :: 0 <= i < |t| ==> Digit(t[i]) || t[i] == '-' || t[i] == '.'
  {
    forall i | 0 <= i < |t| ensures Digit(t[i]) || t[i] == '-' || (t[i] == '.' && i > 0) {
      if t[0] != '-' {
        UnsignedAt(t, i);
      } else if i > 0 {
        UnsignedPart(t);
        UnsignedAt(t[1..], i - 1);
      }
    }
  }

  lemma UnsignedPart(t: string)
    requires PlainNumber(t) && t != "" && t[0] == '-'
    ensures PlainNumber(t[1..]) && Unsigned(t[1..]) == t[1..]
  {
    var u := t[1..];
    if Digits(u) {
      DigitAt(u, 0);
    } else {
      var k :| 0 <= k < |u| && u[k] == '.' && Digits(u[..k]) && Digits(u[k + 1..]);
      UnsignedCharAt(u, k, 0);
    }
  }

  lemma ExponentChars(t: string)
    requires Exponent(t)
    ensures forall i :: 0 <= i < |t| ==> NumberChar(t[i])
  {
    var u := if t != "" && (t[0] == '+' || t[0] == '-') then t[1..] else t;
    forall i | 0 <= i < |t| ensures NumberChar(t[i]) {
      if t == u {
        DigitAt(u, i);
      } else if i > 0 {
        DigitAt(u, i - 1);
      }
    }
  }

  lemma NumberChars(t: string)
    requires IsNumber(t)
    ensures t != "" && (t[0] == '-' || Digit(t[0])) && forall i :: 0 <= i < |t| ==> NumberChar(t[i])
  {
    if PlainNumber(t) {
      PlainNumberChars(t);
    } else {
      var k :| 0 <= k < |t| && (t[k] == 'e' || t[k] == 'E') && PlainNumber(t[..k]) && NoLeadingZero(t[..k])
               && Exponent(t[k + 1..]);
      PlainNumberChars(t[..k]);
      ExponentChars(t[k + 1..]);
      forall i | 0 <= i < |t| ensures NumberChar(t[i]) {
        if i < k {
          assert t[i] == t[..k][i];
        } else if i > k {
          assert t[i] == t[k + 1..][i - k - 1];
        }
      }
    }
  }

  // ---------------------------------------------------------------------------------------
  // What escaping leaves and what printing starts and ends with
  // ---------------------------------------------------------------------------------------

  /** A character is kept as it is exactly when it is no quotation mark, reverse solidus or
      control character; what replaces another starts with a reverse solidus and is free of
      white space. */
  lemma EscapeCharShape(c: char)
    ensures EscapeChar(c) == [c] <==> c != '\"' && c != '\\' && c >= ' '
    ensures EscapeChar(c) != [c] ==>
              && |EscapeChar(c)| >= 2 && EscapeChar(c)[0] == '\\'
              && (forall i :: 0 <= i < |EscapeChar(c)| ==> !IsSpace(EscapeChar(c)[i]))
              && forall i :: 2 <= i < |EscapeChar(c)| ==> EscapeChar(c)[i] != '\"' && EscapeChar(c)[i] != '\\'
  {
  }

  ghost predicate Plain(s: string) {
    forall i :: 0 <= i < |s| ==> s[i] != '\"' && s[i] != '\\' && s[i] >= ' '
  }

  lemma PlainStep(s: string)
    requires s != ""
    ensures Plain(s) <==> Plain([s[0]]) && Plain(s[1..])
  {
    if Plain(s) {
      forall i | 0 <= i < |s| - 1 ensures s[1..][i] != '\"' && s[1..][i] != '\\' && s[1..][i] >= ' ' {
        assert s[1..][i] == s[i + 1];
      }
    }
    if Plain([s[0]]) && Plain(s[1..]) {
      forall i | 0 <= i < |s| ensures s[i] != '\"' && s[i] != '\\' && s[i] >= ' ' {
        assert s[0] == [s[0]][0];
        assert i > 0 ==> s[i] == s[1..][i - 1];
      }
    }
  }

  /** A text escapes to itself exactly when none of its characters needs escaping. */
  lemma {:induction false} EscapeKeeps(s: string)
    ensures Escape(s) == s <==> Plain(s)
    ensures |Escape(s)| >= |s|
    decreases |s|
  {
    if s != "" {
      EscapeCharShape(s[0]);
      EscapeKeeps(s[1..]);
      PlainStep(s);
      assert s == [s[0]] + s[1..];
      assert [s[0]][0] == s[0];
      if EscapeChar(s[0]) == [s[0]] {
        assert Escape(s)[1..] == Escape(s[1..]);
      } else {
        assert |Escape(s)| > |s|;
      }
    }
  }

  lemma PrintTrimmed(v: Json)
    requires WellFormed(v)
    ensures Print(v) != "" && Trimmed(Print(v))
    ensures v.Array? <==> Print(v)[0] == '['
    ensures v.Object? <==> Print(v)[0] == '{'
  {
    if v.Num? {
      NumberChars(v.text);
    }
  }
}
