/** The string operations of the host languages that the text modules rely on. */
module Text {

  /** White space and line terminators, as `trim` and `\s` of ECMAScript know them. */
  predicate IsSpace(c: char) {
    || c == ' ' || c == '\t' || c == '\n' || c == '\r' || c == '\U{000B}' || c == '\U{000C}' || c == '\U{00A0}'
        || c == '\U{1680}'
    || '\U{2000}' <= c <= '\U{200A}' || c == '\U{2028}' || c == '\U{2029}' || c == '\U{202F}'
    || c == '\U{205F}' || c == '\U{3000}' || c == '\U{FEFF}'
  }

  function TrimStart(s: string): string
    decreases |s|
  {
    if s != "" && IsSpace(s[0]) then TrimStart(s[1..]) else s
  }

  function TrimEnd(s: string): string
    decreases |s|
  {
    if s != "" && IsSpace(s[|s| - 1]) then TrimEnd(s[..|s| - 1]) else s
  }

  function Trim(s: string): string { TrimEnd(TrimStart(s)) }

  /** Neither end is white space; then `trim` changes nothing. */
  predicate Trimmed(s: string) {
    s != "" ==> !IsSpace(s[0]) && !IsSpace(s[|s| - 1])
  }

  predicate AllSpace(s: string) {
    forall c :: c in s ==> IsSpace(c)
  }

  lemma {:induction false} TrimStartPadded(before: string, s: string)
    requires AllSpace(before) && (s != "" ==> !IsSpace(s[0]))
    ensures TrimStart(before + s) == s
    decreases |before|
  {
    if before == "" {
      assert before + s == s;
    } else {
      assert before[0] in before && IsSpace(before[0]);
      assert (before + s)[1..] == before[1..] + s;
      TrimStartPadded(before[1..], s);
    }
  }

  lemma {:induction false} TrimEndPadded(s: string, after: string)
    requires AllSpace(after) && (s != "" ==> !IsSpace(s[|s| - 1]))
    ensures TrimEnd(s + after) == s
    decreases |after|
  {
    if after == "" {
      assert s + after == s;
    } else {
      var n := |after| - 1;
      assert after[n] in after && IsSpace(after[n]);
      assert (s + after)[..|s| + n] == s + after[..n];
      TrimEndPadded(s, after[..n]);
    }
  }

  /** `trim` takes away white space around a text that neither starts nor ends with it. */
  lemma TrimPadded(before: string, s: string, after: string)
    requires Trimmed(s) && s != "" && AllSpace(before) && AllSpace(after)
    ensures Trim(before + s + after) == s
  {
    assert before + s + after == before + (s + after);
    assert (s + after)[0] == s[0];
    TrimStartPadded(before, s + after);
    TrimEndPadded(s, after);
  }

  lemma TrimLine(line: string)
    requires Trimmed(line) && line != ""
    ensures Trim(line + "\n") == line
  {
    TrimPadded("", line, "\n");
    assert "" + line + "\n" == line + "\n";
  }

  predicate OccursAt(s: string, part: string, i: int) {
    0 <= i && i + |part| <= |s| && s[i..i + |part|] == part
  }

  lemma Head(s: string, part: string, i: int)
    requires part != ""
    ensures OccursAt(s, part, i) ==> s[i] == part[0]
  {
    if OccursAt(s, part, i) {
      assert s[i] == s[i..i + |part|][0];
    }
  }

  /** `indexOf`: the least occurrence at or after `from`, or -1. */
  function IndexOf(s: string, part: string, from: nat): (r: int)
    ensures r == -1 || (from <= r && OccursAt(s, part, r))
    ensures forall j :: from <= j && (r == -1 || j < r) ==> !OccursAt(s, part, j)
    decreases if from > |s| then 0 else |s| + 1 - from
  {
    if from + |part| > |s| then -1
    else if OccursAt(s, part, from) then from
    else IndexOf(s, part, from + 1)
  }

  /** `lastIndexOf`: the greatest occurrence at or before `from`, or -1. */
  function LastIndexOf(s: string, part: string, from: nat): (r: int)
    ensures r == -1 || (r <= from && OccursAt(s, part, r))
    ensures forall j :: j <= from && r < j ==> !OccursAt(s, part, j)
    decreases from
  {
    if OccursAt(s, part, from) then from
    else if from == 0 then -1
    else LastIndexOf(s, part, from - 1)
  }
}
