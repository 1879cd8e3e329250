/** The heuristic that attributes a difference to a line of a document's
    text (`findLineNumberInJson` in frontend/compareJson.js), together with
    the display helpers `getLineFromJson` and `formatDiffValue`.

    The locator is not path-aware: it reports the first line on which the
    key (or, failing that, the value) appears textually. */
module LineLocator {
  import opened Json
  import opened Text

  /** The characters the pattern `/[.*+?^${}()|[\]\\]/g` escapes. */
  predicate IsRegexMeta(c: char) {
    c in ".*+?^${}()|[]\\"
  }

  /** `s.replace(/[.*+?^${}()|[\]\\]/g, '\\$&')`: a backslash before each
      regular-expression metacharacter. */
  function EscapeRegex(s: string): (r: string)
    ensures |r| >= |s|
    ensures (exists i :: 0 <= i < |s| && IsRegexMeta(s[i])) ==> '\\' in r
    ensures (forall i :: 0 <= i < |s| ==> !IsRegexMeta(s[i])) ==> r == s
  {
    if s == [] then []
    else
      var head := if IsRegexMeta(s[0]) then ['\\', s[0]] else [s[0]];
      var rest := EscapeRegex(s[1..]);
      assert forall i :: 1 <= i < |s| ==> s[1..][i - 1] == s[i];
      head + rest
  }

  /** Case-insensitive character comparison of a regular expression with the
      `i` flag; only ASCII letters are folded here. */
  function FoldCase(c: char): char {
    if 'a' <= c <= 'z' then (c as int - 32) as char else c
  }

  predicate SameIgnoringCase(a: string, b: string) {
    |a| == |b| && forall i :: 0 <= i < |a| ==> FoldCase(a[i]) == FoldCase(b[i])
  }

  predicate IsQuote(c: char) {
    c == '"' || c == '\''
  }

  /** `\s*:` matches from position `j` of `line`. */
  predicate ColonAfterSpaces(line: string, j: nat)
    decreases |line| - j
  {
    j < |line| && (line[j] == ':' || (IsJsWhitespace(line[j]) && ColonAfterSpaces(line, j + 1)))
  }

  /** The key pattern `["']<key>["']\s*:` (flag `i`) matches at position `q`. */
  predicate KeyMatchAt(line: string, key: string, q: nat) {
    && q + |key| + 2 <= |line|
    && IsQuote(line[q])
    && SameIgnoringCase(line[q + 1..q + 1 + |key|], key)
    && IsQuote(line[q + 1 + |key|])
    && ColonAfterSpaces(line, q + 2 + |key|)
  }

  /** `keyPattern.test(line)`. The key is regex-escaped before it is put in
      the pattern, so the pattern matches the key literally. */
  predicate KeyPatternTest(line: string, key: string) {
    exists q :: 0 <= q <= |line| && KeyMatchAt(line, key, q)
  }

  /** `String(value)` in JavaScript. */
  function JsString(v: JsonValue): string {
    match v
    case Null => "null"
    case Bool(b) => if b then "true" else "false"
    case Number(n) => IntToString(n)
    case Str(s) => s
    case Array(xs) => JoinItems(xs, |xs|)
    case Object(_) => "[object Object]"
  }

  /** `Array.prototype.join(',')` over the first `n` items: a null item
      contributes the empty string. */
  function JoinItems(xs: seq<JsonValue>, n: nat): string
    requires n <= |xs|
    decreases Array(xs), n
  {
    if n == 0 then ""
    else
      var item := if xs[n - 1].Null? then "" else JsString(xs[n - 1]);
      if n == 1 then item else JoinItems(xs, n - 1) + "," + item
  }

  /** The text searched for a value: a string is escaped for regular
      expressions and quoted, anything else is rendered with `String`. */
  function ValueSearchText(v: JsonValue): string {
    if v.Str? then "\"" + EscapeRegex(v.s) + "\"" else JsString(v)
  }

  /** Index of the first line from `from` on that matches the key pattern. */
  function FirstKeyLine(lines: seq<string>, key: string, from: nat): (r: Option<nat>)
    ensures r.Some? ==> from <= r.value < |lines| && KeyPatternTest(lines[r.value], key)
    ensures r.Some? ==> forall j :: from <= j < r.value ==> !KeyPatternTest(lines[j], key)
    ensures r.None? ==> forall j :: from <= j < |lines| ==> !KeyPatternTest(lines[j], key)
    decreases |lines| - from
  {
    if from >= |lines| then None
    else if KeyPatternTest(lines[from], key) then Some(from)
    else FirstKeyLine(lines, key, from + 1)
  }

  /** Index of the first line from `from` on that contains `text`. */
  function FirstLineContaining(lines: seq<string>, text: string, from: nat): (r: Option<nat>)
    ensures r.Some? ==> from <= r.value < |lines| && Contains(lines[r.value], text)
    ensures r.Some? ==> forall j :: from <= j < r.value ==> !Contains(lines[j], text)
    ensures r.None? ==> forall j :: from <= j < |lines| ==> !Contains(lines[j], text)
    decreases |lines| - from
  {
    if from >= |lines| then None
    else if Contains(lines[from], text) then Some(from)
    else FirstLineContaining(lines, text, from + 1)
  }

  /** The key is searched only when given and non-empty (`if (searchKey)`). */
  predicate SearchesKey(key: Option<string>) {
    key.Some? && key.value != ""
  }

  /** The value is searched only when it is neither undefined nor null. */
  predicate SearchesValue(value: Option<JsonValue>) {
    value.Some? && !value.value.Null?
  }

  /** `findLineNumberInJson(text, value, key)`, where `None` stands for an
      undefined value or a null key. */
  function FindLine(text: string, value: Option<JsonValue>, key: Option<string>): (r: nat)
    ensures 1 <= r <= |Lines(text)|
    // A key found on some line wins over any value match.
    ensures SearchesKey(key) && FirstKeyLine(Lines(text), key.value, 0).Some? ==>
      r == FirstKeyLine(Lines(text), key.value, 0).value + 1
    // Any answer other than the fallback names a line that holds the key or the value.
    ensures r != 1 ==>
      (SearchesKey(key) && KeyPatternTest(Lines(text)[r - 1], key.value))
      || (SearchesValue(value) && Contains(Lines(text)[r - 1], ValueSearchText(value.value)))
  {
    var lines := Lines(text);
    var byKey := if SearchesKey(key) then FirstKeyLine(lines, key.value, 0) else None;
    if byKey.Some? then byKey.value + 1
    else if SearchesValue(value) then
      match FirstLineContaining(lines, ValueSearchText(value.value), 0)
      case Some(i) => i + 1
      case None => 1
    else 1
  }

  /** When neither the key nor the value occurs anywhere, the answer is line 1. */
  lemma FindLineFallback(text: string, value: Option<JsonValue>, key: Option<string>)
    requires SearchesKey(key) ==> forall j :: 0 <= j < |Lines(text)| ==> !KeyPatternTest(Lines(text)[j], key.value)
    requires SearchesValue(value) ==>
      forall j :: 0 <= j < |Lines(text)| ==> !Contains(Lines(text)[j], ValueSearchText(value.value))
    ensures FindLine(text, value, key) == 1
  {
  }

  /** A string value that holds a regular-expression metacharacter is searched
      for with a backslash inserted, so in a text without backslashes it is
      never found and the value search falls back to line 1. */
  lemma EscapedStringNeverMatches(text: string, s: string, i: nat)
    requires i < |s| && IsRegexMeta(s[i])
    requires '\\' !in text
    ensures FindLine(text, Some(Str(s)), None) == 1
  {
    var lines := Lines(text);
    var pattern := ValueSearchText(Str(s));
    assert '\\' in EscapeRegex(s);
    assert '\\' in pattern;
    forall j | 0 <= j < |lines|
      ensures !Contains(lines[j], pattern)
    {
      LineWithoutBackslash(lines, j, pattern);
    }
    FindLineFallback(text, Some(Str(s)), None);
  }

  /** A line of a text without backslashes contains no text that has one. */
  lemma LineWithoutBackslash(lines: seq<string>, j: nat, pattern: string)
    requires |lines| >= 1 && j < |lines|
    requires '\\' in pattern && '\\' !in JoinLines(lines)
    ensures !Contains(lines[j], pattern)
  {
    var line := lines[j];
    if '\\' in line {
      var p :| 0 <= p < |line| && line[p] == '\\';
      LineCharInText(lines, j, p);
    }
    NoOccurrenceWithout(line, pattern, '\\');
  }

  /** A text lacking one of the pattern's characters does not contain it. */
  lemma NoOccurrenceWithout(line: string, pattern: string, c: char)
    requires c in pattern && c !in line
    ensures !Contains(line, pattern)
  {
    forall q | 0 <= q <= |line| && OccursAt(line, pattern, q)
      ensures false
    {
    }
  }

  /** Every character of a line occurs in the text it was split from. */
  lemma {:induction false} LineCharInText(lines: seq<string>, j: nat, p: nat)
    requires |lines| >= 1 && j < |lines| && p < |lines[j]|
    ensures lines[j][p] in JoinLines(lines)
  {
    if |lines| > 1 {
      if j == 0 {
        assert JoinLines(lines) == lines[0] + "\n" + JoinLines(lines[1..]);
        assert JoinLines(lines)[p] == lines[0][p];
      } else {
        LineCharInText(lines[1..], j - 1, p);
        var rest := JoinLines(lines[1..]);
        var c := lines[j][p];
        var k :| 0 <= k < |rest| && rest[k] == c;
        assert JoinLines(lines) == lines[0] + "\n" + rest;
        assert JoinLines(lines)[|lines[0]| + 1 + k] == c;
      }
    }
  }

  /** `getLineFromJson(text, lineNumber)`: the trimmed line, or the empty
      string for a missing, non-positive or too large line number or an
      empty text. */
  function GetLineFromJson(text: string, lineNumber: Option<int>): (r: string)
    ensures r != "" ==>
      text != "" && lineNumber.Some? && 1 <= lineNumber.value <= |Lines(text)|
      && r == Trim(Lines(text)[lineNumber.value - 1])
    ensures text != "" && lineNumber.Some? && 1 <= lineNumber.value <= |Lines(text)| ==>
      r == Trim(Lines(text)[lineNumber.value - 1])
  {
    if text == "" || lineNumber.None? || lineNumber.value == 0 || lineNumber.value < 1 then ""
    else
      var lines := Lines(text);
      if lineNumber.value > |lines| then "" else Trim(lines[lineNumber.value - 1])
  }

  /** The source line `formatDiffValue` shows for a complex value: the
      trimmed line when the text and the line number are truthy, otherwise
      nothing. */
  function ShownLine(text: string, lineNumber: Option<int>, isComplex: bool): string {
    if isComplex && text != "" && lineNumber.Some? && lineNumber.value != 0
    then GetLineFromJson(text, lineNumber) else ""
  }

  /** `formatDiffValue(value, text, lineNumber, isComplex)`. `None` is an
      undefined value; `stringify` stands for `JSON.stringify`. A shown line
      wins; otherwise the value itself is rendered, and a serialisation of
      more than 100 characters is cut to its first 100 plus `...`. */
  function FormatDiffValue(value: Option<JsonValue>, text: string, lineNumber: Option<int>,
                           isComplex: bool, stringify: JsonValue -> string): (r: string)
    ensures ShownLine(text, lineNumber, isComplex) != "" ==> r == ShownLine(text, lineNumber, isComplex)
    ensures ShownLine(text, lineNumber, isComplex) == "" ==>
      (value.None? ==> r == "undefined")
      && (value == Some(Null) ==> r == "null")
      && (value.Some? && value.value.Str? ==> r == "\"" + value.value.s + "\"")
      && (value.Some? && (value.value.Array? || value.value.Object?) ==>
            (|stringify(value.value)| <= 100 ==> r == stringify(value.value))
            && (|stringify(value.value)| > 100 ==> r == stringify(value.value)[..100] + "..."))
      && (value.Some? && (value.value.Bool? || value.value.Number?) ==> r == JsString(value.value))
    ensures !isComplex && value.Some? && (value.value.Array? || value.value.Object?) ==>
      |r| <= 103 && stringify(value.value)[..Min(|stringify(value.value)|, 100)] <= r
  {
    var line := ShownLine(text, lineNumber, isComplex);
    if line != "" then line
    else match value
      case None => "undefined"
      case Some(Null) => "null"
      case Some(Str(s)) => "\"" + s + "\""
      case Some(Array(_)) => Clip(stringify(value.value))
      case Some(Object(_)) => Clip(stringify(value.value))
      case Some(v) => JsString(v)
  }

  /** `str.length > 100 ? str.substring(0, 100) + '...' : str`. */
  function Clip(str: string): string {
    if |str| > 100 then str[..100] + "..." else str
  }

  function Min(a: int, b: int): int {
    if a < b then a else b
  }

  /** The locator as the differ runs it: the early-returning scans over the
      lines of the text. */
  method FindLineNumberInJson(text: string, value: Option<JsonValue>, key: Option<string>)
    returns (line: nat)
    ensures line == FindLine(text, value, key)
  {
    var lines := Lines(text);
    if SearchesKey(key) {
      var i := 0;
      while i < |lines|
        invariant 0 <= i <= |lines|
        invariant forall j :: 0 <= j < i ==> !KeyPatternTest(lines[j], key.value)
      {
        if KeyPatternTest(lines[i], key.value) {
          return i + 1;
        }
        i := i + 1;
      }
    }
    if SearchesValue(value) {
      var valueText := ValueSearchText(value.value);
      var i := 0;
      while i < |lines|
        invariant 0 <= i <= |lines|
        invariant forall j :: 0 <= j < i ==> !Contains(lines[j], valueText)
      {
        if Contains(lines[i], valueText) {
          return i + 1;
        }
        i := i + 1;
      }
    }
    return 1;
  }
}
