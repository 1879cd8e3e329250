/** The path resolver of the backend (`get_value_at_jsonpath` in
    backend/json_finder.py): a character-by-character tokenizer for paths
    such as `$.a[0].b`, followed by a left-to-right descent in which every
    lookup failure yields Python's `None`, here the JSON `Null`. */
module Resolver {
  import opened Json
  import opened Text

  // ---------------------------------------------------------------------
  // Tokenizer

  /** The tokenizer's variables: the parts emitted so far, the text being
      collected, and whether the scan is inside brackets. */
  datatype Scan = Scan(parts: seq<string>, current: string, inBrackets: bool)

  const Start := Scan([], "", false)

  /** Emit the collected text as a part when it is not empty. */
  function Flush(parts: seq<string>, current: string): (r: seq<string>)
    ensures current == "" ==> r == parts
    ensures current != "" ==> r == parts + [current]
  {
    if current != "" then parts + [current] else parts
  }

  /** The effect of one character of the path. */
  function Step(s: Scan, c: char): Scan {
    if c == '[' then Scan(Flush(s.parts, s.current), "", true)
    else if c == ']' then
      if s.inBrackets && s.current != "" then Scan(s.parts + ["[" + s.current + "]"], "", false)
      else Scan(s.parts, s.current, false)
    else if c == '.' && !s.inBrackets then Scan(Flush(s.parts, s.current), "", false)
    else Scan(s.parts, s.current + [c], s.inBrackets)
  }

  /** The state after scanning `q` from `s`, one character at a time. */
  function ScanText(s: Scan, q: string): Scan {
    if q == [] then s else Step(ScanText(s, q[..|q| - 1]), q[|q| - 1])
  }

  /** The parts of a path with its `$` already removed. */
  function Parts(path: string): seq<string> {
    var s := ScanText(Start, path);
    Flush(s.parts, s.current)
  }

  /** The tokenizer loop of `get_value_at_jsonpath`. */
  method Tokenize(path: string) returns (parts: seq<string>)
    ensures parts == Parts(path)
    ensures forall i :: 0 <= i < |parts| ==> parts[i] != ""
  {
    parts := [];
    var current := "";
    var inBrackets := false;
    for i := 0 to |path|
      invariant Scan(parts, current, inBrackets) == ScanText(Start, path[..i])
    {
      var c := path[i];
      assert path[..i + 1][..i] == path[..i];
      if c == '[' {
        if current != "" {
          parts := parts + [current];
          current := "";
        }
        inBrackets := true;
      } else if c == ']' {
        if inBrackets && current != "" {
          parts := parts + ["[" + current + "]"];
          current := "";
        }
        inBrackets := false;
      } else if c == '.' && !inBrackets {
        if current != "" {
          parts := parts + [current];
          current := "";
        }
      } else {
        current := current + [c];
      }
    }
    assert path[..|path|] == path;
    if current != "" {
      parts := parts + [current];
    }
    PartsNonEmpty(path);
  }

  predicate NoEmptyPart(parts: seq<string>) {
    forall i :: 0 <= i < |parts| ==> parts[i] != ""
  }

  lemma {:induction false} ScanKeepsPartsNonEmpty(s: Scan, q: string)
    requires NoEmptyPart(s.parts)
    ensures NoEmptyPart(ScanText(s, q).parts)
  {
    if q != [] {
      ScanKeepsPartsNonEmpty(s, q[..|q| - 1]);
    }
  }

  /** The tokenizer never emits an empty part. */
  lemma PartsNonEmpty(path: string)
    ensures NoEmptyPart(Parts(path))
  {
    ScanKeepsPartsNonEmpty(Start, path);
  }

  /** Scanning a text in two pieces is scanning it whole. */
  lemma {:induction false} ScanTextAppend(s: Scan, p: string, q: string)
    ensures ScanText(s, p + q) == ScanText(ScanText(s, p), q)
  {
    if q == [] {
      assert p + q == p;
    } else {
      assert (p + q)[..|p + q| - 1] == p + q[..|q| - 1];
      assert (p + q)[|p + q| - 1] == q[|q| - 1];
      ScanTextAppend(s, p, q[..|q| - 1]);
      assert ScanText(s, p + q) == Step(ScanText(s, p + q[..|q| - 1]), q[|q| - 1]);
    }
  }

  lemma ScanOne(s: Scan, c: char)
    ensures ScanText(s, [c]) == Step(s, c)
  {
    assert [c][..0] == [];
  }

  /** A character that neither opens nor closes brackets. */
  predicate Plain(c: char) {
    c != '[' && c != ']'
  }

  /** Characters other than brackets, and other than `.` outside brackets,
      are collected. */
  lemma {:induction false} ScanCollects(s: Scan, q: string)
    requires forall i :: 0 <= i < |q| ==> Plain(q[i]) && (q[i] == '.' ==> s.inBrackets)
    ensures ScanText(s, q) == Scan(s.parts, s.current + q, s.inBrackets)
  {
    if q != [] {
      var init := q[..|q| - 1];
      ScanCollects(s, init);
      assert s.current + init + [q[|q| - 1]] == s.current + q;
    }
  }

  /** A bracketed segment becomes one part, brackets included, whatever it
      holds besides brackets: a `.` inside brackets does not split. Text
      collected before it is emitted first. */
  lemma BracketSegment(s: Scan, c: string)
    requires !s.inBrackets && c != ""
    requires forall i :: 0 <= i < |c| ==> Plain(c[i])
    ensures ScanText(s, "[" + c + "]") == Scan(Flush(s.parts, s.current) + ["[" + c + "]"], "", false)
  {
    var inside := Scan(Flush(s.parts, s.current), "", true);
    ScanOne(s, '[');
    ScanTextAppend(s, "[", c);
    ScanCollects(inside, c);
    assert "" + c == c;
    var collected := Scan(Flush(s.parts, s.current), c, true);
    assert ScanText(s, "[" + c) == collected;
    ScanTextAppend(s, "[" + c, "]");
    ScanOne(collected, ']');
  }

  /** A dotted key outside brackets: the text collected before it is emitted,
      and the key is collected. */
  lemma KeySegment(s: Scan, k: string)
    requires !s.inBrackets
    requires forall i :: 0 <= i < |k| ==> Plain(k[i]) && k[i] != '.'
    ensures ScanText(s, "." + k) == Scan(Flush(s.parts, s.current), k, false)
  {
    var dotted := Scan(Flush(s.parts, s.current), "", false);
    ScanOne(s, '.');
    ScanTextAppend(s, ".", k);
    ScanCollects(dotted, k);
  }

  // ---------------------------------------------------------------------
  // Paths built by the tree viewer

  /** A step of a path: a member key or an array index. */
  datatype Segment = KeySeg(key: string) | IndexSeg(index: nat)

  /** A key the tree can write after a dot and read back: non-empty and free
      of `.`, `[` and `]`. */
  predicate PathKey(k: string) {
    k != "" && forall i :: 0 <= i < |k| ==> Plain(k[i]) && k[i] != '.'
  }

  predicate PathKeys(segs: seq<Segment>) {
    forall i :: 0 <= i < |segs| ==> segs[i].KeySeg? ==> PathKey(segs[i].key)
  }

  /** The text of a segment as the tree writes it: `.key` or `[i]`. */
  function SegmentText(seg: Segment): string {
    match seg
    case KeySeg(k) => "." + k
    case IndexSeg(i) => "[" + NatToString(i) + "]"
  }

  /** The path after its leading `$` (or the tree's `x`). */
  function Build(segs: seq<Segment>): string {
    if segs == [] then "" else Build(segs[..|segs| - 1]) + SegmentText(segs[|segs| - 1])
  }

  /** The part the tokenizer should emit for a segment. */
  function PartOf(seg: Segment): string {
    match seg
    case KeySeg(k) => k
    case IndexSeg(i) => "[" + NatToString(i) + "]"
  }

  function PartsOf(segs: seq<Segment>): (ps: seq<string>)
    ensures |ps| == |segs|
    ensures forall i :: 0 <= i < |segs| ==> ps[i] == PartOf(segs[i])
  {
    if segs == [] then [] else PartsOf(segs[..|segs| - 1]) + [PartOf(segs[|segs| - 1])]
  }

  /** The scan state after a built path: the segments before the last are
      emitted, and a final key is still being collected. */
  function Pending(segs: seq<Segment>): Scan {
    if segs == [] then Start
    else
      var init, last := segs[..|segs| - 1], segs[|segs| - 1];
      if last.KeySeg? then Scan(PartsOf(init), last.key, false)
      else Scan(PartsOf(segs), "", false)
  }

  lemma {:induction false} ScanBuilt(segs: seq<Segment>)
    requires PathKeys(segs)
    ensures ScanText(Start, Build(segs)) == Pending(segs)
  {
    if segs != [] {
      var init, last := segs[..|segs| - 1], segs[|segs| - 1];
      assert PathKeys(init) by {
        assert forall i :: 0 <= i < |init| ==> init[i] == segs[i];
      }
      ScanBuilt(init);
      var s := Pending(init);
      assert Flush(s.parts, s.current) == PartsOf(init);
      ScanTextAppend(Start, Build(init), SegmentText(last));
      match last
      case KeySeg(k) =>
        KeySegment(s, k);
      case IndexSeg(i) =>
        var digits := NatToString(i);
        BracketSegment(s, digits);
    }
  }

  /** Round trip: the path the tree builds for a node tokenizes back to its
      segments, in order. */
  lemma TokenizeBuiltPath(segs: seq<Segment>)
    requires PathKeys(segs)
    ensures Parts(Build(segs)) == PartsOf(segs)
  {
    ScanBuilt(segs);
    if segs != [] && segs[|segs| - 1].KeySeg? {
      assert PartsOf(segs) == PartsOf(segs[..|segs| - 1]) + [segs[|segs| - 1].key];
    }
  }

  // ---------------------------------------------------------------------
  // Python's int() and indexing

  /** What `str.strip()` removes: the ASCII white space characters. */
  predicate IsPyWhitespace(c: char) {
    c == ' ' || c == '\t' || c == '\n' || c == '\r' || c == '\U{B}' || c == '\U{C}'
    || ('\U{1C}' <= c <= '\U{1F}')
  }

  function StripStart(s: string): (r: string)
    ensures |r| <= |s| && r == s[|s| - |r|..]
    ensures r != [] ==> !IsPyWhitespace(r[0])
    ensures forall i :: 0 <= i < |s| - |r| ==> IsPyWhitespace(s[i])
  {
    if s != [] && IsPyWhitespace(s[0]) then StripStart(s[1..]) else s
  }

  function StripEnd(s: string): (r: string)
    ensures |r| <= |s| && r == s[..|r|]
    ensures r != [] ==> !IsPyWhitespace(r[|r| - 1])
    ensures forall i :: |r| <= i < |s| ==> IsPyWhitespace(s[i])
  {
    if s != [] && IsPyWhitespace(s[|s| - 1]) then StripEnd(s[..|s| - 1]) else s
  }

  /** Decimal digits, with single underscores allowed between digits. */
  predicate DigitGroups(s: string) {
    && s != []
    && IsDigit(s[0]) && IsDigit(s[|s| - 1])
    && (forall i :: 0 <= i < |s| ==> IsDigit(s[i]) || s[i] == '_')
    && (forall i :: 0 <= i < |s| - 1 ==> s[i] == '_' ==> s[i + 1] != '_')
  }

  function DropUnderscores(s: string): (r: string)
    requires forall i :: 0 <= i < |s| ==> IsDigit(s[i]) || s[i] == '_'
    ensures forall i :: 0 <= i < |r| ==> IsDigit(r[i])
    ensures (forall i :: 0 <= i < |s| ==> IsDigit(s[i])) ==> r == s
  {
    if s == [] then []
    else
      var rest := DropUnderscores(s[..|s| - 1]);
      if s[|s| - 1] == '_' then rest else rest + [s[|s| - 1]]
  }

  /** `int(s)` on a string: surrounding white space, an optional sign and
      decimal digits; `None` stands for the `ValueError`. */
  function PyInt(s: string): Option<int> {
    SignedDigits(StripEnd(StripStart(s)))
  }

  /** An optional sign followed by digit groups. */
  function SignedDigits(t: string): Option<int> {
    if t == [] then None
    else
      var negative := t[0] == '-';
      var body := if t[0] == '-' || t[0] == '+' then t[1..] else t;
      if !DigitGroups(body) then None
      else
        var n: int := DigitsValue(DropUnderscores(body));
        Some(if negative then -n else n)
  }

  /** The decimal rendering of an index, as the tree writes it, reads back as
      that index. */
  lemma PyIntOfDecimal(n: nat)
    ensures PyInt(NatToString(n)) == Some(n)
  {
    var s := NatToString(n);
    DigitsStrip(s);
    assert DigitGroups(s);
    assert DropUnderscores(s) == s;
    assert s[0] != '-' && s[0] != '+';
    DigitsValueOfNatToString(n);
    assert SignedDigits(s) == Some(n);
  }

  /** Python's `strip` leaves a string of digits alone. */
  lemma DigitsStrip(s: string)
    requires s != [] && forall i :: 0 <= i < |s| ==> IsDigit(s[i])
    ensures StripEnd(StripStart(s)) == s
  {
    assert !IsPyWhitespace(s[0]);
    assert StripStart(s) == s;
    assert !IsPyWhitespace(s[|s| - 1]);
  }

  /** The position `i` selects in a sequence of length `len`, counting from
      the end when negative; `None` is the `IndexError`. */
  function PyIndex(len: nat, i: int): (r: Option<nat>)
    ensures r.Some? <==> -(len as int) <= i < len
    ensures r.Some? ==> r.value < len && (r.value == i || r.value == i + len)
  {
    if -(len as int) <= i < len then Some(if i < 0 then i + len else i) else None
  }

  /** A part written `[...]`: an index. */
  predicate Bracketed(part: string) {
    |part| >= 2 && part[0] == '[' && part[|part| - 1] == ']'
  }

  /** One step of the descent: `result[index]` for a bracketed part,
      `result[part]` otherwise; `None` stands for a caught exception. A
      string indexed by an integer gives its one-character substring. */
  function Child(v: JsonValue, part: string): Option<JsonValue> {
    if Bracketed(part) then
      match PyInt(part[1..|part| - 1])
      case None => None
      case Some(i) => ItemAt(v, i)
    else MemberAt(v, part)
  }

  /** `result[index]` with an integer index: an array item or a one-character
      substring; a dictionary has no integer keys and other values cannot be
      indexed. */
  function ItemAt(v: JsonValue, i: int): (r: Option<JsonValue>)
    ensures r.Some? <==> (v.Array? && -|v.items| <= i < |v.items|) || (v.Str? && -|v.s| <= i < |v.s|)
  {
    match v
    case Array(xs) => (match PyIndex(|xs|, i) case Some(j) => Some(xs[j]) case None => None)
    case Str(s) => (match PyIndex(|s|, i) case Some(j) => Some(Str([s[j]])) case None => None)
    case _ => None
  }

  /** `result[key]` with a string key: only a dictionary holding the key
      answers. */
  function MemberAt(v: JsonValue, key: string): (r: Option<JsonValue>)
    ensures r.Some? <==> v.Object? && key in Keys(v.members)
  {
    match v
    case Object(ms) => (match Find(ms, key) case Some(j) => Some(ms[j].value) case None => None)
    case _ => None
  }

  /** A key step looks the key up in an object and fails on a missing key
      or on any other kind of value. */
  lemma KeyChild(v: JsonValue, k: string)
    requires PathKey(k)
    ensures v.Object? && k in Keys(v.members) ==>
      Child(v, k) == Some(v.members[Find(v.members, k).value].value)
    ensures !v.Object? || k !in Keys(v.members) ==> Child(v, k) == None
  {
    assert !Bracketed(k) by {
      assert Plain(k[0]);
    }
  }

  /** An index step written by the tree selects the array item, and fails
      past the end of the array or on an object, a number, a boolean or
      null. */
  lemma IndexChild(v: JsonValue, i: nat)
    ensures v.Array? && i < |v.items| ==> Child(v, PartOf(IndexSeg(i))) == Some(v.items[i])
    ensures v.Array? && i >= |v.items| ==> Child(v, PartOf(IndexSeg(i))) == None
    ensures !v.Array? && !v.Str? ==> Child(v, PartOf(IndexSeg(i))) == None
  {
    var part := PartOf(IndexSeg(i));
    assert Bracketed(part);
    assert part[1..|part| - 1] == NatToString(i);
    PyIntOfDecimal(i);
    assert Child(v, part) == ItemAt(v, i);
  }

  /** A bracket whose content holds no digit fails on any value. */
  lemma NonIntegerBracket(v: JsonValue, c: string)
    requires forall j :: 0 <= j < |c| ==> !IsDigit(c[j])
    ensures Child(v, "[" + c + "]") == None
  {
    var part := "[" + c + "]";
    assert part[1..|part| - 1] == c;
    PyIntNeedsDigit(c);
  }

  lemma PyIntNeedsDigit(c: string)
    requires forall j :: 0 <= j < |c| ==> !IsDigit(c[j])
    ensures PyInt(c) == None
  {
    var a := StripStart(c);
    assert forall j :: 0 <= j < |a| ==> a[j] == c[|c| - |a| + j];
    var t := StripEnd(a);
    assert forall j :: 0 <= j < |t| ==> t[j] == a[j];
    if t != [] {
      var body := if t[0] == '-' || t[0] == '+' then t[1..] else t;
      if body != [] {
        assert body[0] == t[|t| - |body|];
        assert !IsDigit(body[0]);
      }
    }
  }

  /** The descent through the parts, left to right. */
  function Navigate(v: JsonValue, parts: seq<string>): Option<JsonValue>
    decreases |parts|
  {
    if parts == [] then Some(v)
    else
      match Child(v, parts[0])
      case None => None
      case Some(c) => Navigate(c, parts[1..])
  }

  /** `get_value_at_jsonpath(obj, jsonpath)`. */
  function ValueAtPath(obj: JsonValue, jsonpath: string): (r: JsonValue)
    ensures jsonpath == "" || jsonpath == "$" ==> r == obj
  {
    if jsonpath == "" || jsonpath == "$" then obj
    else
      var path := if jsonpath[0] == '$' then jsonpath[1..] else jsonpath;
      if path == "" then obj
      else Navigate(obj, Parts(path)).GetOr(Null)
  }

  /** The resolver as the backend runs it: the tokenizer loop, then the
      descent loop, which stops at the first failing lookup. */
  method GetValueAtJsonPath(obj: JsonValue, jsonpath: string) returns (r: JsonValue)
    ensures r == ValueAtPath(obj, jsonpath)
  {
    if jsonpath == "" || jsonpath == "$" {
      return obj;
    }
    var path := if jsonpath[0] == '$' then jsonpath[1..] else jsonpath;
    if path == "" {
      return obj;
    }
    var parts := Tokenize(path);
    var result := obj;
    for i := 0 to |parts|
      invariant Navigate(obj, parts) == Navigate(result, parts[i..])
    {
      NavigateStep(result, parts, i);
      var next := Child(result, parts[i]);
      if next.None? {
        return Null;
      }
      result := next.value;
    }
    assert parts[|parts|..] == [];
    return result;
  }

  lemma NavigateStep(v: JsonValue, parts: seq<string>, i: nat)
    requires i < |parts|
    ensures Navigate(v, parts[i..]) ==
      match Child(v, parts[i]) case None => None case Some(c) => Navigate(c, parts[i + 1..])
  {
    assert parts[i..][0] == parts[i];
    assert parts[i..][1..] == parts[i + 1..];
  }

  /** A leading `$` is optional: `$.a` resolves like `.a`. */
  lemma DollarPrefixIgnored(obj: JsonValue, p: string)
    requires p == "" || p[0] != '$'
    ensures ValueAtPath(obj, "$" + p) == ValueAtPath(obj, p)
  {
    if p != "" {
      assert ("$" + p)[1..] == p;
    }
  }

  /** The value the tree shows for a node: key steps into objects, index
      steps into arrays. */
  function Descend(v: JsonValue, segs: seq<Segment>): Option<JsonValue> {
    if segs == [] then Some(v)
    else
      match (segs[0], v)
      case (KeySeg(k), Object(ms)) =>
        (match Find(ms, k) case Some(j) => Descend(ms[j].value, segs[1..]) case None => None)
      case (IndexSeg(i), Array(xs)) =>
        if i < |xs| then Descend(xs[i], segs[1..]) else None
      case _ => None
  }

  lemma {:induction false} NavigateParts(v: JsonValue, segs: seq<Segment>)
    requires PathKeys(segs)
    ensures Descend(v, segs).Some? ==> Navigate(v, PartsOf(segs)) == Descend(v, segs)
  {
    if segs != [] && Descend(v, segs).Some? {
      var seg, ps := segs[0], PartsOf(segs);
      assert ps[0] == PartOf(seg);
      assert ps[1..] == PartsOf(segs[1..]);
      assert PathKeys(segs[1..]) by {
        assert forall i :: 0 <= i < |segs| - 1 ==> segs[1..][i] == segs[i + 1];
      }
      match seg
      case KeySeg(k) =>
        assert PathKey(segs[0].key);
        KeyChild(v, k);
        NavigateParts(v.members[Find(v.members, k).value].value, segs[1..]);
      case IndexSeg(i) =>
        IndexChild(v, i);
        NavigateParts(v.items[i], segs[1..]);
    }
  }

  /** A path the tree built for a node (`$` followed by `.key` and `[i]`
      steps) resolves back to that node. */
  lemma ResolveBuiltPath(obj: JsonValue, segs: seq<Segment>)
    requires PathKeys(segs)
    requires Descend(obj, segs).Some?
    ensures ValueAtPath(obj, "$" + Build(segs)) == Descend(obj, segs).value
  {
    if segs == [] {
      assert "$" + Build(segs) == "$";
    } else {
      var p := Build(segs);
      assert p != "" && p[0] == SegmentText(segs[0])[0] by {
        BuildStartsWithFirst(segs);
      }
      DollarPrefixIgnored(obj, p);
      TokenizeBuiltPath(segs);
      NavigateParts(obj, segs);
    }
  }

  lemma {:induction false} BuildStartsWithFirst(segs: seq<Segment>)
    requires segs != []
    ensures Build(segs) != "" && Build(segs)[0] == SegmentText(segs[0])[0]
  {
    if |segs| > 1 {
      BuildStartsWithFirst(segs[..|segs| - 1]);
    } else {
      assert Build(segs) == Build([]) + SegmentText(segs[0]);
    }
  }

  /** A key the object lacks resolves to `Null`, as does an index past the
      end of an array. */
  lemma MissingStepsGiveNull(ms: seq<Member>, k: string, xs: seq<JsonValue>, i: nat)
    requires PathKey(k) && k !in Keys(ms)
    requires i >= |xs|
    ensures ValueAtPath(Object(ms), "$" + Build([KeySeg(k)])) == Null
    ensures ValueAtPath(Array(xs), "$" + Build([IndexSeg(i)])) == Null
  {
    SingleStepPath(Object(ms), KeySeg(k));
    SingleStepPath(Array(xs), IndexSeg(i));
    KeyChild(Object(ms), k);
    IndexChild(Array(xs), i);
  }

  /** A one-step path resolves by one step of the descent. */
  lemma SingleStepPath(v: JsonValue, seg: Segment)
    requires PathKeys([seg])
    ensures ValueAtPath(v, "$" + Build([seg])) == Navigate(v, [PartOf(seg)]).GetOr(Null)
  {
    TokenizeBuiltPath([seg]);
    BuildStartsWithFirst([seg]);
    assert SegmentText(seg)[0] == '.' || SegmentText(seg)[0] == '[';
    assert PartsOf([seg]) == [PartOf(seg)];
    DollarPrefixIgnored(v, Build([seg]));
  }
}
