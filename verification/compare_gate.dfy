/** The input gate that `compareJson` (frontend/compareJson.js) runs before
    any differ, and the comparison state it writes: the result, the error
    message, the busy flag and the two sets of line numbers highlighted in
    the editors. */
module CompareGate {
  import opened Json
  import opened Text
  import opened LineLocator
  import opened Normalization
  import opened Differ
  import opened DifferProperties

  /** What the gate decides: an error message, the shortcut for
      semantically identical documents, or a run of the differ. Only the
      last of the rejections, the one for inputs without content, also
      resets the busy flag. */
  datatype Outcome = Rejected(message: string, clearsBusy: bool) | Identical | RunDiff

  const FixErrorsMessage := "Please fix JSON errors before comparing."
  const RequiredMessage := "Both JSON inputs are required."

  /** A text with content: not blank once trimmed, and not the empty object
      literal `{}`. */
  predicate HasContent(text: string) {
    Trim(text) != "" && Trim(text) != "{}"
  }

  /** The checks at the top of `compareJson`, in order. `hasError1` and
      `hasError2` are the validation errors recorded for each editor;
      `parse` stands for `JSON.parse`. */
  function Gate(hasError1: bool, hasError2: bool, json1: string, json2: string,
                parse: string -> Result<JsonValue, string>): (o: Outcome)
    ensures hasError1 || hasError2 <==> o == Rejected(FixErrorsMessage, false)
    ensures o == Identical ==> SemanticallyIdentical(parse, json1, json2)
    ensures o.Identical? || o.RunDiff? ==>
      !hasError1 && !hasError2 && HasContent(json1) && HasContent(json2)
      && parse(json1).Ok? && parse(json2).Ok?
    ensures o == RunDiff ==> !SemanticallyIdentical(parse, json1, json2)
    ensures (!hasError1 && !hasError2 && HasContent(json1) && HasContent(json2)
             && parse(json1).Ok? && parse(json2).Ok?) ==> !o.Rejected?
  {
    if hasError1 || hasError2 then Rejected(FixErrorsMessage, false)
    else if Trim(json1) == "" || Trim(json2) == "" then Rejected(RequiredMessage, false)
    else if parse(json1).Err? then InvalidJson(parse(json1).error)
    else if parse(json2).Err? then InvalidJson(parse(json2).error)
    else if !HasContent(json1) || !HasContent(json2) then Rejected(RequiredMessage, true)
    else if SemanticallyIdentical(parse, json1, json2) then Identical
    else RunDiff
  }

  /** The rejection for a text `JSON.parse` refuses; it never reads like the
      rejection for validation errors. */
  function InvalidJson(message: string): (o: Outcome)
    ensures o.Rejected? && !o.clearsBusy && o.message != FixErrorsMessage
  {
    var text := "Invalid JSON: " + message;
    assert text[0] != FixErrorsMessage[0];
    Rejected(text, false)
  }

  /** A blank input is reported as missing before the parser sees it, and a
      parse failure of the first text is reported with the parser's message. */
  lemma GateErrorOrder(json1: string, json2: string, parse: string -> Result<JsonValue, string>)
    ensures Trim(json1) == "" ==> Gate(false, false, json1, json2, parse) == Rejected(RequiredMessage, false)
    ensures Trim(json1) != "" && Trim(json2) != "" && parse(json1).Err? ==>
      Gate(false, false, json1, json2, parse) == Rejected("Invalid JSON: " + parse(json1).error, false)
    ensures Trim(json1) == "{}" && parse(json1).Ok? && parse(json2).Ok? && Trim(json2) != "" ==>
      Gate(false, false, json1, json2, parse) == Rejected(RequiredMessage, true)
  {
  }

  /** The shortcut is sound and complete for the differ: with documents that
      `JSON.parse` could have produced (no repeated keys) and that have no
      `__proto__` key, the gate says identical exactly when the differ would
      report nothing. */
  lemma GateAgreesWithDiffer(hasError1: bool, hasError2: bool, json1: string, json2: string,
                             parse: string -> Result<JsonValue, string>)
    requires parse(json1).Ok? ==> WellFormed(parse(json1).value) && ProtoFree(parse(json1).value)
    requires parse(json2).Ok? ==> WellFormed(parse(json2).value) && ProtoFree(parse(json2).value)
    ensures Gate(hasError1, hasError2, json1, json2, parse) == Identical ==>
      Diff(parse(json1).value, parse(json2).value, RootPath, LocatorOf(json1), LocatorOf(json2)) == []
    ensures Gate(hasError1, hasError2, json1, json2, parse) == RunDiff ==>
      Diff(parse(json1).value, parse(json2).value, RootPath, LocatorOf(json1), LocatorOf(json2)) != []
  {
    var o := Gate(hasError1, hasError2, json1, json2, parse);
    if o.Identical? || o.RunDiff? {
      SemanticallyIdenticalOfProtoFree(parse, json1, json2);
      DiffEmptyIffSameNormalForm(parse(json1).value, parse(json2).value, RootPath,
                                 LocatorOf(json1), LocatorOf(json2));
    }
  }

  /** The check as evidently intended agrees with the differ on every pair of
      documents `JSON.parse` could have produced, `__proto__` keys included. */
  lemma SameNormalFormIffNoDiff(json1: string, json2: string, parse: string -> Result<JsonValue, string>)
    requires parse(json1).Ok? && WellFormed(parse(json1).value)
    requires parse(json2).Ok? && WellFormed(parse(json2).value)
    ensures SameNormalForm(parse, json1, json2) <==>
      Diff(parse(json1).value, parse(json2).value, RootPath, LocatorOf(json1), LocatorOf(json2)) == []
  {
    DiffEmptyIffSameNormalForm(parse(json1).value, parse(json2).value, RootPath,
                               LocatorOf(json1), LocatorOf(json2));
  }

  /** The shortcut as written: `normalizeJson` stores each member with
      `normalized[key] = …`, and for the key `__proto__` that assignment sets
      the prototype instead, so the member vanishes from the `JSON.stringify`
      text. `{"__proto__":1}` and `{"__proto__":2}` are then declared
      identical although the differ reports a value mismatch. */
  lemma ProtoKeyShortcut(parse: string -> Result<JsonValue, string>)
    requires parse("{\"__proto__\":1}") == Ok(Object([Member(ProtoKey, Number(1))]))
    requires parse("{\"__proto__\":2}") == Ok(Object([Member(ProtoKey, Number(2))]))
    ensures Gate(false, false, "{\"__proto__\":1}", "{\"__proto__\":2}", parse) == Identical
    ensures Diff(parse("{\"__proto__\":1}").value, parse("{\"__proto__\":2}").value, RootPath,
                 LocatorOf("{\"__proto__\":1}"), LocatorOf("{\"__proto__\":2}")) != []
  {
    var t1, t2 := "{\"__proto__\":1}", "{\"__proto__\":2}";
    BracedHasContent(t1);
    BracedHasContent(t2);
    ProtoOnlyShortcut(t1, t2, parse, 1, 2);
  }

  /** A text that starts with `{`, ends with `}` and is longer than `{}`
      has content. */
  lemma BracedHasContent(t: string)
    requires |t| > 2 && t[0] == '{' && t[|t| - 1] == '}'
    ensures HasContent(t)
  {
    assert TrimStart(t) == t;
    assert TrimEnd(t) == t;
  }

  /** Two documents whose only member is `__proto__`, with different
      numbers: the gate takes the shortcut and the differ disagrees. */
  lemma ProtoOnlyShortcut(t1: string, t2: string, parse: string -> Result<JsonValue, string>, n1: int, n2: int)
    requires HasContent(t1) && HasContent(t2) && n1 != n2
    requires parse(t1) == Ok(Object([Member(ProtoKey, Number(n1))]))
    requires parse(t2) == Ok(Object([Member(ProtoKey, Number(n2))]))
    ensures Gate(false, false, t1, t2, parse) == Identical
    ensures Diff(parse(t1).value, parse(t2).value, RootPath, LocatorOf(t1), LocatorOf(t2)) != []
  {
    ProtoOnlyNormalizesEmpty(Number(n1));
    ProtoOnlyNormalizesEmpty(Number(n2));
    assert SemanticallyIdentical(parse, t1, t2);
    ProtoOnlyDiffers(n1, n2, LocatorOf(t1), LocatorOf(t2));
  }

  /** `normalizeJson` of an object whose only member is `__proto__` is the
      empty object. */
  lemma ProtoOnlyNormalizesEmpty(x: JsonValue)
    ensures NormalizeJson(Object([Member(ProtoKey, x)])) == Object([])
  {
    assert DropProtoFrom([Member(ProtoKey, x)], 0) == [];
  }

  /** The differ does see the `__proto__` member. */
  lemma ProtoOnlyDiffers(n1: int, n2: int, line1: Locate, line2: Locate)
    requires n1 != n2
    ensures Diff(Object([Member(ProtoKey, Number(n1))]), Object([Member(ProtoKey, Number(n2))]),
                 RootPath, line1, line2) != []
  {
    var a, b := Object([Member(ProtoKey, Number(n1))]), Object([Member(ProtoKey, Number(n2))]);
    SingletonNormalForm(ProtoKey, Number(n1));
    SingletonNormalForm(ProtoKey, Number(n2));
    DiffEmptyIffSameNormalForm(a, b, RootPath, line1, line2);
  }

  /** An object with a single primitive member is its own normal form. */
  lemma SingletonNormalForm(k: string, x: JsonValue)
    requires !x.Array? && !x.Object?
    ensures Normalize(Object([Member(k, x)])) == Object([Member(k, x)])
  {
    var ms := [Member(k, x)];
    assert NormalizeMembers(ms) == ms;
    assert ms[..0] == [];
    assert SortByKey(ms) == Insert(ms[0], SortByKey([]));
  }

  // ---------------------------------------------------------------------
  // Highlighted line numbers

  /** A line number that is present and truthy (`if (diff.json1_line)`). */
  predicate Truthy(line: Option<nat>) {
    line.Some? && line.value != 0
  }

  /** The line numbers of the first document named by the records. */
  ghost function Lines1(records: seq<DiffRecord>): set<nat> {
    set i, r | 0 <= i < |records| && r == records[i] && Truthy(r.line1) :: r.line1.value
  }

  ghost function Lines2(records: seq<DiffRecord>): set<nat> {
    set i, r | 0 <= i < |records| && r == records[i] && Truthy(r.line2) :: r.line2.value
  }

  /** What the comparison result holds: nothing yet, the identical shortcut,
      or the records of a differ run. */
  datatype DiffResult = NoResult | IdenticalResult | Detailed(records: seq<DiffRecord>)

  class CompareState {
    var diffResult: DiffResult
    var comparing: bool
    var error: Option<string>
    var diffLinesJson1: set<nat>
    var diffLinesJson2: set<nat>

    constructor ()
      ensures diffResult == NoResult && !comparing && error == None
      ensures diffLinesJson1 == {} && diffLinesJson2 == {}
    {
      diffResult := NoResult;
      comparing := false;
      error := None;
      diffLinesJson1 := {};
      diffLinesJson2 := {};
    }

    /** `clearComparisonResults`. */
    method ClearComparisonResults()
      modifies this
      ensures diffResult == NoResult && !comparing && error == None
      ensures diffLinesJson1 == {} && diffLinesJson2 == {}
    {
      diffResult := NoResult;
      error := None;
      comparing := false;
      diffLinesJson1 := {};
      diffLinesJson2 := {};
    }

    /** `extractDiffLineNumbers(result)`: the sets are emptied, then filled
        with the truthy line numbers of the detailed records. */
    method ExtractDiffLineNumbers(result: DiffResult)
      modifies this
      ensures diffLinesJson1 == (if result.Detailed? then Lines1(result.records) else {})
      ensures diffLinesJson2 == (if result.Detailed? then Lines2(result.records) else {})
      ensures diffResult == old(diffResult) && comparing == old(comparing) && error == old(error)
    {
      diffLinesJson1 := {};
      diffLinesJson2 := {};
      if !result.Detailed? {
        return;
      }
      var records := result.records;
      var i := 0;
      while i < |records|
        invariant 0 <= i <= |records|
        invariant diffLinesJson1 == Lines1(records[..i])
        invariant diffLinesJson2 == Lines2(records[..i])
        invariant diffResult == old(diffResult) && comparing == old(comparing) && error == old(error)
      {
        var r := records[i];
        LinesOfSnoc(records, i);
        if Truthy(r.line1) {
          diffLinesJson1 := diffLinesJson1 + {r.line1.value};
        }
        if Truthy(r.line2) {
          diffLinesJson2 := diffLinesJson2 + {r.line2.value};
        }
        i := i + 1;
      }
      assert records[..i] == records;
    }

    /** The state changes the gate makes before any differ runs: an error
        clears the result, the identical shortcut stores it, and a differ run
        marks the comparison as busy. */
    method ApplyGate(outcome: Outcome)
      modifies this
      ensures outcome.Rejected? ==> error == Some(outcome.message) && diffResult == NoResult
      ensures outcome.Rejected? ==> comparing == (old(comparing) && !outcome.clearsBusy)
      ensures outcome.Identical? ==> diffResult == IdenticalResult && !comparing && error == None
      ensures outcome.RunDiff? ==> comparing && error == None && diffResult == old(diffResult)
      ensures diffLinesJson1 == old(diffLinesJson1) && diffLinesJson2 == old(diffLinesJson2)
    {
      match outcome
      case Rejected(message, clearsBusy) =>
        error := Some(message);
        diffResult := NoResult;
        if clearsBusy {
          comparing := false;
        }
      case Identical =>
        comparing := false;
        error := None;
        diffResult := IdenticalResult;
      case RunDiff =>
        comparing := true;
        error := None;
    }
  }

  lemma LinesOfSnoc(records: seq<DiffRecord>, i: nat)
    requires i < |records|
    ensures Lines1(records[..i + 1]) ==
      Lines1(records[..i]) + (if Truthy(records[i].line1) then {records[i].line1.value} else {})
    ensures Lines2(records[..i + 1]) ==
      Lines2(records[..i]) + (if Truthy(records[i].line2) then {records[i].line2.value} else {})
  {
    var p, q := records[..i], records[..i + 1];
    assert forall j :: 0 <= j < i ==> q[j] == p[j];
    assert q[i] == records[i];
  }

  // ---------------------------------------------------------------------
  // Every highlighted line exists

  /** The locator answers with a line of a text of `n` lines. */
  ghost predicate LocatesWithin(line: Locate, n: nat) {
    forall v, k :: 1 <= line(v, k) <= n
  }

  predicate LineWithin(line: Option<nat>, n: nat) {
    line.Some? ==> 1 <= line.value <= n
  }

  predicate RecordsWithin(rs: seq<DiffRecord>, n1: nat, n2: nat) {
    forall i :: 0 <= i < |rs| ==> LineWithin(rs[i].line1, n1) && LineWithin(rs[i].line2, n2)
  }

  lemma LocatorOfWithin(text: string)
    ensures LocatesWithin(LocatorOf(text), |Lines(text)|)
  {
    forall v, k ensures 1 <= LocatorOf(text)(v, k) <= |Lines(text)| {
      assert LocatorOf(text)(v, k) == FindLine(text, v, k);
    }
  }

  lemma RecordsWithinAppend(a: seq<DiffRecord>, b: seq<DiffRecord>, n1: nat, n2: nat)
    requires RecordsWithin(a, n1, n2) && RecordsWithin(b, n1, n2)
    ensures RecordsWithin(a + b, n1, n2)
  {
    forall i | 0 <= i < |a + b|
      ensures LineWithin((a + b)[i].line1, n1) && LineWithin((a + b)[i].line2, n2)
    {
      if i >= |a| {
        assert (a + b)[i] == b[i - |a|];
      }
    }
  }

  lemma {:induction false} DiffWithin(a: JsonValue, b: JsonValue, path: string,
                                      line1: Locate, line2: Locate, n1: nat, n2: nat)
    requires LocatesWithin(line1, n1) && LocatesWithin(line2, n2)
    ensures RecordsWithin(Diff(a, b, path, line1, line2), n1, n2)
    decreases a, 2
  {
    if TypeOf(a) == TypeOf(b) {
      match a
      case Object(o1) => KeysDiffWithin(o1, b.members, AllKeys(o1, b.members), path, line1, line2, n1, n2);
      case Array(xs) => ItemsDiffWithin(xs, b.items, Max(|xs|, |b.items|), path, line1, line2, n1, n2);
      case _ =>
    } else {
      assert 1 <= line1(Some(a), LookupKey(path)) <= n1;
      assert 1 <= line2(Some(b), LookupKey(path)) <= n2;
    }
  }

  lemma {:induction false} KeysDiffWithin(o1: seq<Member>, o2: seq<Member>, keys: seq<string>, path: string,
                                          line1: Locate, line2: Locate, n1: nat, n2: nat)
    requires Covered(o1, o2, keys)
    requires LocatesWithin(line1, n1) && LocatesWithin(line2, n2)
    ensures RecordsWithin(KeysDiff(o1, o2, keys, path, line1, line2), n1, n2)
    decreases Object(o1), 1, |keys|
  {
    if keys != [] {
      var k := keys[|keys| - 1];
      CoveredPrefix(o1, o2, keys, |keys| - 1);
      KeysDiffWithin(o1, o2, keys[..|keys| - 1], path, line1, line2, n1, n2);
      KeyStepWithin(o1, o2, k, path, line1, line2, n1, n2);
      RecordsWithinAppend(KeysDiff(o1, o2, keys[..|keys| - 1], path, line1, line2),
                          KeyStep(o1, o2, k, path, line1, line2), n1, n2);
    }
  }

  lemma {:induction false} KeyStepWithin(o1: seq<Member>, o2: seq<Member>, k: string, path: string,
                                         line1: Locate, line2: Locate, n1: nat, n2: nat)
    requires k in Keys(o1) || k in Keys(o2)
    requires LocatesWithin(line1, n1) && LocatesWithin(line2, n2)
    ensures RecordsWithin(KeyStep(o1, o2, k, path, line1, line2), n1, n2)
    decreases Object(o1), 0
  {
    var f1, f2 := Find(o1, k), Find(o2, k);
    if f1.Some? && f2.Some? {
      var v1, v2 := o1[f1.value].value, o2[f2.value].value;
      assert v1 < Object(o1);
      DiffWithin(v1, v2, ChildPath(path, k), line1, line2, n1, n2);
    }
  }

  lemma {:induction false} ItemsDiffWithin(xs: seq<JsonValue>, ys: seq<JsonValue>, n: nat, path: string,
                                           line1: Locate, line2: Locate, n1: nat, n2: nat)
    requires n <= Max(|xs|, |ys|)
    requires LocatesWithin(line1, n1) && LocatesWithin(line2, n2)
    ensures RecordsWithin(ItemsDiff(xs, ys, n, path, line1, line2), n1, n2)
    decreases Array(xs), 1, n
  {
    if n > 0 {
      ItemsDiffWithin(xs, ys, n - 1, path, line1, line2, n1, n2);
      ItemStepWithin(xs, ys, n - 1, path, line1, line2, n1, n2);
      RecordsWithinAppend(ItemsDiff(xs, ys, n - 1, path, line1, line2),
                          ItemStep(xs, ys, n - 1, path, line1, line2), n1, n2);
    }
  }

  lemma {:induction false} ItemStepWithin(xs: seq<JsonValue>, ys: seq<JsonValue>, i: nat, path: string,
                                          line1: Locate, line2: Locate, n1: nat, n2: nat)
    requires i < Max(|xs|, |ys|)
    requires LocatesWithin(line1, n1) && LocatesWithin(line2, n2)
    ensures RecordsWithin(ItemStep(xs, ys, i, path, line1, line2), n1, n2)
    decreases Array(xs), 0
  {
    if i < |xs| && i < |ys| {
      assert xs[i] < Array(xs);
      DiffWithin(xs[i], ys[i], IndexPath(path, i), line1, line2, n1, n2);
    }
  }

  /** After a client-side comparison, every highlighted line number names a
      line of the corresponding editor's text. */
  lemma HighlightedLinesExist(a: JsonValue, b: JsonValue, text1: string, text2: string)
    ensures forall l :: l in Lines1(Diff(a, b, RootPath, LocatorOf(text1), LocatorOf(text2))) ==>
      1 <= l <= |Lines(text1)|
    ensures forall l :: l in Lines2(Diff(a, b, RootPath, LocatorOf(text1), LocatorOf(text2))) ==>
      1 <= l <= |Lines(text2)|
  {
    var rs := Diff(a, b, RootPath, LocatorOf(text1), LocatorOf(text2));
    LocatorOfWithin(text1);
    LocatorOfWithin(text2);
    DiffWithin(a, b, RootPath, LocatorOf(text1), LocatorOf(text2), |Lines(text1)|, |Lines(text2)|);
  }
}
