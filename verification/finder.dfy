/** The state of the JSON Finder page (frontend/jsonFinder.js): the bounded
    undo history of the input, the sets of expanded tree paths, the selection,
    and the pure helpers that rewrite a path between the `$` and `x`
    notations and escape text for HTML. */
module Finder {
  import opened Json
  import opened Text
  import opened Resolver

  /** `MAX_UNDO_HISTORY`. */
  const MaxUndoHistory: nat := 5

  /** An undo entry: an earlier input and the cursor position to restore. */
  datatype Entry = Entry(value: string, cursorPos: nat)

  /** The history after pushing `e`: when it grows past the cap, the oldest
      entry is shifted out. */
  function Pushed(history: seq<Entry>, e: Entry): seq<Entry> {
    var h := history + [e];
    if |h| > MaxUndoHistory then h[1..] else h
  }

  /** Pushing never takes a capped history past the cap; the new entry is
      last; below the cap nothing is dropped, and at the cap exactly the
      oldest entry is dropped while the others keep their order. */
  lemma PushedShape(history: seq<Entry>, e: Entry)
    requires |history| <= MaxUndoHistory
    ensures |Pushed(history, e)| <= MaxUndoHistory
    ensures Pushed(history, e)[|Pushed(history, e)| - 1] == e
    ensures |history| < MaxUndoHistory ==> Pushed(history, e) == history + [e]
    ensures |history| == MaxUndoHistory ==> Pushed(history, e) == history[1..] + [e]
  {
    if |history| == MaxUndoHistory {
      assert (history + [e])[1..] == history[1..] + [e];
    }
  }

  /** Undoing right after a push gives back the pushed entry and the history
      as it was, less its oldest entry when the push overflowed the cap. */
  lemma UndoAfterPush(history: seq<Entry>, e: Entry)
    requires |history| <= MaxUndoHistory
    ensures var h := Pushed(history, e);
      h[|h| - 1] == e
      && h[..|h| - 1] == (if |history| < MaxUndoHistory then history else history[1..])
  {
    PushedShape(history, e);
    var h := Pushed(history, e);
    if |history| < MaxUndoHistory {
      assert h[..|h| - 1] == history;
    } else {
      assert h[..|h| - 1] == history[1..];
    }
  }

  /** The edit that `handleJsonFinderInput` treats as a paste: the text grew
      by more than 50 characters. */
  predicate IsPaste(oldValue: string, newValue: string) {
    |newValue| > |oldValue| + 50
  }

  /** `Math.min(cursorPos, value.length)`: the caret `restoreCursorPosition`
      sets, never past the end of the text. */
  function SafeCursor(pos: nat, value: string): (r: nat)
    ensures r <= |value|
    ensures pos <= |value| ==> r == pos
    ensures pos > |value| ==> r == |value|
  {
    if pos <= |value| then pos else |value|
  }

  /** The error `validateJsonInput(value)` records: the parser's message for
      a text with content other than `{}` that `JSON.parse` (`parse`)
      refuses, and none otherwise. */
  function ValidationError(value: string, parse: string -> Result<JsonValue, string>): (r: Option<string>)
    ensures r.Some? <==> Trim(value) != "" && value != "{}" && parse(value).Err?
    ensures r.Some? ==> r.value == parse(value).error
  {
    if value != "" && Trim(value) != "" && value != "{}" then
      match parse(value)
      case Ok(_) => None
      case Err(e) => Some(e)
    else None
  }

  /** `set.has(p) ? set.delete(p) : set.add(p)`. */
  function Toggle(paths: set<string>, p: string): (r: set<string>)
    ensures p in r <==> p !in paths
    ensures forall q :: q != p ==> (q in r <==> q in paths)
  {
    if p in paths then paths - {p} else paths + {p}
  }

  /** Toggling a path twice restores the set. */
  lemma ToggleTwice(paths: set<string>, p: string)
    ensures Toggle(Toggle(paths, p), p) == paths
  {
    var once := Toggle(paths, p);
    assert forall q :: q in Toggle(once, p) <==> q in paths;
  }

  class FinderState {
    var json1: string
    var cursorPos: nat
    var history: seq<Entry>
    var expandedPaths: set<string>
    var treeViewerExpanded: set<string>
    var selectedPath: Option<string>
    var selectedValue: Option<JsonValue>
    var showColored: bool
    var json1Error: Option<string>

    /** The history never exceeds `MAX_UNDO_HISTORY` entries. */
    predicate Valid()
      reads this
    {
      |history| <= MaxUndoHistory
    }

    constructor ()
      ensures Valid()
      ensures json1 == "{}" && cursorPos == 0 && history == []
      ensures expandedPaths == {} && treeViewerExpanded == {}
      ensures selectedPath == None && selectedValue == None
      ensures !showColored && json1Error == None
    {
      json1 := "{}";
      cursorPos := 0;
      history := [];
      expandedPaths := {};
      treeViewerExpanded := {};
      selectedPath := None;
      selectedValue := None;
      showColored := false;
      json1Error := None;
    }

    /** `saveToHistory(value, cursorPos)`; `None` is an undefined or null
        value, which is not saved. */
    method SaveToHistory(value: Option<string>, pos: nat)
      requires Valid()
      modifies this
      ensures Valid()
      ensures value.None? ==> history == old(history)
      ensures value.Some? ==> history == Pushed(old(history), Entry(value.value, pos))
      ensures json1 == old(json1) && cursorPos == old(cursorPos)
      ensures expandedPaths == old(expandedPaths) && treeViewerExpanded == old(treeViewerExpanded)
      ensures selectedPath == old(selectedPath) && selectedValue == old(selectedValue)
      ensures showColored == old(showColored) && json1Error == old(json1Error)
    {
      if value.None? {
        return;
      }
      history := history + [Entry(value.value, pos)];
      if |history| > MaxUndoHistory {
        history := history[1..];
      }
    }

    /** `applyJsonValue(value, cursorPos)`, without the re-rendering it
        triggers: the text is validated (`parse` stands for `JSON.parse`) and
        the caret lands where `restoreCursorPosition` puts it. */
    method ApplyJsonValue(value: string, pos: nat, parse: string -> Result<JsonValue, string>)
      modifies this
      ensures json1 == value && cursorPos == SafeCursor(pos, value) && cursorPos <= |json1|
      ensures json1Error == ValidationError(value, parse)
      ensures history == old(history)
      ensures expandedPaths == old(expandedPaths) && treeViewerExpanded == old(treeViewerExpanded)
      ensures selectedPath == old(selectedPath) && selectedValue == old(selectedValue)
      ensures showColored == old(showColored)
    {
      json1 := value;
      json1Error := ValidationError(value, parse);
      cursorPos := if pos <= |value| then pos else |value|;
    }

    /** `handleJsonFinderInput(value)`: the previous text is saved for undo
        only when the text changed, and the cursor goes to the top after a
        paste. `selectionStart` is the editor's cursor position. */
    method HandleJsonFinderInput(value: string, selectionStart: nat,
                                 parse: string -> Result<JsonValue, string>)
      requires Valid()
      modifies this
      ensures Valid()
      ensures json1 == value
      ensures cursorPos == SafeCursor(if IsPaste(old(json1), value) then 0 else selectionStart, value)
      ensures json1Error == ValidationError(value, parse)
      ensures old(json1) == value ==> history == old(history)
      ensures old(json1) != value ==> history == Pushed(old(history), Entry(old(json1), selectionStart))
      ensures expandedPaths == old(expandedPaths) && treeViewerExpanded == old(treeViewerExpanded)
      ensures selectedPath == old(selectedPath) && selectedValue == old(selectedValue)
      ensures showColored == old(showColored)
    {
      var oldValue := json1;
      var pos := if IsPaste(oldValue, value) then 0 else selectionStart;
      if oldValue != value {
        SaveToHistory(Some(oldValue), selectionStart);
      }
      ApplyJsonValue(value, pos, parse);
    }

    /** `undoJsonInput()`: the most recent entry is removed and applied. */
    method UndoJsonInput(parse: string -> Result<JsonValue, string>)
      requires Valid()
      modifies this
      ensures Valid()
      ensures old(history) == [] ==>
        history == [] && json1 == old(json1) && cursorPos == old(cursorPos) && json1Error == old(json1Error)
      ensures old(history) != [] ==>
        && history == old(history)[..|old(history)| - 1]
        && json1 == old(history)[|old(history)| - 1].value
        && cursorPos == SafeCursor(old(history)[|old(history)| - 1].cursorPos, json1)
        && json1Error == ValidationError(json1, parse)
      ensures expandedPaths == old(expandedPaths) && treeViewerExpanded == old(treeViewerExpanded)
      ensures selectedPath == old(selectedPath) && selectedValue == old(selectedValue)
      ensures showColored == old(showColored)
    {
      if |history| == 0 {
        return;
      }
      var last := history[|history| - 1];
      history := history[..|history| - 1];
      ApplyJsonValue(last.value, last.cursorPos, parse);
    }

    /** `toggleTreeViewer(path)`. */
    method ToggleTreeViewer(path: string)
      requires Valid()
      modifies this
      ensures Valid()
      ensures treeViewerExpanded == Toggle(old(treeViewerExpanded), path)
      ensures expandedPaths == old(expandedPaths) && history == old(history) && json1 == old(json1)
      ensures selectedPath == old(selectedPath) && selectedValue == old(selectedValue)
      ensures cursorPos == old(cursorPos) && showColored == old(showColored) && json1Error == old(json1Error)
    {
      if path in treeViewerExpanded {
        treeViewerExpanded := treeViewerExpanded - {path};
      } else {
        treeViewerExpanded := treeViewerExpanded + {path};
      }
    }

    /** The expand/collapse toggle of a tree node (the expand icon and a
        click on a node with children). */
    method ToggleExpanded(path: string)
      requires Valid()
      modifies this
      ensures Valid()
      ensures expandedPaths == Toggle(old(expandedPaths), path)
      ensures treeViewerExpanded == old(treeViewerExpanded) && history == old(history) && json1 == old(json1)
      ensures selectedPath == old(selectedPath) && selectedValue == old(selectedValue)
      ensures cursorPos == old(cursorPos) && showColored == old(showColored) && json1Error == old(json1Error)
    {
      if path in expandedPaths {
        expandedPaths := expandedPaths - {path};
      } else {
        expandedPaths := expandedPaths + {path};
      }
    }

    /** `handleJsonFinderReset()`: the input returns to `{}` and the
        history, the expanded paths and the selection are cleared, and the
        caret goes back to the start; the tree viewer's expanded paths are
        kept. */
    method HandleJsonFinderReset()
      modifies this
      ensures Valid()
      ensures json1 == "{}" && json1Error == None && cursorPos == 0
      ensures selectedPath == None && selectedValue == None
      ensures expandedPaths == {} && !showColored && history == []
      ensures treeViewerExpanded == old(treeViewerExpanded)
    {
      json1 := "{}";
      json1Error := None;
      selectedPath := None;
      selectedValue := None;
      expandedPaths := {};
      showColored := false;
      history := [];
      cursorPos := 0;
    }
  }

  // ---------------------------------------------------------------------
  // Path notation

  /** `convertPathToX(path)`: a leading `$` becomes `x`. */
  function ConvertPathToX(path: string): (r: string)
    ensures path != "" ==> |r| == |path| && r[1..] == path[1..]
    ensures path != "" && path[0] == '$' ==> r[0] == 'x'
    ensures path != "" && path[0] != '$' ==> r == path
  {
    if path == "" then ""
    else if path[0] == '$' then "x" + path[1..]
    else path
  }

  /** `convertPathFromX(path)`: a leading `x` becomes `$`, and an empty path
      is the root `$`. */
  function ConvertPathFromX(path: string): (r: string)
    ensures path == "" ==> r == "$"
    ensures path != "" ==> |r| == |path| && r[1..] == path[1..]
    ensures path != "" && path[0] == 'x' ==> r[0] == '$'
    ensures path != "" && path[0] != 'x' ==> r == path
  {
    if path == "" then "$"
    else if path[0] == 'x' then "$" + path[1..]
    else path
  }

  /** The two conversions are inverse on paths in their own notation. */
  lemma ConvertPathRoundTrip(p: string)
    ensures p != "" && p[0] == '$' ==> ConvertPathFromX(ConvertPathToX(p)) == p
    ensures p != "" && p[0] == 'x' ==> ConvertPathToX(ConvertPathFromX(p)) == p
  {
    if p != "" && p[0] == '$' {
      assert ConvertPathToX(p) == "x" + p[1..];
      assert ("x" + p[1..])[1..] == p[1..];
    }
    if p != "" && p[0] == 'x' {
      assert ConvertPathFromX(p) == "$" + p[1..];
      assert ("$" + p[1..])[1..] == p[1..];
    }
  }

  /** A leaf the tree viewer shows at a path it built (`x` followed by
      `.key` and `[i]` steps) is found again by the backend resolver once
      the path is converted back to `$` notation. */
  lemma TreePathResolves(obj: JsonValue, segs: seq<Segment>)
    requires PathKeys(segs)
    requires Descend(obj, segs).Some?
    ensures ValueAtPath(obj, ConvertPathFromX("x" + Build(segs))) == Descend(obj, segs).value
  {
    assert ("x" + Build(segs))[1..] == Build(segs);
    assert ConvertPathFromX("x" + Build(segs)) == "$" + Build(segs);
    ResolveBuiltPath(obj, segs);
  }

  /** The tree writes every key after a dot as it is, so a key holding a
      dot is split by the resolver: the leaf under `"a.b"` is shown as
      `null`, although the tree built its path from that very member. */
  lemma DottedKeyPathLost()
    ensures var obj := Object([Member("a.b", Number(1))]);
      && Descend(obj, [KeySeg("a.b")]) == Some(Number(1))
      && ValueAtPath(obj, ConvertPathFromX("x" + Build([KeySeg("a.b")]))) == Null
  {
    var obj := Object([Member("a.b", Number(1))]);
    var path := Build([KeySeg("a.b")]);
    DottedKeySplit();
    assert ("x" + path)[1..] == path;
    assert ConvertPathFromX("x" + path) == "$" + path;
    KeyChild(obj, "a");
  }

  /** The path the tree writes for the key `a.b` reads back as two keys. */
  lemma DottedKeySplit()
    ensures Build([KeySeg("a.b")]) == ".a.b"
    ensures Parts(Build([KeySeg("a.b")])) == ["a", "b"]
  {
    var segs := [KeySeg("a.b")];
    var split := [KeySeg("a"), KeySeg("b")];
    assert Build(segs) == ".a.b" by {
      assert segs[..0] == [];
    }
    assert Build(split) == ".a.b" by {
      assert split[..1] == [KeySeg("a")] && split[..1][..0] == [];
    }
    assert PathKey("a") && PathKey("b");
    TokenizeBuiltPath(split);
  }

  // ---------------------------------------------------------------------
  // HTML escaping

  /** `s.replace(/c/g, rep)`. */
  function ReplaceAll(s: string, c: char, rep: string): (r: string)
    ensures c !in rep ==> c !in r
    ensures forall d :: d in r ==> d in s || d in rep
  {
    if s == [] then []
    else (if s[0] == c then rep else [s[0]]) + ReplaceAll(s[1..], c, rep)
  }

  /** `escapeHtml(text)`: `&` first, then `<`, `>`, `"` and `'`. */
  function EscapeHtml(text: string): (r: string)
    ensures '<' !in r && '>' !in r && '"' !in r && '\'' !in r
  {
    var amp := ReplaceAll(text, '&', "&amp;");
    var lt := ReplaceAll(amp, '<', "&lt;");
    var gt := ReplaceAll(lt, '>', "&gt;");
    var quot := ReplaceAll(gt, '"', "&quot;");
    ReplaceAll(quot, '\'', "&#039;")
  }

  /** The entity (or the character itself) that stands for one character. */
  function EscapeChar(c: char): string {
    if c == '&' then "&amp;"
    else if c == '<' then "&lt;"
    else if c == '>' then "&gt;"
    else if c == '"' then "&quot;"
    else if c == '\'' then "&#039;"
    else [c]
  }

  /** Escaping one character at a time. */
  function EscapeChars(s: string): string {
    if s == [] then [] else EscapeChar(s[0]) + EscapeChars(s[1..])
  }

  lemma {:induction false} ReplaceAllAppend(a: string, b: string, c: char, rep: string)
    ensures ReplaceAll(a + b, c, rep) == ReplaceAll(a, c, rep) + ReplaceAll(b, c, rep)
  {
    if a == [] {
      assert a + b == b;
    } else {
      assert (a + b)[0] == a[0];
      assert (a + b)[1..] == a[1..] + b;
      ReplaceAllAppend(a[1..], b, c, rep);
    }
  }

  lemma ReplaceAllUntouched(s: string, c: char, rep: string)
    requires c !in s
    ensures ReplaceAll(s, c, rep) == s
  {
    if s != [] {
      ReplaceAllUntouched(s[1..], c, rep);
    }
  }

  lemma ReplaceOne(c: char, d: char, rep: string)
    ensures ReplaceAll([c], d, rep) == if c == d then rep else [c]
  {
    assert [c][1..] == [];
  }

  /** The replacements after the one that produced `e` leave it alone. */
  lemma LaterReplacementsKeep(e: string, from: nat)
    requires from <= 4
    requires from <= 1 ==> '<' !in e
    requires from <= 2 ==> '>' !in e
    requires from <= 3 ==> '"' !in e
    requires '\'' !in e
    ensures from <= 1 ==> ReplaceAll(e, '<', "&lt;") == e
    ensures from <= 2 ==> ReplaceAll(e, '>', "&gt;") == e
    ensures from <= 3 ==> ReplaceAll(e, '"', "&quot;") == e
    ensures ReplaceAll(e, '\'', "&#039;") == e
  {
    ReplaceAllUntouched(e, '\'', "&#039;");
    if from <= 1 {
      ReplaceAllUntouched(e, '<', "&lt;");
    }
    if from <= 2 {
      ReplaceAllUntouched(e, '>', "&gt;");
    }
    if from <= 3 {
      ReplaceAllUntouched(e, '"', "&quot;");
    }
  }

  /** The chain of replacements on a single character gives its entity: the
      `&` that the later entities bring in is not escaped again. */
  lemma EscapeHtmlChar(c: char)
    ensures EscapeHtml([c]) == EscapeChar(c)
  {
    ReplaceOne(c, '&', "&amp;");
    if c == '&' {
      LaterReplacementsKeep("&amp;", 1);
      return;
    }
    ReplaceOne(c, '<', "&lt;");
    if c == '<' {
      LaterReplacementsKeep("&lt;", 2);
      return;
    }
    ReplaceOne(c, '>', "&gt;");
    if c == '>' {
      LaterReplacementsKeep("&gt;", 3);
      return;
    }
    ReplaceOne(c, '"', "&quot;");
    if c == '"' {
      LaterReplacementsKeep("&quot;", 4);
      return;
    }
    ReplaceOne(c, '\'', "&#039;");
  }

  /** `escapeHtml` escapes each character on its own. */
  lemma {:induction false} EscapeHtmlPerChar(s: string)
    ensures EscapeHtml(s) == EscapeChars(s)
  {
    if s != [] {
      EscapeHtmlPerChar(s[1..]);
      EscapeHtmlChar(s[0]);
      assert s == [s[0]] + s[1..];
      var amp, lt, gt, quot := "&amp;", "&lt;", "&gt;", "&quot;";
      var a1, b1 := ReplaceAll([s[0]], '&', amp), ReplaceAll(s[1..], '&', amp);
      ReplaceAllAppend([s[0]], s[1..], '&', amp);
      var a2, b2 := ReplaceAll(a1, '<', lt), ReplaceAll(b1, '<', lt);
      ReplaceAllAppend(a1, b1, '<', lt);
      var a3, b3 := ReplaceAll(a2, '>', gt), ReplaceAll(b2, '>', gt);
      ReplaceAllAppend(a2, b2, '>', gt);
      var a4, b4 := ReplaceAll(a3, '"', quot), ReplaceAll(b3, '"', quot);
      ReplaceAllAppend(a3, b3, '"', quot);
      ReplaceAllAppend(a4, b4, '\'', "&#039;");
    }
  }

  /** Reading the escaped text back: each entity stands for its character. */
  function Unescape(s: string): string
    decreases |s|
  {
    if s == [] then []
    else if |s| >= 5 && s[..5] == "&amp;" then "&" + Unescape(s[5..])
    else if |s| >= 4 && s[..4] == "&lt;" then "<" + Unescape(s[4..])
    else if |s| >= 4 && s[..4] == "&gt;" then ">" + Unescape(s[4..])
    else if |s| >= 6 && s[..6] == "&quot;" then "\"" + Unescape(s[6..])
    else if |s| >= 6 && s[..6] == "&#039;" then "'" + Unescape(s[6..])
    else [s[0]] + Unescape(s[1..])
  }

  lemma UnescapeChar(c: char, rest: string)
    ensures Unescape(EscapeChar(c) + rest) == [c] + Unescape(rest)
  {
    if c == '&' {
      UnescapeAmp(rest);
    } else if c == '<' {
      UnescapeEntity("&lt;", '<', rest);
    } else if c == '>' {
      UnescapeEntity("&gt;", '>', rest);
    } else if c == '"' {
      UnescapeEntity("&quot;", '"', rest);
    } else if c == '\'' {
      UnescapeEntity("&#039;", '\'', rest);
    } else {
      var e := [c] + rest;
      assert e[0] == c && e[1..] == rest;
    }
  }

  lemma UnescapeAmp(rest: string)
    ensures Unescape("&amp;" + rest) == "&" + Unescape(rest)
  {
    var e := "&amp;" + rest;
    assert e[..5] == "&amp;" && e[5..] == rest;
  }

  /** Every entity but `&amp;` is recognised by the test that follows the
      one for `&amp;`. */
  lemma UnescapeEntity(entity: string, c: char, rest: string)
    requires || (entity == "&lt;" && c == '<') || (entity == "&gt;" && c == '>')
             || (entity == "&quot;" && c == '"') || (entity == "&#039;" && c == '\'')
    ensures Unescape(entity + rest) == [c] + Unescape(rest)
  {
    var e := entity + rest;
    var n := |entity|;
    assert e[..n] == entity && e[n..] == rest;
    assert e[1] == entity[1] != 'a';
    if |e| >= 5 {
      assert e[..5][1] == e[1];
    }
    if entity == "&lt;" {
      assert Unescape(e) == "<" + Unescape(e[4..]);
    } else if entity == "&gt;" {
      assert !(e[..4] == "&lt;") by {
        assert e[..4][1] == e[1];
      }
    } else if entity == "&quot;" {
      assert !(e[..4] == "&lt;") && !(e[..4] == "&gt;") by {
        assert e[..4][1] == e[1];
      }
    } else {
      assert !(e[..4] == "&lt;") && !(e[..4] == "&gt;") by {
        assert e[..4][1] == e[1];
      }
      assert !(e[..6] == "&quot;") by {
        assert e[..6][1] == e[1];
      }
    }
  }

  /** Nothing is escaped twice: reading the escaped text back gives the
      original text. */
  lemma {:induction false} EscapeHtmlRoundTrip(s: string)
    ensures Unescape(EscapeHtml(s)) == s
  {
    EscapeHtmlPerChar(s);
    UnescapeEscapeChars(s);
  }

  lemma {:induction false} UnescapeEscapeChars(s: string)
    ensures Unescape(EscapeChars(s)) == s
  {
    if s != [] {
      UnescapeEscapeChars(s[1..]);
      UnescapeChar(s[0], EscapeChars(s[1..]));
      assert [s[0]] + s[1..] == s;
    }
  }
}
