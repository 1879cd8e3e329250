# JsonHelpers Utility — verified model of the comparer and finder core

This project is a Dafny model of the logic behind the JsonHelpers Utility web
tool, with proofs about that model. It covers four parts of the tool:

- **The structural JSON differ** of `frontend/compareJson.js`. Modules
  `Differ`, `DifferProperties`, `LineLocator`, `Normalization` and
  `CompareGate` cover:
  - `compareJsonClientSide` and its recursive `compareStructures`;
  - the line locator `findLineNumberInJson` and the display helpers;
  - the key-order-insensitive identity check `normalizeJson` /
    `areJsonSemanticallyIdentical`;
  - the input gate at the top of `compareJson`;
  - the `compareState` sets of highlighted lines.
- **The JSONPath resolver** `get_value_at_jsonpath` of
  `backend/json_finder.py` (module `Resolver`): a character tokenizer
  followed by left-to-right descent, with every lookup failure giving
  `None`.
- **The finder page state** of `frontend/jsonFinder.js` (module `Finder`):
  - the undo history capped at `MAX_UNDO_HISTORY` entries;
  - input handling;
  - the expanded-path sets and the reset;
  - the `$`/`x` path notations;
  - `escapeHtml`.
- **Share expiry** in `frontend/app.js` (module `Shares`):
  `cleanupExpiredShares` over a key/value store, and the decision taken when
  a page opens with a share id.

Shared definitions live in `Json` (the parsed-value datatype, with objects
as member sequences in `Object.keys` order) and `Text` (`split('\n')`,
`trim()`, decimal rendering).

Code that changes state in the source keeps that form:
- `compareStructures` and `findLineNumberInJson` are methods with loops.
- `compareState`, `jsonFinderState` and the share store are classes.
- The tokenizer and the navigation loop of the resolver are methods.

Each such method is proved equal to a specification function (`Diff`,
`FindLine`, `Parts`, `ValueAtPath`, `Cleaned`, `Pushed`, `Toggle`), and the
properties are proved about those functions.

The line locator used by the differ is passed around as a function
`Locate` from a value and an optional key to a line number. `LocatorOf(text)`
is the real locator over a document's text. Lemmas about the shape of the
records therefore hold for any locator.

Two behaviours of the code shape the records the differ produces:
- Top-level members get a bare `key` path, and deeper members a dotted path
  (`ChildPath`). Root array items get `root[i]` (`IndexPath`).
- A string value holding a regular-expression metacharacter is escaped and
  then searched for with a plain substring test, so it is never found
  (`LineLocator.EscapedStringNeverMatches`).

`normalizeJson` stores each member with `normalized[key] = …`. For the key
`__proto__` that assignment sets the prototype instead of adding a member.
The model therefore has two normal forms:
- `Normalize` is the key-sorting normal form, with every member kept.
- `NormalizeJson` is what the code computes: `Normalize` after every
  `__proto__` member has been dropped (`DropProto`).

The identity shortcut uses `NormalizeJson`; see "## Findings".

## Model

| member | source | states |
|---|---|---|
| Differ.TypeOf | frontend/compareJson.js:321-325 | `getTypeName`: the name is `object` exactly for objects and `array` exactly for arrays (null is its own type) |
| Differ.LastSegment | frontend/compareJson.js:341 | `path.split('.').pop()`: the result holds no `.`, is a suffix of the path, and is preceded by a `.` when shorter than the path |
| Differ.AllKeys | frontend/compareJson.js:358-360 | the visited keys are exactly the keys of either document, each with a side that holds it |
| Differ.Dedup | frontend/compareJson.js:360 | building a `Set` keeps exactly the same elements |
| Differ.CompareStructures | frontend/compareJson.js:335-506 | the recursive walk appends exactly the records `Diff` specifies for the two values at that path |
| Differ.CompareMembers | frontend/compareJson.js:357-425 | the loop over all keys appends exactly `KeysDiff` over `AllKeys`, in order |
| Differ.CompareKey | frontend/compareJson.js:362-423 | one key's step appends `KeyStep`: a missing-key record with the other side's line null, a value-type mismatch, recursion into same-typed containers, or a value mismatch |
| Differ.CompareItems | frontend/compareJson.js:427-491 | the loop over indices `0..max(len1,len2)-1` appends exactly `ItemsDiff`, in order |
| Differ.CompareItem | frontend/compareJson.js:429-489 | one index's step appends `ItemStep`: a missing-item record, an item-type mismatch, recursion, or an item-value mismatch |
| Differ.CompareJsonClientSide | frontend/compareJson.js:328-517 | a parse failure of either text gives the prefixed error, the first text's error first; otherwise the result is `Diff` of the two documents from `root` |
| DifferProperties.DiffOfSelf | frontend/compareJson.js:407-409 | comparing a value with itself yields no record |
| DifferProperties.KeysDiffOfSelf | frontend/compareJson.js:362-424 | the key loop over an object compared with itself yields no record |
| DifferProperties.ItemsDiffOfSelf | frontend/compareJson.js:429-490 | the index loop over an array compared with itself yields no record |
| DifferProperties.KeysDiffMembers | frontend/compareJson.js:362-424 | a record comes from the key loop iff it comes from the step of one of the visited keys |
| DifferProperties.ItemsDiffMembers | frontend/compareJson.js:429-490 | a record comes from the index loop iff it comes from the step of one of the visited indices |
| DifferProperties.Mirror | frontend/compareJson.js:365-386 | swapping the documents keeps a record's path, swaps its line numbers, and swaps `missing_in_json1` with `missing_in_json2` for keys and array items |
| DifferProperties.MirrorInvolution | frontend/compareJson.js:365-386 | mirroring a record twice gives it back |
| DifferProperties.DiffMirror | frontend/compareJson.js:335-506 | the records for `(b, a)` are exactly the mirror images of the records for `(a, b)`, as a set of records |
| DifferProperties.KeyStepMirror | frontend/compareJson.js:365-423 | swapping the documents mirrors the records of one key's step |
| DifferProperties.ItemStepMirror | frontend/compareJson.js:431-489 | swapping the documents mirrors the records of one index's step |
| DifferProperties.TypeMismatchIsSole | frontend/compareJson.js:340-354 | differently typed values yield exactly one `type_mismatch` record, at that path, carrying both types and values |
| DifferProperties.MemberTypeMismatchIsSole | frontend/compareJson.js:393-406 | a key in both objects with differently typed values yields exactly one `value_type_mismatch` record at the child path, nothing beneath it |
| DifferProperties.RecordsBeneathPath | frontend/compareJson.js:363 | below the root, every record's path extends the path of the node being compared |
| DifferProperties.KeyStepBeneathPath | frontend/compareJson.js:363 | below the root, every record of a key's step has the child path `path.key` as a prefix, and so the path itself |
| DifferProperties.ItemStepBeneathPath | frontend/compareJson.js:430 | at any depth, the root included, every record of an index's step has the child path `path[i]` as a prefix, and so the path itself |
| DifferProperties.ItemsBeyondCommon | frontend/compareJson.js:428-452 | past the common length, each extra index adds exactly one `array_item_missing_*` record at that index |
| DifferProperties.ArrayLengthDifference | frontend/compareJson.js:428-452 | an array comparison yields the common-prefix records followed by exactly `max-min` missing-item records, one per index from `min(len1,len2)` up |
| DifferProperties.ItemsDiffOfEqualPrefix | frontend/compareJson.js:453-488 | equal leading items yield no record |
| DifferProperties.ExtendedArrayOnlyMissingItems | frontend/compareJson.js:428-452 | when one array extends the other, the only records are the `max-min` missing-item records at indices `min..max-1` |
| DifferProperties.Without | frontend/compareJson.js:360 | the keys of the second document that the first lacks: membership iff |
| DifferProperties.DedupOfDistinct | frontend/compareJson.js:358-360 | a `Set` built from distinct keys keeps their order |
| DifferProperties.DedupAppend | frontend/compareJson.js:360 | a `Set` of distinct keys followed by more distinct keys lists the first ones, then the new ones in order |
| DifferProperties.AllKeysOrder | frontend/compareJson.js:358-362 | keys are visited as the first document's keys in order, then the second document's keys not in the first |
| DifferProperties.KeyInOneDocumentReported | frontend/compareJson.js:365-386 | a key only in the second document gives `key_missing_in_json1` with a null first line; a key only in the first gives `key_missing_in_json2` with a null second line |
| DifferProperties.NormalizeKeepsType | frontend/compareJson.js:285-301 | normalising a value keeps its type name |
| DifferProperties.KeysDiffEmpty | frontend/compareJson.js:362-424 | the key loop yields nothing iff no key's step yields anything |
| DifferProperties.ItemsDiffEmpty | frontend/compareJson.js:429-490 | the index loop yields nothing iff no index's step yields anything |
| DifferProperties.DiffEmptyIffSameNormalForm | frontend/compareJson.js:285-301 | for documents without duplicate keys, the differ reports nothing iff the two key-sorting normal forms are equal |
| DifferProperties.MembersDiffEmptyIff | frontend/compareJson.js:357-425 | two objects yield no record iff their normal forms are equal |
| DifferProperties.ItemsDiffEmptyIff | frontend/compareJson.js:427-491 | two arrays yield no record iff their normal forms are equal |
| DifferProperties.FirstMissingIndexReported | frontend/compareJson.js:431-452 | arrays of different lengths yield a record at index `min(len1,len2)` |
| DifferProperties.ArrayNormalFormsEqual | frontend/compareJson.js:290-292 | two arrays normalise equally iff they have the same length and pairwise equal normal forms |
| DifferProperties.KeyStepEmpty | frontend/compareJson.js:365-423 | one key yields no record iff both objects hold it with equally normalising values |
| DifferProperties.ItemStepEmpty | frontend/compareJson.js:431-489 | one index yields no record iff both arrays hold it with equally normalising items |
| LineLocator.EscapeRegex | frontend/compareJson.js:216 | escaping never shortens the text, leaves text without metacharacters unchanged, and puts a backslash in the output when there is a metacharacter |
| LineLocator.FirstKeyLine | frontend/compareJson.js:217-219 | the first line at or after `from` where the key pattern (either quote, any case, spaces, colon) matches, or none when no line matches |
| LineLocator.FirstLineContaining | frontend/compareJson.js:226-228 | the first line at or after `from` containing the text, or none when no line contains it |
| LineLocator.FindLine | frontend/compareJson.js:211-235 | the line is in `1..line count`; a key match takes precedence; any answer other than 1 names a line matching the key or containing the value text |
| LineLocator.FindLineFallback | frontend/compareJson.js:231 | when neither the key nor the value text is found, the answer is 1 |
| LineLocator.EscapedStringNeverMatches | frontend/compareJson.js:222-228 | a string holding a regex metacharacter, searched without a key in text with no backslash, is never found and gives line 1 |
| LineLocator.FindLineNumberInJson | frontend/compareJson.js:211-235 | the scanning loops with early returns compute `FindLine` |
| LineLocator.GetLineFromJson | frontend/compareJson.js:176-187 | a non-empty result is the trimmed requested line of a non-empty text; every line number in range gives that trimmed line |
| LineLocator.FormatDiffValue | frontend/compareJson.js:190-208 | a complex value with a non-empty source line shows that line; otherwise undefined shows `undefined`, null `null`, a string is quoted, an object or array shows its serialisation when at most 100 characters long and else its first 100 characters plus `...`, and booleans and numbers show `String(value)` |
| Normalization.Insert | frontend/compareJson.js:295 | one insertion step of the key sort adds the member and nothing else |
| Normalization.SortByKey | frontend/compareJson.js:295 | sorting the members is a permutation |
| Normalization.InsertSorted | frontend/compareJson.js:295 | inserting into a sorted member list keeps it sorted |
| Normalization.SortIsSorted | frontend/compareJson.js:295 | the members come out sorted by key |
| Normalization.InsertKeepsStrict | frontend/compareJson.js:295 | inserting a new key into a strictly sorted list keeps it strictly sorted |
| Normalization.MembersOfSort | frontend/compareJson.js:295-299 | the sorted object holds exactly the original members |
| Normalization.SortIsStrict | frontend/compareJson.js:295 | with unique keys, the sorted keys are strictly increasing |
| Normalization.SortOfSorted | frontend/compareJson.js:295 | sorting an already sorted list changes nothing |
| Normalization.StrictlySortedUnique | frontend/compareJson.js:295-299 | two strictly sorted lists with the same members are equal |
| Normalization.Normalize | frontend/compareJson.js:285-301 | the key-sorting normal form keeps arrays as arrays of the same length, objects as objects, and primitives unchanged |
| Normalization.NormalizeMembers | frontend/compareJson.js:297-299 | normalising member values keeps the keys in order |
| Normalization.NormalizeIsNormal | frontend/compareJson.js:285-301 | every normalised value has sorted keys at every level |
| Normalization.NormalIsFixed | frontend/compareJson.js:285-301 | a value already in normal form is unchanged |
| Normalization.NormalizeIdempotent | frontend/compareJson.js:285-301 | normalising twice is normalising once |
| Normalization.MembersOfNormalized | frontend/compareJson.js:297-299 | the normalised members are exactly the keys with their normalised values |
| Normalization.MembersOfNormalForm | frontend/compareJson.js:295-299 | the sorted normalised members are exactly the keys with their normalised values |
| Normalization.EqualNormalFormsHaveSameEntries | frontend/compareJson.js:295-299 | objects with equal normal forms have the same keys with equally normalising values |
| Normalization.EntryOfNormalForm | frontend/compareJson.js:295-299 | each key's normalised entry is a member of the normal form |
| Normalization.EntryKeyOfNormalForm | frontend/compareJson.js:295-299 | each member of the normal form is some key's normalised entry |
| Normalization.SameEntriesGiveEqualNormalForms | frontend/compareJson.js:295-299 | objects with the same keys and equally normalising values have equal normal forms |
| Normalization.NormalizedObjectsEqual | frontend/compareJson.js:285-301 | two objects without duplicate keys normalise equally iff they have the same entries up to normalisation |
| Normalization.SameMembersNormalizeEqually | frontend/compareJson.js:295-300 | objects without duplicate keys holding the same members, in any order, normalise equally |
| Normalization.KeyOrderIgnored | frontend/compareJson.js:295-300 | objects with the same members in any order normalise equally |
| Normalization.DropProtoFromMembers | frontend/compareJson.js:297-299 | the members kept are exactly those not keyed `__proto__`, their values cleared likewise |
| Normalization.DropProtoFromUnique | frontend/compareJson.js:297-299 | dropping `__proto__` members keeps the keys unique |
| Normalization.DropProtoIsFree | frontend/compareJson.js:297-299 | no `__proto__` member is left at any depth |
| Normalization.DropProtoOfProtoFree | frontend/compareJson.js:297-299 | a value without `__proto__` members is unchanged |
| Normalization.DropProtoFromOfProtoFree | frontend/compareJson.js:297-299 | the members of an object without `__proto__` members are all kept, in order |
| Normalization.NormalizeKeepsProtoFree | frontend/compareJson.js:285-301 | sorting and normalising never adds a `__proto__` member |
| Normalization.NormalizeJson | frontend/compareJson.js:285-301 | the computed normal form has no `__proto__` member and sorted keys at every level |
| Normalization.NormalizeJsonOfProtoFree | frontend/compareJson.js:285-301 | on a value without `__proto__` members it equals the key-sorting normal form |
| Normalization.NormalizeJsonIdempotent | frontend/compareJson.js:285-301 | applying `normalizeJson` twice is applying it once |
| Normalization.KeptMemberOfPermutation | frontend/compareJson.js:295-299 | a member kept from an object is kept from any reordering of it |
| Normalization.NormalizeJsonIgnoresKeyOrder | frontend/compareJson.js:295-300 | objects with the same members in any order give the same computed normal form |
| Normalization.SemanticallyIdentical | frontend/compareJson.js:304-318 | true iff both texts parse and their computed normal forms are equal, so false whenever either text fails to parse |
| Normalization.SemanticallyIdenticalOfProtoFree | frontend/compareJson.js:304-318 | on documents without `__proto__` members the check as written and the check as intended agree |
| Normalization.SemanticIdentityIgnoresKeyOrder | frontend/compareJson.js:304-318 | two texts parsing to objects with the same members in any order are identical |
| CompareGate.Gate | frontend/compareJson.js:519-572 | a validation error, and nothing else, gives the fix-errors message; identity implies the texts are semantically identical; the differ runs only on two parsed, non-empty, non-identical inputs; such inputs are never rejected |
| CompareGate.InvalidJson | frontend/compareJson.js:540-545 | a parse failure is rejected without clearing the busy flag, with a message other than the fix-errors one |
| CompareGate.GateErrorOrder | frontend/compareJson.js:528-557 | a blank first input is reported as required before parsing; a parse failure of the first text is reported with its message; `{}` is reported as required and clears the busy flag |
| CompareGate.GateAgreesWithDiffer | frontend/compareJson.js:559-572 | with duplicate-free documents without `__proto__` members, the identity shortcut is taken exactly when the differ would report nothing: identical gives an empty diff, and running the differ gives a non-empty one |
| CompareGate.SameNormalFormIffNoDiff | frontend/compareJson.js:559-572 | for any two duplicate-free documents, equal key-sorting normal forms hold exactly when the differ reports nothing |
| CompareGate.ProtoKeyShortcut | frontend/compareJson.js:298 | `{"__proto__":1}` and `{"__proto__":2}` take the identity shortcut, yet the differ reports a difference |
| CompareGate.BracedHasContent | frontend/compareJson.js:548-553 | a text longer than `{}` that starts with `{` and ends with `}` passes the content check |
| CompareGate.ProtoOnlyShortcut | frontend/compareJson.js:298 | two documents whose only member is `__proto__`, holding different numbers, take the identity shortcut, yet the differ reports a difference |
| CompareGate.ProtoOnlyNormalizesEmpty | frontend/compareJson.js:298 | `normalizeJson` of an object whose only member is `__proto__` is the empty object |
| CompareGate.ProtoOnlyDiffers | frontend/compareJson.js:363-423 | the differ reports a difference between `__proto__` members holding different numbers |
| CompareGate.SingletonNormalForm | frontend/compareJson.js:285-301 | an object with a single primitive member is its own normal form |
| CompareGate.CompareState.constructor | frontend/compareJson.js:7-13 | no result, not comparing, no error, empty line sets |
| CompareGate.CompareState.ClearComparisonResults | frontend/compareJson.js:238-244 | result, error and busy flag cleared, both line sets emptied |
| CompareGate.CompareState.ExtractDiffLineNumbers | frontend/compareJson.js:247-262 | the line sets become exactly the truthy first and second line numbers of the detailed records (empty without a detailed result); nothing else changes |
| CompareGate.CompareState.ApplyGate | frontend/compareJson.js:519-572 | a rejection sets the message and drops the result, clearing the busy flag only for the content check; identity stores the identical result, not busy, no error; running the differ marks busy with no error |
| CompareGate.LocatorOfWithin | frontend/compareJson.js:211-235 | the locator over a text only returns lines of that text |
| CompareGate.DiffWithin | frontend/compareJson.js:335-506 | with locators bounded by the line counts, every record's line numbers are within those counts |
| CompareGate.KeysDiffWithin | frontend/compareJson.js:362-424 | the key loop only reports lines within the line counts |
| CompareGate.KeyStepWithin | frontend/compareJson.js:365-423 | one key's step only reports lines within the line counts |
| CompareGate.ItemsDiffWithin | frontend/compareJson.js:429-490 | the index loop only reports lines within the line counts |
| CompareGate.ItemStepWithin | frontend/compareJson.js:431-489 | one index's step only reports lines within the line counts |
| CompareGate.HighlightedLinesExist | frontend/compareJson.js:247-262 | every highlighted line number of either document is a line of that document |
| Text.Lines | frontend/compareJson.js:179 | `split('\n')` gives at least one line, no line holds a newline, and joining them gives the text back |
| Text.TrimStart | frontend/compareJson.js:186 | removes exactly the leading whitespace |
| Text.TrimEnd | frontend/compareJson.js:186 | removes exactly the trailing whitespace |
| Text.NatToString | frontend/compareJson.js:430 | the decimal rendering of an index is a non-empty digit string |
| Resolver.Flush | backend/json_finder.py:34-36 | the pending text is appended as a part only when non-empty |
| Resolver.Tokenize | backend/json_finder.py:28-51 | the character loop computes `Parts(path)`, and no part is empty |
| Resolver.ScanKeepsPartsNonEmpty | backend/json_finder.py:32-48 | scanning more characters never adds an empty part |
| Resolver.PartsNonEmpty | backend/json_finder.py:28-51 | the tokenizer never emits an empty part |
| Resolver.ScanCollects | backend/json_finder.py:43-48 | ordinary characters, and a `.` inside brackets, are collected into the pending part rather than splitting |
| Resolver.BracketSegment | backend/json_finder.py:33-42 | `[c]` flushes the pending part and emits `[c]` |
| Resolver.KeySegment | backend/json_finder.py:43-48 | `.k` flushes the pending part and starts collecting `k` |
| Resolver.ScanBuilt | backend/json_finder.py:32-48 | scanning a tree-built path leaves exactly the expected parts and pending key |
| Resolver.TokenizeBuiltPath | backend/json_finder.py:28-51 | a path built from `.k` and `[i]` segments tokenizes back to exactly those segments in order |
| Resolver.StripStart | backend/json_finder.py:58 | the leading whitespace `int()` ignores is removed, no more |
| Resolver.StripEnd | backend/json_finder.py:58 | the trailing whitespace `int()` ignores is removed, no more |
| Resolver.DropUnderscores | backend/json_finder.py:58 | digit-group underscores are removed and only digits remain |
| Resolver.PyIntOfDecimal | backend/json_finder.py:58 | `int()` reads a decimal rendering back to the index |
| Resolver.PyIntNeedsDigit | backend/json_finder.py:58 | `int()` of a text without digits fails |
| Resolver.PyIndex | backend/json_finder.py:59 | an index is valid iff `-len <= i < len`; a negative index counts from the end |
| Resolver.ItemAt | backend/json_finder.py:58-59 | indexing succeeds iff the value is an array or a string and the index is in range |
| Resolver.MemberAt | backend/json_finder.py:61-62 | a key lookup succeeds iff the value is an object holding the key |
| Resolver.KeyChild | backend/json_finder.py:61-62 | a key part reads that member of an object and fails on anything else |
| Resolver.IndexChild | backend/json_finder.py:56-59 | a bracketed index reads that item of an array, and fails when out of range or on a non-sequence |
| Resolver.NonIntegerBracket | backend/json_finder.py:56-66 | a bracket whose content has no digit fails |
| Resolver.ValueAtPath | backend/json_finder.py:12-66 | an empty path or `$` returns the input unchanged |
| Resolver.GetValueAtJsonPath | backend/json_finder.py:12-66 | the tokenizing and navigating loops compute `ValueAtPath`, a failure giving `None` |
| Resolver.DollarPrefixIgnored | backend/json_finder.py:20-24 | a leading `$` is stripped: `$p` and `p` resolve alike |
| Resolver.NavigateParts | backend/json_finder.py:54-62 | navigating the parts of a tree path reaches the value the segments designate |
| Resolver.ResolveBuiltPath | backend/json_finder.py:12-66 | `$` followed by a tree-built path whose keys are non-empty and free of `.`, `[` and `]` resolves to the value at those segments |
| Resolver.MissingStepsGiveNull | backend/json_finder.py:65-66 | a missing key or an out-of-range index gives `None` instead of raising |
| Resolver.SingleStepPath | backend/json_finder.py:54-66 | a one-segment path resolves to that one lookup, failure giving `None` |
| Finder.PushedShape | frontend/jsonFinder.js:311-320 | a push keeps the history within 5 entries, the new entry last; below the cap nothing is dropped; at the cap only the oldest is dropped, order kept |
| Finder.UndoAfterPush | frontend/jsonFinder.js:380-388 | undoing right after a push gives the pushed entry back, with the earlier history less any entry dropped by the cap |
| Finder.Toggle | frontend/jsonFinder.js:603-608 | toggling flips the membership of that path and no other |
| Finder.ToggleTwice | frontend/jsonFinder.js:1092-1096 | toggling a path twice restores the set |
| Finder.FinderState.constructor | frontend/jsonFinder.js:13-21 | the initial finder state: empty history, sets and selection |
| Finder.FinderState.SaveToHistory | frontend/jsonFinder.js:311-320 | a null value leaves the history unchanged; otherwise the entry is pushed with the cap of 5; nothing else changes |
| Finder.ValidationError | frontend/jsonFinder.js:283-293 | an error is recorded exactly for a text with content, other than `{}`, that `JSON.parse` refuses, and it is the parser's message |
| Finder.SafeCursor | frontend/jsonFinder.js:303 | the caret is the requested position when that lies within the text, and the end of the text otherwise |
| Finder.FinderState.ApplyJsonValue | frontend/jsonFinder.js:299-334 | the input text is set and validated, so the error becomes that of the new text; the caret is placed at the requested position clamped to the text's length; history, paths, selection and coloured view are kept |
| Finder.FinderState.HandleJsonFinderInput | frontend/jsonFinder.js:355-374 | the old text is saved only when the text changed; the caret goes to 0 after growth of more than 50 characters and otherwise to the selection, clamped to the text; the error becomes that of the new text; the coloured view is kept |
| Finder.FinderState.UndoJsonInput | frontend/jsonFinder.js:380-388 | an empty history changes nothing; otherwise the last entry is removed and its text applied, with its saved caret clamped to that text and its error recomputed; an empty history also keeps the error; the coloured view is kept |
| Finder.FinderState.ToggleTreeViewer | frontend/jsonFinder.js:603-610 | flips one path in the tree-viewer set; every other field, the caret and the error included, is kept |
| Finder.FinderState.ToggleExpanded | frontend/jsonFinder.js:1152-1156 | flips one path in the expanded set; every other field, the caret and the error included, is kept |
| Finder.FinderState.HandleJsonFinderReset | frontend/jsonFinder.js:1683-1699 | text `{}`, no error, no selection, expanded set and history emptied, coloured view off, caret at the start |
| Finder.ConvertPathToX | frontend/jsonFinder.js:1210-1214 | only a leading `$` becomes `x`; the rest of the path is untouched |
| Finder.ConvertPathFromX | frontend/jsonFinder.js:1219-1223 | the empty path gives `$`; only a leading `x` becomes `$` |
| Finder.ConvertPathRoundTrip | frontend/jsonFinder.js:1210-1223 | converting a `$` path to `x` and back gives it back, and the other way round |
| Finder.TreePathResolves | frontend/jsonFinder.js:1194-1199 | a path the tree builds from keys that are non-empty and free of `.`, `[` and `]`, converted to `$`, resolves on the backend to the node it was built for |
| Finder.DottedKeySplit | backend/json_finder.py:32-51 | the path `.a.b` the tree writes for the key `a.b` is tokenized into the two keys `a` and `b` |
| Finder.DottedKeyPathLost | frontend/jsonFinder.js:1194-1199 | the member keyed `a.b` is reached by the tree's descent, but its path `x.a.b` resolves on the backend to `null` |
| Finder.ReplaceAll | frontend/jsonFinder.js:482-487 | after a global replace the character is gone unless the replacement contains it, and nothing new appears |
| Finder.EscapeHtml | frontend/jsonFinder.js:481-488 | the output holds no `<`, `>`, `"` or `'` |
| Finder.EscapeHtmlChar | frontend/jsonFinder.js:481-488 | each character is escaped once, `&` first, so no entity is escaped twice |
| Finder.EscapeHtmlPerChar | frontend/jsonFinder.js:481-488 | the chained replacements equal escaping each character on its own |
| Finder.UnescapeChar | frontend/jsonFinder.js:483-487 | decoding an escaped character gives the character back |
| Finder.EscapeHtmlRoundTrip | frontend/jsonFinder.js:481-488 | decoding the escaped text gives the text back |
| Shares.Cleaned | frontend/app.js:15-39 | keeps exactly the entries that are not unreadable or expired shares, with their values unchanged |
| Shares.NoExpiredShareRemains | frontend/app.js:20-27 | after cleaning, no share entry is expired or unreadable |
| Shares.UnreadableSharesRemoved | frontend/app.js:28-31 | a share whose data does not decode is removed |
| Shares.OtherKeysKept | frontend/app.js:22 | keys without the share prefix are kept with their values |
| Shares.BoundaryKept | frontend/app.js:25 | a share exactly `expiresIn` old is kept |
| Shares.CleanedIdempotent | frontend/app.js:15-39 | cleaning twice at the same moment equals cleaning once |
| Shares.ShareStore.constructor | frontend/app.js:4-10 | the store is the given table and the first editor holds `{}` |
| Shares.ShareStore.CleanupExpiredShares | frontend/app.js:15-39 | collect-then-remove leaves exactly `Cleaned` of the old storage; the editor is unchanged |
| Shares.ShareStore.LoadShare | frontend/app.js:48-75 | for a non-empty share id, a missing or empty entry is not found and changes nothing; a share expired at the load instant is removed and the editor kept; a live share with parsable JSON is loaded, then expired shares are cleaned at the clean-up's own, no earlier, instant; any other case fails and changes nothing |
| Shares.LoadedShareKept | frontend/app.js:17-67 | a loaded share survives the clean-up that follows exactly when it has not expired at the clean-up's reading of the clock |
| Shares.BoundaryShareLoadedThenRemoved | frontend/app.js:17-67 | a share exactly `expiresIn` old at the load decision is loaded, and is removed by a clean-up that reads the clock one millisecond later |

## Left out

- Rendering is not modelled: the DOM, HTML templates, line-number gutters, the coloured viewer and pop-ups.
- `JSON.parse`, `JSON.stringify` and `json.loads` are parameters. Parse failures are `Err` values and serialisation is an arbitrary function.
- The backend comparison in `backend/compare_json.py` is not part of this model. It wraps DeepDiff, whose behaviour is not visible here.
- The `fetch` calls, the 5-second timeout and the backend fallback in `compareJson` are not part of this model. The gate's `RunDiff` outcome stands for "go on to compare".
- Flask routes and the two HTTP servers are not modelled.
- The finder's `/api/value` and `/api/format` calls and the leaf selection that fires them are not modelled. `validateJsonInput` is modelled by `ValidationError`, with `JSON.parse` as a parameter.
- The clipboard, file upload and download, and `generateShortId` (`Math.random`) are left out.
- Timers (`setTimeout`) are left out. The caret reset that `handleJsonFinderReset` schedules takes effect at once.
- `Date.now()` is a parameter. Its two readings when a share loads are two parameters, the second no earlier than the first.
- JSON numbers are integers. Floating point, `NaN` and `-0` are not modelled, so the strict-equality tests of the differ are plain equality.
- Parsed documents with duplicate keys are not modelled. `JSON.parse` keeps the last duplicate, while the model keeps all members. The lemmas tying the differ to normal forms require duplicate-free documents.
- JavaScript places integer-like keys first in an object. Sorting uses code-point order. Neither affects whether two normal forms are equal.
- LineLocator.FindLine: the case-insensitive key match folds ASCII letters only.
- LineLocator.FindLine: `String(searchValue)` throws for an object holding its own `toString` member (`{"toString":1}`), or an array holding such an object; when no key line matched, the source's `catch` then answers 1. The model renders every object as `[object Object]` and searches for that text.
- Lengths are counted in characters, not UTF-16 code units. This affects the paste test of `handleJsonFinderInput` (a growth of more than 50) and the 100-character cut in `formatDiffValue`, for text outside the Basic Multilingual Plane.
- Shares.ShareStore.LoadShare: a share whose `json` field is not a string is a failure. The source passes such a field to `JSON.parse`, which may accept it (a number, say) and load it.
- CompareGate.GateAgreesWithDiffer: holds only for documents without `__proto__` members, because the shortcut as written ignores such members (see "## Findings").
- Resolver.PyInt: whitespace and digits are ASCII only; Python also accepts Unicode ones.
- `localStorage` is a map. Its exceptions and quota handling are left out, and so is the share-creation side in `shareJsonInput`.
- A share's `timestamp` or `expiresIn` that is missing or not a number is `None`. Any arithmetic on it is `NaN`, so such a share never expires. Non-number values that JavaScript would coerce are not modelled.
- Finder.TreePathResolves: holds only for keys that are non-empty and free of `.`, `[` and `]`. The tree writes every key verbatim after a dot, so the resolver splits a key holding `.` (`Finder.DottedKeyPathLost`), drops an empty one, and reads brackets as an index step.
- Resolver.ResolveBuiltPath: holds only for keys that are non-empty and free of `.`, `[` and `]`, for the same reason.
- Finder.FinderState.HandleJsonFinderInput: the input value is a string. The `null` input of the source is not modelled, and the cursor is given as a parameter.
- The `viewMode` field and the refresh of the tree after an edit are left out.

## Findings

| source | as written | input that shows it | evidently intended | confidence | as-written member | corrected member |
|---|---|---|---|---|---|---|
| frontend/compareJson.js:298 | `normalized[key] = …` on a plain object sends the key `__proto__` to the prototype setter, so that member is missing from the `JSON.stringify` text compared at line 314 | `{"__proto__":1}` and `{"__proto__":2}`: the gate reports the documents identical, while `compareStructures` reports a value mismatch at `__proto__` | two documents are identical exactly when their key-sorting normal forms, every member kept, are equal, which is exactly when the differ reports nothing | high, not executed | CompareGate.ProtoKeyShortcut | CompareGate.SameNormalFormIffNoDiff |
