/** The structural differ of frontend/compareJson.js (`compareJsonClientSide`
    and its inner `compareStructures`): it walks two parsed documents in a
    fixed order and appends one typed record per divergence, addressed by a
    path string.

    `Diff` and its helpers state, as functions, which records a call appends;
    `CompareStructures` is the recursive procedure with its loops, proved to
    append exactly those records. */
module Differ {
  import opened Json
  import opened Text
  import opened LineLocator

  /** The results of `getTypeName`. */
  datatype TypeName = NullType | BooleanType | NumberType | StringType | ArrayType | ObjectType

  function TypeOf(v: JsonValue): (t: TypeName)
    ensures t == ObjectType <==> v.Object?
    ensures t == ArrayType <==> v.Array?
  {
    match v
    case Null => NullType
    case Bool(_) => BooleanType
    case Number(_) => NumberType
    case Str(_) => StringType
    case Array(_) => ArrayType
    case Object(_) => ObjectType
  }

  predicate IsContainer(t: TypeName) {
    t == ObjectType || t == ArrayType
  }

  /** The `type` of a record and its type-specific fields. `1` and `2` refer
      to the first and the second document. */
  datatype DiffKind =
    | TypeMismatch(type1: TypeName, type2: TypeName, value1: JsonValue, value2: JsonValue)
    | KeyMissingInJson1(key: string, value2: JsonValue, type2: TypeName)
    | KeyMissingInJson2(key: string, value1: JsonValue, type1: TypeName)
    | ValueTypeMismatch(key: string, type1: TypeName, type2: TypeName, value1: JsonValue, value2: JsonValue)
      // `reportedKey` is absent when two primitives are compared at the path itself.
    | ValueMismatch(reportedKey: Option<string>, value1: JsonValue, value2: JsonValue, valueType: TypeName)
    | ArrayItemMissingInJson1(index: nat, value2: JsonValue, type2: TypeName)
    | ArrayItemMissingInJson2(index: nat, value1: JsonValue, type1: TypeName)
    | ArrayItemTypeMismatch(index: nat, type1: TypeName, type2: TypeName, value1: JsonValue, value2: JsonValue)
    | ArrayItemValueMismatch(index: nat, value1: JsonValue, value2: JsonValue, valueType: TypeName)

  /** One entry of the `detailed` list; `None` is a `null` line number. */
  datatype DiffRecord = DiffRecord(path: string, kind: DiffKind, line1: Option<nat>, line2: Option<nat>)

  const RootPath: string := "root"

  /** Path of a member: bare under the root, dotted elsewhere. */
  function ChildPath(path: string, key: string): string {
    if path == RootPath then key else path + "." + key
  }

  /** Path of an array item. */
  function IndexPath(path: string, i: nat): string {
    path + "[" + NatToString(i) + "]"
  }

  /** `path.split('.').pop()`: what follows the last dot. */
  function LastSegment(path: string): (seg: string)
    ensures '.' !in seg
    ensures |seg| <= |path| && seg == path[|path| - |seg|..]
    ensures |seg| < |path| ==> path[|path| - |seg| - 1] == '.'
  {
    if path == [] || path[|path| - 1] == '.' then []
    else LastSegment(path[..|path| - 1]) + [path[|path| - 1]]
  }

  /** The key the locator searches for a record at the path itself. */
  function LookupKey(path: string): Option<string> {
    if path == RootPath then None else Some(LastSegment(path))
  }

  function Max(a: nat, b: nat): nat {
    if a < b then b else a
  }

  /** Drops every repetition, keeping the first occurrence. */
  function Dedup(ks: seq<string>): (r: seq<string>)
    ensures forall k :: k in r <==> k in ks
  {
    if ks == [] then []
    else
      var d := Dedup(ks[..|ks| - 1]);
      assert forall k :: k in ks <==> k in ks[..|ks| - 1] || k == ks[|ks| - 1];
      if ks[|ks| - 1] in d then d else d + [ks[|ks| - 1]]
  }

  /** Every key of `keys` belongs to one of the two objects. */
  predicate Covered(o1: seq<Member>, o2: seq<Member>, keys: seq<string>) {
    forall k :: k in keys ==> k in Keys(o1) || k in Keys(o2)
  }

  /** `new Set([...keys1, ...keys2])` in iteration order. */
  function AllKeys(o1: seq<Member>, o2: seq<Member>): (ks: seq<string>)
    ensures forall k :: k in ks <==> k in Keys(o1) || k in Keys(o2)
    ensures Covered(o1, o2, ks)
  {
    Dedup(Keys(o1) + Keys(o2))
  }

  /** The line a record reports for a value and the key it is searched
      under (`None` for an array item or the root). */
  type Locate = (Option<JsonValue>, Option<string>) -> nat

  /** The locator the differ uses on a document's text. */
  function LocatorOf(text: string): Locate {
    (value, key) => FindLine(text, value, key)
  }

  /** The records appended by `compareStructures(a, b, path)`, line numbers
      coming from `line1` and `line2` for the first and second document. */
  function Diff(a: JsonValue, b: JsonValue, path: string, line1: Locate, line2: Locate): seq<DiffRecord>
    decreases a, 2
  {
    var ta, tb := TypeOf(a), TypeOf(b);
    if ta != tb then
      [DiffRecord(path, TypeMismatch(ta, tb, a, b),
                  Some(line1(Some(a), LookupKey(path))),
                  Some(line2(Some(b), LookupKey(path))))]
    else if a.Object? then
      KeysDiff(a.members, b.members, AllKeys(a.members, b.members), path, line1, line2)
    else if a.Array? then
      ItemsDiff(a.items, b.items, Max(|a.items|, |b.items|), path, line1, line2)
    else if a != b then
      [DiffRecord(path, ValueMismatch(None, a, b, ta),
                  Some(line1(Some(a), LookupKey(path))),
                  Some(line2(Some(b), LookupKey(path))))]
    else []
  }

  /** The records of the loop over `keys` (a prefix of `allKeys`). */
  function KeysDiff(o1: seq<Member>, o2: seq<Member>, keys: seq<string>,
                    path: string, line1: Locate, line2: Locate): seq<DiffRecord>
    requires Covered(o1, o2, keys)
    decreases Object(o1), 1, |keys|
  {
    if keys == [] then []
    else KeysDiff(o1, o2, keys[..|keys| - 1], path, line1, line2)
         + KeyStep(o1, o2, keys[|keys| - 1], path, line1, line2)
  }

  lemma CoveredPrefix(o1: seq<Member>, o2: seq<Member>, keys: seq<string>, i: nat)
    requires Covered(o1, o2, keys) && i <= |keys|
    ensures Covered(o1, o2, keys[..i])
  {
    forall k | k in keys[..i] ensures k in keys {
      var j :| 0 <= j < i && keys[..i][j] == k;
      assert keys[j] == k;
    }
  }

  /** The key loop run one iteration further. */
  lemma KeysDiffExtend(o1: seq<Member>, o2: seq<Member>, keys: seq<string>, i: nat,
                       path: string, line1: Locate, line2: Locate, detailed: seq<DiffRecord>)
    requires Covered(o1, o2, keys)
    requires i < |keys|
    ensures Covered(o1, o2, keys[..i]) && Covered(o1, o2, keys[..i + 1]) &&
      detailed + KeysDiff(o1, o2, keys[..i + 1], path, line1, line2)
      == detailed + KeysDiff(o1, o2, keys[..i], path, line1, line2) + KeyStep(o1, o2, keys[i], path, line1, line2)
  {
    CoveredPrefix(o1, o2, keys, i);
    CoveredPrefix(o1, o2, keys, i + 1);
    assert keys[..i + 1][..i] == keys[..i];
  }

  /** The records of one iteration of the key loop. */
  function KeyStep(o1: seq<Member>, o2: seq<Member>, key: string,
                   path: string, line1: Locate, line2: Locate): seq<DiffRecord>
    requires key in Keys(o1) || key in Keys(o2)
    decreases Object(o1), 0
  {
    var currentPath := ChildPath(path, key);
    if key !in Keys(o1) then
      var v2 := Get(o2, key);
      [DiffRecord(currentPath, KeyMissingInJson1(key, v2, TypeOf(v2)),
                  None, Some(line2(Some(v2), Some(key))))]
    else if key !in Keys(o2) then
      var v1 := Get(o1, key);
      [DiffRecord(currentPath, KeyMissingInJson2(key, v1, TypeOf(v1)),
                  Some(line1(Some(v1), Some(key))), None)]
    else
      var v1 := o1[Find(o1, key).value].value;
      var v2 := Get(o2, key);
      var t1, t2 := TypeOf(v1), TypeOf(v2);
      if t1 != t2 then
        [DiffRecord(currentPath, ValueTypeMismatch(key, t1, t2, v1, v2),
                    Some(line1(Some(v1), Some(key))), Some(line2(Some(v2), Some(key))))]
      else if IsContainer(t1) then
        Diff(v1, v2, currentPath, line1, line2)
      else if v1 != v2 then
        [DiffRecord(currentPath, ValueMismatch(Some(key), v1, v2, t1),
                    Some(line1(Some(v1), Some(key))), Some(line2(Some(v2), Some(key))))]
      else []
  }

  /** The records of the first `n` iterations of the index loop. */
  function ItemsDiff(xs: seq<JsonValue>, ys: seq<JsonValue>, n: nat,
                     path: string, line1: Locate, line2: Locate): seq<DiffRecord>
    requires n <= Max(|xs|, |ys|)
    decreases Array(xs), 1, n
  {
    if n == 0 then []
    else ItemsDiff(xs, ys, n - 1, path, line1, line2) + ItemStep(xs, ys, n - 1, path, line1, line2)
  }

  /** The index loop run one iteration further. */
  lemma ItemsDiffExtend(xs: seq<JsonValue>, ys: seq<JsonValue>, i: nat,
                        path: string, line1: Locate, line2: Locate, detailed: seq<DiffRecord>)
    requires i < Max(|xs|, |ys|)
    ensures detailed + ItemsDiff(xs, ys, i + 1, path, line1, line2)
      == detailed + ItemsDiff(xs, ys, i, path, line1, line2) + ItemStep(xs, ys, i, path, line1, line2)
  {
  }

  /** The records of the iteration for index `i`. */
  function ItemStep(xs: seq<JsonValue>, ys: seq<JsonValue>, i: nat,
                    path: string, line1: Locate, line2: Locate): seq<DiffRecord>
    requires i < Max(|xs|, |ys|)
    decreases Array(xs), 0
  {
    var currentPath := IndexPath(path, i);
    if i >= |xs| then
      [DiffRecord(currentPath, ArrayItemMissingInJson1(i, ys[i], TypeOf(ys[i])),
                  None, Some(line2(Some(ys[i]), None)))]
    else if i >= |ys| then
      [DiffRecord(currentPath, ArrayItemMissingInJson2(i, xs[i], TypeOf(xs[i])),
                  Some(line1(Some(xs[i]), None)), None)]
    else
      var t1, t2 := TypeOf(xs[i]), TypeOf(ys[i]);
      if t1 != t2 then
        [DiffRecord(currentPath, ArrayItemTypeMismatch(i, t1, t2, xs[i], ys[i]),
                    Some(line1(Some(xs[i]), None)), Some(line2(Some(ys[i]), None)))]
      else if IsContainer(t1) then
        Diff(xs[i], ys[i], currentPath, line1, line2)
      else if xs[i] != ys[i] then
        [DiffRecord(currentPath, ArrayItemValueMismatch(i, xs[i], ys[i], t1),
                    Some(line1(Some(xs[i]), None)), Some(line2(Some(ys[i]), None)))]
      else []
  }

  /** `compareStructures(a, b, path, text1, text2)`: appends to `detailed`
      the records for `a` against `b`. */
  method CompareStructures(a: JsonValue, b: JsonValue, path: string, text1: string, text2: string,
                           detailed: seq<DiffRecord>)
    returns (out: seq<DiffRecord>)
    ensures out == detailed + Diff(a, b, path, LocatorOf(text1), LocatorOf(text2))
    decreases a, 2
  {
    var type1, type2 := TypeOf(a), TypeOf(b);
    if type1 != type2 {
      var line1 := FindLineNumberInJson(text1, Some(a), LookupKey(path));
      var line2 := FindLineNumberInJson(text2, Some(b), LookupKey(path));
      return detailed + [DiffRecord(path, TypeMismatch(type1, type2, a, b), Some(line1), Some(line2))];
    }
    if type1 == ObjectType {
      out := CompareMembers(a.members, b.members, path, text1, text2, detailed);
    } else if type1 == ArrayType {
      out := CompareItems(a.items, b.items, path, text1, text2, detailed);
    } else if a != b {
      var line1 := FindLineNumberInJson(text1, Some(a), LookupKey(path));
      var line2 := FindLineNumberInJson(text2, Some(b), LookupKey(path));
      out := detailed + [DiffRecord(path, ValueMismatch(None, a, b, type1), Some(line1), Some(line2))];
    } else {
      out := detailed;
    }
  }

  /** The object branch of `compareStructures`: the loop over the union of
      the keys. */
  method CompareMembers(o1: seq<Member>, o2: seq<Member>, path: string, text1: string, text2: string,
                        detailed: seq<DiffRecord>)
    returns (out: seq<DiffRecord>)
    ensures out == detailed + KeysDiff(o1, o2, AllKeys(o1, o2), path, LocatorOf(text1), LocatorOf(text2))
    decreases Object(o1), 1
  {
    var allKeys := AllKeys(o1, o2);
    out := detailed;
    var i := 0;
    CoveredPrefix(o1, o2, allKeys, 0);
    while i < |allKeys|
      invariant 0 <= i <= |allKeys|
      invariant Covered(o1, o2, allKeys[..i])
      invariant out == detailed + KeysDiff(o1, o2, allKeys[..i], path, LocatorOf(text1), LocatorOf(text2))
    {
      KeysDiffExtend(o1, o2, allKeys, i, path, LocatorOf(text1), LocatorOf(text2), detailed);
      out := CompareKey(o1, o2, allKeys[i], path, text1, text2, out);
      i := i + 1;
    }
    assert allKeys[..i] == allKeys;
  }

  /** The array branch of `compareStructures`: the loop up to the longer
      length. */
  method CompareItems(xs: seq<JsonValue>, ys: seq<JsonValue>, path: string, text1: string, text2: string,
                      detailed: seq<DiffRecord>)
    returns (out: seq<DiffRecord>)
    ensures out == detailed + ItemsDiff(xs, ys, Max(|xs|, |ys|), path, LocatorOf(text1), LocatorOf(text2))
    decreases Array(xs), 1
  {
    var maxLen := Max(|xs|, |ys|);
    out := detailed;
    var i := 0;
    while i < maxLen
      invariant 0 <= i <= maxLen
      invariant out == detailed + ItemsDiff(xs, ys, i, path, LocatorOf(text1), LocatorOf(text2))
    {
      ItemsDiffExtend(xs, ys, i, path, LocatorOf(text1), LocatorOf(text2), detailed);
      out := CompareItem(xs, ys, i, path, text1, text2, out);
      i := i + 1;
    }
  }

  /** One iteration of the loop over `allKeys` in `compareStructures`. */
  method CompareKey(o1: seq<Member>, o2: seq<Member>, key: string, path: string, text1: string, text2: string,
                    detailed: seq<DiffRecord>)
    returns (out: seq<DiffRecord>)
    requires key in Keys(o1) || key in Keys(o2)
    ensures out == detailed + KeyStep(o1, o2, key, path, LocatorOf(text1), LocatorOf(text2))
    decreases Object(o1), 0
  {
    var currentPath := ChildPath(path, key);
    if key !in Keys(o1) {
      var value := Get(o2, key);
      var line2 := FindLineNumberInJson(text2, Some(value), Some(key));
      return detailed + [DiffRecord(currentPath, KeyMissingInJson1(key, value, TypeOf(value)), None, Some(line2))];
    }
    if key !in Keys(o2) {
      var value := Get(o1, key);
      var line1 := FindLineNumberInJson(text1, Some(value), Some(key));
      return detailed + [DiffRecord(currentPath, KeyMissingInJson2(key, value, TypeOf(value)), Some(line1), None)];
    }
    var val1 := o1[Find(o1, key).value].value;
    var val2 := Get(o2, key);
    var val1Type, val2Type := TypeOf(val1), TypeOf(val2);
    if val1Type != val2Type {
      var line1 := FindLineNumberInJson(text1, Some(val1), Some(key));
      var line2 := FindLineNumberInJson(text2, Some(val2), Some(key));
      out := detailed + [DiffRecord(currentPath, ValueTypeMismatch(key, val1Type, val2Type, val1, val2),
                                    Some(line1), Some(line2))];
    } else if IsContainer(val1Type) {
      out := CompareStructures(val1, val2, currentPath, text1, text2, detailed);
    } else if val1 != val2 {
      var line1 := FindLineNumberInJson(text1, Some(val1), Some(key));
      var line2 := FindLineNumberInJson(text2, Some(val2), Some(key));
      out := detailed + [DiffRecord(currentPath, ValueMismatch(Some(key), val1, val2, val1Type),
                                    Some(line1), Some(line2))];
    } else {
      out := detailed;
    }
  }

  /** One iteration of the loop over indices in `compareStructures`. */
  method CompareItem(xs: seq<JsonValue>, ys: seq<JsonValue>, i: nat, path: string, text1: string, text2: string,
                     detailed: seq<DiffRecord>)
    returns (out: seq<DiffRecord>)
    requires i < Max(|xs|, |ys|)
    ensures out == detailed + ItemStep(xs, ys, i, path, LocatorOf(text1), LocatorOf(text2))
    decreases Array(xs), 0
  {
    var currentPath := IndexPath(path, i);
    if i >= |xs| {
      var line2 := FindLineNumberInJson(text2, Some(ys[i]), None);
      return detailed + [DiffRecord(currentPath, ArrayItemMissingInJson1(i, ys[i], TypeOf(ys[i])), None, Some(line2))];
    }
    if i >= |ys| {
      var line1 := FindLineNumberInJson(text1, Some(xs[i]), None);
      return detailed + [DiffRecord(currentPath, ArrayItemMissingInJson2(i, xs[i], TypeOf(xs[i])), Some(line1), None)];
    }
    var item1Type, item2Type := TypeOf(xs[i]), TypeOf(ys[i]);
    if item1Type != item2Type {
      var line1 := FindLineNumberInJson(text1, Some(xs[i]), None);
      var line2 := FindLineNumberInJson(text2, Some(ys[i]), None);
      out := detailed + [DiffRecord(currentPath, ArrayItemTypeMismatch(i, item1Type, item2Type, xs[i], ys[i]),
                                    Some(line1), Some(line2))];
    } else if IsContainer(item1Type) {
      out := CompareStructures(xs[i], ys[i], currentPath, text1, text2, detailed);
    } else if xs[i] != ys[i] {
      var line1 := FindLineNumberInJson(text1, Some(xs[i]), None);
      var line2 := FindLineNumberInJson(text2, Some(ys[i]), None);
      out := detailed + [DiffRecord(currentPath, ArrayItemValueMismatch(i, xs[i], ys[i], item1Type),
                                    Some(line1), Some(line2))];
    } else {
      out := detailed;
    }
  }

  /** `compareJsonClientSide(text1, text2)`: parse both texts (`parse` stands
      for `JSON.parse`) and run the differ from the root. */
  method CompareJsonClientSide(parse: string -> Result<JsonValue, string>, text1: string, text2: string)
    returns (r: Result<seq<DiffRecord>, string>)
    ensures parse(text1).Err? ==> r == Err("Client-side comparison failed: " + parse(text1).error)
    ensures parse(text1).Ok? && parse(text2).Err? ==> r == Err("Client-side comparison failed: " + parse(text2).error)
    ensures parse(text1).Ok? && parse(text2).Ok? ==>
      r == Ok(Diff(parse(text1).value, parse(text2).value, RootPath, LocatorOf(text1), LocatorOf(text2)))
  {
    var json1 := parse(text1);
    if json1.Err? {
      return Err("Client-side comparison failed: " + json1.error);
    }
    var json2 := parse(text2);
    if json2.Err? {
      return Err("Client-side comparison failed: " + json2.error);
    }
    var detailed := CompareStructures(json1.value, json2.value, RootPath, text1, text2, []);
    assert detailed == Diff(json1.value, json2.value, RootPath, LocatorOf(text1), LocatorOf(text2));
    return Ok(detailed);
  }
}
