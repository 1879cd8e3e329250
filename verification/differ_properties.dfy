/** Properties of the structural differ: comparing a document with itself
    reports nothing, swapping the documents mirrors every record, an array
    length difference shows up as exactly that many missing-item records,
    keys are visited in a fixed order, and the differ reports nothing exactly
    when the two documents have the same normal form. */
module DifferProperties {
  import opened Json
  import opened Text
  import opened LineLocator
  import opened Normalization
  import opened Differ

  // ---------------------------------------------------------------------
  // Identity

  /** `compareStructures(x, x)` leaves `detailed` empty. */
  lemma {:induction false} DiffOfSelf(a: JsonValue, path: string, line1: Locate, line2: Locate)
    ensures Diff(a, a, path, line1, line2) == []
    decreases a, 2
  {
    match a
    case Object(ms) => KeysDiffOfSelf(ms, AllKeys(ms, ms), path, line1, line2);
    case Array(xs) => ItemsDiffOfSelf(xs, |xs|, path, line1, line2);
    case _ =>
  }

  lemma {:induction false} KeysDiffOfSelf(ms: seq<Member>, keys: seq<string>,
                                          path: string, line1: Locate, line2: Locate)
    requires Covered(ms, ms, keys)
    ensures KeysDiff(ms, ms, keys, path, line1, line2) == []
    decreases Object(ms), 1, |keys|
  {
    if keys != [] {
      CoveredPrefix(ms, ms, keys, |keys| - 1);
      KeysDiffOfSelf(ms, keys[..|keys| - 1], path, line1, line2);
      var k := keys[|keys| - 1];
      DiffOfSelf(ms[Find(ms, k).value].value, ChildPath(path, k), line1, line2);
    }
  }

  lemma {:induction false} ItemsDiffOfSelf(xs: seq<JsonValue>, n: nat, path: string, line1: Locate, line2: Locate)
    requires n <= |xs|
    ensures ItemsDiff(xs, xs, n, path, line1, line2) == []
    decreases Array(xs), 1, n
  {
    if n > 0 {
      ItemsDiffOfSelf(xs, n - 1, path, line1, line2);
      DiffOfSelf(xs[n - 1], IndexPath(path, n - 1), line1, line2);
    }
  }

  // ---------------------------------------------------------------------
  // Membership of the records of the two loops

  lemma KeysDiffMembers(o1: seq<Member>, o2: seq<Member>, keys: seq<string>,
                        path: string, line1: Locate, line2: Locate)
    requires Covered(o1, o2, keys)
    ensures forall r :: r in KeysDiff(o1, o2, keys, path, line1, line2) <==>
      exists k :: k in keys && r in KeyStep(o1, o2, k, path, line1, line2)
  {
    KeysDiffMembersFrom(o1, o2, keys, path, line1, line2);
    KeysDiffMembersTo(o1, o2, keys, path, line1, line2);
  }

  /** Every record of the key loop comes from the iteration of some key. */
  lemma {:induction false} KeysDiffMembersFrom(o1: seq<Member>, o2: seq<Member>, keys: seq<string>,
                                               path: string, line1: Locate, line2: Locate)
    requires Covered(o1, o2, keys)
    ensures forall r :: r in KeysDiff(o1, o2, keys, path, line1, line2) ==>
      exists k :: k in keys && r in KeyStep(o1, o2, k, path, line1, line2)
  {
    if keys != [] {
      var init, last := keys[..|keys| - 1], keys[|keys| - 1];
      CoveredPrefix(o1, o2, keys, |keys| - 1);
      KeysDiffMembersFrom(o1, o2, init, path, line1, line2);
      var front, step := KeysDiff(o1, o2, init, path, line1, line2), KeyStep(o1, o2, last, path, line1, line2);
      assert KeysDiff(o1, o2, keys, path, line1, line2) == front + step;
      forall r | r in front + step ensures exists k :: k in keys && r in KeyStep(o1, o2, k, path, line1, line2) {
        if r in front {
          var k :| k in init && r in KeyStep(o1, o2, k, path, line1, line2);
          var j :| 0 <= j < |init| && init[j] == k;
          assert keys[j] == k;
        } else {
          assert last in keys && r in step;
        }
      }
    }
  }

  /** Every record of the iteration of a key is a record of the key loop. */
  lemma {:induction false} KeysDiffMembersTo(o1: seq<Member>, o2: seq<Member>, keys: seq<string>,
                                             path: string, line1: Locate, line2: Locate)
    requires Covered(o1, o2, keys)
    ensures forall k, r :: k in keys && r in KeyStep(o1, o2, k, path, line1, line2) ==>
      r in KeysDiff(o1, o2, keys, path, line1, line2)
  {
    if keys != [] {
      var init, last := keys[..|keys| - 1], keys[|keys| - 1];
      CoveredPrefix(o1, o2, keys, |keys| - 1);
      KeysDiffMembersTo(o1, o2, init, path, line1, line2);
      var front, step := KeysDiff(o1, o2, init, path, line1, line2), KeyStep(o1, o2, last, path, line1, line2);
      assert KeysDiff(o1, o2, keys, path, line1, line2) == front + step;
      forall k, r | k in keys && r in KeyStep(o1, o2, k, path, line1, line2) ensures r in front + step {
        if k != last {
          var j :| 0 <= j < |keys| && keys[j] == k;
          assert init[j] == k;
        }
      }
    }
  }

  lemma {:induction false} ItemsDiffMembers(xs: seq<JsonValue>, ys: seq<JsonValue>, n: nat,
                                            path: string, line1: Locate, line2: Locate)
    requires n <= Max(|xs|, |ys|)
    ensures forall r :: r in ItemsDiff(xs, ys, n, path, line1, line2) <==>
      exists i :: 0 <= i < n && r in ItemStep(xs, ys, i, path, line1, line2)
  {
    if n > 0 {
      ItemsDiffMembers(xs, ys, n - 1, path, line1, line2);
      forall r ensures r in ItemsDiff(xs, ys, n, path, line1, line2) <==>
        exists i :: 0 <= i < n && r in ItemStep(xs, ys, i, path, line1, line2)
      {
        assert ItemsDiff(xs, ys, n, path, line1, line2)
          == ItemsDiff(xs, ys, n - 1, path, line1, line2) + ItemStep(xs, ys, n - 1, path, line1, line2);
        if r in ItemsDiff(xs, ys, n - 1, path, line1, line2) {
          var i :| 0 <= i < n - 1 && r in ItemStep(xs, ys, i, path, line1, line2);
          assert 0 <= i < n && r in ItemStep(xs, ys, i, path, line1, line2);
          assert exists i :: 0 <= i < n && r in ItemStep(xs, ys, i, path, line1, line2);
        }
        if r in ItemStep(xs, ys, n - 1, path, line1, line2) {
          assert 0 <= n - 1 < n;
          assert exists i :: 0 <= i < n && r in ItemStep(xs, ys, i, path, line1, line2);
        }
        assert r in ItemsDiff(xs, ys, n, path, line1, line2) <==>
          r in ItemsDiff(xs, ys, n - 1, path, line1, line2) || r in ItemStep(xs, ys, n - 1, path, line1, line2);
        if exists i :: 0 <= i < n && r in ItemStep(xs, ys, i, path, line1, line2) {
          var i :| 0 <= i < n && r in ItemStep(xs, ys, i, path, line1, line2);
          if i < n - 1 {
            assert r in ItemsDiff(xs, ys, n - 1, path, line1, line2);
          }
        }
      }
      assert forall r :: r in ItemsDiff(xs, ys, n, path, line1, line2) <==>
        exists i :: 0 <= i < n && r in ItemStep(xs, ys, i, path, line1, line2);
    } else {
      assert ItemsDiff(xs, ys, n, path, line1, line2) == [];
    }
  }

  // ---------------------------------------------------------------------
  // Symmetry

  /** A record as it reads with the two documents swapped: `json1` and
      `json2` exchange roles, and so do the two line numbers. */
  function Mirror(r: DiffRecord): (m: DiffRecord)
    ensures m.path == r.path && m.line1 == r.line2 && m.line2 == r.line1
    ensures r.kind.KeyMissingInJson1? <==> m.kind.KeyMissingInJson2?
    ensures r.kind.KeyMissingInJson2? <==> m.kind.KeyMissingInJson1?
    ensures r.kind.ArrayItemMissingInJson1? <==> m.kind.ArrayItemMissingInJson2?
    ensures r.kind.ArrayItemMissingInJson2? <==> m.kind.ArrayItemMissingInJson1?
  {
    var kind := match r.kind
      case TypeMismatch(t1, t2, v1, v2) => TypeMismatch(t2, t1, v2, v1)
      case KeyMissingInJson1(k, v, t) => KeyMissingInJson2(k, v, t)
      case KeyMissingInJson2(k, v, t) => KeyMissingInJson1(k, v, t)
      case ValueTypeMismatch(k, t1, t2, v1, v2) => ValueTypeMismatch(k, t2, t1, v2, v1)
      case ValueMismatch(k, v1, v2, t) => ValueMismatch(k, v2, v1, t)
      case ArrayItemMissingInJson1(i, v, t) => ArrayItemMissingInJson2(i, v, t)
      case ArrayItemMissingInJson2(i, v, t) => ArrayItemMissingInJson1(i, v, t)
      case ArrayItemTypeMismatch(i, t1, t2, v1, v2) => ArrayItemTypeMismatch(i, t2, t1, v2, v1)
      case ArrayItemValueMismatch(i, v1, v2, t) => ArrayItemValueMismatch(i, v2, v1, t);
    DiffRecord(r.path, kind, r.line2, r.line1)
  }

  lemma MirrorInvolution()
    ensures forall r :: Mirror(Mirror(r)) == r
  {
    forall r ensures Mirror(Mirror(r)) == r {
      match r.kind
      case TypeMismatch(_, _, _, _) =>
      case KeyMissingInJson1(_, _, _) =>
      case KeyMissingInJson2(_, _, _) =>
      case ValueTypeMismatch(_, _, _, _, _) =>
      case ValueMismatch(_, _, _, _) =>
      case ArrayItemMissingInJson1(_, _, _) =>
      case ArrayItemMissingInJson2(_, _, _) =>
      case ArrayItemTypeMismatch(_, _, _, _, _) =>
      case ArrayItemValueMismatch(_, _, _, _) =>
    }
  }

  /** `rs` holds exactly the mirror images of the records of `ss`. */
  ghost predicate Mirrored(rs: seq<DiffRecord>, ss: seq<DiffRecord>) {
    forall r :: r in rs <==> Mirror(r) in ss
  }

  /** Swapping the inputs yields the same records with the roles of the two
      documents exchanged: `*_missing_in_json1` becomes `*_missing_in_json2`
      at the same path and vice versa. (Members may come in another order,
      since the key loop follows the first document.) */
  lemma {:induction false} DiffMirror(a: JsonValue, b: JsonValue, path: string, line1: Locate, line2: Locate)
    ensures Mirrored(Diff(b, a, path, line2, line1), Diff(a, b, path, line1, line2))
    decreases a, 2
  {
    MirrorInvolution();
    if TypeOf(a) != TypeOf(b) {
    } else if a.Object? {
      var o1, o2 := a.members, b.members;
      var d1, d2 := Diff(a, b, path, line1, line2), Diff(b, a, path, line2, line1);
      KeysDiffMembers(o1, o2, AllKeys(o1, o2), path, line1, line2);
      KeysDiffMembers(o2, o1, AllKeys(o2, o1), path, line2, line1);
      forall k | k in Keys(o1) || k in Keys(o2)
        ensures Mirrored(KeyStep(o2, o1, k, path, line2, line1), KeyStep(o1, o2, k, path, line1, line2))
      {
        KeyStepMirror(o1, o2, k, path, line1, line2);
      }
      forall r ensures r in d2 <==> Mirror(r) in d1 {
        if r in d2 {
          var k :| k in AllKeys(o2, o1) && r in KeyStep(o2, o1, k, path, line2, line1);
          assert k in AllKeys(o1, o2) && Mirror(r) in KeyStep(o1, o2, k, path, line1, line2);
        }
        if Mirror(r) in d1 {
          var k :| k in AllKeys(o1, o2) && Mirror(r) in KeyStep(o1, o2, k, path, line1, line2);
          assert k in AllKeys(o2, o1) && r in KeyStep(o2, o1, k, path, line2, line1);
        }
      }
    } else if a.Array? {
      var xs, ys := a.items, b.items;
      var d1, d2 := Diff(a, b, path, line1, line2), Diff(b, a, path, line2, line1);
      ItemsDiffMembers(xs, ys, Max(|xs|, |ys|), path, line1, line2);
      ItemsDiffMembers(ys, xs, Max(|ys|, |xs|), path, line2, line1);
      forall i | 0 <= i < Max(|xs|, |ys|)
        ensures Mirrored(ItemStep(ys, xs, i, path, line2, line1), ItemStep(xs, ys, i, path, line1, line2))
      {
        ItemStepMirror(xs, ys, i, path, line1, line2);
      }
      forall r ensures r in d2 <==> Mirror(r) in d1 {
        if r in d2 {
          var i :| 0 <= i < Max(|ys|, |xs|) && r in ItemStep(ys, xs, i, path, line2, line1);
          assert Mirror(r) in ItemStep(xs, ys, i, path, line1, line2);
        }
        if Mirror(r) in d1 {
          var i :| 0 <= i < Max(|xs|, |ys|) && Mirror(r) in ItemStep(xs, ys, i, path, line1, line2);
          assert r in ItemStep(ys, xs, i, path, line2, line1);
        }
      }
    }
  }

  lemma MirroredSingleton(x: DiffRecord, y: DiffRecord)
    requires Mirror(x) == y
    ensures Mirrored([x], [y])
  {
    MirrorInvolution();
  }

  lemma {:induction false} KeyStepMirror(o1: seq<Member>, o2: seq<Member>, k: string,
                                         path: string, line1: Locate, line2: Locate)
    requires k in Keys(o1) || k in Keys(o2)
    ensures Mirrored(KeyStep(o2, o1, k, path, line2, line1), KeyStep(o1, o2, k, path, line1, line2))
    decreases Object(o1), 0
  {
    var there, back := KeyStep(o1, o2, k, path, line1, line2), KeyStep(o2, o1, k, path, line2, line1);
    if k !in Keys(o1) || k !in Keys(o2) {
      assert |there| == 1 && back == [Mirror(there[0])];
      MirroredSingleton(back[0], there[0]) by { MirrorInvolution(); }
      assert there == [there[0]];
    } else {
      var v1 := o1[Find(o1, k).value].value;
      var v2 := o2[Find(o2, k).value].value;
      if TypeOf(v1) == TypeOf(v2) && IsContainer(TypeOf(v1)) {
        DiffMirror(v1, v2, ChildPath(path, k), line1, line2);
      } else if there != [] {
        assert |there| == 1 && back == [Mirror(there[0])];
        MirroredSingleton(back[0], there[0]) by { MirrorInvolution(); }
        assert there == [there[0]];
      } else {
        assert back == [];
      }
    }
  }

  lemma {:induction false} ItemStepMirror(xs: seq<JsonValue>, ys: seq<JsonValue>, i: nat,
                                          path: string, line1: Locate, line2: Locate)
    requires i < Max(|xs|, |ys|)
    ensures Mirrored(ItemStep(ys, xs, i, path, line2, line1), ItemStep(xs, ys, i, path, line1, line2))
    decreases Array(xs), 0
  {
    MirrorInvolution();
    if i < |xs| && i < |ys| && TypeOf(xs[i]) == TypeOf(ys[i]) && IsContainer(TypeOf(xs[i])) {
      DiffMirror(xs[i], ys[i], IndexPath(path, i), line1, line2);
    }
  }

  // ---------------------------------------------------------------------
  // Type precedence

  /** Values of different types give one `type_mismatch` record at the path
      and nothing beneath it. */
  lemma TypeMismatchIsSole(a: JsonValue, b: JsonValue, path: string, line1: Locate, line2: Locate)
    requires TypeOf(a) != TypeOf(b)
    ensures var d := Diff(a, b, path, line1, line2);
      |d| == 1 && d[0].path == path && d[0].kind == TypeMismatch(TypeOf(a), TypeOf(b), a, b)
  {
  }

  /** A member whose two values differ in type gives one `value_type_mismatch`
      record at the member's path and nothing beneath it. */
  lemma MemberTypeMismatchIsSole(o1: seq<Member>, o2: seq<Member>, k: string,
                                 path: string, line1: Locate, line2: Locate)
    requires k in Keys(o1) && k in Keys(o2)
    requires TypeOf(Get(o1, k)) != TypeOf(Get(o2, k))
    ensures var d := KeyStep(o1, o2, k, path, line1, line2);
      |d| == 1 && d[0].path == ChildPath(path, k)
      && d[0].kind == ValueTypeMismatch(k, TypeOf(Get(o1, k)), TypeOf(Get(o2, k)), Get(o1, k), Get(o2, k))
  {
  }

  // ---------------------------------------------------------------------
  // Paths

  predicate IsPrefix(p: string, q: string) {
    |p| <= |q| && q[..|p|] == p
  }

  /** Below a node other than the root, every record's path extends the
      node's path. */
  lemma {:induction false} RecordsBeneathPath(a: JsonValue, b: JsonValue, path: string, line1: Locate, line2: Locate)
    requires path != RootPath
    ensures forall r :: r in Diff(a, b, path, line1, line2) ==> IsPrefix(path, r.path)
    decreases a, 2
  {
    if TypeOf(a) == TypeOf(b) && a.Object? {
      var o1, o2 := a.members, b.members;
      KeysDiffMembers(o1, o2, AllKeys(o1, o2), path, line1, line2);
      forall k | k in Keys(o1) || k in Keys(o2)
        ensures forall r :: r in KeyStep(o1, o2, k, path, line1, line2) ==> IsPrefix(path, r.path)
      {
        KeyStepBeneathPath(o1, o2, k, path, line1, line2);
      }
    } else if TypeOf(a) == TypeOf(b) && a.Array? {
      var xs, ys := a.items, b.items;
      ItemsDiffMembers(xs, ys, Max(|xs|, |ys|), path, line1, line2);
      forall i | 0 <= i < Max(|xs|, |ys|)
        ensures forall r :: r in ItemStep(xs, ys, i, path, line1, line2) ==> IsPrefix(path, r.path)
      {
        ItemStepBeneathPath(xs, ys, i, path, line1, line2);
      }
    }
  }

  lemma PrefixTransitive(p: string, q: string, s: string)
    requires IsPrefix(p, q) && IsPrefix(q, s)
    ensures IsPrefix(p, s)
  {
    assert s[..|p|] == s[..|q|][..|p|];
  }

  /** Below the root, every record of a key's step lies under `path.key`. */
  lemma {:induction false} KeyStepBeneathPath(o1: seq<Member>, o2: seq<Member>, k: string,
                                              path: string, line1: Locate, line2: Locate)
    requires path != RootPath
    requires k in Keys(o1) || k in Keys(o2)
    ensures forall r :: r in KeyStep(o1, o2, k, path, line1, line2) ==> IsPrefix(ChildPath(path, k), r.path)
    ensures forall r :: r in KeyStep(o1, o2, k, path, line1, line2) ==> IsPrefix(path, r.path)
    decreases Object(o1), 0
  {
    var child := ChildPath(path, k);
    assert child == path + "." + k;
    assert IsPrefix(path, child);
    assert child[|path|] == '.';
    assert child != RootPath;
    if k in Keys(o1) && k in Keys(o2) {
      RecordsBeneathPath(o1[Find(o1, k).value].value, o2[Find(o2, k).value].value, child, line1, line2);
    }
    forall r | r in KeyStep(o1, o2, k, path, line1, line2) ensures IsPrefix(path, r.path) {
      PrefixTransitive(path, child, r.path);
    }
  }

  /** At any depth, every record of an index's step lies under `path[i]`. */
  lemma {:induction false} ItemStepBeneathPath(xs: seq<JsonValue>, ys: seq<JsonValue>, i: nat,
                                               path: string, line1: Locate, line2: Locate)
    requires i < Max(|xs|, |ys|)
    ensures forall r :: r in ItemStep(xs, ys, i, path, line1, line2) ==> IsPrefix(IndexPath(path, i), r.path)
    ensures forall r :: r in ItemStep(xs, ys, i, path, line1, line2) ==> IsPrefix(path, r.path)
    decreases Array(xs), 0
  {
    var child := IndexPath(path, i);
    assert IsPrefix(path, child);
    assert child[|path|] == '[';
    assert child != RootPath;
    if i < |xs| && i < |ys| {
      RecordsBeneathPath(xs[i], ys[i], child, line1, line2);
    }
    forall r | r in ItemStep(xs, ys, i, path, line1, line2) ensures IsPrefix(path, r.path) {
      PrefixTransitive(path, child, r.path);
    }
  }

  // ---------------------------------------------------------------------
  // Array length differences

  /** `r` is the `array_item_missing_*` record of index `i`, which only the
      longer array has. */
  predicate MissingItemRecord(r: DiffRecord, xs: seq<JsonValue>, ys: seq<JsonValue>, i: nat, path: string)
    requires Min(|xs|, |ys|) <= i < Max(|xs|, |ys|)
  {
    && r.path == IndexPath(path, i)
    && if |xs| < |ys| then r.kind == ArrayItemMissingInJson1(i, ys[i], TypeOf(ys[i])) && r.line1.None?
       else r.kind == ArrayItemMissingInJson2(i, xs[i], TypeOf(xs[i])) && r.line2.None?
  }

  lemma {:induction false} ItemsBeyondCommon(xs: seq<JsonValue>, ys: seq<JsonValue>, n: nat,
                                             path: string, line1: Locate, line2: Locate)
    requires Min(|xs|, |ys|) <= n <= Max(|xs|, |ys|)
    ensures var m := Min(|xs|, |ys|);
      var c := ItemsDiff(xs, ys, m, path, line1, line2);
      var d := ItemsDiff(xs, ys, n, path, line1, line2);
      && |d| == |c| + (n - m) && d[..|c|] == c
      && forall k :: |c| <= k < |d| ==> MissingItemRecord(d[k], xs, ys, m + k - |c|, path)
  {
    var m := Min(|xs|, |ys|);
    if n > m {
      ItemsBeyondCommon(xs, ys, n - 1, path, line1, line2);
      var c := ItemsDiff(xs, ys, m, path, line1, line2);
      var d' := ItemsDiff(xs, ys, n - 1, path, line1, line2);
      var d := ItemsDiff(xs, ys, n, path, line1, line2);
      assert d == d' + ItemStep(xs, ys, n - 1, path, line1, line2);
      assert d[..|d'|] == d';
      assert d[..|c|] == d'[..|c|];
    }
  }

  /** The array loop reports the common prefix first and then exactly
      `|len1 - len2|` missing-item records, one per index the shorter array
      lacks, in index order. */
  lemma ArrayLengthDifference(xs: seq<JsonValue>, ys: seq<JsonValue>, path: string, line1: Locate, line2: Locate)
    ensures var m := Min(|xs|, |ys|);
      var c := ItemsDiff(xs, ys, m, path, line1, line2);
      var d := Diff(Array(xs), Array(ys), path, line1, line2);
      && |d| == |c| + (Max(|xs|, |ys|) - m) && d[..|c|] == c
      && forall k :: |c| <= k < |d| ==> MissingItemRecord(d[k], xs, ys, m + k - |c|, path)
  {
    ItemsBeyondCommon(xs, ys, Max(|xs|, |ys|), path, line1, line2);
  }

  lemma {:induction false} ItemsDiffOfEqualPrefix(xs: seq<JsonValue>, ys: seq<JsonValue>, n: nat,
                                                  path: string, line1: Locate, line2: Locate)
    requires n <= |xs| && n <= |ys| && xs[..n] == ys[..n]
    ensures ItemsDiff(xs, ys, n, path, line1, line2) == []
  {
    if n > 0 {
      assert xs[..n - 1] == xs[..n][..n - 1];
      assert ys[..n - 1] == ys[..n][..n - 1];
      ItemsDiffOfEqualPrefix(xs, ys, n - 1, path, line1, line2);
      assert xs[n - 1] == xs[..n][n - 1];
      assert ys[n - 1] == ys[..n][n - 1];
      DiffOfSelf(xs[n - 1], IndexPath(path, n - 1), line1, line2);
    }
  }

  /** When one array extends the other, the only records are the
      `|len1 - len2|` missing items. */
  lemma ExtendedArrayOnlyMissingItems(xs: seq<JsonValue>, ys: seq<JsonValue>,
                                      path: string, line1: Locate, line2: Locate)
    requires xs[..Min(|xs|, |ys|)] == ys[..Min(|xs|, |ys|)]
    ensures var d := Diff(Array(xs), Array(ys), path, line1, line2);
      && |d| == Max(|xs|, |ys|) - Min(|xs|, |ys|)
      && forall k :: 0 <= k < |d| ==> MissingItemRecord(d[k], xs, ys, Min(|xs|, |ys|) + k, path)
  {
    ItemsDiffOfEqualPrefix(xs, ys, Min(|xs|, |ys|), path, line1, line2);
    ArrayLengthDifference(xs, ys, path, line1, line2);
  }

  // ---------------------------------------------------------------------
  // Key order and key presence

  predicate Distinct(ks: seq<string>) {
    forall i, j :: 0 <= i < j < |ks| ==> ks[i] != ks[j]
  }

  /** The keys of `ks` not in `excluded`, in order. */
  function Without(ks: seq<string>, excluded: seq<string>): (r: seq<string>)
    ensures forall k :: k in r <==> k in ks && k !in excluded
  {
    if ks == [] then []
    else
      var last := ks[|ks| - 1];
      assert forall k :: k in ks <==> k in ks[..|ks| - 1] || k == last;
      Without(ks[..|ks| - 1], excluded) + (if last in excluded then [] else [last])
  }

  lemma {:induction false} DedupOfDistinct(ks: seq<string>)
    requires Distinct(ks)
    ensures Dedup(ks) == ks
  {
    if ks != [] {
      var init := ks[..|ks| - 1];
      DedupOfDistinct(init);
      assert ks[|ks| - 1] !in init;
      assert init + [ks[|ks| - 1]] == ks;
    }
  }

  lemma {:induction false} DedupAppend(u: seq<string>, w: seq<string>, n: nat)
    requires Distinct(u) && Distinct(w) && n <= |w|
    ensures Dedup(u + w[..n]) == u + Without(w[..n], u)
  {
    if n == 0 {
      assert u + w[..0] == u;
      DedupOfDistinct(u);
    } else {
      DedupAppend(u, w, n - 1);
      LastNotInPrefix(w, n);
      DedupAppendStep(u, w[..n - 1], w[n - 1]);
      assert w[..n] == w[..n - 1] + [w[n - 1]];
    }
  }

  /** One more key of the second document: it joins the union exactly when
      the first document lacks it. */
  lemma DedupAppendStep(u: seq<string>, v: seq<string>, last: string)
    requires Dedup(u + v) == u + Without(v, u)
    requires last !in v
    ensures Dedup(u + (v + [last])) == u + Without(v + [last], u)
  {
    var rest := Without(v, u);
    var tail := if last in u then [] else [last];
    assert u + (v + [last]) == (u + v) + [last];
    DedupSnoc(u + v, last);
    WithoutSnoc(v, last, u);
    assert (last in u + rest) == (last in u);
    assert u + (rest + tail) == (u + rest) + tail;
  }

  lemma LastNotInPrefix(w: seq<string>, n: nat)
    requires Distinct(w) && 0 < n <= |w|
    ensures w[n - 1] !in w[..n - 1]
  {

  }

  lemma DedupSnoc(ks: seq<string>, x: string)
    ensures Dedup(ks + [x]) == Dedup(ks) + (if x in Dedup(ks) then [] else [x])
  {
    assert (ks + [x])[..|ks|] == ks;
  }

  lemma WithoutSnoc(ks: seq<string>, x: string, excluded: seq<string>)
    ensures Without(ks + [x], excluded) == Without(ks, excluded) + (if x in excluded then [] else [x])
  {
    assert (ks + [x])[..|ks|] == ks;
  }

  /** The key loop visits the first document's keys in order and then the
      keys only the second document has, in its order. */
  lemma AllKeysOrder(o1: seq<Member>, o2: seq<Member>)
    requires UniqueKeys(o1) && UniqueKeys(o2)
    ensures AllKeys(o1, o2) == Keys(o1) + Without(Keys(o2), Keys(o1))
  {
    var w := Keys(o2);
    DedupAppend(Keys(o1), w, |w|);
    assert w[..|w|] == w;
  }

  /** A key only the second document has yields `key_missing_in_json1` with
      no first-document line; a key only the first has yields
      `key_missing_in_json2` with no second-document line. */
  lemma KeyInOneDocumentReported(o1: seq<Member>, o2: seq<Member>, k: string,
                                 path: string, line1: Locate, line2: Locate)
    requires (k in Keys(o1)) != (k in Keys(o2))
    ensures k !in Keys(o1) ==>
      var v := Get(o2, k);
      DiffRecord(ChildPath(path, k), KeyMissingInJson1(k, v, TypeOf(v)), None, Some(line2(Some(v), Some(k))))
        in Diff(Object(o1), Object(o2), path, line1, line2)
    ensures k !in Keys(o2) ==>
      var v := Get(o1, k);
      DiffRecord(ChildPath(path, k), KeyMissingInJson2(k, v, TypeOf(v)), Some(line1(Some(v), Some(k))), None)
        in Diff(Object(o1), Object(o2), path, line1, line2)
  {
    KeysDiffMembers(o1, o2, AllKeys(o1, o2), path, line1, line2);
    assert k in AllKeys(o1, o2);
  }

  // ---------------------------------------------------------------------
  // Completeness against the normal form

  lemma NormalizeKeepsType(v: JsonValue)
    ensures TypeOf(Normalize(v)) == TypeOf(v)
  {
  }

  /** A non-empty list of records has a first member. */
  lemma FirstRecord(rs: seq<DiffRecord>)
    ensures rs == [] || rs[0] in rs
  {
  }

  /** Records all found in an empty list are none. */
  lemma NoRecordsIn(rs: seq<DiffRecord>, whole: seq<DiffRecord>)
    requires whole == []
    requires forall r :: r in rs ==> r in whole
    ensures rs == []
  {
    FirstRecord(rs);
  }

  lemma {:induction false} KeysDiffEmpty(o1: seq<Member>, o2: seq<Member>, keys: seq<string>,
                                         path: string, line1: Locate, line2: Locate)
    requires Covered(o1, o2, keys)
    ensures KeysDiff(o1, o2, keys, path, line1, line2) == [] <==>
      forall k :: k in keys ==> KeyStep(o1, o2, k, path, line1, line2) == []
  {
    var whole := KeysDiff(o1, o2, keys, path, line1, line2);
    KeysDiffMembers(o1, o2, keys, path, line1, line2);
    if whole != [] {
      assert whole[0] in whole;
      var k :| k in keys && whole[0] in KeyStep(o1, o2, k, path, line1, line2);
    } else {
      forall k | k in keys ensures KeyStep(o1, o2, k, path, line1, line2) == [] {
        var step := KeyStep(o1, o2, k, path, line1, line2);
        NoRecordsIn(step, whole);
      }
    }
  }

  lemma {:induction false} ItemsDiffEmpty(xs: seq<JsonValue>, ys: seq<JsonValue>, n: nat,
                                          path: string, line1: Locate, line2: Locate)
    requires n <= Max(|xs|, |ys|)
    ensures ItemsDiff(xs, ys, n, path, line1, line2) == [] <==>
      forall i :: 0 <= i < n ==> ItemStep(xs, ys, i, path, line1, line2) == []
  {
    var whole := ItemsDiff(xs, ys, n, path, line1, line2);
    ItemsDiffMembers(xs, ys, n, path, line1, line2);
    if whole != [] {
      assert whole[0] in whole;
      var i :| 0 <= i < n && whole[0] in ItemStep(xs, ys, i, path, line1, line2);
      assert ItemStep(xs, ys, i, path, line1, line2) != [];
    } else {
      forall i | 0 <= i < n ensures ItemStep(xs, ys, i, path, line1, line2) == [] {
        var step := ItemStep(xs, ys, i, path, line1, line2);
        NoRecordsIn(step, whole);
      }
    }
  }

  /** On parsed documents (no repeated keys), the differ reports nothing
      exactly when the two documents have the same normal form, that is,
      exactly when `areJsonSemanticallyIdentical` would say they are
      identical. */
  lemma {:induction false} DiffEmptyIffSameNormalForm(a: JsonValue, b: JsonValue,
                                                      path: string, line1: Locate, line2: Locate)
    requires WellFormed(a) && WellFormed(b)
    ensures Diff(a, b, path, line1, line2) == [] <==> Normalize(a) == Normalize(b)
    decreases a, 2
  {
    NormalizeKeepsType(a);
    NormalizeKeepsType(b);
    if TypeOf(a) != TypeOf(b) {
    } else if a.Object? {
      MembersDiffEmptyIff(a.members, b.members, path, line1, line2);
    } else if a.Array? {
      ItemsDiffEmptyIff(a.items, b.items, path, line1, line2);
    }
  }

  lemma {:induction false} MembersDiffEmptyIff(o1: seq<Member>, o2: seq<Member>,
                                               path: string, line1: Locate, line2: Locate)
    requires WellFormed(Object(o1)) && WellFormed(Object(o2))
    ensures KeysDiff(o1, o2, AllKeys(o1, o2), path, line1, line2) == [] <==>
      Normalize(Object(o1)) == Normalize(Object(o2))
    decreases Object(o1), 1
  {
    var keys := AllKeys(o1, o2);
    KeysDiffEmpty(o1, o2, keys, path, line1, line2);
    NormalizedObjectsEqual(o1, o2);
    forall k | k in Keys(o1) || k in Keys(o2)
      ensures KeyStep(o1, o2, k, path, line1, line2) == [] <==>
        k in Keys(o1) && k in Keys(o2) && Normalize(Get(o1, k)) == Normalize(Get(o2, k))
    {
      KeyStepEmpty(o1, o2, k, path, line1, line2);
    }
  }

  lemma {:induction false} ItemsDiffEmptyIff(xs: seq<JsonValue>, ys: seq<JsonValue>,
                                             path: string, line1: Locate, line2: Locate)
    requires WellFormed(Array(xs)) && WellFormed(Array(ys))
    ensures ItemsDiff(xs, ys, Max(|xs|, |ys|), path, line1, line2) == [] <==>
      Normalize(Array(xs)) == Normalize(Array(ys))
    decreases Array(xs), 1
  {
    var n := Max(|xs|, |ys|);
    ItemsDiffEmpty(xs, ys, n, path, line1, line2);
    forall i | 0 <= i < n
      ensures ItemStep(xs, ys, i, path, line1, line2) == [] <==>
        i < |xs| && i < |ys| && Normalize(xs[i]) == Normalize(ys[i])
    {
      ItemStepEmpty(xs, ys, i, path, line1, line2);
    }
    ArrayNormalFormsEqual(xs, ys);
    if ItemsDiff(xs, ys, n, path, line1, line2) == [] {
      FirstMissingIndexReported(xs, ys, path, line1, line2);
      assert |xs| == |ys|;
      forall i | 0 <= i < |xs| ensures Normalize(xs[i]) == Normalize(ys[i]) {
        assert ItemStep(xs, ys, i, path, line1, line2) == [];
      }
    }
    if Normalize(Array(xs)) == Normalize(Array(ys)) {
      forall i | 0 <= i < n ensures ItemStep(xs, ys, i, path, line1, line2) == [] {
      }
    }
  }

  lemma FirstMissingIndexReported(xs: seq<JsonValue>, ys: seq<JsonValue>, path: string, line1: Locate, line2: Locate)
    ensures |xs| != |ys| ==> ItemStep(xs, ys, Min(|xs|, |ys|), path, line1, line2) != []
  {
  }

  /** Two arrays have the same normal form exactly when they have the same
      length and their items have pairwise the same normal form. */
  lemma ArrayNormalFormsEqual(xs: seq<JsonValue>, ys: seq<JsonValue>)
    ensures Normalize(Array(xs)) == Normalize(Array(ys)) <==>
      |xs| == |ys| && forall i :: 0 <= i < |xs| ==> Normalize(xs[i]) == Normalize(ys[i])
  {
    var na, nb := Normalize(Array(xs)).items, Normalize(Array(ys)).items;
    assert forall i :: 0 <= i < |xs| ==> na[i] == Normalize(xs[i]);
    assert forall i :: 0 <= i < |ys| ==> nb[i] == Normalize(ys[i]);
    if |xs| == |ys| && forall i :: 0 <= i < |xs| ==> Normalize(xs[i]) == Normalize(ys[i]) {
      assert na == nb;
    }
  }

  lemma {:induction false} KeyStepEmpty(o1: seq<Member>, o2: seq<Member>, k: string,
                                        path: string, line1: Locate, line2: Locate)
    requires WellFormed(Object(o1)) && WellFormed(Object(o2))
    requires k in Keys(o1) || k in Keys(o2)
    ensures KeyStep(o1, o2, k, path, line1, line2) == [] <==>
      k in Keys(o1) && k in Keys(o2) && Normalize(Get(o1, k)) == Normalize(Get(o2, k))
    decreases Object(o1), 0
  {
    if k in Keys(o1) && k in Keys(o2) {
      var v1 := o1[Find(o1, k).value].value;
      var v2 := o2[Find(o2, k).value].value;
      assert WellFormed(v1) && WellFormed(v2);
      NormalizeKeepsType(v1);
      NormalizeKeepsType(v2);
      if TypeOf(v1) == TypeOf(v2) && IsContainer(TypeOf(v1)) {
        DiffEmptyIffSameNormalForm(v1, v2, ChildPath(path, k), line1, line2);
      }
    }
  }

  lemma {:induction false} ItemStepEmpty(xs: seq<JsonValue>, ys: seq<JsonValue>, i: nat,
                                         path: string, line1: Locate, line2: Locate)
    requires WellFormed(Array(xs)) && WellFormed(Array(ys))
    requires i < Max(|xs|, |ys|)
    ensures ItemStep(xs, ys, i, path, line1, line2) == [] <==>
      i < |xs| && i < |ys| && Normalize(xs[i]) == Normalize(ys[i])
    decreases Array(xs), 0
  {
    if i < |xs| && i < |ys| {
      assert WellFormed(xs[i]) && WellFormed(ys[i]);
      NormalizeKeepsType(xs[i]);
      NormalizeKeepsType(ys[i]);
      if TypeOf(xs[i]) == TypeOf(ys[i]) && IsContainer(TypeOf(xs[i])) {
        DiffEmptyIffSameNormalForm(xs[i], ys[i], IndexPath(path, i), line1, line2);
      }
    }
  }
}
