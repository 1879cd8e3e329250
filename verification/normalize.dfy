/** Key-order-insensitive equality of two documents (`normalizeJson` and
    `areJsonSemanticallyIdentical` in frontend/compareJson.js): every object
    is rebuilt with its keys sorted, arrays keep their order, and the two
    normalised trees are compared. */
module Normalization {
  import opened Json

  /** Strict lexicographic order on keys, the order of the default `sort()`. */
  predicate Less(a: string, b: string)
    decreases |a|
  {
    |b| > 0 && (|a| == 0 || a[0] < b[0] || (a[0] == b[0] && Less(a[1..], b[1..])))
  }

  lemma {:induction false} LessIrreflexive(a: string)
    ensures !Less(a, a)
    decreases |a|
  {
    if |a| > 0 {
      LessIrreflexive(a[1..]);
    }
  }

  lemma {:induction false} LessTransitive(a: string, b: string, c: string)
    requires Less(a, b) && Less(b, c)
    ensures Less(a, c)
    decreases |a|
  {
    if |a| > 0 && a[0] == b[0] && b[0] == c[0] {
      LessTransitive(a[1..], b[1..], c[1..]);
    }
  }

  lemma {:induction false} LessTotal(a: string, b: string)
    ensures a == b || Less(a, b) || Less(b, a)
    decreases |a|
  {
    if |a| > 0 && |b| > 0 && a[0] == b[0] {
      LessTotal(a[1..], b[1..]);
      if a[1..] == b[1..] {
        assert a == [a[0]] + a[1..] && b == [b[0]] + b[1..];
      }
    }
  }

  lemma LessAsymmetric(a: string, b: string)
    requires Less(a, b)
    ensures !Less(b, a)
  {
    if Less(b, a) {
      LessTransitive(a, b, a);
      LessIrreflexive(a);
    }
  }

  /** No later member's key sorts before an earlier one's. */
  predicate Sorted(ms: seq<Member>) {
    forall i, j :: 0 <= i < j < |ms| ==> !Less(ms[j].key, ms[i].key)
  }

  predicate StrictlySorted(ms: seq<Member>) {
    forall i, j :: 0 <= i < j < |ms| ==> Less(ms[i].key, ms[j].key)
  }

  /** Places `m` before the first member whose key sorts after its own. */
  function Insert(m: Member, s: seq<Member>): (r: seq<Member>)
    ensures multiset(r) == multiset(s) + multiset{m}
  {
    if s == [] then [m]
    else if Less(m.key, s[0].key) then [m] + s
    else
      assert s == [s[0]] + s[1..];
      [s[0]] + Insert(m, s[1..])
  }

  /** `Object.keys(obj).sort()`, carried out on the members. */
  function SortByKey(ms: seq<Member>): (r: seq<Member>)
    ensures multiset(r) == multiset(ms)
  {
    if ms == [] then []
    else
      assert ms == ms[..|ms| - 1] + [ms[|ms| - 1]];
      Insert(ms[|ms| - 1], SortByKey(ms[..|ms| - 1]))
  }

  lemma {:induction false} InsertSorted(m: Member, s: seq<Member>)
    requires Sorted(s)
    ensures Sorted(Insert(m, s))
  {
    if s != [] && !Less(m.key, s[0].key) {
      InsertSorted(m, s[1..]);
      var r := Insert(m, s);
      forall i, j | 0 <= i < j < |r|
        ensures !Less(r[j].key, r[i].key)
      {
        if i == 0 {
          assert r[j] in multiset(s[1..]) + multiset{m};
          if r[j] == m {
          } else {
            assert r[j] in s[1..];
            var k :| 0 <= k < |s[1..]| && s[1..][k] == r[j];
            assert s[k + 1] == r[j];
          }
        }
      }
    } else if s != [] {
      var r := Insert(m, s);
      forall i, j | 0 <= i < j < |r|
        ensures !Less(r[j].key, r[i].key)
      {
        if i == 0 {
          if j > 1 {
            assert r[j] == s[j - 1];
            if Less(r[j].key, m.key) {
              LessTransitive(r[j].key, m.key, s[0].key);
            }
          } else {
            LessAsymmetric(m.key, s[0].key);
          }
        }
      }
    }
  }

  lemma {:induction false} SortIsSorted(ms: seq<Member>)
    ensures Sorted(SortByKey(ms))
  {
    if ms != [] {
      SortIsSorted(ms[..|ms| - 1]);
      InsertSorted(ms[|ms| - 1], SortByKey(ms[..|ms| - 1]));
    }
  }

  lemma {:induction false} InsertKeepsStrict(m: Member, s: seq<Member>)
    requires StrictlySorted(s) && m.key !in Keys(s)
    ensures StrictlySorted(Insert(m, s))
  {
    if s != [] {
      if Less(m.key, s[0].key) {
        InsertFrontStrict(m, s);
      } else {
        assert Keys(s[1..]) == Keys(s)[1..];
        InsertKeepsStrict(m, s[1..]);
        LessTotal(m.key, s[0].key);
        assert Keys(s)[0] == s[0].key;
        InsertAfterHeadStrict(m, s);
      }
    }
  }

  lemma InsertFrontStrict(m: Member, s: seq<Member>)
    requires s != [] && StrictlySorted(s) && Less(m.key, s[0].key)
    ensures StrictlySorted([m] + s)
  {
    var r := [m] + s;
    forall i, j | 0 <= i < j < |r|
      ensures Less(r[i].key, r[j].key)
    {
      if i == 0 && j > 1 {
        assert r[j] == s[j - 1];
        LessTransitive(m.key, s[0].key, r[j].key);
      }
    }
  }

  lemma InsertAfterHeadStrict(m: Member, s: seq<Member>)
    requires s != [] && StrictlySorted(s) && Less(s[0].key, m.key)
    requires StrictlySorted(Insert(m, s[1..]))
    ensures StrictlySorted([s[0]] + Insert(m, s[1..]))
  {
    var t := Insert(m, s[1..]);
    forall x | x in t
      ensures Less(s[0].key, x.key)
    {
      HeadBelowRest(m, s, x);
    }
    ConsStrict(s[0], t);
  }

  /** A member of `Insert(m, s[1..])` is `m` or a later member of `s`. */
  lemma HeadBelowRest(m: Member, s: seq<Member>, x: Member)
    requires s != [] && StrictlySorted(s) && Less(s[0].key, m.key)
    requires x in Insert(m, s[1..])
    ensures Less(s[0].key, x.key)
  {
    assert x in multiset(Insert(m, s[1..]));
    if x != m {
      assert x in multiset(s[1..]);
      var k :| 0 <= k < |s[1..]| && s[1..][k] == x;
      assert s[k + 1] == x;
    }
  }

  lemma ConsStrict(h: Member, t: seq<Member>)
    requires StrictlySorted(t)
    requires forall x :: x in t ==> Less(h.key, x.key)
    ensures StrictlySorted([h] + t)
  {
    var r := [h] + t;
    forall i, j | 0 <= i < j < |r|
      ensures Less(r[i].key, r[j].key)
    {
      assert r[j] == t[j - 1];
      if i > 0 {
        assert r[i] == t[i - 1];
      }
    }
  }

  lemma MembersOfSort(ms: seq<Member>)
    ensures forall x :: x in SortByKey(ms) <==> x in ms
  {
    forall x
      ensures x in SortByKey(ms) <==> x in ms
    {
      assert x in SortByKey(ms) <==> x in multiset(SortByKey(ms));
      assert x in ms <==> x in multiset(ms);
    }
  }

  lemma KeysOfMembers(a: seq<Member>, b: seq<Member>)
    requires forall x :: x in a <==> x in b
    ensures forall k :: k in Keys(a) <==> k in Keys(b)
  {
    forall k | k in Keys(a)
      ensures k in Keys(b)
    {
      var i :| 0 <= i < |a| && Keys(a)[i] == k;
      assert a[i] in b;
      var j :| 0 <= j < |b| && b[j] == a[i];
      assert Keys(b)[j] == k;
    }
    forall k | k in Keys(b)
      ensures k in Keys(a)
    {
      var i :| 0 <= i < |b| && Keys(b)[i] == k;
      assert b[i] in a;
      var j :| 0 <= j < |a| && a[j] == b[i];
      assert Keys(a)[j] == k;
    }
  }

  /** With unique keys the sort leaves no two members with equal keys. */
  lemma {:induction false} SortIsStrict(ms: seq<Member>)
    requires UniqueKeys(ms)
    ensures StrictlySorted(SortByKey(ms))
  {
    if ms != [] {
      var init := ms[..|ms| - 1];
      var last := ms[|ms| - 1];
      assert UniqueKeys(init);
      SortIsStrict(init);
      MembersOfSort(init);
      KeysOfMembers(SortByKey(init), init);
      assert forall i :: 0 <= i < |init| ==> Keys(init)[i] != last.key;
      InsertKeepsStrict(last, SortByKey(init));
    }
  }

  lemma {:induction false} SortOfSorted(ms: seq<Member>)
    requires Sorted(ms)
    ensures SortByKey(ms) == ms
  {
    if ms != [] {
      var init := ms[..|ms| - 1];
      var last := ms[|ms| - 1];
      assert Sorted(init);
      SortOfSorted(init);
      InsertAtEnd(last, init);
      assert init + [last] == ms;
    }
  }

  lemma {:induction false} InsertAtEnd(m: Member, s: seq<Member>)
    requires forall i :: 0 <= i < |s| ==> !Less(m.key, s[i].key)
    ensures Insert(m, s) == s + [m]
  {
    if s != [] {
      InsertAtEnd(m, s[1..]);
      assert s == [s[0]] + s[1..];
    }
  }

  /** Two strictly sorted member lists with the same members are equal. */
  lemma {:induction false} StrictlySortedUnique(a: seq<Member>, b: seq<Member>)
    requires StrictlySorted(a) && StrictlySorted(b)
    requires forall x :: x in a <==> x in b
    ensures a == b
  {
    SameMembersBothEmpty(a, b);
    if a != [] && b != [] {
      assert a[0] in b;
      assert b[0] in a;
      var j :| 0 <= j < |b| && b[j] == a[0];
      var i :| 0 <= i < |a| && a[i] == b[0];
      if i != 0 {
        assert Less(a[0].key, a[i].key);
        if j != 0 {
          LessTransitive(b[0].key, a[0].key, b[0].key);
          LessIrreflexive(b[0].key);
        } else {
          LessIrreflexive(a[0].key);
        }
      }
      assert a[0] == b[0];
      forall x
        ensures x in a[1..] <==> x in b[1..]
      {
        if x in a[1..] {
          var k :| 1 <= k < |a| && a[k] == x;
          assert Less(a[0].key, x.key);
          if x == b[0] {
            LessIrreflexive(x.key);
          }
          assert x in b;
        }
        if x in b[1..] {
          var k :| 1 <= k < |b| && b[k] == x;
          assert Less(b[0].key, x.key);
          if x == a[0] {
            LessIrreflexive(x.key);
          }
          assert x in a;
        }
      }
      StrictlySortedUnique(a[1..], b[1..]);
      assert a == [a[0]] + a[1..] && b == [b[0]] + b[1..];
    }
  }

  lemma SameMembersBothEmpty(a: seq<Member>, b: seq<Member>)
    requires forall x :: x in a <==> x in b
    ensures a == [] <==> b == []
  {
    if a != [] {
      assert a[0] in b;
    }
    if b != [] {
      assert b[0] in a;
    }
  }

  /** `normalizeJson`: object keys sorted, values normalised, arrays kept in
      order, primitives unchanged. The values are normalised before the
      members are sorted; the sort looks only at keys, so this is the same
      object the source builds by sorting the keys first. */
  function Normalize(v: JsonValue): (r: JsonValue)
    ensures v.Array? <==> r.Array?
    ensures v.Object? <==> r.Object?
    ensures v.Array? ==> |r.items| == |v.items|
    ensures !v.Array? && !v.Object? ==> r == v
  {
    match v
    case Array(xs) => Array(seq(|xs|, i requires 0 <= i < |xs| => Normalize(xs[i])))
    case Object(ms) => Object(SortByKey(NormalizeMembers(ms)))
    case _ => v
  }

  function NormalizeMembers(ms: seq<Member>): (r: seq<Member>)
    ensures Keys(r) == Keys(ms)
    decreases Object(ms), 0
  {
    seq(|ms|, i requires 0 <= i < |ms| => Member(ms[i].key, Normalize(ms[i].value)))
  }

  /** The shape `Normalize` produces: every object sorted by key. */
  predicate IsNormal(v: JsonValue) {
    match v
    case Array(xs) => forall i :: 0 <= i < |xs| ==> IsNormal(xs[i])
    case Object(ms) => Sorted(ms) && forall i :: 0 <= i < |ms| ==> IsNormal(ms[i].value)
    case _ => true
  }

  lemma {:induction false} NormalizeIsNormal(v: JsonValue)
    ensures IsNormal(Normalize(v))
  {
    match v
    case Array(xs) =>
      forall i | 0 <= i < |xs| {
        NormalizeIsNormal(xs[i]);
      }
    case Object(ms) =>
      var n := NormalizeMembers(ms);
      forall i | 0 <= i < |ms| {
        NormalizeIsNormal(ms[i].value);
      }
      var s := SortByKey(n);
      SortIsSorted(n);
      MembersOfSort(n);
      forall i | 0 <= i < |s|
        ensures IsNormal(s[i].value)
      {
        assert s[i] in n;
      }
    case _ =>
  }

  lemma {:induction false} NormalIsFixed(v: JsonValue)
    requires IsNormal(v)
    ensures Normalize(v) == v
  {
    match v
    case Array(xs) =>
      forall i | 0 <= i < |xs| {
        NormalIsFixed(xs[i]);
      }
      assert Normalize(v).items == xs;
    case Object(ms) =>
      forall i | 0 <= i < |ms| {
        NormalIsFixed(ms[i].value);
      }
      assert NormalizeMembers(ms) == ms;
      SortOfSorted(ms);
    case _ =>
  }

  /** Normalising twice is normalising once. */
  lemma NormalizeIdempotent(v: JsonValue)
    ensures Normalize(Normalize(v)) == Normalize(v)
  {
    NormalizeIsNormal(v);
    NormalIsFixed(Normalize(v));
  }

  /** A normalised object member is the original member's key with its
      normalised value. */
  lemma MembersOfNormalized(ms: seq<Member>)
    requires UniqueKeys(ms)
    ensures forall x :: x in NormalizeMembers(ms) <==>
      x.key in Keys(ms) && x.value == Normalize(Get(ms, x.key))
  {
    var n := NormalizeMembers(ms);
    forall x
      ensures x in n <==> x.key in Keys(ms) && x.value == Normalize(Get(ms, x.key))
    {
      if x in n {
        var i :| 0 <= i < |n| && n[i] == x;
        GetUnique(ms, i);
      }
      if x.key in Keys(ms) && x.value == Normalize(Get(ms, x.key)) {
        var i := Find(ms, x.key).value;
        assert n[i] == x;
      }
    }
  }

  /** The members of an object with unique keys, normalised and sorted, hold
      exactly the object's keys, each with its normalised value. */
  lemma MembersOfNormalForm(ms: seq<Member>)
    requires UniqueKeys(ms)
    ensures forall x :: x in SortByKey(NormalizeMembers(ms)) <==>
      x.key in Keys(ms) && x.value == Normalize(Get(ms, x.key))
  {
    MembersOfNormalized(ms);
    MembersOfSort(NormalizeMembers(ms));
  }

  ghost predicate SameEntries(o1: seq<Member>, o2: seq<Member>) {
    && (forall k :: k in Keys(o1) <==> k in Keys(o2))
    && (forall k :: k in Keys(o1) && k in Keys(o2) ==> Normalize(Get(o1, k)) == Normalize(Get(o2, k)))
  }

  lemma EqualNormalFormsHaveSameEntries(o1: seq<Member>, o2: seq<Member>)
    requires UniqueKeys(o1) && UniqueKeys(o2)
    requires Normalize(Object(o1)) == Normalize(Object(o2))
    ensures SameEntries(o1, o2)
  {
    forall k | k in Keys(o1)
      ensures k in Keys(o2) && Normalize(Get(o1, k)) == Normalize(Get(o2, k))
    {
      EntryOfNormalForm(o1, k);
      EntryKeyOfNormalForm(o2, Member(k, Normalize(Get(o1, k))));
    }
    forall k | k in Keys(o2)
      ensures k in Keys(o1)
    {
      EntryOfNormalForm(o2, k);
      EntryKeyOfNormalForm(o1, Member(k, Normalize(Get(o2, k))));
    }
  }

  /** Each key's normalised entry is a member of the normal form. */
  lemma EntryOfNormalForm(ms: seq<Member>, k: string)
    requires UniqueKeys(ms) && k in Keys(ms)
    ensures Member(k, Normalize(Get(ms, k))) in Normalize(Object(ms)).members
  {
    MembersOfNormalForm(ms);
  }

  /** Each member of the normal form is a key's normalised entry. */
  lemma EntryKeyOfNormalForm(ms: seq<Member>, x: Member)
    requires UniqueKeys(ms) && x in Normalize(Object(ms)).members
    ensures x.key in Keys(ms) && x.value == Normalize(Get(ms, x.key))
  {
    MembersOfNormalForm(ms);
  }

  lemma SameEntriesGiveEqualNormalForms(o1: seq<Member>, o2: seq<Member>)
    requires UniqueKeys(o1) && UniqueKeys(o2)
    requires SameEntries(o1, o2)
    ensures Normalize(Object(o1)) == Normalize(Object(o2))
  {
    MembersOfNormalForm(o1);
    MembersOfNormalForm(o2);
    var s1, s2 := SortByKey(NormalizeMembers(o1)), SortByKey(NormalizeMembers(o2));
    assert forall x :: x in s1 <==> x in s2;
    SortIsStrict(NormalizeMembers(o1));
    SortIsStrict(NormalizeMembers(o2));
    StrictlySortedUnique(s1, s2);
  }

  /** Two objects normalise to the same value exactly when they have the same
      keys and, key by key, values that normalise to the same value. */
  lemma NormalizedObjectsEqual(o1: seq<Member>, o2: seq<Member>)
    requires UniqueKeys(o1) && UniqueKeys(o2)
    ensures Normalize(Object(o1)) == Normalize(Object(o2)) <==> SameEntries(o1, o2)
  {
    if Normalize(Object(o1)) == Normalize(Object(o2)) {
      EqualNormalFormsHaveSameEntries(o1, o2);
    }
    if SameEntries(o1, o2) {
      SameEntriesGiveEqualNormalForms(o1, o2);
    }
  }

  /** Objects with unique keys and the same members, in whatever order,
      have the same normal form. */
  lemma SameMembersNormalizeEqually(o1: seq<Member>, o2: seq<Member>)
    requires UniqueKeys(o1) && UniqueKeys(o2)
    requires forall x :: x in o1 <==> x in o2
    ensures Normalize(Object(o1)) == Normalize(Object(o2))
  {
    KeysOfMembers(o1, o2);
    forall k | k in Keys(o1) && k in Keys(o2)
      ensures Get(o1, k) == Get(o2, k)
    {
      var i := Find(o1, k).value;
      assert o1[i] in o2;
      var j :| 0 <= j < |o2| && o2[j] == o1[i];
      GetUnique(o1, i);
      GetUnique(o2, j);
    }
    SameEntriesGiveEqualNormalForms(o1, o2);
  }

  /** Reordering an object's members does not change its normal form. */
  lemma KeyOrderIgnored(o1: seq<Member>, o2: seq<Member>)
    requires UniqueKeys(o1) && UniqueKeys(o2)
    requires multiset(o1) == multiset(o2)
    ensures Normalize(Object(o1)) == Normalize(Object(o2))
  {
    forall x
      ensures x in o1 <==> x in o2
    {
      assert x in o1 <==> x in multiset(o1);
      assert x in o2 <==> x in multiset(o2);
    }
    SameMembersNormalizeEqually(o1, o2);
  }

  // ---------------------------------------------------------------------
  // The member `normalizeJson` cannot store

  /** The one key that `normalized[key] = …` does not store as a member: on
      a plain object, assigning `__proto__` calls the prototype setter, so
      the normalised object, and the `JSON.stringify` text made of it, lack
      that member. `JSON.parse` itself does keep it as an ordinary member. */
  const ProtoKey: string := "__proto__"

  /** No object anywhere in `v` has a `__proto__` member. */
  predicate ProtoFree(v: JsonValue) {
    match v
    case Array(xs) => forall i :: 0 <= i < |xs| ==> ProtoFree(xs[i])
    case Object(ms) => ProtoKey !in Keys(ms) && forall i :: 0 <= i < |ms| ==> ProtoFree(ms[i].value)
    case _ => true
  }

  /** `v` with every `__proto__` member removed, at every depth. */
  function DropProto(v: JsonValue): JsonValue
    decreases v, 1, 0
  {
    match v
    case Array(xs) => Array(seq(|xs|, i requires 0 <= i < |xs| => DropProto(xs[i])))
    case Object(ms) => Object(DropProtoFrom(ms, 0))
    case _ => v
  }

  /** The members of `ms[i..]` other than `__proto__`, in order, their values
      cleared in the same way. */
  function DropProtoFrom(ms: seq<Member>, i: nat): seq<Member>
    requires i <= |ms|
    decreases Object(ms), 0, |ms| - i
  {
    if i == |ms| then []
    else
      var rest := DropProtoFrom(ms, i + 1);
      if ms[i].key == ProtoKey then rest else [Member(ms[i].key, DropProto(ms[i].value))] + rest
  }

  /** A kept member is a member of `ms[i..]` not keyed `__proto__`, with its
      value cleared, and every such member is kept. */
  lemma {:induction false} DropProtoFromMembers(ms: seq<Member>, i: nat)
    requires i <= |ms|
    ensures forall x :: x in DropProtoFrom(ms, i) <==>
      exists j :: i <= j < |ms| && ms[j].key != ProtoKey && x == Member(ms[j].key, DropProto(ms[j].value))
    decreases |ms| - i
  {
    if i < |ms| {
      DropProtoFromMembers(ms, i + 1);
      var rest := DropProtoFrom(ms, i + 1);
      forall x
        ensures x in DropProtoFrom(ms, i) <==>
          exists j :: i <= j < |ms| && ms[j].key != ProtoKey && x == Member(ms[j].key, DropProto(ms[j].value))
      {
        if exists j :: i <= j < |ms| && ms[j].key != ProtoKey && x == Member(ms[j].key, DropProto(ms[j].value)) {
          var j :| i <= j < |ms| && ms[j].key != ProtoKey && x == Member(ms[j].key, DropProto(ms[j].value));
          if j > i {
            assert x in rest;
          }
        }
      }
    }
  }

  /** Dropping members keeps the keys unique. */
  lemma {:induction false} DropProtoFromUnique(ms: seq<Member>, i: nat)
    requires i <= |ms| && UniqueKeys(ms)
    ensures UniqueKeys(DropProtoFrom(ms, i))
    decreases |ms| - i
  {
    if i < |ms| {
      DropProtoFromUnique(ms, i + 1);
      if ms[i].key != ProtoKey {
        DropProtoFromMembers(ms, i + 1);
        var rest := DropProtoFrom(ms, i + 1);
        var r := [Member(ms[i].key, DropProto(ms[i].value))] + rest;
        forall a, b | 0 <= a < b < |r|
          ensures r[a].key != r[b].key
        {
          assert r[b] == rest[b - 1] && rest[b - 1] in rest;
          if a > 0 {
            assert r[a] == rest[a - 1];
          } else {
            var j :| i + 1 <= j < |ms| && ms[j].key != ProtoKey
                     && rest[b - 1] == Member(ms[j].key, DropProto(ms[j].value));
          }
        }
      }
    }
  }

  lemma {:induction false} DropProtoIsFree(v: JsonValue)
    ensures ProtoFree(DropProto(v))
    decreases v
  {
    match v
    case Array(xs) =>
      forall i | 0 <= i < |xs| {
        DropProtoIsFree(xs[i]);
      }
    case Object(ms) =>
      var r := DropProtoFrom(ms, 0);
      DropProtoFromMembers(ms, 0);
      forall j | 0 <= j < |ms| {
        DropProtoIsFree(ms[j].value);
      }
      forall i | 0 <= i < |r|
        ensures r[i].key != ProtoKey && ProtoFree(r[i].value)
      {
        assert r[i] in r;
      }
    case _ =>
  }

  lemma {:induction false} DropProtoOfProtoFree(v: JsonValue)
    requires ProtoFree(v)
    ensures DropProto(v) == v
    decreases v, 1, 0
  {
    match v
    case Array(xs) =>
      forall i | 0 <= i < |xs| {
        DropProtoOfProtoFree(xs[i]);
      }
      assert DropProto(v).items == xs;
    case Object(ms) =>
      DropProtoFromOfProtoFree(ms, 0);
    case _ =>
  }

  lemma {:induction false} DropProtoFromOfProtoFree(ms: seq<Member>, i: nat)
    requires i <= |ms| && ProtoFree(Object(ms))
    ensures DropProtoFrom(ms, i) == ms[i..]
    decreases Object(ms), 0, |ms| - i
  {
    if i < |ms| {
      DropProtoFromOfProtoFree(ms, i + 1);
      DropProtoOfProtoFree(ms[i].value);
      assert Keys(ms)[i] == ms[i].key;
      assert ms[i..] == [ms[i]] + ms[i + 1..];
    }
  }

  /** Sorting and normalising never brings in a `__proto__` member. */
  lemma {:induction false} NormalizeKeepsProtoFree(v: JsonValue)
    requires ProtoFree(v)
    ensures ProtoFree(Normalize(v))
    decreases v
  {
    match v
    case Array(xs) =>
      forall i | 0 <= i < |xs| {
        NormalizeKeepsProtoFree(xs[i]);
      }
    case Object(ms) =>
      var n := NormalizeMembers(ms);
      var s := SortByKey(n);
      MembersOfSort(n);
      forall j | 0 <= j < |ms|
        ensures ms[j].key != ProtoKey && ProtoFree(Normalize(ms[j].value))
      {
        assert Keys(ms)[j] == ms[j].key;
        NormalizeKeepsProtoFree(ms[j].value);
      }
      forall i | 0 <= i < |s|
        ensures s[i].key != ProtoKey && ProtoFree(s[i].value)
      {
        assert s[i] in n;
        var j :| 0 <= j < |n| && n[j] == s[i];
      }
    case _ =>
  }

  /** `normalizeJson` as the source computes it: the key-sorting normal form
      of the value without its `__proto__` members. The result has no such
      member and is sorted at every level. */
  function NormalizeJson(v: JsonValue): (r: JsonValue)
    ensures ProtoFree(r) && IsNormal(r)
  {
    DropProtoIsFree(v);
    NormalizeKeepsProtoFree(DropProto(v));
    NormalizeIsNormal(DropProto(v));
    Normalize(DropProto(v))
  }

  /** On documents without a `__proto__` key the source's normal form is the
      key-sorting normal form. */
  lemma NormalizeJsonOfProtoFree(v: JsonValue)
    requires ProtoFree(v)
    ensures NormalizeJson(v) == Normalize(v)
  {
    DropProtoOfProtoFree(v);
  }

  /** `normalizeJson` is idempotent. */
  lemma NormalizeJsonIdempotent(v: JsonValue)
    ensures NormalizeJson(NormalizeJson(v)) == NormalizeJson(v)
  {
    var w := NormalizeJson(v);
    DropProtoOfProtoFree(w);
    NormalizeIdempotent(DropProto(v));
  }

  /** `normalizeJson` ignores the order of an object's members. */
  lemma NormalizeJsonIgnoresKeyOrder(o1: seq<Member>, o2: seq<Member>)
    requires UniqueKeys(o1) && UniqueKeys(o2)
    requires multiset(o1) == multiset(o2)
    ensures NormalizeJson(Object(o1)) == NormalizeJson(Object(o2))
  {
    var d1, d2 := DropProtoFrom(o1, 0), DropProtoFrom(o2, 0);
    DropProtoFromUnique(o1, 0);
    DropProtoFromUnique(o2, 0);
    forall x
      ensures x in d1 <==> x in d2
    {
      KeptMemberOfPermutation(o1, o2, x);
      KeptMemberOfPermutation(o2, o1, x);
    }
    SameMembersNormalizeEqually(d1, d2);
  }

  /** A member kept from `o1` is kept from any permutation of `o1`. */
  lemma KeptMemberOfPermutation(o1: seq<Member>, o2: seq<Member>, x: Member)
    requires multiset(o1) == multiset(o2)
    ensures x in DropProtoFrom(o1, 0) ==> x in DropProtoFrom(o2, 0)
  {
    DropProtoFromMembers(o1, 0);
    DropProtoFromMembers(o2, 0);
    if x in DropProtoFrom(o1, 0) {
      var j :| 0 <= j < |o1| && o1[j].key != ProtoKey && x == Member(o1[j].key, DropProto(o1[j].value));
      assert o1[j] in multiset(o2);
      var j2 :| 0 <= j2 < |o2| && o2[j2] == o1[j];
    }
  }

  /** `areJsonSemanticallyIdentical(text1, text2)`; `parse` stands for
      `JSON.parse`, whose failure makes the answer false. The source compares
      `JSON.stringify` of the two normal forms, which is equal exactly when the
      normal forms are. */
  function SemanticallyIdentical(parse: string -> Result<JsonValue, string>,
                                 text1: string, text2: string): (same: bool)
    ensures same ==> parse(text1).Ok? && parse(text2).Ok?
    ensures same <==> parse(text1).Ok? && parse(text2).Ok?
                      && NormalizeJson(parse(text1).value) == NormalizeJson(parse(text2).value)
  {
    match (parse(text1), parse(text2))
    case (Ok(a), Ok(b)) => NormalizeJson(a) == NormalizeJson(b)
    case _ => false
  }

  /** The identity check as evidently intended: both texts parse and their
      key-sorting normal forms, every member kept, are equal. */
  predicate SameNormalForm(parse: string -> Result<JsonValue, string>, text1: string, text2: string) {
    parse(text1).Ok? && parse(text2).Ok? && Normalize(parse(text1).value) == Normalize(parse(text2).value)
  }

  /** The two checks agree on documents without a `__proto__` key. */
  lemma SemanticallyIdenticalOfProtoFree(parse: string -> Result<JsonValue, string>,
                                         text1: string, text2: string)
    requires parse(text1).Ok? ==> ProtoFree(parse(text1).value)
    requires parse(text2).Ok? ==> ProtoFree(parse(text2).value)
    ensures SemanticallyIdentical(parse, text1, text2) <==> SameNormalForm(parse, text1, text2)
  {
    if parse(text1).Ok? && parse(text2).Ok? {
      NormalizeJsonOfProtoFree(parse(text1).value);
      NormalizeJsonOfProtoFree(parse(text2).value);
    }
  }

  /** The check ignores the order in which a document lists its keys. */
  lemma SemanticIdentityIgnoresKeyOrder(parse: string -> Result<JsonValue, string>,
                                        text1: string, text2: string)
    requires parse(text1).Ok? && parse(text1).value.Object?
    requires parse(text2).Ok? && parse(text2).value.Object?
    requires UniqueKeys(parse(text1).value.members) && UniqueKeys(parse(text2).value.members)
    requires multiset(parse(text1).value.members) == multiset(parse(text2).value.members)
    ensures SemanticallyIdentical(parse, text1, text2)
  {
    NormalizeJsonIgnoresKeyOrder(parse(text1).value.members, parse(text2).value.members);
  }
}
