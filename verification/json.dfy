/** Parsed JSON values as both halves of the application see them: the
    result of `JSON.parse` in the browser and of `json.loads` in the backend.
    Numbers are integers; an object keeps its members in `Object.keys` order. */
module Json {

  datatype Option<+T> = None | Some(value: T) {
    function GetOr(default: T): T {
      match this
      case Some(v) => v
      case None => default
    }
  }

  datatype Result<+T, +E> = Ok(value: T) | Err(error: E)

  datatype Member = Member(key: string, value: JsonValue)

  datatype JsonValue =
    | Null
    | Bool(b: bool)
    | Number(n: int)
    | Str(s: string)
    | Array(items: seq<JsonValue>)
    | Object(members: seq<Member>)

  /** `Object.keys(obj)`: the keys in member order. */
  function Keys(ms: seq<Member>): (ks: seq<string>)
    ensures |ks| == |ms|
    ensures forall i :: 0 <= i < |ms| ==> ks[i] == ms[i].key
  {
    seq(|ms|, i requires 0 <= i < |ms| => ms[i].key)
  }

  /** Position of the member holding `key`, the first one if several do. */
  function Find(ms: seq<Member>, key: string): (r: Option<nat>)
    ensures r.Some? ==> r.value < |ms| && ms[r.value].key == key
    ensures r.Some? ==> forall i :: 0 <= i < r.value ==> ms[i].key != key
    ensures r.None? <==> key !in Keys(ms)
  {
    if |ms| == 0 then None
    else if ms[0].key == key then Some(0)
    else match Find(ms[1..], key)
      case None => None
      case Some(j) => Some(j + 1)
  }

  /** `obj[key]` for a key the object has. */
  function Get(ms: seq<Member>, key: string): JsonValue
    requires key in Keys(ms)
  {
    ms[Find(ms, key).value].value
  }

  /** A parsed object never repeats a key. */
  predicate UniqueKeys(ms: seq<Member>) {
    forall i, j :: 0 <= i < j < |ms| ==> ms[i].key != ms[j].key
  }

  /** Unique keys at every level of the tree. */
  predicate WellFormed(v: JsonValue) {
    match v
    case Array(xs) => forall i :: 0 <= i < |xs| ==> WellFormed(xs[i])
    case Object(ms) => UniqueKeys(ms) && forall i :: 0 <= i < |ms| ==> WellFormed(ms[i].value)
    case _ => true
  }

  lemma GetUnique(ms: seq<Member>, i: nat)
    requires UniqueKeys(ms) && i < |ms|
    ensures ms[i].key in Keys(ms) && Get(ms, ms[i].key) == ms[i].value
  {
    assert Keys(ms)[i] == ms[i].key;
  }
}
