/** Shared documents kept in the browser's local storage (frontend/app.js):
    the clean-up of expired shares and the decision taken when a page opens
    with a share id. Storage is a table from keys to strings. */
module Shares {
  import opened Json

  const SharePrefix := "json_share_"

  /** A share record as `JSON.parse` reads it back. A field that is missing
      or not a number is `None`; arithmetic on it gives `NaN`. */
  datatype ShareData = ShareData(timestamp: Option<int>, expiresIn: Option<int>, json: Option<string>)

  predicate IsShareKey(key: string) {
    |SharePrefix| <= |key| && key[..|SharePrefix|] == SharePrefix
  }

  /** `now - timestamp > expiresIn`; a comparison with `NaN` is false, so a
      record without the two numbers never expires. */
  predicate Expired(now: int, d: ShareData) {
    d.timestamp.Some? && d.expiresIn.Some? && now - d.timestamp.value > d.expiresIn.value
  }

  /** An entry the clean-up removes: a share whose text does not decode to a
      record (`decode` stands for `JSON.parse` followed by the field reads,
      and `None` for the exception either throws), or an expired one. */
  predicate Doomed(key: string, text: string, now: int, decode: string -> Option<ShareData>) {
    IsShareKey(key) && (decode(text).None? || Expired(now, decode(text).value))
  }

  /** The storage after `cleanupExpiredShares()`. */
  function Cleaned(storage: map<string, string>, now: int, decode: string -> Option<ShareData>)
    : (r: map<string, string>)
    ensures forall k :: k in r <==> k in storage && !Doomed(k, storage[k], now, decode)
    ensures forall k :: k in r ==> r[k] == storage[k]
  {
    map k | k in storage && !Doomed(k, storage[k], now, decode) :: storage[k]
  }

  /** After the clean-up no share entry is expired or unreadable. */
  lemma NoExpiredShareRemains(storage: map<string, string>, now: int, decode: string -> Option<ShareData>)
    ensures forall k :: k in Cleaned(storage, now, decode) && IsShareKey(k) ==>
      decode(storage[k]).Some? && !Expired(now, decode(storage[k]).value)
  {
  }

  /** A share entry whose text cannot be read back is removed. */
  lemma UnreadableSharesRemoved(storage: map<string, string>, now: int, decode: string -> Option<ShareData>)
    ensures forall k :: k in storage && IsShareKey(k) && decode(storage[k]).None? ==>
      k !in Cleaned(storage, now, decode)
  {
  }

  /** Keys without the share prefix are never removed or changed. */
  lemma OtherKeysKept(storage: map<string, string>, now: int, decode: string -> Option<ShareData>)
    ensures forall k :: k in storage && !IsShareKey(k) ==>
      k in Cleaned(storage, now, decode) && Cleaned(storage, now, decode)[k] == storage[k]
  {
  }

  /** The expiry boundary is inclusive: a share exactly `expiresIn`
      milliseconds old is kept. */
  lemma BoundaryKept(storage: map<string, string>, now: int, decode: string -> Option<ShareData>, k: string)
    requires k in storage && decode(storage[k]).Some?
    requires var d := decode(storage[k]).value;
      d.timestamp.Some? && d.expiresIn.Some? && now - d.timestamp.value == d.expiresIn.value
    ensures k in Cleaned(storage, now, decode)
  {
  }

  /** Cleaning twice at the same moment removes nothing more. */
  lemma CleanedIdempotent(storage: map<string, string>, now: int, decode: string -> Option<ShareData>)
    ensures Cleaned(Cleaned(storage, now, decode), now, decode) == Cleaned(storage, now, decode)
  {
    var once := Cleaned(storage, now, decode);
    var twice := Cleaned(once, now, decode);
    assert forall k :: k in twice <==> k in once;
  }

  /** What opening a share link leads to. */
  datatype LoadOutcome = NotFound | ExpiredLink | Loaded | Failed

  class ShareStore {
    var storage: map<string, string>
    var json1: string

    constructor (initial: map<string, string>)
      ensures storage == initial && json1 == "{}"
    {
      storage := initial;
      json1 := "{}";
    }

    /** `cleanupExpiredShares()`: the keys to remove are collected first and
        removed afterwards. `now` is `Date.now()`. */
    method CleanupExpiredShares(now: int, decode: string -> Option<ShareData>)
      modifies this
      ensures storage == Cleaned(old(storage), now, decode)
      ensures json1 == old(json1)
    {
      var keysToRemove: seq<string> := [];
      var unvisited := storage.Keys;
      while unvisited != {}
        invariant storage == old(storage) && json1 == old(json1)
        invariant unvisited <= storage.Keys
        invariant forall k :: k in keysToRemove <==>
          k in storage && k !in unvisited && Doomed(k, storage[k], now, decode)
        decreases |unvisited|
      {
        var key :| key in unvisited;
        if IsShareKey(key) {
          var stored := decode(storage[key]);
          if stored.None? || Expired(now, stored.value) {
            keysToRemove := keysToRemove + [key];
          }
        }
        unvisited := unvisited - {key};
      }
      ghost var before := storage;
      for i := 0 to |keysToRemove|
        invariant json1 == old(json1)
        invariant forall k :: k in storage <==> k in before && k !in keysToRemove[..i]
        invariant forall k :: k in storage ==> storage[k] == before[k]
      {
        assert keysToRemove[..i + 1] == keysToRemove[..i] + [keysToRemove[i]];
        storage := storage - {keysToRemove[i]};
      }
      assert keysToRemove[..|keysToRemove|] == keysToRemove;
      assert forall k :: k in storage <==> k in Cleaned(before, now, decode);
    }

    /** The share-id branch of the page start-up, taken for a non-empty `id`
        parameter: a missing or empty entry is reported, an expired share is
        deleted, and a live one whose document parses (`isJson` stands for
        `JSON.parse` succeeding) is loaded into the first editor, after which
        expired shares are cleaned up. The clock is read twice: `now` for the
        load decision and `later`, no earlier, inside the clean-up. */
    method LoadShare(shareId: string, now: int, later: int, decode: string -> Option<ShareData>,
                     isJson: string -> bool)
      returns (outcome: LoadOutcome)
      requires shareId != ""
      requires now <= later
      modifies this
      ensures var key := SharePrefix + shareId;
        && (key !in old(storage) || old(storage)[key] == "" ==>
              outcome == NotFound && storage == old(storage) && json1 == old(json1))
        && (key in old(storage) && old(storage)[key] != "" ==>
              var d := decode(old(storage)[key]);
              && (d.None? ==> outcome == Failed && storage == old(storage) && json1 == old(json1))
              && (d.Some? && Expired(now, d.value) ==>
                    outcome == ExpiredLink && storage == old(storage) - {key} && json1 == old(json1))
              && (d.Some? && !Expired(now, d.value) && d.value.json.Some? && isJson(d.value.json.value) ==>
                    outcome == Loaded && json1 == d.value.json.value
                    && storage == Cleaned(old(storage), later, decode))
              && (d.Some? && !Expired(now, d.value) && !(d.value.json.Some? && isJson(d.value.json.value)) ==>
                    outcome == Failed && storage == old(storage) && json1 == old(json1)))
    {
      var key := SharePrefix + shareId;
      if key !in storage || storage[key] == "" {
        return NotFound;
      }
      var shareData := decode(storage[key]);
      if shareData.None? {
        return Failed;
      }
      if Expired(now, shareData.value) {
        storage := storage - {key};
        return ExpiredLink;
      }
      var json := shareData.value.json;
      if json.None? || !isJson(json.value) {
        return Failed;
      }
      json1 := json.value;
      CleanupExpiredShares(later, decode);
      return Loaded;
    }
  }

  /** A loaded share survives the clean-up that follows exactly when it has
      not expired by the clean-up's own reading of the clock. */
  lemma LoadedShareKept(storage: map<string, string>, shareId: string, later: int,
                        decode: string -> Option<ShareData>)
    requires SharePrefix + shareId in storage
    requires decode(storage[SharePrefix + shareId]).Some?
    ensures SharePrefix + shareId in Cleaned(storage, later, decode) <==>
      !Expired(later, decode(storage[SharePrefix + shareId]).value)
  {
    assert IsShareKey(SharePrefix + shareId) by {
      assert (SharePrefix + shareId)[..|SharePrefix|] == SharePrefix;
    }
  }

  /** A share exactly `expiresIn` milliseconds old at the load decision is
      loaded, and removed again by the clean-up when the clock has moved on
      by one millisecond before it runs. */
  lemma BoundaryShareLoadedThenRemoved(shareId: string, text: string, t: int, e: int,
                                       decode: string -> Option<ShareData>, isJson: string -> bool)
    requires shareId != "" && text != ""
    requires decode(text) == Some(ShareData(Some(t), Some(e), Some("{}"))) && isJson("{}")
    ensures var key := SharePrefix + shareId;
      var d := decode(text).value;
      && !Expired(t + e, d)
      && d.json.Some? && isJson(d.json.value)
      && key !in Cleaned(map[key := text], t + e + 1, decode)
  {
    var key := SharePrefix + shareId;
    LoadedShareKept(map[key := text], shareId, t + e + 1, decode);
  }
}
