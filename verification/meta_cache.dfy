/**
 * The entry-list cache kept in browser storage: a payload `{at, meta}` written
 * with the time of writing, accepted on load while it is at most ten minutes
 * old. Storage access and JSON parsing are not modelled: the load takes the
 * already-parsed payload (`None` for a missing, empty or unparsable item) and
 * the current time in milliseconds.
 */
module MetaCache {
  import opened Wrappers
  import opened JsValues
  import opened EntryTypes

  /** Ten minutes, in milliseconds. */
  const CacheTtlMs: int := 10 * 60 * 1000

  /** `now - at > CACHE_TTL_MS`, with `at` converted by `Number`; a comparison with NaN is false, so it never expires. */
  predicate Expired(at: Json, now: int) {
    match ToNumber(at)
    case Some(n) => now as real - n > CacheTtlMs as real
    case None => false
  }

  /**
   * `loadMetaCache`: the cached list when the payload has a truthy `at`, an
   * array `meta` and has not expired; nothing otherwise.
   */
  function LoadMetaCache(payload: Option<Json>, now: int): (r: Option<seq<Json>>)
    ensures r.Some? <==>
      && TruthyOpt(At(payload, "at"))
      && At(payload, "meta").Some? && At(payload, "meta").value.JArr?
      && !Expired(At(payload, "at").value, now)
    ensures r.Some? ==> r.value == At(payload, "meta").value.items
    ensures r.Some? && ToNumber(At(payload, "at").value).Some? ==>
      now as real - ToNumber(At(payload, "at").value).value <= CacheTtlMs as real
  {
    var at := At(payload, "at");
    var meta := At(payload, "meta");
    if !TruthyOpt(at) then None
    else
      match meta
      case Some(JArr(items)) => if Expired(at.value, now) then None else Some(items)
      case _ => None
  }

  /** The JSON form `JSON.stringify` gives one entry record. */
  function EncodeMeta(m: EntryMeta): Json {
    JObj([
      ("id", JStr(m.id)),
      ("type", JStr(if m.kind == Journal then "journal" else "quote")),
      ("author", JStr(m.author)),
      ("date", JStr(m.date)),
      ("pageTitle", JStr(m.pageTitle))])
  }

  /** `saveMetaCache`: the payload written at time `now`. */
  function SaveMetaCache(meta: seq<EntryMeta>, now: int): (payload: Json)
    ensures At(Some(payload), "at") == Some(JNum(now as real))
    ensures At(Some(payload), "meta").Some? && At(Some(payload), "meta").value.JArr?
    ensures |At(Some(payload), "meta").value.items| == |meta|
    ensures forall k | 0 <= k < |meta| :: At(Some(payload), "meta").value.items[k] == EncodeMeta(meta[k])
  {
    var items := JArr(seq(|meta|, k requires 0 <= k < |meta| => EncodeMeta(meta[k])));
    var fields := [("at", JNum(now as real)), ("meta", items)];
    assert "at" != "meta";
    assert Lookup(fields[1..], "meta") == Some(items);
    JObj(fields)
  }

  /** A payload saved at a non-zero time is loaded back unchanged for up to ten minutes, the exact limit included. */
  lemma SaveThenLoadFresh(meta: seq<EntryMeta>, saved: int, age: int)
    requires saved != 0
    requires 0 <= age <= CacheTtlMs
    ensures LoadMetaCache(Some(SaveMetaCache(meta, saved)), saved + age)
      == Some(seq(|meta|, k requires 0 <= k < |meta| => EncodeMeta(meta[k])))
  {
    var p := SaveMetaCache(meta, saved);
    assert !Expired(JNum(saved as real), saved + age);
  }

  /** One millisecond past the limit the same payload is rejected. */
  lemma SaveThenLoadExpired(meta: seq<EntryMeta>, saved: int, age: int)
    requires age > CacheTtlMs
    ensures LoadMetaCache(Some(SaveMetaCache(meta, saved)), saved + age).None?
  {
    assert Expired(JNum(saved as real), saved + age);
  }

  /** A payload written at time zero has a falsy `at` and is never accepted. */
  lemma SavedAtZeroRejected(meta: seq<EntryMeta>, now: int)
    ensures LoadMetaCache(Some(SaveMetaCache(meta, 0)), now).None?
  {
    assert At(Some(SaveMetaCache(meta, 0)), "at") == Some(JNum(0.0));
  }

  /** A missing payload, a null payload, and a payload whose `meta` is not an array are all rejected. */
  lemma LoadMetaCacheRejectsShapes(now: int, at: real)
    ensures LoadMetaCache(None, now).None?
    ensures LoadMetaCache(Some(JNull), now).None?
    ensures LoadMetaCache(Some(JObj([("at", JNum(at)), ("meta", JObj([]))])), now).None?
  {
  }
}
