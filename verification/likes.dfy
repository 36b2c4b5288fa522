/**
 * Favourites: a map from entry id to a stored value (the hook only ever
 * writes `true`), with toggle, lookup and the id set. Storage access and JSON
 * parsing are not modelled: the load takes the parsed stored value, `None`
 * for a missing, empty or unparsable item or a read that throws.
 */
module Likes {
  import opened Wrappers
  import opened JsValues
  import opened Assoc

  type LikeMap = map<string, Json>

  /** Every value is `true`, as the hook writes them. */
  predicate WellFormed(m: LikeMap) {
    forall id | id in m :: m[id] == JBool(true)
  }

  /** `isLiked`: the id has a truthy value, that is anything but `null`, `false`, `0` and `""`. */
  predicate IsLiked(m: LikeMap, id: string)
    ensures IsLiked(m, id) <==>
      id in m && m[id] != JNull && m[id] != JBool(false) && m[id] != JNum(0.0) && m[id] != JStr("")
    ensures WellFormed(m) ==> (IsLiked(m, id) <==> id in m)
  {
    id in m && Truthy(m[id])
  }

  /** `toggleLike`: a liked id is deleted; any other id is set to `true`. */
  function Toggle(m: LikeMap, id: string): (r: LikeMap)
    ensures IsLiked(r, id) <==> !IsLiked(m, id)
    ensures forall other | other != id :: (other in r <==> other in m)
    ensures forall other | other != id && other in m :: r[other] == m[other]
  {
    if IsLiked(m, id) then m - {id} else m[id := JBool(true)]
  }

  /** `likedIds`: the keys of the map. */
  function LikedIds(m: LikeMap): (ids: set<string>)
    ensures forall id :: id in ids <==> id in m
  {
    m.Keys
  }

  /** Toggling keeps every value `true`. */
  lemma ToggleWellFormed(m: LikeMap, id: string)
    requires WellFormed(m)
    ensures WellFormed(Toggle(m, id))
  {
  }

  /** On maps the hook writes, the id set and the lookup agree. */
  lemma LikedIdsAgree(m: LikeMap)
    requires WellFormed(m)
    ensures forall id :: id in LikedIds(m) <==> IsLiked(m, id)
  {
  }

  /**
   * Toggling twice restores a map the hook wrote. In general it deletes an id
   * that was not liked and sets a liked id's value to `true`.
   */
  lemma ToggleTwice(m: LikeMap, id: string)
    ensures Toggle(Toggle(m, id), id) == if IsLiked(m, id) then m[id := JBool(true)] else m - {id}
    ensures WellFormed(m) ==> Toggle(Toggle(m, id), id) == m
  {
    if WellFormed(m) && IsLiked(m, id) {
      assert m[id := JBool(true)] == m;
    }
    if WellFormed(m) && !IsLiked(m, id) {
      assert m - {id} == m;
    }
  }

  /** After toggling an id that was absent, it is among the liked ids. */
  lemma ToggleAbsentIsLiked(m: LikeMap, id: string)
    requires id !in m
    ensures id in LikedIds(Toggle(m, id)) && IsLiked(Toggle(m, id), id)
  {
  }

  /** A stored value that is present but falsy (say `false`) is listed among the ids without counting as liked. */
  lemma FalsyValueListedButNotLiked(id: string)
    ensures id in LikedIds(map[id := JBool(false)])
    ensures !IsLiked(map[id := JBool(false)], id)
  {
  }

  /**
   * `loadLikes`: the empty map when nothing readable is stored; otherwise the
   * parsed value's own entries assigned in order, so a repeated key keeps its
   * last value. A stored `null` parses to `null`, on which the hook's first
   * key listing throws.
   */
  function LoadLikes(stored: Option<Json>): (r: Result<LikeMap, Fault>)
    ensures stored.None? ==> r == Success(map[])
    ensures r.Failure? <==> stored == Some(JNull)
    ensures r.Success? && stored.Some? ==>
      var pairs := Entries(stored.value);
      && (forall id :: id in r.value <==> id in KeysOf(pairs))
      && (forall k | 0 <= k < |pairs| && LastFor(pairs, k) :: r.value[pairs[k].0] == pairs[k].1)
  {
    match stored
    case None => Success(map[])
    case Some(JNull) => Failure(TypeError)
    case Some(v) => Success(Merge(map[], Entries(v)))
  }

  /** A stored object written by the hook loads back as a well-formed map of its keys. */
  lemma LoadLikesObject(ids: seq<string>)
    ensures
      var stored := JObj(seq(|ids|, k requires 0 <= k < |ids| => (ids[k], JBool(true))));
      && LoadLikes(Some(stored)).Success?
      && WellFormed(LoadLikes(Some(stored)).value)
      && forall id :: id in LoadLikes(Some(stored)).value <==> id in ids
  {
    var pairs := seq(|ids|, k requires 0 <= k < |ids| => (ids[k], JBool(true)));
    var r := Merge(map[], pairs);
    assert KeysOf(pairs) == ids;
    forall id | id in r ensures r[id] == JBool(true) {
      var k :| 0 <= k < |pairs| && pairs[k].0 == id;
      var j := LastIndexOf(pairs, k);
      assert r[pairs[j].0] == pairs[j].1;
    }
  }

  /** The last pair with the same key as pair `k`. */
  function LastIndexOf(pairs: seq<(string, Json)>, k: nat): (j: nat)
    requires k < |pairs|
    ensures k <= j < |pairs| && pairs[j].0 == pairs[k].0 && LastFor(pairs, j)
    decreases |pairs| - k
  {
    if exists i | k < i < |pairs| :: pairs[i].0 == pairs[k].0 then
      var i :| k < i < |pairs| && pairs[i].0 == pairs[k].0;
      LastIndexOf(pairs, i)
    else k
  }
}
