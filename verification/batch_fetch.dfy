/**
 * `fetchBatch` of the entry cache: page texts are fetched in chunks of five;
 * inside a chunk an id already being fetched is skipped, a failed fetch yields
 * nothing without stopping the others, and every id whose fetch started is
 * taken off the in-flight set when it finishes. After each chunk the texts
 * obtained are merged into the content map.
 *
 * The network is a parameter: `fetched` maps the ids whose page fetch
 * succeeds to their text; an id outside it fails. The fetches of a chunk run
 * concurrently in the source; the model takes them in chunk order, which is
 * also the order in which their in-flight checks run.
 */
module BatchFetch {
  import opened Assoc

  /** The chunk size of `fetchBatch`. */
  const Concurrency: nat := 5

  /** The chunks laid end to end. */
  function Flatten(chunks: seq<seq<string>>): seq<string> {
    if |chunks| == 0 then [] else Flatten(chunks[..|chunks| - 1]) + chunks[|chunks| - 1]
  }

  /**
   * The chunking loop: consecutive slices of five ids. They lay end to end
   * back to `ids`, none is empty, all but the last have exactly five ids, and
   * there are ⌈|ids| / 5⌉ of them.
   */
  method Chunk(ids: seq<string>) returns (chunks: seq<seq<string>>)
    ensures Flatten(chunks) == ids
    ensures |chunks| == (|ids| + Concurrency - 1) / Concurrency
    ensures forall k | 0 <= k < |chunks| :: 0 < |chunks[k]| <= Concurrency
    ensures forall k | 0 <= k < |chunks| - 1 :: |chunks[k]| == Concurrency
  {
    chunks := [];
    var i := 0;
    while i < |ids|
      invariant i % Concurrency == 0 && |chunks| == i / Concurrency
      invariant i <= |ids| + Concurrency - 1
      invariant Flatten(chunks) == ids[..if i <= |ids| then i else |ids|]
      invariant forall k | 0 <= k < |chunks| :: 0 < |chunks[k]| <= Concurrency
      invariant i <= |ids| ==> forall k | 0 <= k < |chunks| :: |chunks[k]| == Concurrency
      invariant forall k | 0 <= k < |chunks| - 1 :: |chunks[k]| == Concurrency
    {
      var end := if i + Concurrency <= |ids| then i + Concurrency else |ids|;
      var before := chunks;
      chunks := chunks + [ids[i..end]];
      assert chunks[..|chunks| - 1] == before;
      assert ids[..end] == ids[..i] + ids[i..end];
      i := i + Concurrency;
    }
  }

  /** The part of the hook's state `fetchBatch` reads and writes. */
  datatype FetchState = FetchState(content: map<string, string>, inflight: set<string>)

  /**
   * The non-null results of one chunk, in chunk order: an id is skipped when
   * it is in flight (`busy`), including a repeat of an id started earlier in
   * the same chunk; a started id yields its text when its fetch succeeds.
   * So the results name exactly the ids that are not in flight and succeed,
   * each once, with the fetched text.
   */
  function ChunkResults(chunk: seq<string>, busy: set<string>, fetched: map<string, string>): (r: seq<(string, string)>)
    ensures forall k | 0 <= k < |r| :: r[k].0 in fetched && r[k].1 == fetched[r[k].0]
    ensures forall id :: id in KeysOf(r) <==> id in chunk && id !in busy && id in fetched
    ensures forall j, k | 0 <= j < k < |r| :: r[j].0 != r[k].0
  {
    if |chunk| == 0 then []
    else
      var id := chunk[0];
      assert forall x :: x in chunk <==> x == id || x in chunk[1..];
      if id in busy then
        ChunkResults(chunk[1..], busy, fetched)
      else
        var rest := ChunkResults(chunk[1..], busy + {id}, fetched);
        var here := if id in fetched then [(id, fetched[id])] else [];
        var r := here + rest;
        KeysOfAppend(here, rest);
        assert KeysOf(here) == if id in fetched then [id] else [];
        assert id !in KeysOf(rest);
        r
  }

  /** The ids of `ids` whose fetch starts (not in flight) and succeeds. */
  predicate Refetched(id: string, ids: seq<string>, busy: set<string>, fetched: map<string, string>) {
    id in ids && id !in busy && id in fetched
  }

  /**
   * The reference for what fetching `ids` does to the content map: every id
   * that is not in flight and whose fetch succeeds gets its text (the empty
   * text included); every other key keeps its text.
   */
  function Refreshed(content: map<string, string>, ids: seq<string>, busy: set<string>, fetched: map<string, string>): map<string, string> {
    map id | id in content.Keys + (set x | x in ids && x !in busy && x in fetched) ::
      if Refetched(id, ids, busy, fetched) then fetched[id] else content[id]
  }

  /** One chunk: results gathered, merged, and the in-flight set back to what it was. */
  function FetchChunk(st: FetchState, chunk: seq<string>, fetched: map<string, string>): (r: FetchState)
    ensures r.inflight == st.inflight
    ensures r.content == Refreshed(st.content, chunk, st.inflight, fetched)
  {
    MergeChunk(st.content, chunk, st.inflight, fetched);
    FetchState(Merge(st.content, ChunkResults(chunk, st.inflight, fetched)), st.inflight)
  }

  /** Merging the results of a chunk gives the reference content map. */
  lemma MergeChunk(content: map<string, string>, chunk: seq<string>, busy: set<string>, fetched: map<string, string>)
    ensures Merge(content, ChunkResults(chunk, busy, fetched)) == Refreshed(content, chunk, busy, fetched)
  {
    var results := ChunkResults(chunk, busy, fetched);
    var merged := Merge(content, results);
    var ref := Refreshed(content, chunk, busy, fetched);
    assert merged.Keys == ref.Keys;
    forall id | id in merged
      ensures merged[id] == ref[id]
    {
      if Refetched(id, chunk, busy, fetched) {
        var k :| 0 <= k < |results| && KeysOf(results)[k] == id;
        assert LastFor(results, k);
      }
    }
  }

  /** Fetching `a` and then `b` does to the content map what fetching `a + b` does. */
  lemma RefreshedTwice(content: map<string, string>, a: seq<string>, b: seq<string>, busy: set<string>, fetched: map<string, string>)
    ensures Refreshed(Refreshed(content, a, busy, fetched), b, busy, fetched) == Refreshed(content, a + b, busy, fetched)
  {
    var mid := Refreshed(content, a, busy, fetched);
    var left := Refreshed(mid, b, busy, fetched);
    var right := Refreshed(content, a + b, busy, fetched);
    forall id ensures Refetched(id, a + b, busy, fetched) <==> Refetched(id, a, busy, fetched) || Refetched(id, b, busy, fetched) {
      assert id in a + b <==> id in a || id in b;
    }
    assert left.Keys == right.Keys;
    forall id | id in left ensures left[id] == right[id] {
      if !Refetched(id, b, busy, fetched) {
        assert left[id] == mid[id];
      }
    }
  }

  lemma FlattenSnoc(chunks: seq<seq<string>>, k: nat)
    requires k < |chunks|
    ensures Flatten(chunks[..k + 1]) == Flatten(chunks[..k]) + chunks[k]
  {
    assert chunks[..k + 1][..k] == chunks[..k];
  }

  /**
   * `fetchBatch`: the chunks in order. Afterwards every id of `ids` that was
   * not in flight and whose fetch succeeded has its text, every other key is
   * unchanged, and the in-flight set is what it was.
   */
  method FetchBatch(st: FetchState, ids: seq<string>, fetched: map<string, string>) returns (r: FetchState)
    ensures r.inflight == st.inflight
    ensures r.content == Refreshed(st.content, ids, st.inflight, fetched)
  {
    var chunks := Chunk(ids);
    r := st;
    var k := 0;
    assert Refreshed(st.content, [], st.inflight, fetched) == st.content;
    while k < |chunks|
      invariant 0 <= k <= |chunks|
      invariant r.inflight == st.inflight
      invariant r.content == Refreshed(st.content, Flatten(chunks[..k]), st.inflight, fetched)
    {
      FlattenSnoc(chunks, k);
      RefreshedTwice(st.content, Flatten(chunks[..k]), chunks[k], st.inflight, fetched);
      r := FetchChunk(r, chunks[k], fetched);
      k := k + 1;
    }
    assert chunks[..|chunks|] == chunks;
  }

  /**
   * The content map only grows: no key is lost, and a key keeps its text
   * unless this batch fetched it again.
   */
  lemma ContentOnlyGrows(content: map<string, string>, ids: seq<string>, busy: set<string>, fetched: map<string, string>)
    ensures content.Keys <= Refreshed(content, ids, busy, fetched).Keys
    ensures forall id | id in content && !Refetched(id, ids, busy, fetched) ::
      Refreshed(content, ids, busy, fetched)[id] == content[id]
  {
  }

  /**
   * A page whose text is empty is still recorded, as the empty string, which
   * marks it loaded; an id that was in flight or whose fetch failed is not.
   */
  lemma EmptyTextRecorded(content: map<string, string>, ids: seq<string>, busy: set<string>, fetched: map<string, string>, id: string)
    requires id in ids && id !in busy && id in fetched && fetched[id] == ""
    ensures id in Refreshed(content, ids, busy, fetched) && Refreshed(content, ids, busy, fetched)[id] == ""
  {
  }

  /** Two ids in the same chunk: the one in flight is skipped, the other merged. */
  lemma ChunkExample()
    ensures FetchChunk(FetchState(map[], {"a"}), ["a", "b", "b"], map["a" := "x", "b" := "y"])
      == FetchState(map["b" := "y"], {"a"})
  {
    var ref := Refreshed(map[], ["a", "b", "b"], {"a"}, map["a" := "x", "b" := "y"]);
    assert "b" in ref;
    assert ref.Keys == {"b"};
  }
}
