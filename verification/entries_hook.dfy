/**
 * The entry cache's load policy: how many entries of each kind have their
 * page text loaded, what `ensureLoaded` fetches to load more, the prime of both
 * kinds once the table is known, and `ensureContentByIds`, which fetches only
 * the texts not yet present. React state becomes one immutable record, and the
 * network the `fetched` parameter of the batch fetch.
 */
module EntriesHook {
  import opened EntryTypes
  import opened JournalOrder
  import opened BatchFetch

  /** `loadedCount`: how many entries of each list have been loaded. */
  datatype LoadedCount = LoadedCount(quote: nat, journal: nat) {

    function Of(kind: EntryType): nat {
      if kind == Quote then quote else journal
    }

    function With(kind: EntryType, n: nat): (r: LoadedCount)
      ensures r.Of(kind) == n
      ensures forall other | other != kind :: r.Of(other) == Of(other)
    {
      if kind == Quote then this.(quote := n) else this.(journal := n)
    }
  }

  /** The hook's state: the table, the loaded texts, the ids in flight and the loaded counts. */
  datatype EntriesState = EntriesState(
    meta: seq<EntryMeta>,
    content: map<string, string>,
    inflight: set<string>,
    loaded: LoadedCount)

  function Min(a: int, b: int): int { if a <= b then a else b }

  function Max(a: int, b: int): int { if a >= b then a else b }

  /** The list `ensureLoaded` reads for a kind. */
  function ListFor(meta: seq<EntryMeta>, kind: EntryType): seq<EntryMeta> {
    if kind == Quote then QuotesMeta(meta) else JournalsMeta(meta)
  }

  /** The ids of a list of entries, in order. */
  function IdsOfEntries(list: seq<EntryMeta>): (ids: seq<string>)
    ensures |ids| == |list|
    ensures forall k | 0 <= k < |list| :: ids[k] == list[k].id
  {
    seq(|list|, k requires 0 <= k < |list| => list[k].id)
  }

  /** What `ensureLoaded` decides: the ids to fetch and the counts once they are fetched. */
  datatype LoadPlan = LoadPlan(target: seq<string>, count: LoadedCount)

  /**
   * `ensureLoaded(kind, want)` before its fetch: nothing when `want` is not
   * above the loaded count or no entry lies between the count and
   * `min(want, |list|)`; otherwise the ids of exactly those entries, and the
   * kind's count raised to that bound. Either way the kind's count becomes
   * `max(already, min(want, |list|))`, so it never decreases, and the other
   * kind's count is untouched.
   */
  function PlanLoad(loaded: LoadedCount, kind: EntryType, want: int, list: seq<EntryMeta>): (p: LoadPlan)
    ensures want <= loaded.Of(kind) ==> p == LoadPlan([], loaded)
    ensures p.target == [] ==> p.count == loaded
    ensures p.target != [] ==>
      && loaded.Of(kind) < Min(want, |list|)
      && p.target == IdsOfEntries(list[loaded.Of(kind)..Min(want, |list|)])
    ensures p.count.Of(kind) == Max(loaded.Of(kind), Min(want, |list|))
    ensures forall other | other != kind :: p.count.Of(other) == loaded.Of(other)
  {
    var already := loaded.Of(kind);
    if want <= already then LoadPlan([], loaded)
    else
      var next := Min(want, |list|);
      if next <= already then LoadPlan([], loaded)
      else LoadPlan(IdsOfEntries(list[already..next]), loaded.With(kind, next))
  }

  /** Asking again for no more than is loaded does nothing: counts are monotone. */
  lemma PlanLoadAgain(loaded: LoadedCount, kind: EntryType, first: int, second: int, list: seq<EntryMeta>)
    requires second <= first
    ensures
      var p := PlanLoad(loaded, kind, first, list);
      PlanLoad(p.count, kind, second, list) == LoadPlan([], p.count)
  {
    var p := PlanLoad(loaded, kind, first, list);
    assert p.count.Of(kind) >= Min(first, |list|) >= Min(second, |list|);
  }

  /** Loading 3 quotes and then asking for 2 leaves the quote count at 3. */
  lemma LoadThreeThenTwo(loaded: LoadedCount, list: seq<EntryMeta>)
    requires loaded.quote == 0 && |list| >= 3
    ensures PlanLoad(loaded, Quote, 3, list).count.quote == 3
    ensures PlanLoad(PlanLoad(loaded, Quote, 3, list).count, Quote, 2, list).count.quote == 3
  {
    PlanLoadAgain(loaded, Quote, 3, 2, list);
  }

  /**
   * `ensureLoaded`: plan, fetch the target (if any), then raise the count.
   * The table and in-flight set are unchanged; the texts are those of the
   * batch fetch of the target.
   */
  method EnsureLoaded(st: EntriesState, kind: EntryType, want: int, fetched: map<string, string>) returns (r: EntriesState)
    ensures r.meta == st.meta && r.inflight == st.inflight
    ensures r.loaded.Of(kind) == Max(st.loaded.Of(kind), Min(want, |ListFor(st.meta, kind)|))
    ensures forall other | other != kind :: r.loaded.Of(other) == st.loaded.Of(other)
    ensures r.content == Refreshed(st.content, PlanLoad(st.loaded, kind, want, ListFor(st.meta, kind)).target, st.inflight, fetched)
  {
    var plan := PlanLoad(st.loaded, kind, want, ListFor(st.meta, kind));
    if plan.target == [] {
      assert Refreshed(st.content, [], st.inflight, fetched) == st.content;
      return st;
    }
    var f := FetchBatch(FetchState(st.content, st.inflight), plan.target, fetched);
    r := st.(content := f.content, inflight := f.inflight, loaded := plan.count);
  }

  /** The size of the first page the hook loads for each kind. */
  const PrimeCount: int := 5

  /** The ids the prime fetches for one kind: the unloaded ones among the first five. */
  function PrimeTarget(st: EntriesState, kind: EntryType): seq<string> {
    PlanLoad(st.loaded, kind, PrimeCount, ListFor(st.meta, kind)).target
  }

  /**
   * The prime once the table is non-empty: five quotes, then five journals.
   * Each kind's count becomes at least `min(5, |list|)` and nothing is loaded
   * for an empty table. The texts are those of one batch fetch of the quote
   * target followed by the journal target.
   */
  method Prime(st: EntriesState, fetched: map<string, string>) returns (r: EntriesState)
    ensures r.meta == st.meta && r.inflight == st.inflight
    ensures |st.meta| == 0 ==> r == st
    ensures |st.meta| > 0 ==> forall kind ::
      r.loaded.Of(kind) == Max(st.loaded.Of(kind), Min(PrimeCount, |ListFor(st.meta, kind)|))
    ensures |st.meta| > 0 ==>
      r.content == Refreshed(st.content, PrimeTarget(st, Quote) + PrimeTarget(st, Journal), st.inflight, fetched)
  {
    if |st.meta| == 0 {
      return st;
    }
    var s1 := EnsureLoaded(st, Quote, PrimeCount, fetched);
    r := EnsureLoaded(s1, Journal, PrimeCount, fetched);
    assert r.loaded.Of(Quote) == s1.loaded.Of(Quote);
    assert s1.loaded.Of(Journal) == st.loaded.Of(Journal);
    assert PrimeTarget(s1, Journal) == PrimeTarget(st, Journal);
    RefreshedTwice(st.content, PrimeTarget(st, Quote), PrimeTarget(st, Journal), st.inflight, fetched);
  }

  /** Priming a table whose first five entries of each kind are loaded fetches nothing. */
  lemma PrimeTargetLoaded(st: EntriesState, kind: EntryType)
    requires st.loaded.Of(kind) >= Min(PrimeCount, |ListFor(st.meta, kind)|)
    ensures PrimeTarget(st, kind) == []
  {
  }

  /** `ids.filter((id) => content[id] === undefined)`: the ids with no text yet, in order. */
  function Missing(ids: seq<string>, content: map<string, string>): (need: seq<string>)
    ensures |need| <= |ids|
    ensures forall id :: id in need <==> id in ids && id !in content
  {
    if |ids| == 0 then []
    else
      var rest := Missing(ids[1..], content);
      assert forall id :: id in ids <==> id == ids[0] || id in ids[1..];
      if ids[0] !in content then [ids[0]] + rest else rest
  }

  /** Nothing is missing once every id has a text. */
  lemma {:induction false} MissingNone(ids: seq<string>, content: map<string, string>)
    requires forall id | id in ids :: id in content
    ensures Missing(ids, content) == []
  {
    if |ids| > 0 {
      MissingNone(ids[1..], content);
    }
  }

  /**
   * `ensureContentByIds`: fetch exactly the ids without a text. An id whose
   * text is the empty string is present and is not fetched again.
   */
  method EnsureContentByIds(st: EntriesState, ids: seq<string>, fetched: map<string, string>) returns (r: EntriesState)
    ensures r.meta == st.meta && r.inflight == st.inflight && r.loaded == st.loaded
    ensures r.content == Refreshed(st.content, Missing(ids, st.content), st.inflight, fetched)
    ensures forall id | id in st.content :: id in r.content && r.content[id] == st.content[id]
  {
    var need := Missing(ids, st.content);
    if |need| == 0 {
      assert Refreshed(st.content, [], st.inflight, fetched) == st.content;
      return st;
    }
    var f := FetchBatch(FetchState(st.content, st.inflight), need, fetched);
    r := st.(content := f.content, inflight := f.inflight);
  }

  /** Asking twice for the same ids fetches nothing the second time when every fetch succeeded. */
  lemma EnsureContentSettles(content: map<string, string>, ids: seq<string>, busy: set<string>, fetched: map<string, string>)
    requires forall id | id in ids :: id in fetched && id !in busy
    ensures
      var after := Refreshed(content, Missing(ids, content), busy, fetched);
      Missing(ids, after) == []
  {
    var after := Refreshed(content, Missing(ids, content), busy, fetched);
    forall id | id in ids ensures id in after {
      if id !in content {
        assert id in Missing(ids, content);
      }
    }
    MissingNone(ids, after);
  }
}
