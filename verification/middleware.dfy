/**
 * The pure core of the development-server middleware: it turns the document
 * tree returned for a database page into table rows, and the tree returned for
 * a content page into plain text. The HTTP routing and the fetch of the tree
 * are outside the model; a tree arrives here as an already parsed JSON value.
 */
module Middleware {
  import opened Wrappers
  import opened JsValues
  import opened JsText
  import opened RichText

  // ---------------------------------------------------------------------------
  // Block resolution: two nesting depths
  // ---------------------------------------------------------------------------

  /** An object carrying a truthy `id`: what both depths of block resolution accept. */
  predicate IdBearing(v: Option<Json>) {
    v.Some? && v.value.JObj? && TruthyOpt(Get(v.value, "id"))
  }

  /**
   * `resolveBlockValue(entry)`: a database row comes double-wrapped
   * (`entry.value.value`), a content page single-wrapped (`entry.value`).
   * The inner object wins whenever it carries an id, even if the outer one does
   * too; the outer one is used only when the inner one does not qualify; and
   * there is no block when `entry.value` is falsy or neither depth carries an id.
   */
  function ResolveBlockValue(entry: Option<Json>): (r: Option<Json>)
    ensures r.Some? ==> IdBearing(r)
    ensures !TruthyOpt(At(entry, "value")) ==> r.None?
    ensures TruthyOpt(At(entry, "value")) && IdBearing(At(At(entry, "value"), "value")) ==>
      r == At(At(entry, "value"), "value")
    ensures TruthyOpt(At(entry, "value")) && !IdBearing(At(At(entry, "value"), "value")) ==>
      r == (if IdBearing(At(entry, "value")) then At(entry, "value") else None)
  {
    var v := At(entry, "value");
    if !TruthyOpt(v) then None
    else
      var inner := Get(v.value, "value");
      if TruthyOpt(inner) && IsObjectLike(inner.value) && TruthyOpt(Get(inner.value, "id")) then inner
      else if TruthyOpt(Get(v.value, "id")) then v
      else None
  }

  /** The id of a resolved block; present and truthy by construction. */
  function BlockId(block: Json): Json
    requires IdBearing(Some(block))
  {
    Get(block, "id").value
  }

  // ---------------------------------------------------------------------------
  // Schema resolution
  // ---------------------------------------------------------------------------

  /** A located schema and the index from lower-cased column name to column key. */
  datatype SchemaInfo = SchemaInfo(schema: Json, keyByName: map<string, string>)

  /**
   * Outcome of `resolveSchema`: a schema, no schema at all (`null`), or a
   * column whose `name` is not a string, on which `toLowerCase` throws.
   */
  datatype SchemaLookup = Found(info: SchemaInfo) | NoSchema | NameNotString

  /** `c?.value?.value?.schema ?? c?.value?.schema`. */
  function SchemaOf(c: Json): Option<Json> {
    var deep := At(At(Get(c, "value"), "value"), "schema");
    if deep.Some? && !deep.value.JNull? then deep else At(Get(c, "value"), "schema")
  }

  /** The collection yields a schema the loop accepts. */
  predicate HasSchema(c: Json) {
    TruthyOpt(SchemaOf(c))
  }

  /** `Object.values(recordMap.collection)`, empty when there is no collection map. */
  function Collections(recordMap: Json): seq<Json> {
    var colMap := Get(recordMap, "collection");
    if TruthyOpt(colMap) then ObjectValues(colMap.value).value else []
  }

  /** `def.name.toLowerCase()`, or nothing when `def.name` is not a string. */
  function ColumnName(def: Json): Option<string> {
    match Get(def, "name")
    case Some(JStr(n)) => Some(ToLower(n))
    case _ => None
  }

  /** Every column has a string `name`, so lower-casing never throws. */
  predicate AllNamed(cols: seq<(string, Json)>) {
    forall i | 0 <= i < |cols| :: ColumnName(cols[i].1).Some?
  }

  /** Column `i` is named `n` and no later column carries that name. */
  predicate LastNamed(cols: seq<(string, Json)>, i: nat, n: string)
    requires i < |cols|
  {
    ColumnName(cols[i].1) == Some(n) && forall j | i < j < |cols| :: ColumnName(cols[j].1) != Some(n)
  }

  /** The position of the last column named `n`, or -1 when no column carries that name. */
  function LastIndexNamed(cols: seq<(string, Json)>, n: string): (r: int)
    ensures -1 <= r < |cols|
    ensures r >= 0 ==> LastNamed(cols, r, n)
    ensures r == -1 ==> forall j | 0 <= j < |cols| :: ColumnName(cols[j].1) != Some(n)
    decreases |cols|
  {
    if |cols| == 0 then -1
    else if ColumnName(cols[|cols| - 1].1) == Some(n) then |cols| - 1
    else
      var init := cols[..|cols| - 1];
      var r := LastIndexNamed(init, n);
      assert forall j | 0 <= j < |init| :: init[j] == cols[j];
      r
  }

  /**
   * `m` indexes every column's lower-cased name, and maps each indexed name to
   * the key of the last column carrying that name.
   */
  predicate IsNameIndex(cols: seq<(string, Json)>, m: map<string, string>)
    requires AllNamed(cols)
  {
    && (forall i | 0 <= i < |cols| :: ColumnName(cols[i].1).value in m)
    && (forall n | n in m :: LastIndexNamed(cols, n) >= 0 && m[n] == cols[LastIndexNamed(cols, n)].0)
  }

  /**
   * The name index built by the loop over `Object.entries(schema)`: it exists
   * exactly when every column has a string name, and then it is a name index
   * in which later columns win.
   */
  function NameIndex(cols: seq<(string, Json)>): (r: Option<map<string, string>>)
    ensures r.Some? <==> AllNamed(cols)
    ensures r.Some? ==> IsNameIndex(cols, r.value)
    decreases |cols|
  {
    if |cols| == 0 then Some(map[])
    else
      var init := cols[..|cols| - 1];
      var last := cols[|cols| - 1];
      assert forall i | 0 <= i < |init| :: init[i] == cols[i];
      assert cols == init + [last];
      match NameIndex(init)
      case None => None
      case Some(m) =>
        match ColumnName(last.1)
        case None => None
        case Some(n) =>
          NameIndexExtend(init, last, m, n);
          Some(m[n := last.0])
  }

  /** Assigning the last column's name extends a name index of the earlier columns. */
  lemma NameIndexExtend(init: seq<(string, Json)>, last: (string, Json), m: map<string, string>, n: string)
    requires AllNamed(init) && IsNameIndex(init, m)
    requires ColumnName(last.1) == Some(n)
    ensures AllNamed(init + [last])
    ensures IsNameIndex(init + [last], m[n := last.0])
  {
    var cols := init + [last];
    var m' := m[n := last.0];
    assert cols[..|cols| - 1] == init;
    assert forall i | 0 <= i < |init| :: cols[i] == init[i];
    forall x | x in m'
      ensures LastIndexNamed(cols, x) >= 0 && m'[x] == cols[LastIndexNamed(cols, x)].0
    {
      if x != n {
        assert LastIndexNamed(cols, x) == LastIndexNamed(init, x);
      }
    }
  }

  /** Index of the first collection with a schema. */
  function FirstWithSchema(cs: seq<Json>): (r: Option<nat>)
    ensures r.None? <==> forall i | 0 <= i < |cs| :: !HasSchema(cs[i])
    ensures r.Some? ==> r.value < |cs| && HasSchema(cs[r.value])
    ensures r.Some? ==> forall j | 0 <= j < r.value :: !HasSchema(cs[j])
  {
    if |cs| == 0 then None
    else if HasSchema(cs[0]) then Some(0)
    else
      match FirstWithSchema(cs[1..])
      case None => None
      case Some(k) => Some(k + 1)
  }

  /**
   * `resolveSchema`: no schema when there is no collection map or no
   * collection has one at either depth; otherwise the first collection in
   * enumeration order that has one supplies the schema and its name index.
   */
  function ResolveSchema(recordMap: Json): (r: SchemaLookup)
    ensures r.NoSchema? <==> forall i | 0 <= i < |Collections(recordMap)| :: !HasSchema(Collections(recordMap)[i])
    ensures !r.NoSchema? ==>
      var cs := Collections(recordMap);
      exists i | 0 <= i < |cs| ::
        && HasSchema(cs[i])
        && (forall j | 0 <= j < i :: !HasSchema(cs[j]))
        && (r.Found? ==> r.info.schema == SchemaOf(cs[i]).value
                         && NameIndex(Entries(r.info.schema)) == Some(r.info.keyByName))
        && (r.NameNotString? ==> NameIndex(Entries(SchemaOf(cs[i]).value)).None?)
  {
    var cs := Collections(recordMap);
    match FirstWithSchema(cs)
    case None => NoSchema
    case Some(i) =>
      var schema := SchemaOf(cs[i]).value;
      match NameIndex(Entries(schema))
      case None => NameNotString
      case Some(index) => Found(SchemaInfo(schema, index))
  }

  /** A later column whose lower-cased name collides with an earlier one takes over the index entry. */
  lemma NameIndexLastWins(cols: seq<(string, Json)>, i: nat)
    requires i < |cols|
    requires NameIndex(cols).Some?
    requires forall j | i < j < |cols| :: ColumnName(cols[j].1) != ColumnName(cols[i].1)
    ensures NameIndex(cols).value[ColumnName(cols[i].1).value] == cols[i].0
  {
    var n := ColumnName(cols[i].1).value;
    assert LastIndexNamed(cols, n) == i;
  }

  // ---------------------------------------------------------------------------
  // Row ids of the table view
  // ---------------------------------------------------------------------------

  /**
   * `ids && ids.length > 0`: arrays and strings by their length; an object by
   * its own `length` property converted by `Number` (a missing one is
   * `undefined`, NaN); numbers and booleans have no `length`.
   */
  predicate NonEmptyIds(ids: Option<Json>) {
    && TruthyOpt(ids)
    && match ids.value
       case JArr(a) => |a| > 0
       case JStr(s) => |s| > 0
       case JObj(_) =>
         (match Get(ids.value, "length")
          case Some(len) => ToNumber(len).Some? && ToNumber(len).value > 0.0
          case None => false)
       case _ => false
  }

  /** An object with a `length` of `"1"` or `[1]` passes the test, as in JavaScript; `{}` and `{length: "x"}` do not. */
  lemma NonEmptyIdsObjects()
    ensures NonEmptyIds(Some(JObj([("length", JStr("1"))])))
    ensures NonEmptyIds(Some(JObj([("length", JArr([JNum(1.0)]))])))
    ensures !NonEmptyIds(Some(JObj([])))
    ensures !NonEmptyIds(Some(JObj([("length", JStr("x"))])))
  {
    assert NumberOf("1") == Some(1) by {
      assert AllDigits("1");
      assert DigitsValue("1") == DigitsValue("") * 10 + DigitValue('1');
    }
    assert !AllDigits("x") by { assert !('0' <= "x"[0] <= '9'); }
  }

  /** `viewData?.collection_group_results?.blockIds`. */
  function BlockIdsOf(view: Json): Option<Json> {
    At(Get(view, "collection_group_results"), "blockIds")
  }

  /** A first view whose `blockIds` is `{length: "1"}` is the one returned, ahead of a later real list. */
  lemma FirstIdsInLengthString()
    ensures
      var odd := JObj([("length", JStr("1"))]);
      var v1 := JObj([("collection_group_results", JObj([("blockIds", odd)]))]);
      var v2 := JObj([("collection_group_results", JObj([("blockIds", JArr([JStr("x")]))]))]);
      FirstIdsIn([v1, v2]) == Some(odd)
  {
    NonEmptyIdsObjects();
  }

  /** The row-id lists of `views` that the search accepts, in order. */
  function Candidates(views: seq<Json>): (r: seq<Json>)
    ensures forall k | 0 <= k < |r| :: NonEmptyIds(Some(r[k]))
  {
    if |views| == 0 then []
    else (if NonEmptyIds(BlockIdsOf(views[0])) then [BlockIdsOf(views[0]).value] else []) + Candidates(views[1..])
  }

  /** The inner loop of `getRowBlockIds`: the first accepted row-id list among `views`. */
  function FirstIdsIn(views: seq<Json>): (r: Option<Json>)
    ensures r.None? <==> Candidates(views) == []
    ensures r.Some? ==> r.value == Candidates(views)[0]
  {
    if |views| == 0 then None
    else if NonEmptyIds(BlockIdsOf(views[0])) then BlockIdsOf(views[0])
    else FirstIdsIn(views[1..])
  }

  /**
   * The outer loop of `getRowBlockIds`: `Object.values(views)` throws on a
   * `null` query entry, but only when the search reaches it.
   */
  function SearchQueries(queries: seq<Json>): (r: Result<Option<Json>, Fault>)
    ensures r.Failure? ==> exists k | 0 <= k < |queries| :: queries[k].JNull?
    ensures r.Success? && r.value.Some? ==> NonEmptyIds(r.value)
  {
    if |queries| == 0 then Success(None)
    else
      match ObjectValues(queries[0])
      case Failure(e) => Failure(e)
      case Success(views) =>
        match FirstIdsIn(views)
        case Some(ids) => Success(Some(ids))
        case None =>
          var rest := SearchQueries(queries[1..]);
          assert rest.Failure? ==> exists k | 1 <= k < |queries| :: queries[k] == queries[1..][k - 1] && queries[k].JNull?;
          rest
  }

  /** `Object.values(recordMap.collection_query)`, empty when there is none. */
  function Queries(recordMap: Json): seq<Json> {
    var cq := Get(recordMap, "collection_query");
    if TruthyOpt(cq) then ObjectValues(cq.value).value else []
  }

  /**
   * `getRowBlockIds`: the first accepted `blockIds` value across all views,
   * or `[]` when there is no collection query or every list is empty.
   */
  function GetRowBlockIds(recordMap: Json): (r: Result<Json, Fault>)
    ensures !TruthyOpt(Get(recordMap, "collection_query")) ==> r == Success(JArr([]))
    ensures r.Success? ==> r.value == JArr([]) || NonEmptyIds(Some(r.value))
    ensures r.Failure? ==> exists k | 0 <= k < |Queries(recordMap)| :: Queries(recordMap)[k].JNull?
  {
    match SearchQueries(Queries(recordMap))
    case Failure(e) => Failure(e)
    case Success(found) => Success(found.GetOr(JArr([])))
  }

  /** All views of all queries, in enumeration order (a reference for the nested search). */
  function AllViews(queries: seq<Json>): seq<Json>
    requires forall k | 0 <= k < |queries| :: !queries[k].JNull?
  {
    if |queries| == 0 then [] else ObjectValues(queries[0]).value + AllViews(queries[1..])
  }

  lemma {:induction false} CandidatesAppend(a: seq<Json>, b: seq<Json>)
    ensures Candidates(a + b) == Candidates(a) + Candidates(b)
  {
    if |a| == 0 {
      assert a + b == b;
    } else {
      assert (a + b)[1..] == a[1..] + b;
      CandidatesAppend(a[1..], b);
    }
  }

  /**
   * With no `null` query entry, the nested search returns exactly the first
   * accepted list of the flattened view sequence, and `[]` when there is none.
   */
  lemma {:induction false} SearchQueriesIsFirstCandidate(queries: seq<Json>)
    requires forall k | 0 <= k < |queries| :: !queries[k].JNull?
    ensures var c := Candidates(AllViews(queries));
      SearchQueries(queries) == Success(if c == [] then None else Some(c[0]))
  {
    if |queries| > 0 {
      var views := ObjectValues(queries[0]).value;
      SearchQueriesIsFirstCandidate(queries[1..]);
      CandidatesAppend(views, AllViews(queries[1..]));
    }
  }

  // ---------------------------------------------------------------------------
  // Id normalisation
  // ---------------------------------------------------------------------------

  /** The positions of the four dashes in a canonical 8-4-4-4-12 id. */
  predicate DashPosition(i: int) {
    i == 8 || i == 13 || i == 18 || i == 23
  }

  /**
   * `toNormalizedId`: when the id has 32 characters once its dashes are
   * removed, regroup them 8-4-4-4-12; otherwise leave the id untouched.
   * Either way the dash-free form is preserved.
   */
  function ToNormalizedId(raw: string): (r: string)
    ensures |RemoveDashes(raw)| != 32 ==> r == raw
    ensures |RemoveDashes(raw)| == 32 ==> |r| == 36 && forall i | 0 <= i < 36 :: (r[i] == '-' <==> DashPosition(i))
    ensures RemoveDashes(r) == RemoveDashes(raw)
  {
    var s := RemoveDashes(raw);
    if |s| != 32 then raw
    else
      DashFreeGrouping(s);
      Grouped(s)
  }

  /** The 8-4-4-4-12 regrouping of a 32-character id. */
  function Grouped(s: string): string
    requires |s| == 32
  {
    s[..8] + "-" + s[8..12] + "-" + s[12..16] + "-" + s[16..20] + "-" + s[20..]
  }

  /** Removing dashes from `a + "-" + rest` keeps `a` when `a` has none. */
  lemma DashFreePrefix(a: string, rest: string)
    requires '-' !in a
    ensures RemoveDashes(a + "-" + rest) == a + RemoveDashes(rest)
  {
    assert a + "-" + rest == a + ("-" + rest);
    RemoveDashesConcat(a, "-" + rest);
    LeadingDashDropped(rest);
  }

  lemma LeadingDashDropped(rest: string)
    ensures RemoveDashes("-" + rest) == RemoveDashes(rest)
  {
    assert ("-" + rest)[1..] == rest;
  }

  /** The regrouping puts dashes exactly at the canonical positions and its dash-free form is the input. */
  lemma DashFreeGrouping(s: string)
    requires |s| == 32 && '-' !in s
    ensures |Grouped(s)| == 36
    ensures forall i | 0 <= i < 36 :: (Grouped(s)[i] == '-' <==> DashPosition(i))
    ensures RemoveDashes(Grouped(s)) == s
  {
    GroupedDashes(s);
    GroupedDashFree(s);
  }

  lemma GroupedDashes(s: string)
    requires |s| == 32 && '-' !in s
    ensures |Grouped(s)| == 36
    ensures forall i | 0 <= i < 36 :: (Grouped(s)[i] == '-' <==> DashPosition(i))
  {
    var g := Grouped(s);
    forall i | 0 <= i < 36 ensures (g[i] == '-' <==> DashPosition(i)) {
      if i < 8 { assert g[i] == s[i]; assert s[i] in s; }
      else if i == 8 || i == 13 || i == 18 || i == 23 { }
      else if i < 13 { assert g[i] == s[i - 1]; assert s[i - 1] in s; }
      else if i < 18 { assert g[i] == s[i - 2]; assert s[i - 2] in s; }
      else if i < 23 { assert g[i] == s[i - 3]; assert s[i - 3] in s; }
      else { assert g[i] == s[i - 4]; assert s[i - 4] in s; }
    }
  }

  lemma GroupedDashFree(s: string)
    requires |s| == 32 && '-' !in s
    ensures RemoveDashes(Grouped(s)) == s
  {
    var a, b, c, d, e := s[..8], s[8..12], s[12..16], s[16..20], s[20..];
    assert a + (b + (c + (d + e))) == s;
    DashFreeSlice(s, 0, 8);
    DashFreeSlice(s, 8, 12);
    DashFreeSlice(s, 12, 16);
    DashFreeSlice(s, 16, 20);
    var g := Grouped(s);
    assert g == a + "-" + (b + "-" + (c + "-" + (d + "-" + e)));
    DashFreePrefix(d, e);
    assert RemoveDashes(e) == e;
    DashFreePrefix(c, d + "-" + e);
    DashFreePrefix(b, c + "-" + (d + "-" + e));
    DashFreePrefix(a, b + "-" + (c + "-" + (d + "-" + e)));
  }

  lemma DashFreeSlice(s: string, i: nat, j: nat)
    requires i <= j <= |s| && '-' !in s
    ensures '-' !in s[i..j]
  {
    forall k | 0 <= k < j - i
      ensures s[i..j][k] != '-'
    {
      assert s[i..j][k] == s[i + k];
      assert s[i + k] in s;
    }
  }

  /**
   * Normalising an already normalised id changes nothing: the regrouping
   * depends only on the dash-free form, which normalisation preserves.
   */
  lemma ToNormalizedIdIdempotent(raw: string)
    ensures ToNormalizedId(ToNormalizedId(raw)) == ToNormalizedId(raw)
  {
  }

  // ---------------------------------------------------------------------------
  // Table rows
  // ---------------------------------------------------------------------------

  /** One materialised table row as the middleware sends it. `date` is the stored start date, as stored. */
  datatype TableRow = TableRow(id: string, kind: string, author: string, date: Json, pageTitle: string)

  /** The handler's two failure responses: the missing-schema error and a caught runtime error. */
  datatype TableError = NoCollectionSchema | RuntimeError

  /** The schema keys of the `type`, `author` and `date` columns, when the table has them. */
  datatype ColumnKeys = ColumnKeys(typeKey: Option<string>, authorKey: Option<string>, dateKey: Option<string>)

  function KeyFor(index: map<string, string>, name: string): Option<string> {
    if name in index then Some(index[name]) else None
  }

  /** `key ? props[key] : undefined`: an empty key is falsy and reads nothing. */
  function ColumnProp(props: Json, key: Option<string>): Option<Json> {
    if key.Some? && key.value != "" then Get(props, key.value) else None
  }

  /** A usable column key: present and non-empty. */
  predicate HasColumn(key: Option<string>) {
    key.Some? && key.value != ""
  }

  /** `v.properties ?? {}`. */
  function Props(block: Json): Json {
    Coalesce(Get(block, "properties"), JObj([]))
  }

  /**
   * The fields of the row for a block whose id is the string `id`: the id
   * with dashes removed, the type column's text defaulting to "quote", the
   * author and title texts, and the date column's start date, empty without
   * a date column.
   */
  function RowOf(block: Json, keys: ColumnKeys, id: string): (r: TableRow)
    ensures r.id == RemoveDashes(id) && '-' !in r.id && r.kind != ""
    ensures Trimmed(r.author) && Trimmed(r.pageTitle)
    ensures ReadTitleText(ColumnProp(Props(block), keys.typeKey)) != "" ==>
      r.kind == ReadTitleText(ColumnProp(Props(block), keys.typeKey))
    ensures ReadTitleText(ColumnProp(Props(block), keys.typeKey)) == "" ==> r.kind == "quote"
    ensures !HasColumn(keys.typeKey) ==> r.kind == "quote"
    ensures r.author == ReadTitleText(ColumnProp(Props(block), keys.authorKey))
    ensures !HasColumn(keys.authorKey) ==> r.author == ""
    ensures r.pageTitle == ReadTitleText(Get(Props(block), "title"))
    ensures HasColumn(keys.dateKey) ==> r.date == ReadDateProp(Get(Props(block), keys.dateKey.value))
    ensures !HasColumn(keys.dateKey) ==> r.date == JStr("")
  {
    var props := Props(block);
    var kind := ReadTitleText(ColumnProp(props, keys.typeKey));
    var author := ReadTitleText(ColumnProp(props, keys.authorKey));
    var date := if HasColumn(keys.dateKey) then ReadDateProp(Get(props, keys.dateKey.value)) else JStr("");
    var pageTitle := ReadTitleText(Get(props, "title"));
    TableRow(RemoveDashes(id), if kind != "" then kind else "quote", author, date, pageTitle)
  }

  /**
   * The body of the row `map` for one resolved block: `.replace` on the
   * block's id throws when that id is not a string.
   */
  function MaterialiseRow(block: Json, keys: ColumnKeys): (r: Result<TableRow, Fault>)
    requires IdBearing(Some(block))
    ensures r.Failure? <==> !BlockId(block).JStr?
    ensures r.Success? ==> r.value == RowOf(block, keys, BlockId(block).s)
  {
    match BlockId(block)
    case JStr(id) => Success(RowOf(block, keys, id))
    case _ => Failure(TypeError)
  }

  /** `blockMap[id]` resolved at either depth, for every id in row order. */
  function Resolutions(blockMap: Json, ids: seq<Json>): (r: seq<Option<Json>>)
    ensures |r| == |ids|
    ensures forall k | 0 <= k < |ids| :: r[k] == ResolveIn(blockMap, ids[k])
  {
    seq(|ids|, k requires 0 <= k < |ids| => ResolveIn(blockMap, ids[k]))
  }

  /** The resolved blocks of `ids`, in row order; ids whose block does not resolve are dropped. */
  function ResolvedBlocks(blockMap: Json, ids: seq<Json>): (r: seq<Json>)
    ensures |r| <= |ids|
    ensures forall k | 0 <= k < |r| :: IdBearing(Some(r[k]))
  {
    var rs := Resolutions(blockMap, ids);
    assert forall i | 0 <= i < |rs| && rs[i].Some? :: IdBearing(rs[i]);
    Somes(rs)
  }

  /** One id: its block when it resolves, nothing otherwise. */
  lemma ResolvedBlocksSingle(blockMap: Json, id: Json)
    ensures ResolvedBlocks(blockMap, []) == []
    ensures ResolvedBlocks(blockMap, [id]) ==
      if ResolveIn(blockMap, id).Some? then [ResolveIn(blockMap, id).value] else []
  {
    var rs := Resolutions(blockMap, [id]);
    assert rs == [ResolveIn(blockMap, id)];
    assert rs[1..] == [];
  }

  /** Resolution works id by id, so the row order is kept. */
  lemma ResolvedBlocksAppend(blockMap: Json, a: seq<Json>, b: seq<Json>)
    ensures ResolvedBlocks(blockMap, a + b) == ResolvedBlocks(blockMap, a) + ResolvedBlocks(blockMap, b)
  {
    var l := Resolutions(blockMap, a + b);
    var r := Resolutions(blockMap, a) + Resolutions(blockMap, b);
    forall i | 0 <= i < |l| ensures l[i] == r[i] {
      if i < |a| { assert (a + b)[i] == a[i]; } else { assert (a + b)[i] == b[i - |a|]; }
    }
    assert l == r;
    SomesAppend(Resolutions(blockMap, a), Resolutions(blockMap, b));
  }

  /** Every block's id is a string, so removing its dashes does not throw. */
  predicate StringIds(blocks: seq<Json>)
    requires forall k | 0 <= k < |blocks| :: IdBearing(Some(blocks[k]))
  {
    forall k | 0 <= k < |blocks| :: BlockId(blocks[k]).JStr?
  }

  /** `.map` of the row body over resolved blocks: it throws when any block's id is not a string. */
  function MapRows(blocks: seq<Json>, keys: ColumnKeys): (r: Result<seq<TableRow>, Fault>)
    requires forall k | 0 <= k < |blocks| :: IdBearing(Some(blocks[k]))
    ensures r.Success? <==> StringIds(blocks)
    ensures r.Success? ==> |r.value| == |blocks|
    ensures r.Success? ==> forall k | 0 <= k < |blocks| :: Success(r.value[k]) == MaterialiseRow(blocks[k], keys)
  {
    var results := seq(|blocks|, k requires 0 <= k < |blocks| => MaterialiseRow(blocks[k], keys));
    assert forall k | 0 <= k < |blocks| :: results[k].Success? <==> BlockId(blocks[k]).JStr?;
    Collect(results)
  }

  /**
   * `rowIds.map(...).filter(Boolean)`: one row per resolved block, in row
   * order, so ids whose block does not resolve are dropped; the whole map
   * throws when a resolved block's id is not a string.
   */
  function MaterialiseRows(blockMap: Json, ids: seq<Json>, keys: ColumnKeys): (r: Result<seq<TableRow>, Fault>)
    ensures r.Success? ==> |r.value| <= |ids|
    ensures r.Success? <==> StringIds(ResolvedBlocks(blockMap, ids))
    ensures r.Success? ==> |r.value| == |ResolvedBlocks(blockMap, ids)|
    ensures r.Success? ==> forall k | 0 <= k < |r.value| ::
      Success(r.value[k]) == MaterialiseRow(ResolvedBlocks(blockMap, ids)[k], keys)
  {
    MapRows(ResolvedBlocks(blockMap, ids), keys)
  }

  /** The column keys the table handler reads from the name index. */
  function TableKeys(info: SchemaInfo): ColumnKeys {
    ColumnKeys(KeyFor(info.keyByName, "type"), KeyFor(info.keyByName, "author"), KeyFor(info.keyByName, "date"))
  }

  /**
   * The table handler's work after the tree is fetched: a missing schema is
   * the distinct error; a runtime error in schema indexing, in the row-id
   * search, in `.map` over a non-array id list or in a row is the generic one.
   * On success the rows are those of the resolvable row ids, in row order,
   * built with the type, author and date columns of the schema.
   */
  function TableRows(recordMap: Json): (r: Result<seq<TableRow>, TableError>)
    ensures r == Failure(NoCollectionSchema) <==> ResolveSchema(recordMap).NoSchema?
    ensures r.Success? <==>
      && ResolveSchema(recordMap).Found?
      && GetRowBlockIds(recordMap).Success? && GetRowBlockIds(recordMap).value.JArr?
      && MaterialiseRows(BlockMapOf(recordMap), GetRowBlockIds(recordMap).value.items,
                         TableKeys(ResolveSchema(recordMap).info)).Success?
    ensures r.Success? ==>
      Success(r.value) == MaterialiseRows(BlockMapOf(recordMap), GetRowBlockIds(recordMap).value.items,
                                          TableKeys(ResolveSchema(recordMap).info))
    ensures r.Success? ==> |r.value| <= |GetRowBlockIds(recordMap).value.items|
  {
    match ResolveSchema(recordMap)
    case NoSchema => Failure(NoCollectionSchema)
    case NameNotString => Failure(RuntimeError)
    case Found(info) =>
      match GetRowBlockIds(recordMap)
      case Failure(_) => Failure(RuntimeError)
      case Success(ids) =>
        match ids
        case JArr(items) =>
          (match MaterialiseRows(BlockMapOf(recordMap), items, TableKeys(info))
           case Failure(_) => Failure(RuntimeError)
           case Success(rows) => Success(rows))
        case _ => Failure(RuntimeError)
  }

  /**
   * Every row of a built table has a dash-free id, a non-empty type, trimmed
   * author and title, and an empty date when the table has no date column.
   */
  lemma TableRowsShape(recordMap: Json)
    requires TableRows(recordMap).Success?
    ensures forall k | 0 <= k < |TableRows(recordMap).value| ::
      var row := TableRows(recordMap).value[k];
      '-' !in row.id && row.kind != "" && Trimmed(row.author) && Trimmed(row.pageTitle)
    ensures !HasColumn(KeyFor(ResolveSchema(recordMap).info.keyByName, "date")) ==>
      forall k | 0 <= k < |TableRows(recordMap).value| :: TableRows(recordMap).value[k].date == JStr("")
  {
    var rows := TableRows(recordMap).value;
    var blocks := ResolvedBlocks(BlockMapOf(recordMap), GetRowBlockIds(recordMap).value.items);
    var keys := TableKeys(ResolveSchema(recordMap).info);
    forall k | 0 <= k < |rows|
      ensures rows[k] == RowOf(blocks[k], keys, BlockId(blocks[k]).s)
    {
      assert Success(rows[k]) == MaterialiseRow(blocks[k], keys);
    }
  }

  // ---------------------------------------------------------------------------
  // Page text
  // ---------------------------------------------------------------------------

  /** `blockMap[id]` resolved at either depth. */
  function ResolveIn(blockMap: Json, id: Json): Option<Json> {
    ResolveBlockValue(GetByValue(blockMap, id))
  }

  /**
   * The title text of a child block: the trimmed text of its `title`
   * property when the child resolves, empty when it does not.
   */
  function ChildTitle(blockMap: Json, id: Json): (r: string)
    ensures Trimmed(r)
    ensures ResolveIn(blockMap, id).None? ==> r == ""
    ensures ResolveIn(blockMap, id).Some? ==> r == ReadTitleText(At(Get(ResolveIn(blockMap, id).value, "properties"), "title"))
  {
    match ResolveIn(blockMap, id)
    case Some(child) => ReadTitleText(At(Get(child, "properties"), "title"))
    case None => ""
  }

  /** The title of every child, in `content` order. */
  function ChildTitles(blockMap: Json, children: seq<Json>): (r: seq<string>)
    ensures |r| == |children|
    ensures forall k | 0 <= k < |children| :: r[k] == ChildTitle(blockMap, children[k])
  {
    seq(|children|, i requires 0 <= i < |children| => ChildTitle(blockMap, children[i]))
  }

  /** The non-empty titles of the children that resolve, in `content` order. */
  function ChildLines(blockMap: Json, children: seq<Json>): (lines: seq<string>)
    ensures |lines| <= |children|
    ensures forall k | 0 <= k < |lines| :: lines[k] != "" && Trimmed(lines[k])
    ensures forall k | 0 <= k < |children| && ChildTitle(blockMap, children[k]) != "" ::
      ChildTitle(blockMap, children[k]) in lines
  {
    var titles := ChildTitles(blockMap, children);
    assert forall k | 0 <= k < |children| :: titles[k] in titles;
    NonEmpty(titles)
  }

  /** The loop over `content` visits the children in order: lines of a concatenation are the lines of its parts. */
  lemma ChildLinesAppend(blockMap: Json, a: seq<Json>, b: seq<Json>)
    ensures ChildLines(blockMap, a + b) == ChildLines(blockMap, a) + ChildLines(blockMap, b)
  {
    ChildTitlesAppend(blockMap, a, b);
    NonEmptyAppend(ChildTitles(blockMap, a), ChildTitles(blockMap, b));
  }

  /** Titles are taken child by child. */
  lemma ChildTitlesAppend(blockMap: Json, a: seq<Json>, b: seq<Json>)
    ensures ChildTitles(blockMap, a + b) == ChildTitles(blockMap, a) + ChildTitles(blockMap, b)
  {
    var l := ChildTitles(blockMap, a + b);
    var r := ChildTitles(blockMap, a) + ChildTitles(blockMap, b);
    forall i | 0 <= i < |l| ensures l[i] == r[i] {
      if i < |a| { assert (a + b)[i] == a[i]; } else { assert (a + b)[i] == b[i - |a|]; }
    }
  }

  /** One loop step: a child adds its title as a line when that title is non-empty, and nothing otherwise. */
  lemma ChildLinesSingle(blockMap: Json, child: Json)
    ensures ChildLines(blockMap, []) == []
    ensures ChildLines(blockMap, [child]) ==
      if ChildTitle(blockMap, child) == "" then [] else [ChildTitle(blockMap, child)]
  {
    assert ChildTitles(blockMap, [child]) == [ChildTitle(blockMap, child)];
    NonEmptySingle(ChildTitle(blockMap, child));
  }

  /** The root page: looked up under the normalised id first, then under the id as given. */
  function PageRoot(blockMap: Json, pageId: string): Option<Json> {
    ResolveIn(blockMap, JStr(ToNormalizedId(pageId))).OrElse(ResolveIn(blockMap, JStr(pageId)))
  }

  /**
   * The lines of the page handler: none when the root resolves under neither
   * id; otherwise the child titles of the root. Iterating a `content` that is
   * neither an array nor a string throws.
   */
  function PageLines(recordMap: Json, pageId: string): (r: Result<seq<string>, Fault>)
    ensures PageRoot(BlockMapOf(recordMap), pageId).None? ==> r == Success([])
    ensures r.Success? ==> forall k | 0 <= k < |r.value| :: r.value[k] != "" && Trimmed(r.value[k])
    ensures r.Failure? <==>
      var root := PageRoot(BlockMapOf(recordMap), pageId);
      root.Some? && Iterate(ContentOf(root.value)).Failure?
    ensures r.Success? && PageRoot(BlockMapOf(recordMap), pageId).Some? ==>
      r.value == ChildLines(BlockMapOf(recordMap), Iterate(ContentOf(PageRoot(BlockMapOf(recordMap), pageId).value)).value)
  {
    var blockMap := BlockMapOf(recordMap);
    match PageRoot(blockMap, pageId)
    case None => Success([])
    case Some(page) =>
      match Iterate(ContentOf(page))
      case Failure(e) => Failure(e)
      case Success(children) => Success(ChildLines(blockMap, children))
  }

  /** `recordMap.block ?? {}`. */
  function BlockMapOf(recordMap: Json): Json {
    Coalesce(Get(recordMap, "block"), JObj([]))
  }

  /**
   * The page handler's text: empty when the root resolves under neither id;
   * otherwise the assembled non-empty child titles in `content` order, and
   * empty exactly when there are none. It never holds three newlines in a row
   * and has no surrounding whitespace.
   */
  function PageText(recordMap: Json, pageId: string): (r: Result<string, Fault>)
    ensures PageRoot(BlockMapOf(recordMap), pageId).None? ==> r == Success("")
    ensures r.Success? ==> NoTripleNewline(r.value) && Trimmed(r.value)
    ensures r.Failure? <==> PageLines(recordMap, pageId).Failure?
    ensures r.Success? ==> r.value == AssembleLines(PageLines(recordMap, pageId).value)
    ensures r.Success? ==> (r.value == "" <==> PageLines(recordMap, pageId).value == [])
  {
    match PageLines(recordMap, pageId)
    case Failure(e) => Failure(e)
    case Success(lines) =>
      AssembleLinesEmpty(lines);
      Success(AssembleLines(lines))
  }

  /**
   * When no child title holds a newline, the page text is exactly the
   * non-empty child titles joined by single newlines.
   */
  lemma PageTextPlain(recordMap: Json, pageId: string)
    requires PageLines(recordMap, pageId).Success?
    requires forall k | 0 <= k < |PageLines(recordMap, pageId).value| :: '\n' !in PageLines(recordMap, pageId).value[k]
    ensures PageText(recordMap, pageId) == Success(Join(PageLines(recordMap, pageId).value, "\n"))
  {
    AssemblePlainLines(PageLines(recordMap, pageId).value);
  }
}
