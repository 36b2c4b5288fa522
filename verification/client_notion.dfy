/**
 * The client library's copy of the normalisation layer: rows fetched from the
 * table endpoint are normalised into entry records, and page text is read from
 * a block map with single-depth unwrapping only. The network requests are not
 * modelled; each operation takes the parsed response body.
 */
module ClientNotion {
  import opened Wrappers
  import opened JsValues
  import opened JsText
  import opened RichText
  import opened EntryTypes

  /** Why a response body is rejected: the wrong shape, or a JavaScript runtime error while reading it. */
  datatype ClientError = BadShape | Thrown(fault: Fault)

  /** `normStr`: the trimmed string for a string, the empty string for anything else (absent included). */
  function NormStr(v: Option<Json>): (r: string)
    ensures Trimmed(r)
    ensures !(v.Some? && v.value.JStr?) ==> r == ""
    ensures v.Some? && v.value.JStr? ==> StripsSpaceOf(r, v.value.s)
  {
    match v
    case Some(JStr(s)) => Trim(s)
    case _ => ""
  }

  /** The value is missing or is not a string. */
  predicate NotString(v: Option<Json>) {
    !(v.Some? && v.value.JStr?)
  }

  /** A string that is already trimmed normalises to itself. */
  lemma NormStrTrimmed(s: string)
    requires Trimmed(s)
    ensures NormStr(Some(JStr(s))) == s
  {
    TrimTrimmed(s);
  }

  /** `normType`: a journal exactly when the trimmed string is `journal`; a quote otherwise. */
  function NormType(v: Option<Json>): (t: EntryType)
    ensures t == Journal <==> NormStr(v) == "journal"
    ensures t == Quote <==> NormStr(v) != "journal"
  {
    if NormStr(v) == "journal" then Journal else Quote
  }

  /**
   * Whitespace around the type word does not matter, letter case does: a
   * padded word is a journal exactly when the word is `journal`.
   */
  lemma NormTypePadded(pre: string, word: string, post: string)
    requires word != "" && Trimmed(word)
    requires forall k | 0 <= k < |pre| :: IsSpace(pre[k])
    requires forall k | 0 <= k < |post| :: IsSpace(post[k])
    ensures NormType(Some(JStr(pre + word + post))) == Journal <==> word == "journal"
  {
    TrimPadded(pre, word, post);
  }

  /**
   * The record built from one row before the empty-id filter. On a `null` row
   * the property reads throw; the caller checks for that first.
   */
  function NormRow(row: Json): (m: EntryMeta)
    ensures Trimmed(m.id) && Trimmed(m.author) && Trimmed(m.date) && Trimmed(m.pageTitle)
    ensures m.id == NormStr(Get(row, "id"))
    ensures m.kind == Journal <==> NormStr(Get(row, "type")) == "journal"
    ensures m.author == NormStr(Get(row, "author"))
    ensures m.date == NormStr(Get(row, "date"))
    ensures m.pageTitle == NormStr(Get(row, "title"))
  {
    EntryMeta(
      NormStr(Get(row, "id")),
      NormType(Get(row, "type")),
      NormStr(Get(row, "author")),
      NormStr(Get(row, "date")),
      NormStr(Get(row, "title")))
  }

  /**
   * A row whose five properties are already trimmed strings keeps them as
   * they are; only the exact word `journal` makes a journal.
   */
  lemma NormRowClean(row: Json, id: string, kind: string, author: string, date: string, title: string)
    requires Get(row, "id") == Some(JStr(id)) && Get(row, "type") == Some(JStr(kind))
    requires Get(row, "author") == Some(JStr(author)) && Get(row, "date") == Some(JStr(date))
    requires Get(row, "title") == Some(JStr(title))
    requires Trimmed(id) && Trimmed(kind) && Trimmed(author) && Trimmed(date) && Trimmed(title)
    ensures NormRow(row) == EntryMeta(id, if kind == "journal" then Journal else Quote, author, date, title)
  {
    NormStrTrimmed(id);
    NormStrTrimmed(kind);
    NormStrTrimmed(author);
    NormStrTrimmed(date);
    NormStrTrimmed(title);
  }

  /** A row whose properties are missing or not strings gives empty fields and the quote type. */
  lemma NormRowNonStrings(row: Json)
    requires NotString(Get(row, "id")) && NotString(Get(row, "type")) && NotString(Get(row, "author"))
    requires NotString(Get(row, "date")) && NotString(Get(row, "title"))
    ensures NormRow(row) == EntryMeta("", Quote, "", "", "")
  {
  }

  /** Some row is `null`; reading its `id` throws. */
  predicate HasNullRow(rows: seq<Json>) {
    exists i | 0 <= i < |rows| :: rows[i].JNull?
  }

  /** The row `map`: every row normalised, in order. */
  function MapRows(rows: seq<Json>): (ms: seq<EntryMeta>)
    ensures |ms| == |rows|
    ensures forall k | 0 <= k < |rows| :: ms[k] == NormRow(rows[k])
  {
    MapSeq(NormRow, rows)
  }

  /** Normalised entries keep their trimmed fields. */
  predicate AllTrimmed(ms: seq<EntryMeta>) {
    forall k | 0 <= k < |ms| ::
      Trimmed(ms[k].id) && Trimmed(ms[k].author) && Trimmed(ms[k].date) && Trimmed(ms[k].pageTitle)
  }

  /**
   * `.filter((m) => m.id.length > 0)`: exactly the records with a non-empty
   * id, in order.
   */
  function KeepWithId(ms: seq<EntryMeta>): (r: seq<EntryMeta>)
    ensures |r| <= |ms|
    ensures forall k | 0 <= k < |r| :: r[k].id != "" && r[k] in ms
    ensures forall m | m in ms && m.id != "" :: m in r
    ensures AllTrimmed(ms) ==> AllTrimmed(r)
  {
    if |ms| == 0 then []
    else
      var rest := KeepWithId(ms[1..]);
      assert forall m | m in ms :: m == ms[0] || m in ms[1..];
      assert AllTrimmed(ms) ==> AllTrimmed(ms[1..]) by {
        if AllTrimmed(ms) {
          forall k | 0 <= k < |ms[1..]| ensures ms[1..][k] == ms[k + 1] { }
        }
      }
      if ms[0].id != "" then [ms[0]] + rest else rest
  }

  /** Filtering works record by record, so order is kept across a concatenation. */
  lemma {:induction false} KeepWithIdAppend(a: seq<EntryMeta>, b: seq<EntryMeta>)
    ensures KeepWithId(a + b) == KeepWithId(a) + KeepWithId(b)
  {
    if |a| == 0 {
      assert a + b == b;
    } else {
      assert (a + b)[1..] == a[1..] + b;
      assert (a + b)[0] == a[0];
      KeepWithIdAppend(a[1..], b);
    }
  }

  /**
   * The row `map`/`filter` of the table fetch: every row normalised, rows with
   * an empty trimmed id dropped, order kept. A null row makes the map throw.
   */
  function NormalizeRows(rows: seq<Json>): (r: Result<seq<EntryMeta>, Fault>)
    ensures r.Failure? <==> HasNullRow(rows)
    ensures r.Success? ==> |r.value| <= |rows|
    ensures r.Success? ==> AllTrimmed(r.value) && forall k | 0 <= k < |r.value| :: r.value[k].id != ""
    ensures r.Success? ==> forall i | 0 <= i < |rows| && NormRow(rows[i]).id != "" :: NormRow(rows[i]) in r.value
  {
    if HasNullRow(rows) then Failure(TypeError)
    else
      var ms := MapRows(rows);
      assert AllTrimmed(ms);
      Success(KeepWithId(ms))
  }

  /** A single row is kept, normalised, exactly when its trimmed id is non-empty. */
  lemma NormalizeRowsSingle(row: Json)
    requires !row.JNull?
    ensures NormalizeRows([row]) == Success(if NormRow(row).id == "" then [] else [NormRow(row)])
  {
    var m := NormRow(row);
    assert !HasNullRow([row]);
    assert MapRows([row]) == [m];
    KeepWithIdSingle(m);
  }

  lemma KeepWithIdSingle(m: EntryMeta)
    ensures KeepWithId([m]) == if m.id == "" then [] else [m]
  {
    assert [m][1..] == [];
  }

  /** Neither part has a null row, so neither has their concatenation. */
  lemma NoNullRowAppend(a: seq<Json>, b: seq<Json>)
    requires !HasNullRow(a) && !HasNullRow(b)
    ensures !HasNullRow(a + b)
  {
    forall i | 0 <= i < |a + b| ensures !(a + b)[i].JNull? {
      if i < |a| { assert (a + b)[i] == a[i]; } else { assert (a + b)[i] == b[i - |a|]; }
    }
  }

  /**
   * Normalisation works row by row: the rows of a concatenation are the rows
   * of the first part followed by those of the second. With the single-row
   * case this determines the whole output, so order is kept and exactly the
   * empty-id rows are dropped.
   */
  lemma NormalizeRowsAppend(a: seq<Json>, b: seq<Json>)
    requires NormalizeRows(a).Success? && NormalizeRows(b).Success?
    ensures NormalizeRows(a + b) == Success(NormalizeRows(a).value + NormalizeRows(b).value)
  {
    NoNullRowAppend(a, b);
    MapSeqAppend(NormRow, a, b);
    KeepWithIdAppend(MapRows(a), MapRows(b));
  }

  /**
   * The table fetch after the response is parsed: the body must be an array
   * of rows, which are then normalised.
   */
  function EntryMetaList(body: Json): (r: Result<seq<EntryMeta>, ClientError>)
    ensures !body.JArr? ==> r == Failure(BadShape)
    ensures body.JArr? ==> (r.Failure? <==> NormalizeRows(body.items).Failure?)
    ensures r.Success? ==> r.value == NormalizeRows(body.items).value
  {
    match body
    case JArr(rows) =>
      (match NormalizeRows(rows)
       case Failure(e) => Failure(Thrown(e))
       case Success(ms) => Success(ms))
    case _ => Failure(BadShape)
  }

  // ---------------------------------------------------------------------------
  // Page text, single-depth
  // ---------------------------------------------------------------------------

  /** `blockMap[id]?.value`: the entry's `value` with no further unwrapping. */
  function ValueOf(blockMap: Json, id: Json): Option<Json> {
    match GetByValue(blockMap, id)
    case Some(entry) => Get(entry, "value")
    case None => None
  }

  /**
   * The title text of a child: the flattened `properties.title` of its
   * `value`, and empty when that `value` is missing or falsy.
   */
  function ClientChildTitle(blockMap: Json, id: Json): (r: string)
    ensures Trimmed(r)
    ensures !TruthyOpt(ValueOf(blockMap, id)) ==> r == ""
    ensures TruthyOpt(ValueOf(blockMap, id)) ==>
      r == ReadTitleText(At(Get(ValueOf(blockMap, id).value, "properties"), "title"))
  {
    var v := ValueOf(blockMap, id);
    if TruthyOpt(v) then ReadTitleText(At(Get(v.value, "properties"), "title")) else ""
  }

  /** The title of every child, in `content` order. */
  function ClientTitles(blockMap: Json, children: seq<Json>): (r: seq<string>)
    ensures |r| == |children|
    ensures forall k | 0 <= k < |children| :: r[k] == ClientChildTitle(blockMap, children[k])
  {
    seq(|children|, i requires 0 <= i < |children| => ClientChildTitle(blockMap, children[i]))
  }

  /** The non-empty child titles, in `content` order. */
  function ClientLines(blockMap: Json, children: seq<Json>): (lines: seq<string>)
    ensures |lines| <= |children|
    ensures forall k | 0 <= k < |lines| :: lines[k] != "" && Trimmed(lines[k])
    ensures forall k | 0 <= k < |children| && ClientChildTitle(blockMap, children[k]) != "" ::
      ClientChildTitle(blockMap, children[k]) in lines
  {
    var titles := ClientTitles(blockMap, children);
    assert forall k | 0 <= k < |children| :: titles[k] in titles;
    NonEmpty(titles)
  }

  /** Titles are taken child by child. */
  lemma ClientTitlesAppend(blockMap: Json, a: seq<Json>, b: seq<Json>)
    ensures ClientTitles(blockMap, a + b) == ClientTitles(blockMap, a) + ClientTitles(blockMap, b)
  {
    var l := ClientTitles(blockMap, a + b);
    var r := ClientTitles(blockMap, a) + ClientTitles(blockMap, b);
    forall i | 0 <= i < |l| ensures l[i] == r[i] {
      if i < |a| { assert (a + b)[i] == a[i]; } else { assert (a + b)[i] == b[i - |a|]; }
    }
  }

  /** The loop over `content` visits the children in order: lines of a concatenation are the lines of its parts. */
  lemma ClientLinesAppend(blockMap: Json, a: seq<Json>, b: seq<Json>)
    ensures ClientLines(blockMap, a + b) == ClientLines(blockMap, a) + ClientLines(blockMap, b)
  {
    ClientTitlesAppend(blockMap, a, b);
    NonEmptyAppend(ClientTitles(blockMap, a), ClientTitles(blockMap, b));
  }

  /** One loop step: a child adds its title as a line when that title is non-empty, and nothing otherwise. */
  lemma ClientLinesSingle(blockMap: Json, child: Json)
    ensures ClientLines(blockMap, []) == []
    ensures ClientLines(blockMap, [child]) ==
      if ClientChildTitle(blockMap, child) == "" then [] else [ClientChildTitle(blockMap, child)]
  {
    assert ClientTitles(blockMap, [child]) == [ClientChildTitle(blockMap, child)];
    NonEmptySingle(ClientChildTitle(blockMap, child));
  }

  /** A child whose `value` is missing or falsy contributes no line. */
  lemma ClientLinesSkipsMissing(blockMap: Json, children: seq<Json>, id: Json)
    requires !TruthyOpt(ValueOf(blockMap, id))
    ensures ClientLines(blockMap, children + [id]) == ClientLines(blockMap, children)
  {
    ClientLinesAppend(blockMap, children, [id]);
    ClientLinesSingle(blockMap, id);
    assert ClientLines(blockMap, children) + [] == ClientLines(blockMap, children);
  }

  /**
   * `extractPlainTextFromBlockMap`: empty when `blockMap[pageId].value` is
   * missing or falsy; otherwise the assembled non-empty titles of the page's
   * children, empty exactly when there are none. Iterating a `content` that is neither an array nor a string throws.
   */
  function ExtractPlainText(blockMap: Json, pageId: string): (r: Result<string, Fault>)
    ensures !TruthyOpt(ValueOf(blockMap, JStr(pageId))) ==> r == Success("")
    ensures r.Success? ==> NoTripleNewline(r.value) && Trimmed(r.value)
    ensures r.Failure? <==>
      TruthyOpt(ValueOf(blockMap, JStr(pageId)))
      && Iterate(ContentOf(ValueOf(blockMap, JStr(pageId)).value)).Failure?
    ensures r.Success? && TruthyOpt(ValueOf(blockMap, JStr(pageId))) ==>
      var lines := ClientLines(blockMap, Iterate(ContentOf(ValueOf(blockMap, JStr(pageId)).value)).value);
      && r.value == AssembleLines(lines)
      && (r.value == "" <==> lines == [])
  {
    var page := ValueOf(blockMap, JStr(pageId));
    if !TruthyOpt(page) then Success("")
    else
      match Iterate(ContentOf(page.value))
      case Failure(e) => Failure(e)
      case Success(children) =>
        var lines := ClientLines(blockMap, children);
        AssembleLinesEmpty(lines);
        Success(AssembleLines(lines))
  }

  /**
   * The page fetch after the response is parsed: the body must be a non-null
   * object (arrays pass the `typeof` test too).
   */
  function PageContent(body: Json, pageId: string): (r: Result<string, ClientError>)
    ensures !IsObjectLike(body) ==> r == Failure(BadShape)
    ensures IsObjectLike(body) ==> (r.Success? <==> ExtractPlainText(body, pageId).Success?)
    ensures r.Success? ==> r.value == ExtractPlainText(body, pageId).value
  {
    if !IsObjectLike(body) then Failure(BadShape)
    else
      match ExtractPlainText(body, pageId)
      case Failure(e) => Failure(Thrown(e))
      case Success(text) => Success(text)
  }

  /**
   * Unlike the server's reader, the client does not look through a second
   * `value` wrapper: a page stored as `{value: {value: {...}}}` reads as empty,
   * because the outer `value` has no `content`.
   */
  lemma ClientSingleDepthExample()
    ensures
      var child := JObj([("value", JObj([("id", JStr("c")), ("properties", JObj([("title", JArr([JArr([JStr("Hi")])]))]))]))]);
      var inner := JObj([("id", JStr("p")), ("content", JArr([JStr("c")]))]);
      var blockMap := JObj([("p", JObj([("value", JObj([("value", inner)]))])), ("c", child)]);
      ExtractPlainText(blockMap, "p") == Success("")
  {
    var child := JObj([("value", JObj([("id", JStr("c")), ("properties", JObj([("title", JArr([JArr([JStr("Hi")])]))]))]))]);
    var inner := JObj([("id", JStr("p")), ("content", JArr([JStr("c")]))]);
    var outer := JObj([("value", inner)]);
    var blockMap := JObj([("p", JObj([("value", outer)])), ("c", child)]);
    assert ValueOf(blockMap, JStr("p")) == Some(outer);
    assert Get(outer, "content") == None;
    assert Iterate(ContentOf(outer)) == Success([]);
    ClientLinesSingle(blockMap, JNull);
    AssembleLinesEmpty([]);
  }
}
