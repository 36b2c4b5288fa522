/**
 * The document store's rich-text property format: an array of segments, each
 * an array whose first element is a text chunk and whose second element, when
 * present, is an array of formatting annotations. A date annotation is the
 * pair `["d", {start_date: ...}]`.
 *
 * `readTitleText` is written out twice in the code base (server middleware and
 * client library) with identical bodies; the model defines it once here.
 */
module RichText {
  import opened Wrappers
  import opened JsValues
  import opened JsText

  /** The text chunk of a segment: its first element when the segment is an array starting with a string. */
  function SegmentText(item: Json): Option<string> {
    match item
    case JArr(a) => if |a| > 0 && a[0].JStr? then Some(a[0].s) else None
    case _ => None
  }

  /** The text chunks of `items` in segment order; segments without one contribute nothing. */
  function TextChunks(items: seq<Json>): (parts: seq<string>)
    ensures |parts| <= |items|
  {
    if |items| == 0 then []
    else
      (match SegmentText(items[0]) case Some(t) => [t] case None => []) + TextChunks(items[1..])
  }

  /** Text chunks of a concatenation are the chunks of the first part followed by those of the second. */
  lemma {:induction false} TextChunksAppend(a: seq<Json>, b: seq<Json>)
    ensures TextChunks(a + b) == TextChunks(a) + TextChunks(b)
  {
    if |a| == 0 {
      assert a + b == b;
    } else {
      assert (a + b)[1..] == a[1..] + b;
      TextChunksAppend(a[1..], b);
    }
  }

  /**
   * `readTitleText`: a non-array gives the empty string; an array gives the
   * concatenation of its segments' text chunks with whitespace cut from both ends.
   */
  function ReadTitleText(prop: Option<Json>): (r: string)
    ensures Trimmed(r)
    ensures !(prop.Some? && prop.value.JArr?) ==> r == ""
    ensures prop.Some? && prop.value.JArr? ==> StripsSpaceOf(r, Concat(TextChunks(prop.value.items)))
  {
    match prop
    case Some(JArr(items)) => Trim(Concat(TextChunks(items)))
    case _ => ""
  }

  /** Appending a segment that carries no text chunk (an annotation-only or malformed item) changes nothing. */
  lemma ReadTitleTextSkipsNonText(items: seq<Json>, extra: Json)
    requires SegmentText(extra).None?
    ensures ReadTitleText(Some(JArr(items + [extra]))) == ReadTitleText(Some(JArr(items)))
  {
    TextChunksAppend(items, [extra]);
    assert TextChunks([extra]) == [];
    ConcatAppend(TextChunks(items), []);
    assert TextChunks(items) + [] == TextChunks(items);
  }

  /** A single segment whose chunk has no surrounding whitespace reads back as that chunk. */
  lemma ReadTitleTextSingle(t: string, annotations: seq<Json>)
    requires Trimmed(t)
    ensures ReadTitleText(Some(JArr([JArr([JStr(t)] + annotations)]))) == t
  {
    var items := [JArr([JStr(t)] + annotations)];
    assert TextChunks(items[1..]) == [];
    assert TextChunks(items) == [t];
    assert Concat([t]) == t + Concat([]);
    TrimTrimmed(t);
  }

  /** Segments are concatenated with no separator: `[["A"], ["B"]]` reads as `"AB"`. */
  lemma ReadTitleTextExample()
    ensures ReadTitleText(Some(JArr([JArr([JStr("A")]), JArr([JStr("B")])]))) == "AB"
    ensures ReadTitleText(Some(JArr([]))) == ""
    ensures ReadTitleText(Some(JNull)) == ""
    ensures ReadTitleText(None) == ""
  {
    var items := [JArr([JStr("A")]), JArr([JStr("B")])];
    assert TextChunks(items[1..][1..]) == [];
    assert TextChunks(items[1..]) == ["B"];
    assert TextChunks(items) == ["A", "B"];
    assert Concat(["A", "B"]) == "AB";
    assert Trimmed("AB");
    TrimTrimmed("AB");
  }

  /** The start date carried by `fmt` when it is a date annotation `["d", {start_date}]` with a truthy start date. */
  function DateAnnotation(fmt: Json): Option<Json> {
    match fmt
    case JArr(a) =>
      if |a| > 0 && a[0] == JStr("d") then
        var sd := if |a| > 1 then Get(a[1], "start_date") else None;
        if TruthyOpt(sd) then sd else None
      else None
    case _ => None
  }

  /** The start dates of all date annotations in `fmts`, in order. */
  function FormatDates(fmts: seq<Json>): seq<Json> {
    if |fmts| == 0 then []
    else
      (match DateAnnotation(fmts[0]) case Some(d) => [d] case None => []) + FormatDates(fmts[1..])
  }

  /** The annotation array of a segment (its second element), when the segment has one. */
  function Annotations(item: Json): Option<seq<Json>> {
    match item
    case JArr(a) => if |a| > 1 && a[1].JArr? then Some(a[1].items) else None
    case _ => None
  }

  /** Every start date of every segment, in scan order: the reference the nested search is measured against. */
  function AllDates(items: seq<Json>): seq<Json> {
    if |items| == 0 then []
    else
      (match Annotations(items[0]) case Some(f) => FormatDates(f) case None => []) + AllDates(items[1..])
  }

  /** The inner loop of `readDateProp`: the first date annotation among `fmts`. */
  function FirstDateIn(fmts: seq<Json>): (r: Option<Json>)
    ensures r.None? <==> FormatDates(fmts) == []
    ensures r.Some? ==> r.value == FormatDates(fmts)[0]
  {
    if |fmts| == 0 then None
    else
      match DateAnnotation(fmts[0])
      case Some(d) => Some(d)
      case None => FirstDateIn(fmts[1..])
  }

  /** The outer loop of `readDateProp`: the first date annotation of the first segment that has one. */
  function FirstDate(items: seq<Json>): (r: Option<Json>)
    ensures r.None? <==> AllDates(items) == []
    ensures r.Some? ==> r.value == AllDates(items)[0]
  {
    if |items| == 0 then None
    else
      var here := match Annotations(items[0]) case Some(f) => FirstDateIn(f) case None => None;
      if here.Some? then here else FirstDate(items[1..])
  }

  /** Every start date that the search can return is truthy. */
  lemma {:induction false} AllDatesTruthy(items: seq<Json>)
    ensures forall k | 0 <= k < |AllDates(items)| :: Truthy(AllDates(items)[k])
  {
    if |items| > 0 {
      match Annotations(items[0]) {
        case Some(f) => FormatDatesTruthy(f);
        case None =>
      }
      AllDatesTruthy(items[1..]);
    }
  }

  lemma {:induction false} FormatDatesTruthy(fmts: seq<Json>)
    ensures forall k | 0 <= k < |FormatDates(fmts)| :: Truthy(FormatDates(fmts)[k])
  {
    if |fmts| > 0 {
      FormatDatesTruthy(fmts[1..]);
    }
  }

  /**
   * `readDateProp`: the start date of the first date annotation found by
   * scanning the segments and then each segment's annotations in order;
   * the empty string when there is none or the property is not an array.
   * The value is returned as stored, so it need not be a string.
   */
  function ReadDateProp(prop: Option<Json>): (r: Json)
    ensures r == JStr("") || Truthy(r)
    ensures !(prop.Some? && prop.value.JArr?) ==> r == JStr("")
    ensures prop.Some? && prop.value.JArr? ==>
      (if AllDates(prop.value.items) == [] then r == JStr("") else r == AllDates(prop.value.items)[0])
  {
    match prop
    case Some(JArr(items)) =>
      AllDatesTruthy(items);
      FirstDate(items).GetOr(JStr(""))
    case _ => JStr("")
  }

  /** A date annotation is found even when earlier segments carry plain text only. */
  lemma ReadDatePropExample()
    ensures ReadDateProp(Some(JArr([
      JArr([JStr("plain")]),
      JArr([JStr("2024-01-01"), JArr([JArr([JStr("d"), JObj([("start_date", JStr("2024-01-01"))])])])])
    ]))) == JStr("2024-01-01")
  {
    var d := JObj([("start_date", JStr("2024-01-01"))]);
    var fmt := JArr([JStr("d"), d]);
    assert DateAnnotation(fmt) == Some(JStr("2024-01-01"));
    assert FormatDates([fmt]) == [JStr("2024-01-01")];
    var seg2 := JArr([JStr("2024-01-01"), JArr([fmt])]);
    var items := [JArr([JStr("plain")]), seg2];
    assert AllDates(items[1..]) == [JStr("2024-01-01")];
    assert AllDates(items) == [JStr("2024-01-01")];
  }

  /** `page.content ?? []`: the child ids of a page. */
  function ContentOf(page: Json): Json {
    Coalesce(Get(page, "content"), JArr([]))
  }

  /**
   * Page text assembly shared by both page readers:
   * `lines.join("\n").replace(/\n{3,}/g, "\n\n").trim()`.
   * The text never holds three newlines in a row and has no surrounding whitespace.
   */
  function AssembleLines(lines: seq<string>): (r: string)
    ensures NoTripleNewline(r)
    ensures Trimmed(r)
  {
    var c := CollapseNewlines(Join(lines, "\n"));
    TrimNoTriple(c);
    Trim(c)
  }

  /** When no line holds a newline, assembly is exactly joining the lines with single newlines. */
  lemma AssemblePlainLines(lines: seq<string>)
    requires forall k | 0 <= k < |lines| :: lines[k] != "" && Trimmed(lines[k]) && '\n' !in lines[k]
    ensures AssembleLines(lines) == Join(lines, "\n")
  {
    JoinPlainLines(lines);
    CollapseNoTriple(Join(lines, "\n"));
    TrimTrimmed(Join(lines, "\n"));
  }

  /**
   * Non-empty trimmed lines assemble to a non-empty text: the first line's
   * first character survives the join, the collapse and the trim. So the
   * page text is empty exactly when there are no lines.
   */
  lemma AssembleLinesEmpty(lines: seq<string>)
    requires forall k | 0 <= k < |lines| :: lines[k] != "" && Trimmed(lines[k])
    ensures AssembleLines(lines) == "" <==> lines == []
  {
    if lines == [] {
      TrimTrimmed("");
    } else {
      var j := Join(lines, "\n");
      JoinStartsWith(lines, "\n");
      assert IsSpace('\n');
      var c := CollapseNewlines(j);
      assert !IsSpace(c[0]);
    }
  }
}
