/**
 * The two derived lists of the entry cache: quotes in table order, and
 * journals newest first. Journal dates are compared as plain strings in
 * code-point order (ISO dates sort chronologically that way); the source's
 * `localeCompare` is locale-sensitive and is not modelled.
 */
module JournalOrder {
  import opened EntryTypes

  /** Code-point lexicographic order on strings: `a` is a prefix of `b` or smaller at the first difference. */
  predicate StrLe(a: string, b: string) {
    |a| == 0 || (|b| > 0 && (a[0] < b[0] || (a[0] == b[0] && StrLe(a[1..], b[1..]))))
  }

  /** Any two strings are ordered one way or the other. */
  lemma {:induction false} StrLeTotal(a: string, b: string)
    ensures StrLe(a, b) || StrLe(b, a)
  {
    if |a| > 0 && |b| > 0 && a[0] == b[0] {
      StrLeTotal(a[1..], b[1..]);
    }
  }

  lemma {:induction false} StrLeTrans(a: string, b: string, c: string)
    requires StrLe(a, b) && StrLe(b, c)
    ensures StrLe(a, c)
  {
    if |a| > 0 && a[0] == b[0] && b[0] == c[0] {
      StrLeTrans(a[1..], b[1..], c[1..]);
    }
  }

  /** Only equal strings are ordered both ways. */
  lemma {:induction false} StrLeAntisym(a: string, b: string)
    requires StrLe(a, b) && StrLe(b, a)
    ensures a == b
  {
    if |a| > 0 {
      StrLeAntisym(a[1..], b[1..]);
      assert a == [a[0]] + a[1..];
      assert b == [b[0]] + b[1..];
    }
  }

  /** The empty string is below every other string. */
  lemma EmptyIsLeast(a: string)
    ensures StrLe("", a)
    ensures StrLe(a, "") ==> a == ""
  {
  }

  /** `meta.filter((m) => m.type === kind)`. */
  function OfKind(meta: seq<EntryMeta>, kind: EntryType): (r: seq<EntryMeta>)
    ensures |r| <= |meta|
    ensures forall k | 0 <= k < |r| :: r[k].kind == kind && r[k] in meta
    ensures forall m | m in meta && m.kind == kind :: m in r
  {
    if |meta| == 0 then []
    else
      var rest := OfKind(meta[1..], kind);
      assert forall m | m in meta :: m == meta[0] || m in meta[1..];
      if meta[0].kind == kind then [meta[0]] + rest else rest
  }

  /**
   * Filtering works entry by entry: the filtered concatenation is the
   * concatenation of the filtered parts, so table order is kept.
   */
  lemma {:induction false} OfKindAppend(a: seq<EntryMeta>, b: seq<EntryMeta>, kind: EntryType)
    ensures OfKind(a + b, kind) == OfKind(a, kind) + OfKind(b, kind)
  {
    if |a| == 0 {
      assert a + b == b;
    } else {
      assert (a + b)[1..] == a[1..] + b;
      OfKindAppend(a[1..], b, kind);
    }
  }

  /** Every entry has exactly one kind, so the two lists split the table between them. */
  lemma OfKindPartition(meta: seq<EntryMeta>)
    ensures |OfKind(meta, Quote)| + |OfKind(meta, Journal)| == |meta|
  {
    if |meta| > 0 {
      OfKindPartition(meta[1..]);
    }
  }

  /** Dates never increase along the list. */
  predicate SortedDesc(s: seq<EntryMeta>) {
    forall i, j | 0 <= i < j < |s| :: StrLe(s[j].date, s[i].date)
  }

  /** A sorted list stays sorted when an entry no earlier than all of its dates is put in front. */
  lemma ConsSorted(h: EntryMeta, t: seq<EntryMeta>)
    requires SortedDesc(t)
    requires forall e | e in t :: StrLe(e.date, h.date)
    ensures SortedDesc([h] + t)
  {
    var r := [h] + t;
    forall i, j | 0 <= i < j < |r| ensures StrLe(r[j].date, r[i].date) {
      if i == 0 { assert r[j] == t[j - 1]; }
      else { assert r[i] == t[i - 1] && r[j] == t[j - 1]; }
    }
  }

  /** Inserts `x` before the first entry whose date is not later than its own. */
  function Insert(x: EntryMeta, s: seq<EntryMeta>): (r: seq<EntryMeta>)
    requires SortedDesc(s)
    ensures SortedDesc(r)
    ensures multiset(r) == multiset(s) + multiset{x}
  {
    if |s| == 0 then [x]
    else if StrLe(s[0].date, x.date) then
      InsertFront(x, s);
      [x] + s
    else
      var rest := Insert(x, s[1..]);
      InsertBehind(x, s, rest);
      [s[0]] + rest
  }

  lemma InsertFront(x: EntryMeta, s: seq<EntryMeta>)
    requires SortedDesc(s) && |s| > 0 && StrLe(s[0].date, x.date)
    ensures SortedDesc([x] + s)
  {
    forall e | e in s ensures StrLe(e.date, x.date) {
      var j :| 0 <= j < |s| && s[j] == e;
      if j > 0 { StrLeTrans(s[j].date, s[0].date, x.date); }
    }
    ConsSorted(x, s);
  }

  lemma InsertBehind(x: EntryMeta, s: seq<EntryMeta>, rest: seq<EntryMeta>)
    requires SortedDesc(s) && |s| > 0 && !StrLe(s[0].date, x.date)
    requires SortedDesc(rest) && multiset(rest) == multiset(s[1..]) + multiset{x}
    ensures SortedDesc([s[0]] + rest)
    ensures multiset([s[0]] + rest) == multiset(s) + multiset{x}
  {
    StrLeTotal(s[0].date, x.date);
    assert s == [s[0]] + s[1..];
    forall e | e in rest ensures StrLe(e.date, s[0].date) {
      assert e in multiset(rest);
      if e != x {
        assert e in multiset(s[1..]);
        var j :| 0 <= j < |s[1..]| && s[1..][j] == e;
        assert s[j + 1] == e;
      }
    }
    ConsSorted(s[0], rest);
  }

  /** Insertion sort, newest date first. */
  function SortByDateDesc(s: seq<EntryMeta>): (r: seq<EntryMeta>)
    ensures SortedDesc(r)
    ensures multiset(r) == multiset(s)
  {
    if |s| == 0 then []
    else
      assert s == [s[0]] + s[1..];
      Insert(s[0], SortByDateDesc(s[1..]))
  }

  /** `quotesMeta`: the quotes, in table order. */
  function QuotesMeta(meta: seq<EntryMeta>): (r: seq<EntryMeta>)
    ensures forall k | 0 <= k < |r| :: r[k].kind == Quote
    ensures forall m | m in meta :: m in r <==> m.kind == Quote
  {
    OfKind(meta, Quote)
  }

  /**
   * `journalsMeta`: the journals, newest first; a rearrangement of exactly
   * the journal entries of the table.
   */
  function JournalsMeta(meta: seq<EntryMeta>): (r: seq<EntryMeta>)
    ensures SortedDesc(r)
    ensures multiset(r) == multiset(OfKind(meta, Journal))
    ensures forall k | 0 <= k < |r| :: r[k].kind == Journal
    ensures forall m | m in meta :: m in r <==> m.kind == Journal
  {
    var js := OfKind(meta, Journal);
    var r := SortByDateDesc(js);
    forall k | 0 <= k < |r| ensures r[k].kind == Journal {
      assert r[k] in multiset(js);
    }
    forall m | m in meta ensures m in r <==> m.kind == Journal {
      assert m in r <==> m in multiset(js);
    }
    r
  }

  /** Journals without a date come after every dated journal. */
  lemma EmptyDatesLast(meta: seq<EntryMeta>, i: nat, j: nat)
    requires i < j < |JournalsMeta(meta)|
    requires JournalsMeta(meta)[i].date == ""
    ensures JournalsMeta(meta)[j].date == ""
  {
    EmptyIsLeast(JournalsMeta(meta)[j].date);
  }
}
