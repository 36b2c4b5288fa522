/**
 * The pager over a list of `total` entries of which `loaded` have their text:
 * a raw index moved by ±1, normalised into `[0, total)` with wrap-around,
 * persisted in normalised form, and a prefetch that asks for five more
 * entries when the reader is within one entry of the loaded end.
 */
module Pager {
  import opened Wrappers
  import opened JsValues

  /** JavaScript `Math.trunc(a / b)` for `b > 0`: division rounding toward zero. */
  function JsQuot(a: int, b: int): int
    requires b > 0
  {
    if a >= 0 then a / b else -((-a) / b)
  }

  /**
   * JavaScript `a % b` for `b > 0`: the remainder of the division that rounds
   * toward zero, so it takes the sign of `a`.
   */
  function JsRem(a: int, b: int): (r: int)
    requires b > 0
    ensures a == JsQuot(a, b) * b + r
    ensures a >= 0 ==> 0 <= r < b
    ensures a < 0 ==> -b < r <= 0
  {
    if a >= 0 then a % b else -((-a) % b)
  }

  /** A product of a positive number and a non-zero integer is at least that number in size. */
  lemma MulSign(k: int, b: int)
    requires b > 0
    ensures k >= 1 ==> k * b >= b
    ensures k <= -1 ==> k * b <= -b
  {
  }

  /** Quotient and remainder are unique: any `a == q * b + r` with `0 <= r < b` gives Dafny's `/` and `%`. */
  lemma RemUnique(a: int, b: int, q: int, r: int)
    requires b > 0 && a == q * b + r && 0 <= r < b
    ensures a % b == r && a / b == q
  {
    var q0 := a / b;
    var r0 := a % b;
    assert a == q0 * b + r0;
    assert (q - q0) * b == r0 - r;
    MulSign(q - q0, b);
  }

  /**
   * `safeIdx`: 0 for an empty list; otherwise `((idx % total) + total) % total`
   * with JavaScript's `%`, which is the mathematical (Euclidean) remainder of
   * `idx`, negative `idx` included: an index into the list.
   */
  function SafeIdx(idx: int, total: int): (r: int)
    ensures total <= 0 ==> r == 0
    ensures total > 0 ==> 0 <= r < total && r == idx % total
  {
    if total <= 0 then 0
    else
      var t := JsRem(idx, total);
      var r := JsRem(t + total, total);
      var q := JsQuot(idx, total) + JsQuot(t + total, total) - 1;
      assert idx == q * total + r;
      RemUnique(idx, total, q, r);
      r
  }

  /** Examples: with three entries, index -1 shows the last entry and index 4 the second. */
  lemma SafeIdxExamples()
    ensures SafeIdx(-1, 3) == 2
    ensures SafeIdx(4, 3) == 1
    ensures SafeIdx(3, 3) == 0
    ensures SafeIdx(7, 0) == 0
  {
  }

  /** `next`: one step forward on the raw index, nothing for an empty list. */
  function Next(idx: int, total: int): (r: int)
    ensures total == 0 ==> r == idx
    ensures total != 0 ==> r == idx + 1
  {
    if total == 0 then idx else idx + 1
  }

  /** `prev`: one step back on the raw index, nothing for an empty list. */
  function Prev(idx: int, total: int): (r: int)
    ensures total == 0 ==> r == idx
    ensures total != 0 ==> r == idx - 1
  {
    if total == 0 then idx else idx - 1
  }

  /** A step back undoes a step forward. */
  lemma PrevUndoesNext(idx: int, total: int)
    ensures Prev(Next(idx, total), total) == idx
    ensures Next(Prev(idx, total), total) == idx
  {
  }

  /** Forward from the last entry shows the first; otherwise the next one. */
  lemma NextWraps(idx: int, total: int)
    requires total > 0
    ensures SafeIdx(Next(idx, total), total) ==
      if SafeIdx(idx, total) == total - 1 then 0 else SafeIdx(idx, total) + 1
  {
    var q := idx / total;
    var e := idx % total;
    assert idx == q * total + e;
    if e == total - 1 {
      RemUnique(idx + 1, total, q + 1, 0);
    } else {
      RemUnique(idx + 1, total, q, e + 1);
    }
  }

  /** Back from the first entry shows the last; otherwise the previous one. */
  lemma PrevWraps(idx: int, total: int)
    requires total > 0
    ensures SafeIdx(Prev(idx, total), total) ==
      if SafeIdx(idx, total) == 0 then total - 1 else SafeIdx(idx, total) - 1
  {
    var q := idx / total;
    var e := idx % total;
    assert idx == q * total + e;
    if e == 0 {
      RemUnique(idx - 1, total, q - 1, total - 1);
    } else {
      RemUnique(idx - 1, total, q, e - 1);
    }
  }

  /** `canShow`: the entry under the index has been loaded. */
  predicate CanShow(safeIdx: int, loaded: int) {
    safeIdx < loaded
  }

  /**
   * An entry that cannot be shown always has a prefetch on its way: for an
   * index inside a non-empty list with at most `total` entries loaded, the
   * prefetch effect stays quiet only when the entry is showable.
   */
  lemma CanShowUnlessPrefetching(safeIdx: int, loaded: int, total: int)
    requires 0 <= safeIdx < total && loaded <= total
    ensures !CanShow(safeIdx, loaded) ==> Prefetch(safeIdx, loaded, total).Some?
    ensures Prefetch(safeIdx, loaded, total).None? ==> CanShow(safeIdx, loaded)
  {
  }

  /**
   * The prefetch effect: when the list is non-empty, the reader is within one
   * entry of the loaded end and more entries exist, ask for up to five more,
   * never past the end. The request is strictly above `loaded`.
   */
  function Prefetch(safeIdx: int, loaded: int, total: int): (r: Option<int>)
    ensures r.Some? <==> total != 0 && loaded - (safeIdx + 1) <= 1 && loaded < total
    ensures r.Some? ==> loaded < r.value <= total && r.value <= loaded + 5
    ensures r.Some? ==> r.value == total || r.value == loaded + 5
  {
    if total == 0 then None
    else
      var needMore := loaded - (safeIdx + 1) <= 1;
      var hasMore := loaded < total;
      if needMore && hasMore then Some(if loaded + 5 <= total then loaded + 5 else total) else None
  }

  /**
   * The count the prefetch settles on when each request is granted in full
   * (the entry list is as long as `total`) and the effect runs again after
   * each change: it is reached in finitely many rounds, it never exceeds
   * `total` (or the starting count), and the entry under the index can then
   * be shown.
   */
  function SettledLoaded(safeIdx: int, loaded: int, total: int): (r: int)
    requires 0 <= safeIdx < total
    ensures loaded <= r
    ensures r <= total || r == loaded
    ensures CanShow(safeIdx, r)
    ensures Prefetch(safeIdx, r, total).None?
    decreases total - loaded
  {
    match Prefetch(safeIdx, loaded, total)
    case None => loaded
    case Some(want) => SettledLoaded(safeIdx, want, total)
  }

  /** The first screen of a 12-entry list: nothing loaded yet, five entries are asked for. */
  lemma PrefetchExample()
    ensures Prefetch(0, 0, 12) == Some(5)
    ensures Prefetch(0, 5, 12).None?
    ensures Prefetch(3, 5, 12) == Some(10)
    ensures Prefetch(9, 10, 12) == Some(12)
    ensures Prefetch(11, 12, 12).None?
  {
  }

  /**
   * The value the persist effect writes: nothing without a (non-empty) key,
   * otherwise the normalised index, never the raw one.
   */
  function PersistedValue(persistKey: Option<string>, idx: int, total: int): (r: Option<int>)
    ensures (persistKey.None? || persistKey == Some("")) ==> r.None?
    ensures r.Some? ==> r.value == SafeIdx(idx, total)
    ensures r.Some? ==> 0 <= r.value && (total > 0 ==> r.value < total)
    ensures persistKey.Some? && persistKey.value != "" ==> r.Some?
  {
    match persistKey
    case Some(key) => if key != "" then Some(SafeIdx(idx, total)) else None
    case None => None
  }

  /** What the storage read gives: no item, a read that throws, or the stored text. */
  datatype StoredIdx = Absent | Unreadable | Text(raw: string)

  /** `String(n)` for an integer. */
  function IntString(n: int): string {
    if n >= 0 then DecimalString(n) else "-" + DecimalString(-n)
  }

  /** `loadIdx`: the stored number when it is present and finite; 0 otherwise, errors included. */
  function LoadIdx(stored: StoredIdx): (r: int)
    ensures stored.Absent? || stored.Unreadable? || stored == Text("") ==> r == 0
    ensures stored.Text? && NumberOf(stored.raw).Some? ==> r == NumberOf(stored.raw).value
    ensures stored.Text? && NumberOf(stored.raw).None? ==> r == 0
  {
    match stored
    case Text(raw) =>
      if raw == "" then 0
      else
        (match NumberOf(raw) case Some(n) => n case None => 0)
    case _ => 0
  }

  /** The initial raw index: the stored one when a key is given, otherwise 0. */
  function InitialIdx(persistKey: Option<string>, stored: StoredIdx): (r: int)
    ensures persistKey.None? || persistKey == Some("") ==> r == 0
    ensures persistKey.Some? && persistKey.value != "" ==> r == LoadIdx(stored)
  {
    if persistKey.Some? && persistKey.value != "" then LoadIdx(stored) else 0
  }

  lemma {:induction false} DecimalDigits(n: nat)
    ensures AllDigits(DecimalString(n))
    ensures DigitsValue(DecimalString(n)) == n
    decreases n
  {
    var s := DecimalString(n);
    var digit := [('0' as int + n % 10) as char];
    if n < 10 {
      assert s == digit;
      assert s[..0] == [];
    } else {
      DecimalDigits(n / 10);
      assert s == DecimalString(n / 10) + digit;
      assert s[..|s| - 1] == DecimalString(n / 10);
    }
  }

  /** Saving the normalised index and loading it back gives the same index. */
  lemma PersistRoundTrip(idx: int, total: int)
    ensures LoadIdx(Text(IntString(SafeIdx(idx, total)))) == SafeIdx(idx, total)
  {
    var n := SafeIdx(idx, total);
    DecimalDigits(n);
    assert IntString(n) == DecimalString(n);
  }

  /** Every integer index survives the trip through its decimal text. */
  lemma IntStringRoundTrip(n: int)
    ensures LoadIdx(Text(IntString(n))) == n
  {
    if n >= 0 {
      DecimalDigits(n);
    } else {
      DecimalDigits(-n);
      var s := IntString(n);
      assert s[1..] == DecimalString(-n);
      assert s[0] == '-';
    }
  }
}
