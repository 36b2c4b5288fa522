/**
 * The JavaScript string operations the normalisation layer relies on:
 * `String.prototype.trim`, `replace(/-/g, "")`, ASCII `toLowerCase`,
 * `Array.prototype.join` and the newline collapse `replace(/\n{3,}/g, "\n\n")`.
 */
module JsText {

  /** ECMAScript WhiteSpace and LineTerminator code points, the characters `trim` removes. */
  predicate IsSpace(c: char) {
    var n := c as int;
    n == 0x09 || n == 0x0A || n == 0x0B || n == 0x0C || n == 0x0D || n == 0x20
    || n == 0xA0 || n == 0x1680 || (0x2000 <= n <= 0x200A) || n == 0x2028 || n == 0x2029
    || n == 0x202F || n == 0x205F || n == 0x3000 || n == 0xFEFF
  }

  /** Neither end of `s` is a whitespace character. */
  predicate Trimmed(s: string) {
    |s| == 0 || (!IsSpace(s[0]) && !IsSpace(s[|s| - 1]))
  }

  function TrimStart(s: string): (r: string)
    ensures |r| <= |s| && r == s[|s| - |r|..]
    ensures forall k | 0 <= k < |s| - |r| :: IsSpace(s[k])
    ensures r == [] || !IsSpace(r[0])
  {
    if |s| > 0 && IsSpace(s[0]) then TrimStart(s[1..]) else s
  }

  function TrimEnd(s: string): (r: string)
    ensures |r| <= |s| && r == s[..|r|]
    ensures forall k | |r| <= k < |s| :: IsSpace(s[k])
    ensures r == [] || !IsSpace(r[|r| - 1])
  {
    if |s| > 0 && IsSpace(s[|s| - 1]) then TrimEnd(s[..|s| - 1]) else s
  }

  /** `r` is a slice of `s` and everything of `s` outside that slice is whitespace. */
  ghost predicate StripsSpaceOf(r: string, s: string) {
    exists i, j | 0 <= i <= j <= |s| ::
      && r == s[i..j]
      && (forall k | 0 <= k < i :: IsSpace(s[k]))
      && (forall k | j <= k < |s| :: IsSpace(s[k]))
  }

  /**
   * `s.trim()`: the slice of `s` left after removing whitespace from both ends.
   * Everything cut off is whitespace and the slice itself has no whitespace at either end.
   */
  function Trim(s: string): (r: string)
    ensures Trimmed(r)
    ensures StripsSpaceOf(r, s)
  {
    TrimSlice(s);
    TrimEnd(TrimStart(s))
  }

  lemma TrimSlice(s: string)
    ensures StripsSpaceOf(TrimEnd(TrimStart(s)), s)
  {
    var a := TrimStart(s);
    var r := TrimEnd(a);
    var i := |s| - |a|;
    var j := i + |r|;
    SliceOfSuffix(s, i, |r|);
    forall k | j <= k < |s|
      ensures IsSpace(s[k])
    {
      assert s[k] == a[k - i];
    }
    StripsSpaceAt(r, s, i, j);
  }

  /** The witnesses `i` and `j` show that `r` is `s` stripped of whitespace. */
  lemma StripsSpaceAt(r: string, s: string, i: nat, j: nat)
    requires i <= j <= |s| && r == s[i..j]
    requires forall k | 0 <= k < i :: IsSpace(s[k])
    requires forall k | j <= k < |s| :: IsSpace(s[k])
    ensures StripsSpaceOf(r, s)
  {
  }

  /** A prefix of a suffix is a slice. */
  lemma SliceOfSuffix<T>(s: seq<T>, i: nat, n: nat)
    requires i + n <= |s|
    ensures s[i..][..n] == s[i..i + n]
  {
  }

  /** Trimming a string that already has no whitespace at its ends changes nothing. */
  lemma TrimTrimmed(s: string)
    requires Trimmed(s)
    ensures Trim(s) == s
  {
  }

  /** `trim` is idempotent. */
  lemma TrimIdempotent(s: string)
    ensures Trim(Trim(s)) == Trim(s)
  {
    TrimTrimmed(Trim(s));
  }

  /** Trimming removes exactly the whitespace padding around a non-empty trimmed core. */
  lemma TrimPadded(pre: string, mid: string, post: string)
    requires mid != "" && Trimmed(mid)
    requires forall k | 0 <= k < |pre| :: IsSpace(pre[k])
    requires forall k | 0 <= k < |post| :: IsSpace(post[k])
    ensures Trim(pre + mid + post) == mid
  {
    var s := pre + mid + post;
    assert s == pre + (mid + post);
    TrimStartPadded(pre, mid + post);
    assert TrimStart(s) == mid + post;
    TrimEndPadded(mid, post);
    assert TrimEnd(TrimStart(s)) == mid;
  }

  lemma {:induction false} TrimStartPadded(pre: string, rest: string)
    requires rest != [] && !IsSpace(rest[0])
    requires forall k | 0 <= k < |pre| :: IsSpace(pre[k])
    ensures TrimStart(pre + rest) == rest
  {
    if |pre| == 0 {
      assert pre + rest == rest;
    } else {
      assert (pre + rest)[1..] == pre[1..] + rest;
      TrimStartPadded(pre[1..], rest);
    }
  }

  lemma {:induction false} TrimEndPadded(front: string, post: string)
    requires front != [] && !IsSpace(front[|front| - 1])
    requires forall k | 0 <= k < |post| :: IsSpace(post[k])
    ensures TrimEnd(front + post) == front
  {
    if |post| == 0 {
      assert front + post == front;
    } else {
      var s := front + post;
      assert s[..|s| - 1] == front + post[..|post| - 1];
      TrimEndPadded(front, post[..|post| - 1]);
    }
  }

  /** `s.replace(/-/g, "")`: `s` with every `-` removed and every other character kept in order. */
  function RemoveDashes(s: string): (r: string)
    ensures |r| <= |s|
    ensures '-' !in r
    ensures forall c | c in r :: c in s
    ensures '-' !in s ==> r == s
  {
    if |s| == 0 then ""
    else if s[0] == '-' then RemoveDashes(s[1..])
    else [s[0]] + RemoveDashes(s[1..])
  }

  /** Removing dashes distributes over concatenation. */
  lemma {:induction false} RemoveDashesConcat(a: string, b: string)
    ensures RemoveDashes(a + b) == RemoveDashes(a) + RemoveDashes(b)
    decreases |a|
  {
    if |a| == 0 {
      assert a + b == b;
    } else {
      assert (a + b)[1..] == a[1..] + b;
      RemoveDashesConcat(a[1..], b);
    }
  }

  /** ASCII part of `toLowerCase`. */
  function LowerChar(c: char): char {
    if 'A' <= c <= 'Z' then (c as int + 32) as char else c
  }

  /**
   * `s.toLowerCase()` restricted to ASCII: upper-case ASCII letters become
   * lower case and every other character is kept, so no ASCII capital is left.
   */
  function ToLower(s: string): (r: string)
    ensures |r| == |s|
    ensures forall k | 0 <= k < |s| :: r[k] == LowerChar(s[k])
    ensures forall k | 0 <= k < |r| :: !('A' <= r[k] <= 'Z')
    ensures forall k | 0 <= k < |s| && !('A' <= s[k] <= 'Z') :: r[k] == s[k]
  {
    seq(|s|, k requires 0 <= k < |s| => LowerChar(s[k]))
  }

  /** Lower-casing twice is lower-casing once, so names differing only in ASCII case share one index entry. */
  lemma ToLowerIdempotent(s: string)
    ensures ToLower(ToLower(s)) == ToLower(s)
  {
  }

  /** `parts.join(sep)`. */
  function Join(parts: seq<string>, sep: string): string {
    if |parts| == 0 then ""
    else if |parts| == 1 then parts[0]
    else parts[0] + sep + Join(parts[1..], sep)
  }

  /** The non-empty strings of `parts`, in order (the `if (text) lines.push(text)` filter). */
  function NonEmpty(parts: seq<string>): (r: seq<string>)
    ensures |r| <= |parts|
    ensures forall k | 0 <= k < |r| :: r[k] != "" && r[k] in parts
    ensures forall x | x in parts && x != "" :: x in r
  {
    if |parts| == 0 then []
    else
      var rest := NonEmpty(parts[1..]);
      assert forall x | x in parts[1..] :: x in parts;
      if parts[0] == "" then rest else [parts[0]] + rest
  }

  /** Filtering distributes over concatenation. */
  lemma {:induction false} NonEmptyAppend(a: seq<string>, b: seq<string>)
    ensures NonEmpty(a + b) == NonEmpty(a) + NonEmpty(b)
  {
    if |a| == 0 {
      assert a + b == b;
    } else {
      assert (a + b)[1..] == a[1..] + b;
      NonEmptyAppend(a[1..], b);
    }
  }

  /** A join starts with the first part's first character. */
  lemma JoinStartsWith(parts: seq<string>, sep: string)
    requires |parts| > 0 && parts[0] != ""
    ensures |Join(parts, sep)| > 0 && Join(parts, sep)[0] == parts[0][0]
  {
    if |parts| > 1 {
      assert Join(parts, sep) == parts[0] + (sep + Join(parts[1..], sep));
    }
  }

  /** A single part is kept exactly when it is non-empty. */
  lemma NonEmptySingle(part: string)
    ensures NonEmpty([part]) == if part == "" then [] else [part]
  {
    assert [part][1..] == [];
  }

  /** `parts.join("")`. */
  function Concat(parts: seq<string>): string {
    if |parts| == 0 then "" else parts[0] + Concat(parts[1..])
  }

  /** Concatenation of a split list is the concatenation of the two halves. */
  lemma {:induction false} ConcatAppend(a: seq<string>, b: seq<string>)
    ensures Concat(a + b) == Concat(a) + Concat(b)
  {
    if |a| == 0 {
      assert a + b == b;
    } else {
      assert (a + b)[1..] == a[1..] + b;
      ConcatAppend(a[1..], b);
    }
  }

  /** No three consecutive newlines anywhere in `s`. */
  predicate NoTripleNewline(s: string) {
    forall i | 0 <= i < |s| - 2 :: !(s[i] == '\n' && s[i + 1] == '\n' && s[i + 2] == '\n')
  }

  /** Every slice of a string without three consecutive newlines has none either. */
  lemma NoTripleNewlineSlice(s: string, i: nat, j: nat)
    requires i <= j <= |s|
    requires NoTripleNewline(s)
    ensures NoTripleNewline(s[i..j])
  {
    var t := s[i..j];
    forall k | 0 <= k < |t| - 2
      ensures !(t[k] == '\n' && t[k + 1] == '\n' && t[k + 2] == '\n')
    {
      assert t[k] == s[i + k] && t[k + 1] == s[i + k + 1] && t[k + 2] == s[i + k + 2];
    }
  }

  /** Length of the run of newlines at the start of `s`. */
  function NewlineRun(s: string): (n: nat)
    ensures n <= |s|
    ensures forall k | 0 <= k < n :: s[k] == '\n'
    ensures n < |s| ==> s[n] != '\n'
  {
    if |s| > 0 && s[0] == '\n' then 1 + NewlineRun(s[1..]) else 0
  }

  /**
   * `s.replace(/\n{3,}/g, "\n\n")`: every maximal run of three or more
   * newlines becomes exactly two. The result never holds three newlines in a
   * row, and a string that starts with another character still starts with it.
   */
  function CollapseNewlines(s: string): (r: string)
    ensures NoTripleNewline(r)
    ensures |r| <= |s|
    ensures |s| > 0 && s[0] != '\n' ==> |r| > 0 && r[0] == s[0]
    decreases |s|
  {
    if |s| == 0 then ""
    else if s[0] != '\n' then
      var rest := CollapseNewlines(s[1..]);
      var r := [s[0]] + rest;
      forall i | 1 <= i < |r| - 2
        ensures !(r[i] == '\n' && r[i + 1] == '\n' && r[i + 2] == '\n')
      {
        assert r[i] == rest[i - 1] && r[i + 1] == rest[i] && r[i + 2] == rest[i + 1];
      }
      r
    else
      var n := NewlineRun(s);
      var head := if n >= 3 then "\n\n" else s[..n];
      var rest := CollapseNewlines(s[n..]);
      var r := head + rest;
      assert |head| <= 2;
      assert rest == [] || rest[0] != '\n';
      forall i | 0 <= i < |r| - 2
        ensures !(r[i] == '\n' && r[i + 1] == '\n' && r[i + 2] == '\n')
      {
        if i >= |head| {
          assert r[i] == rest[i - |head|] && r[i + 1] == rest[i - |head| + 1] && r[i + 2] == rest[i - |head| + 2];
        } else {
          assert r[|head|] == rest[0];
        }
      }
      r
  }

  /**
   * The replacement works run by run: another character is kept and the rest
   * collapsed; a leading run of three or more newlines becomes exactly two
   * and a shorter run is kept as it is.
   */
  lemma CollapseSteps(s: string)
    ensures CollapseNewlines("") == ""
    ensures |s| > 0 && s[0] != '\n' ==> CollapseNewlines(s) == [s[0]] + CollapseNewlines(s[1..])
    ensures NewlineRun(s) >= 3 ==> CollapseNewlines(s) == "\n\n" + CollapseNewlines(s[NewlineRun(s)..])
    ensures 0 < NewlineRun(s) < 3 ==>
      CollapseNewlines(s) == s[..NewlineRun(s)] + CollapseNewlines(s[NewlineRun(s)..])
  {
  }

  /** The characters of `s` other than newlines, in order. */
  function DropNewlines(s: string): (r: string)
    ensures |r| <= |s|
    ensures forall k | 0 <= k < |r| :: r[k] != '\n'
  {
    if |s| == 0 then ""
    else (if s[0] == '\n' then "" else [s[0]]) + DropNewlines(s[1..])
  }

  /** Dropping newlines works character by character. */
  lemma {:induction false} DropNewlinesAppend(a: string, b: string)
    ensures DropNewlines(a + b) == DropNewlines(a) + DropNewlines(b)
  {
    if |a| == 0 {
      assert a + b == b;
    } else {
      assert (a + b)[1..] == a[1..] + b;
      assert (a + b)[0] == a[0];
      DropNewlinesAppend(a[1..], b);
    }
  }

  /** Putting the same non-newline character in front keeps two texts' characters equal. */
  lemma KeepsTextChar(c: char, r: string, t: string)
    requires c != '\n'
    requires DropNewlines(r) == DropNewlines(t)
    ensures DropNewlines([c] + r) == DropNewlines([c] + t)
  {
    DropNewlinesAppend([c], r);
    DropNewlinesAppend([c], t);
  }

  /** Dropping newlines from a text that starts with a run of them skips the run. */
  lemma {:induction false} DropNewlinesRun(s: string)
    ensures DropNewlines(s) == DropNewlines(s[NewlineRun(s)..])
    decreases |s|
  {
    if |s| > 0 && s[0] == '\n' {
      DropNewlinesRun(s[1..]);
      assert s[1..][NewlineRun(s[1..])..] == s[NewlineRun(s)..];
    }
  }

  /** One step of `CollapseKeepsText`: a leading character that is not a newline. */
  lemma CollapseKeepsTextChar(s: string)
    requires |s| > 0 && s[0] != '\n'
    requires DropNewlines(CollapseNewlines(s[1..])) == DropNewlines(s[1..])
    ensures DropNewlines(CollapseNewlines(s)) == DropNewlines(s)
  {
    CollapseSteps(s);
    KeepsTextChar(s[0], CollapseNewlines(s[1..]), s[1..]);
    assert [s[0]] + s[1..] == s;
  }

  /** One step of `CollapseKeepsText`: a leading run of `n` newlines. */
  lemma CollapseKeepsTextRun(s: string, n: nat)
    requires 0 < n == NewlineRun(s)
    requires DropNewlines(CollapseNewlines(s[n..])) == DropNewlines(s[n..])
    ensures DropNewlines(CollapseNewlines(s)) == DropNewlines(s)
  {
    var head := if n >= 3 then "\n\n" else s[..n];
    var rest := CollapseNewlines(s[n..]);
    assert CollapseNewlines(s) == head + rest by { CollapseSteps(s); }
    assert head == "\n" || head == "\n\n" by {
      if n == 1 { assert s[..n] == "\n"; } else if n == 2 { assert s[..n] == "\n\n"; }
    }
    assert DropNewlines(head + rest) == DropNewlines(rest) by { DropNewlinesAppend(head, rest); }
    DropNewlinesRun(s);
  }

  /** Collapsing only ever removes newlines: every other character is kept, in order. */
  lemma {:induction false} CollapseKeepsText(s: string)
    ensures DropNewlines(CollapseNewlines(s)) == DropNewlines(s)
    decreases |s|
  {
    if |s| == 0 {
      CollapseSteps(s);
    } else if s[0] != '\n' {
      CollapseKeepsText(s[1..]);
      CollapseKeepsTextChar(s);
    } else {
      var n := NewlineRun(s);
      CollapseKeepsText(s[n..]);
      CollapseKeepsTextRun(s, n);
    }
  }

  /** Collapsing changes nothing in a string that has no three consecutive newlines. */
  lemma {:induction false} CollapseNoTriple(s: string)
    requires NoTripleNewline(s)
    ensures CollapseNewlines(s) == s
    decreases |s|
  {
    if |s| == 0 {
    } else if s[0] != '\n' {
      NoTripleNewlineSlice(s, 1, |s|);
      CollapseNoTriple(s[1..]);
      assert [s[0]] + s[1..] == s;
    } else {
      var n := ShortRun(s);
      NoTripleNewlineSlice(s, n, |s|);
      CollapseNoTriple(s[n..]);
      assert s[..n] + s[n..] == s;
    }
  }

  /** A run of at most two newlines at the front is kept as it is. */
  lemma ShortRun(s: string) returns (n: nat)
    requires NoTripleNewline(s) && |s| > 0 && s[0] == '\n'
    ensures n == NewlineRun(s) && 0 < n < 3 && n <= |s|
    ensures CollapseNewlines(s) == s[..n] + CollapseNewlines(s[n..])
  {
    n := NewlineRun(s);
    assert |s| < 3 || !(s[0] == '\n' && s[1] == '\n' && s[2] == '\n');
  }

  /** Trimming keeps a string free of three consecutive newlines. */
  lemma TrimNoTriple(s: string)
    requires NoTripleNewline(s)
    ensures NoTripleNewline(Trim(s))
  {
    var i, j :| 0 <= i <= j <= |s| && Trim(s) == s[i..j];
    NoTripleNewlineSlice(s, i, j);
  }

  /**
   * Joining non-empty lines that have no surrounding whitespace and no newline
   * of their own gives a string whose only newlines are the single separators:
   * it has no three newlines in a row and no whitespace at either end.
   */
  lemma {:induction false} JoinPlainLines(lines: seq<string>)
    requires forall k | 0 <= k < |lines| :: lines[k] != "" && Trimmed(lines[k]) && '\n' !in lines[k]
    ensures NoTripleNewline(Join(lines, "\n"))
    ensures Trimmed(Join(lines, "\n"))
    ensures |lines| > 0 ==> Join(lines, "\n") != "" && Join(lines, "\n")[0] == lines[0][0]
  {
    if |lines| <= 1 {
    } else {
      var l0 := lines[0];
      var rest := Join(lines[1..], "\n");
      JoinPlainLines(lines[1..]);
      var j := Join(lines, "\n");
      assert j == l0 + "\n" + rest;
      assert rest[0] == lines[1][0];
      assert lines[1][0] in lines[1];
      forall i | 0 <= i < |j| - 2
        ensures !(j[i] == '\n' && j[i + 1] == '\n' && j[i + 2] == '\n')
      {
        if i < |l0| {
          assert j[i] == l0[i];
          assert l0[i] in l0;
        } else if i == |l0| {
          assert j[i + 1] == rest[0];
        } else {
          var k := i - |l0| - 1;
          assert j[i] == rest[k] && j[i + 1] == rest[k + 1] && j[i + 2] == rest[k + 2];
        }
      }
      assert j[|j| - 1] == rest[|rest| - 1];
    }
  }
}
