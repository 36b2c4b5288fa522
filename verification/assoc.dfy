/**
 * Maps built from ordered key/value pairs by assigning each pair in turn, so
 * the last pair for a key wins: the content merge of the entry cache and the
 * object a stored JSON text parses to.
 */
module Assoc {

  /** The keys of a list of key/value pairs, in order. */
  function KeysOf<V>(pairs: seq<(string, V)>): (keys: seq<string>)
    ensures |keys| == |pairs|
    ensures forall k | 0 <= k < |pairs| :: keys[k] == pairs[k].0
  {
    seq(|pairs|, k requires 0 <= k < |pairs| => pairs[k].0)
  }

  /** The keys of a concatenation are the keys of the parts, in order. */
  lemma KeysOfAppend<V>(a: seq<(string, V)>, b: seq<(string, V)>)
    ensures KeysOf(a + b) == KeysOf(a) + KeysOf(b)
    ensures forall key :: key in KeysOf(a + b) <==> key in KeysOf(a) || key in KeysOf(b)
  {
    assert KeysOf(a + b) == KeysOf(a) + KeysOf(b);
  }

  /** No later pair has the same key as pair `k`. */
  predicate LastFor<V>(pairs: seq<(string, V)>, k: nat)
    requires k < |pairs|
  {
    forall j | k < j < |pairs| :: pairs[j].0 != pairs[k].0
  }

  /**
   * Assigning `m[key] = value` for each pair in order: keys only get added,
   * a key with no pair keeps its value, and a key gets the value of its last
   * pair.
   */
  function Merge<V>(m: map<string, V>, pairs: seq<(string, V)>): (r: map<string, V>)
    ensures forall key :: key in r <==> key in m || key in KeysOf(pairs)
    ensures forall key | key in m && key !in KeysOf(pairs) :: r[key] == m[key]
    ensures forall k | 0 <= k < |pairs| :: pairs[k].0 in r
    ensures forall k | 0 <= k < |pairs| && LastFor(pairs, k) :: r[pairs[k].0] == pairs[k].1
    decreases |pairs|
  {
    if |pairs| == 0 then m
    else
      var rest := pairs[1..];
      assert forall j | 0 <= j < |rest| :: rest[j] == pairs[j + 1];
      assert KeysOf(pairs) == [pairs[0].0] + KeysOf(rest);
      var r := Merge(m[pairs[0].0 := pairs[0].1], rest);
      forall k | 0 <= k < |pairs| && LastFor(pairs, k)
        ensures r[pairs[k].0] == pairs[k].1
      {
        if k > 0 {
          assert LastFor(rest, k - 1);
        } else {
          assert pairs[0].0 !in KeysOf(rest);
        }
      }
      r
  }
}
