/** Helper datatypes and sequence operations shared by every module of the model. */
module Wrappers {

  /** A value that may be absent; `None` plays the role of JavaScript's `undefined` or `null`. */
  datatype Option<+T> = None | Some(value: T) {

    /** The wrapped value, or `default` when absent. */
    function GetOr(default: T): T {
      match this
      case Some(v) => v
      case None => default
    }

    /** JavaScript `a ?? b` for operands that are never `null`: keep this value when present. */
    function OrElse(other: Option<T>): Option<T> {
      match this
      case Some(_) => this
      case None => other
    }
  }

  /** The outcome of an operation that either produces a value or fails with an error. */
  datatype Result<+T, +E> = Success(value: T) | Failure(error: E)

  /**
   * The outcome of mapping a throwing operation over a sequence: all values,
   * in order, when every element succeeds; otherwise the error of the first
   * element that fails, since the map stops there.
   */
  function Collect<T(==), E(==)>(rs: seq<Result<T, E>>): (r: Result<seq<T>, E>)
    ensures r.Success? <==> forall k | 0 <= k < |rs| :: rs[k].Success?
    ensures r.Success? ==> |r.value| == |rs| && forall k | 0 <= k < |rs| :: rs[k] == Success(r.value[k])
    ensures r.Failure? ==> exists k | 0 <= k < |rs| ::
      rs[k] == Failure(r.error) && forall j | 0 <= j < k :: rs[j].Success?
  {
    if |rs| == 0 then Success([])
    else
      var tail := rs[1..];
      assert forall k | 1 <= k < |rs| :: rs[k] == tail[k - 1];
      if rs[0].Failure? then Failure(rs[0].error)
      else
        var rest := Collect(tail);
        if rest.Failure? then
          var k :| 0 <= k < |tail| && tail[k] == Failure(rest.error) && forall j | 0 <= j < k :: tail[j].Success?;
          assert rs[k + 1] == Failure(rest.error);
          Failure(rest.error)
        else Success([rs[0].value] + rest.value)
  }

  /** `s.map(f)`: `f` applied to every element, in order. */
  function MapSeq<A, B>(f: A -> B, s: seq<A>): (r: seq<B>)
    ensures |r| == |s|
    ensures forall k | 0 <= k < |s| :: r[k] == f(s[k])
  {
    seq(|s|, k requires 0 <= k < |s| => f(s[k]))
  }

  /** Mapping a concatenation maps each part. */
  lemma MapSeqAppend<A, B>(f: A -> B, a: seq<A>, b: seq<A>)
    ensures MapSeq(f, a + b) == MapSeq(f, a) + MapSeq(f, b)
  {
    var l := MapSeq(f, a + b);
    var r := MapSeq(f, a) + MapSeq(f, b);
    forall i | 0 <= i < |l| ensures l[i] == r[i] {
      if i < |a| { assert (a + b)[i] == a[i]; } else { assert (a + b)[i] == b[i - |a|]; }
    }
  }

  /** The present values of `s`, in order. */
  function Somes<T(==)>(s: seq<Option<T>>): (r: seq<T>)
    ensures |r| <= |s|
    ensures forall k | 0 <= k < |r| :: Some(r[k]) in s
  {
    if |s| == 0 then []
    else (if s[0].Some? then [s[0].value] else []) + Somes(s[1..])
  }

  /** Dropping absent values works element by element, so order is kept. */
  lemma {:induction false} SomesAppend<T>(a: seq<Option<T>>, b: seq<Option<T>>)
    ensures Somes(a + b) == Somes(a) + Somes(b)
  {
    if |a| == 0 {
      assert a + b == b;
    } else {
      assert (a + b)[1..] == a[1..] + b;
      SomesAppend(a[1..], b);
    }
  }
}
