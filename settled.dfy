/**
 * The outcome-partitioning helper `allSettledPartitioned` (api/src/utils/promise.ts and its
 * copy src/utils/promise.ts): after every task has settled, the values of the fulfilled ones
 * and the reasons of the rejected ones, each list in the original task order.
 */
module Settled {
  /** How one task settled. */
  datatype Settled<+T, +R> = Fulfilled(value: T) | Rejected(reason: R)

  /** The values of the fulfilled outcomes, in order. */
  function FulfilledValues<T(!new), R>(rs: seq<Settled<T, R>>): (r: seq<T>)
    ensures |r| <= |rs|
    ensures forall v :: v in r <==> Fulfilled(v) in rs
  {
    if rs == [] then []
    else (if rs[0].Fulfilled? then [rs[0].value] else []) + FulfilledValues(rs[1..])
  }

  /** The reasons of the rejected outcomes, in order. */
  function RejectedReasons<T, R(!new)>(rs: seq<Settled<T, R>>): (r: seq<R>)
    ensures |r| <= |rs|
    ensures forall e :: e in r <==> Rejected(e) in rs
  {
    if rs == [] then []
    else (if rs[0].Rejected? then [rs[0].reason] else []) + RejectedReasons(rs[1..])
  }

  /** The pair `[fulfilled, rejected]` the helper resolves to. */
  function AllSettledPartitioned<T(!new), R(!new)>(rs: seq<Settled<T, R>>): (seq<T>, seq<R>) {
    (FulfilledValues(rs), RejectedReasons(rs))
  }

  /** Every outcome lands in exactly one of the two lists. */
  lemma {:induction false} PartitionCounts<T(!new), R(!new)>(rs: seq<Settled<T, R>>)
    ensures |AllSettledPartitioned(rs).0| + |AllSettledPartitioned(rs).1| == |rs|
  {
    if rs != [] {
      PartitionCounts(rs[1..]);
    }
  }

  /**
   * Partitioning commutes with concatenation: the relative order of the tasks is kept in
   * both lists.
   */
  lemma {:induction false} PartitionAppend<T(!new), R(!new)>(a: seq<Settled<T, R>>, b: seq<Settled<T, R>>)
    ensures AllSettledPartitioned(a + b).0 == AllSettledPartitioned(a).0 + AllSettledPartitioned(b).0
    ensures AllSettledPartitioned(a + b).1 == AllSettledPartitioned(a).1 + AllSettledPartitioned(b).1
  {
    if a == [] {
      assert a + b == b;
    } else {
      assert (a + b)[0] == a[0];
      assert (a + b)[1..] == a[1..] + b;
      PartitionAppend(a[1..], b);
    }
  }

  /** When nothing was rejected, the fulfilled list is every value, position by position. */
  lemma {:induction false} NoRejections<T(!new), R(!new)>(rs: seq<Settled<T, R>>)
    requires forall i :: 0 <= i < |rs| ==> rs[i].Fulfilled?
    ensures AllSettledPartitioned(rs).1 == []
    ensures |AllSettledPartitioned(rs).0| == |rs|
    ensures forall i :: 0 <= i < |rs| ==> AllSettledPartitioned(rs).0[i] == rs[i].value
  {
    if rs != [] {
      NoRejections(rs[1..]);
      var tail := FulfilledValues(rs[1..]);
      assert FulfilledValues(rs) == [rs[0].value] + tail;
      forall i | 0 <= i < |rs|
        ensures FulfilledValues(rs)[i] == rs[i].value
      {
        if i > 0 {
          assert rs[1..][i - 1] == rs[i];
        }
      }
    }
  }
}
