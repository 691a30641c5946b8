/**
 * Index maps for order-preserving filters. A filter of `xs` is described by a
 * strictly increasing sequence of positions in `xs`, one per kept element;
 * the helpers below build that sequence one step of the recursion at a time.
 */
module FilterOrder {

  /** One step of a filter's index map: the first position when kept, then `rest` moved one place on. */
  function PrependIndex(keep: bool, rest: seq<nat>): (idx: seq<nat>)
    ensures |idx| == (if keep then 1 else 0) + |rest|
    ensures keep ==> idx[0] == 0
    ensures 0 in idx <==> keep
    ensures forall k :: (if keep then 1 else 0) <= k < |idx| ==> idx[k] == rest[k - (if keep then 1 else 0)] + 1
  {
    (if keep then [0] else []) + seq(|rest|, k requires 0 <= k < |rest| => rest[k] + 1)
  }

  /** If `rest` places `tail` in `xs[1..]` in order, `PrependIndex` places the first element (when kept) and `tail` in `xs`. */
  lemma PrependPlaces<T>(xs: seq<T>, keep: bool, tail: seq<T>, rest: seq<nat>)
    requires xs != [] && |rest| == |tail|
    requires forall k :: 0 <= k < |rest| ==> rest[k] < |xs| - 1 && tail[k] == xs[1..][rest[k]]
    requires forall k, l :: 0 <= k < l < |rest| ==> rest[k] < rest[l]
    ensures var idx := PrependIndex(keep, rest);
            var r := (if keep then [xs[0]] else []) + tail;
            && |idx| == |r|
            && (forall k :: 0 <= k < |idx| ==> idx[k] < |xs| && r[k] == xs[idx[k]])
            && (forall k, l :: 0 <= k < l < |idx| ==> idx[k] < idx[l])
  {
    var idx := PrependIndex(keep, rest);
    var r := (if keep then [xs[0]] else []) + tail;
    var off := if keep then 1 else 0;
    forall k | off <= k < |idx| ensures idx[k] < |xs| && r[k] == xs[idx[k]] {
      var j := k - off;
      assert idx[k] == rest[j] + 1 && r[k] == tail[j];
      assert xs[1..][rest[j]] == xs[rest[j] + 1];
    }
  }

  /** Position `i > 0` is in `PrependIndex` exactly when `i - 1` is in `rest`. */
  lemma PrependMembership(keep: bool, rest: seq<nat>, i: nat)
    requires i >= 1
    ensures i in PrependIndex(keep, rest) <==> i - 1 in rest
  {
    var idx := PrependIndex(keep, rest);
    var off := if keep then 1 else 0;
    if i - 1 in rest {
      var k :| 0 <= k < |rest| && rest[k] == i - 1;
      assert idx[k + off] == i;
    }
  }
}
