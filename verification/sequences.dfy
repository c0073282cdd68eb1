/**
 * The shape of `parse_ticket`'s loop, independent of what one line yields:
 * apply a partial step to every element in order and keep the results that
 * are present.
 */
module Sequences {
  import opened Wrappers

  /** The present results of `f` over `xs`, in the order of `xs`. */
  function FilterMap<T, U>(f: T -> Option<U>, xs: seq<T>): (ys: seq<U>)
    ensures |ys| <= |xs|
    ensures forall y :: y in ys ==> exists j :: 0 <= j < |xs| && f(xs[j]) == Some(y)
    decreases |xs|
  {
    if |xs| == 0 then []
    else
      var init := xs[..|xs| - 1];
      var kept := FilterMap(f, init);
      assert forall j :: 0 <= j < |init| ==> init[j] == xs[j];
      match f(xs[|xs| - 1])
      case Some(y) => kept + [y]
      case None => kept
  }

  /**
   * The loop itself: walk `xs` in order and append every present result of `f`.
   * It computes FilterMap.
   */
  method CollectResults<T, U>(f: T -> Option<U>, xs: seq<T>) returns (ys: seq<U>)
    ensures ys == FilterMap(f, xs)
  {
    ys := [];
    for i := 0 to |xs|
      invariant ys == FilterMap(f, xs[..i])
    {
      assert xs[..i + 1][..i] == xs[..i];
      var m := f(xs[i]);
      if m.Some? {
        ys := ys + [m.value];
      }
    }
    assert xs[..|xs|] == xs;
  }

  /** Filtering a concatenation filters each part. */
  lemma {:induction false} FilterMapAppend<T, U>(f: T -> Option<U>, xs: seq<T>, ys: seq<T>)
    ensures FilterMap(f, xs + ys) == FilterMap(f, xs) + FilterMap(f, ys)
    decreases |ys|
  {
    if |ys| == 0 {
      assert xs + ys == xs;
    } else {
      var ys' := ys[..|ys| - 1];
      assert (xs + ys)[..|xs + ys| - 1] == xs + ys';
      assert (xs + ys)[|xs + ys| - 1] == ys[|ys| - 1];
      FilterMapAppend(f, xs, ys');
    }
  }

  /** The positions of `xs` where `f` yields a result, in increasing order. */
  function KeptIndices<T, U>(f: T -> Option<U>, xs: seq<T>): (idx: seq<nat>)
    ensures forall i :: 0 <= i < |idx| ==> idx[i] < |xs|
    decreases |xs|
  {
    if |xs| == 0 then []
    else
      var n := |xs| - 1;
      KeptIndices(f, xs[..n]) + (if f(xs[n]).Some? then [n] else [])
  }

  /** The i-th result comes from the i-th kept position. */
  lemma {:induction false} KeptIndicesMatch<T, U>(f: T -> Option<U>, xs: seq<T>)
    ensures |KeptIndices(f, xs)| == |FilterMap(f, xs)|
    ensures forall i :: 0 <= i < |KeptIndices(f, xs)| ==>
      f(xs[KeptIndices(f, xs)[i]]) == Some(FilterMap(f, xs)[i])
    decreases |xs|
  {
    if |xs| > 0 {
      var n := |xs| - 1;
      var init := xs[..n];
      KeptIndicesMatch(f, init);
      var idx0, ys0 := KeptIndices(f, init), FilterMap(f, init);
      var idx, ys := KeptIndices(f, xs), FilterMap(f, xs);
      forall i | 0 <= i < |idx0|
        ensures idx[i] == idx0[i] && ys[i] == ys0[i] && xs[idx0[i]] == init[idx0[i]]
      {
      }
    }
  }

  /** Kept positions increase, and a position is kept exactly when `f` yields there. */
  lemma {:induction false} KeptIndicesExact<T, U>(f: T -> Option<U>, xs: seq<T>)
    ensures forall i, j :: 0 <= i < j < |KeptIndices(f, xs)| ==> KeptIndices(f, xs)[i] < KeptIndices(f, xs)[j]
    ensures forall j :: 0 <= j < |xs| ==> (f(xs[j]).Some? <==> j in KeptIndices(f, xs))
    decreases |xs|
  {
    if |xs| > 0 {
      var n := |xs| - 1;
      var init := xs[..n];
      KeptIndicesExact(f, init);
      var idx0 := KeptIndices(f, init);
      var idx := KeptIndices(f, xs);
      forall j | 0 <= j < |xs|
        ensures f(xs[j]).Some? <==> j in idx
      {
        if j < n {
          assert xs[j] == init[j];
          assert j in idx <==> j in idx0;
        } else {
          assert n !in idx0;
        }
      }
    }
  }

  /**
   * FilterMap lists, in increasing position order, exactly the results of the
   * positions where `f` yields one: one result per such position and none from
   * any other.
   */
  lemma {:induction false} FilterMapInOrder<T, U>(f: T -> Option<U>, xs: seq<T>)
    ensures var idx, ys := KeptIndices(f, xs), FilterMap(f, xs);
      && |idx| == |ys|
      && (forall i :: 0 <= i < |idx| ==> f(xs[idx[i]]) == Some(ys[i]))
      && (forall i, j :: 0 <= i < j < |idx| ==> idx[i] < idx[j])
      && (forall j :: 0 <= j < |xs| ==> (f(xs[j]).Some? <==> j in idx))
  {
    KeptIndicesMatch(f, xs);
    KeptIndicesExact(f, xs);
  }

  /** The result is empty exactly when `f` yields nothing anywhere. */
  lemma {:induction false} FilterMapEmpty<T, U>(f: T -> Option<U>, xs: seq<T>)
    ensures FilterMap(f, xs) == [] <==> forall j :: 0 <= j < |xs| ==> f(xs[j]).None?
  {
    KeptIndicesMatch(f, xs);
    KeptIndicesExact(f, xs);
    var idx := KeptIndices(f, xs);
    if FilterMap(f, xs) == [] {
      assert idx == [];
    } else {
      var j := idx[0];
      assert j < |xs| && f(xs[j]).Some?;
    }
  }

}
