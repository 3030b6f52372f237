/**
  The generic shape of the entry loop: keep some elements and transform them,
  `for x in xs: if keep(x): out.append(f(x))`.
*/
module Seqs {

  /** The kept elements of `xs`, transformed by `f`, in order. */
  function FilterMap<A, B>(xs: seq<A>, keep: A -> bool, f: A -> B): (ys: seq<B>)
    ensures |ys| <= |xs|
  {
    if |xs| == 0 then []
    else if keep(xs[0]) then [f(xs[0])] + FilterMap(xs[1..], keep, f)
    else FilterMap(xs[1..], keep, f)
  }

  /** `idx` lists, strictly increasing, exactly the positions of `xs` whose
      element is kept, and `ys` is those elements transformed. */
  ghost predicate Selects<A, B>(ys: seq<B>, xs: seq<A>, keep: A -> bool, f: A -> B, idx: seq<nat>) {
    && |idx| == |ys|
    && (forall k :: 0 <= k < |idx| ==> idx[k] < |xs| && ys[k] == f(xs[idx[k]]))
    && (forall k, l :: 0 <= k < l < |idx| ==> idx[k] < idx[l])
    && (forall i :: 0 <= i < |xs| ==> (keep(xs[i]) <==> i in idx))
  }

  /** FilterMap keeps every element it should, drops every other one, and
      does not reorder. */
  lemma {:induction false} FilterMapSelects<A, B>(xs: seq<A>, keep: A -> bool, f: A -> B)
    returns (idx: seq<nat>)
    ensures Selects(FilterMap(xs, keep, f), xs, keep, f, idx)
  {
    if |xs| == 0 {
      idx := [];
    } else {
      var tail := FilterMapSelects(xs[1..], keep, f);
      var ys := FilterMap(xs[1..], keep, f);
      var shifted := ShiftSelection(ys, xs, keep, f, tail);
      if keep(xs[0]) {
        idx := [0] + shifted;
        SelectionWithHead(ys, xs, keep, f, shifted);
        assert FilterMap(xs, keep, f) == [f(xs[0])] + ys;
      } else {
        idx := shifted;
        assert FilterMap(xs, keep, f) == ys;
      }
    }
  }

  /** Every position moved up by one. */
  function Shift(idx: seq<nat>): (r: seq<nat>)
    ensures |r| == |idx|
  {
    seq(|idx|, k requires 0 <= k < |idx| => idx[k] + 1)
  }

  /** The shifted positions are the original ones plus one. */
  lemma ShiftMembers(idx: seq<nat>, i: int)
    ensures i in Shift(idx) <==> i >= 1 && i - 1 in idx
  {
    var r := Shift(idx);
    if i in r {
      var k :| 0 <= k < |r| && r[k] == i;
      assert idx[k] == i - 1;
    }
    if i >= 1 && i - 1 in idx {
      var k :| 0 <= k < |idx| && idx[k] == i - 1;
      assert r[k] == i;
    }
  }

  /** A selection from `xs[1..]`, its positions moved up by one, selects the
      same elements from `xs` and never position 0. */
  lemma ShiftSelection<A, B>(ys: seq<B>, xs: seq<A>, keep: A -> bool, f: A -> B, tail: seq<nat>)
    returns (shifted: seq<nat>)
    requires |xs| > 0 && Selects(ys, xs[1..], keep, f, tail)
    ensures |shifted| == |ys|
    ensures forall k :: 0 <= k < |shifted| ==> 1 <= shifted[k] < |xs| && ys[k] == f(xs[shifted[k]])
    ensures forall k, l :: 0 <= k < l < |shifted| ==> shifted[k] < shifted[l]
    ensures forall i :: 1 <= i < |xs| ==> (keep(xs[i]) <==> i in shifted)
    ensures 0 !in shifted
  {
    shifted := Shift(tail);
    forall k | 0 <= k < |shifted|
      ensures 1 <= shifted[k] < |xs| && ys[k] == f(xs[shifted[k]])
    {
      assert xs[shifted[k]] == xs[1..][tail[k]];
    }
    forall i | 1 <= i < |xs|
      ensures keep(xs[i]) <==> i in shifted
    {
      assert xs[i] == xs[1..][i - 1];
      ShiftMembers(tail, i);
    }
    ShiftMembers(tail, 0);
  }

  /** Putting a kept head in front of a shifted selection selects from `xs`. */
  lemma SelectionWithHead<A, B>(ys: seq<B>, xs: seq<A>, keep: A -> bool, f: A -> B, shifted: seq<nat>)
    requires |xs| > 0 && keep(xs[0])
    requires |shifted| == |ys|
    requires forall k :: 0 <= k < |shifted| ==> 1 <= shifted[k] < |xs| && ys[k] == f(xs[shifted[k]])
    requires forall k, l :: 0 <= k < l < |shifted| ==> shifted[k] < shifted[l]
    requires forall i :: 1 <= i < |xs| ==> (keep(xs[i]) <==> i in shifted)
    ensures Selects([f(xs[0])] + ys, xs, keep, f, [0] + shifted)
  {
    var idx, zs := [0] + shifted, [f(xs[0])] + ys;
    forall k | 0 <= k < |idx|
      ensures idx[k] < |xs| && zs[k] == f(xs[idx[k]])
    {
      if k > 0 {
        assert idx[k] == shifted[k - 1] && zs[k] == ys[k - 1];
      }
    }
    forall k, l | 0 <= k < l < |idx|
      ensures idx[k] < idx[l]
    {
      assert idx[l] == shifted[l - 1];
      if k > 0 {
        assert idx[k] == shifted[k - 1];
      }
    }
    forall i | 0 <= i < |xs|
      ensures keep(xs[i]) <==> i in idx
    {
      assert i in idx <==> i == 0 || i in shifted;
    }
  }

  /** Every element FilterMap returns is `f` of a kept element of `xs`. */
  lemma FilterMapFrom<A, B>(xs: seq<A>, keep: A -> bool, f: A -> B, k: nat)
    requires k < |FilterMap(xs, keep, f)|
    ensures exists i :: 0 <= i < |xs| && keep(xs[i]) && FilterMap(xs, keep, f)[k] == f(xs[i])
  {
    var idx := FilterMapSelects(xs, keep, f);
    assert idx[k] in idx;
  }
}
