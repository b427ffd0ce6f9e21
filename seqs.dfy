/**
 * Searches and order-preserving selections over sequences, as the
 * routers' `for` loops compute them: the first element that passes a
 * test, and the elements that pass it, in their order.
 */
module Seqs {
  import opened Wrappers

  /** The position of the first element satisfying `p`. */
  function FirstWhere<T>(xs: seq<T>, p: T -> bool): (r: Option<nat>)
    ensures r.Some? ==> r.value < |xs| && p(xs[r.value])
    ensures r.Some? ==> forall j :: 0 <= j < r.value ==> !p(xs[j])
    ensures r.None? <==> forall j :: 0 <= j < |xs| ==> !p(xs[j])
  {
    if xs == [] then None
    else if p(xs[0]) then Some(0)
    else match FirstWhere(xs[1..], p)
      case None => None
      case Some(j) => Some(j + 1)
  }

  /** The first element satisfying `p` is the one `FirstWhere` finds. */
  lemma {:induction false} FirstWhereAt<T>(xs: seq<T>, p: T -> bool, j: nat)
    requires j < |xs| && p(xs[j]) && forall i :: 0 <= i < j ==> !p(xs[i])
    ensures FirstWhere(xs, p) == Some(j)
  {
    if j > 0 {
      FirstWhereAt(xs[1..], p, j - 1);
    }
  }

  /** A scan for the first element satisfying `p`, stopping there. */
  method FindFirst<T>(xs: seq<T>, p: T -> bool) returns (r: Option<nat>)
    ensures r == FirstWhere(xs, p)
  {
    var i := 0;
    while i < |xs|
      invariant 0 <= i <= |xs|
      invariant forall j :: 0 <= j < i ==> !p(xs[j])
    {
      if p(xs[i]) {
        FirstWhereAt(xs, p, i);
        return Some(i);
      }
      i := i + 1;
    }
    return None;
  }

  /** The elements of `xs` satisfying `p`, in order, as a loop appending them builds it. */
  function Filter<T>(xs: seq<T>, p: T -> bool): (ys: seq<T>)
    ensures |ys| <= |xs|
    ensures forall k :: 0 <= k < |ys| ==> p(ys[k])
    decreases |xs|
  {
    if xs == [] then []
    else
      var n := |xs| - 1;
      Filter(xs[..n], p) + (if p(xs[n]) then [xs[n]] else [])
  }

  /** The positions of the elements of `xs` satisfying `p`: all of them, in increasing order. */
  function Positions<T>(xs: seq<T>, p: T -> bool): (ps: seq<nat>)
    ensures forall k :: 0 <= k < |ps| ==> ps[k] < |xs| && p(xs[ps[k]])
    ensures forall k, l :: 0 <= k < l < |ps| ==> ps[k] < ps[l]
    ensures forall i :: 0 <= i < |xs| && p(xs[i]) ==> i in ps
    decreases |xs|
  {
    if xs == [] then []
    else
      var n := |xs| - 1;
      var ps := Positions(xs[..n], p);
      assert forall k :: 0 <= k < |ps| ==> xs[..n][ps[k]] == xs[ps[k]];
      assert forall i :: 0 <= i < n ==> xs[..n][i] == xs[i];
      ps + (if p(xs[n]) then [n] else [])
  }

  /** The filter keeps exactly the elements at those positions. */
  lemma {:induction false} FilterIsPositions<T>(xs: seq<T>, p: T -> bool)
    ensures |Filter(xs, p)| == |Positions(xs, p)|
    ensures forall k :: 0 <= k < |Positions(xs, p)| ==> Filter(xs, p)[k] == xs[Positions(xs, p)[k]]
    decreases |xs|
  {
    if xs != [] {
      var n := |xs| - 1;
      FilterIsPositions(xs[..n], p);
      var ps := Positions(xs[..n], p);
      assert forall k :: 0 <= k < |ps| ==> xs[..n][ps[k]] == xs[ps[k]];
    }
  }

  /** Filtering one more element. */
  lemma FilterSnoc<T>(xs: seq<T>, p: T -> bool, i: nat)
    requires i < |xs|
    ensures Filter(xs[..i + 1], p) == Filter(xs[..i], p) + (if p(xs[i]) then [xs[i]] else [])
  {
    assert xs[..i + 1][..i] == xs[..i];
  }

  /** An element that passes lands in the filtered sequence right after what passed before it. */
  lemma FilterKeeps<T>(xs: seq<T>, p: T -> bool, i: nat)
    requires i < |xs| && p(xs[i])
    ensures |Filter(xs[..i], p)| < |Filter(xs, p)|
    ensures Filter(xs, p)[|Filter(xs[..i], p)|] == xs[i]
  {
    FilterSnoc(xs, p, i);
    FilterAppend(xs[..i + 1], xs[i + 1..], p);
    assert xs[..i + 1] + xs[i + 1..] == xs;
  }

  /** Filtering a concatenation filters each part. */
  lemma {:induction false} FilterAppend<T>(a: seq<T>, b: seq<T>, p: T -> bool)
    ensures Filter(a + b, p) == Filter(a, p) + Filter(b, p)
    decreases |b|
  {
    if b == [] {
      assert a + b == a;
    } else {
      var n := |b| - 1;
      assert (a + b)[..|a| + n] == a + b[..n];
      FilterAppend(a, b[..n], p);
    }
  }

  /** Filtering a sequence with one element spliced in. */
  lemma FilterSplice<T>(a: seq<T>, x: T, b: seq<T>, p: T -> bool)
    ensures Filter(a + [x] + b, p) == Filter(a, p) + (if p(x) then [x] else []) + Filter(b, p)
  {
    FilterAppend(a + [x], b, p);
    assert (a + [x])[..|a|] == a;
  }

  /** A position is listed exactly when its element passes. */
  lemma PositionsExactly<T>(xs: seq<T>, p: T -> bool)
    ensures forall i :: 0 <= i < |xs| ==> (i in Positions(xs, p) <==> p(xs[i]))
  {
    var ps := Positions(xs, p);
    forall i | 0 <= i < |xs| && i in ps
      ensures p(xs[i])
    {
      var k :| 0 <= k < |ps| && ps[k] == i;
    }
  }

  /** Nothing passes the filter exactly when no element passes. */
  lemma FilterEmpty<T>(xs: seq<T>, p: T -> bool)
    ensures Filter(xs, p) == [] <==> forall i :: 0 <= i < |xs| ==> !p(xs[i])
  {
    FilterIsPositions(xs, p);
    PositionsExactly(xs, p);
    if Filter(xs, p) != [] {
      assert p(xs[Positions(xs, p)[0]]);
    }
  }

  /**
   * Collecting, in order, the elements that pass `p`, where answering
   * with an element that fails `ok` raises: the collection then stops
   * with None.
   */
  method CollectWhere<T>(xs: seq<T>, p: T -> bool, ok: T -> bool) returns (r: Option<seq<T>>)
    ensures r.Some? <==> forall k :: 0 <= k < |Filter(xs, p)| ==> ok(Filter(xs, p)[k])
    ensures r.Some? ==> r.value == Filter(xs, p)
  {
    var out: seq<T> := [];
    var i := 0;
    while i < |xs|
      invariant 0 <= i <= |xs|
      invariant out == Filter(xs[..i], p)
      invariant forall k :: 0 <= k < |out| ==> ok(out[k])
    {
      FilterSnoc(xs, p, i);
      if p(xs[i]) {
        if !ok(xs[i]) {
          FilterKeeps(xs, p, i);
          return None;
        }
        out := out + [xs[i]];
      }
      i := i + 1;
    }
    assert xs[..i] == xs;
    return Some(out);
  }
}
