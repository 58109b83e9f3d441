/**
 * utils.go: three slice helpers. ListToAny copies a list into `[]any`,
 * ListToMap builds a membership map, FilterSlice drops the removees.
 */
module Utils {
  import opened Types

  /**
   * ListToAny: element i of the result is element i of the input, boxed
   * into an `any` by `box`.
   */
  method ListToAny<V>(input: seq<V>, box: V -> Datum) returns (r: seq<Datum>)
    ensures |r| == |input|
    ensures forall i :: 0 <= i < |input| ==> r[i] == box(input[i])
  {
    var ret := new Datum[|input|];
    var i := 0;
    while i < |input|
      invariant 0 <= i <= |input|
      invariant forall j :: 0 <= j < i ==> ret[j] == box(input[j])
    {
      ret[i] := box(input[i]);
      i := i + 1;
    }
    r := ret[..];
  }

  /** ListToMap: the keys are exactly the input's elements, each bound to true. */
  method ListToMap<K(==)>(input: seq<K>) returns (m: map<K, bool>)
    ensures m.Keys == set x | x in input
    ensures forall k :: k in m ==> m[k]
  {
    m := map[];
    var i := 0;
    while i < |input|
      invariant 0 <= i <= |input|
      invariant m.Keys == set x | x in input[..i]
      invariant forall k :: k in m ==> m[k]
    {
      assert input[..i + 1] == input[..i] + [input[i]];
      m := m[input[i] := true];
      i := i + 1;
    }
    assert input[..i] == input;
  }

  /** The elements of `xs` that are not among `removees`, in order. */
  function Filter<V(==)>(xs: seq<V>, removees: seq<V>): seq<V>
  {
    if xs == [] then []
    else
      var last := xs[|xs| - 1];
      Filter(xs[..|xs| - 1], removees) + (if last in removees then [] else [last])
  }

  /** FilterSlice: the input without the removees, appended one by one. */
  method FilterSlice<V(==)>(input: seq<V>, removees: seq<V>) returns (r: seq<V>)
    ensures r == Filter(input, removees)
  {
    var removeeMap := ListToMap(removees);
    r := [];
    var i := 0;
    while i < |input|
      invariant 0 <= i <= |input|
      invariant r == Filter(input[..i], removees)
    {
      var member := input[i];
      assert input[..i + 1][..i] == input[..i];
      if member in removeeMap {
        i := i + 1;
        continue;
      }
      r := r + [member];
      i := i + 1;
    }
    assert input[..i] == input;
  }

  // ---- Properties of Filter ----

  /** An order-preserving subsequence: the kept elements sit at increasing positions of the input. */
  lemma {:induction false} FilterSubsequence<V>(xs: seq<V>, removees: seq<V>) returns (idx: seq<nat>)
    ensures |idx| == |Filter(xs, removees)|
    ensures forall k :: 0 <= k < |idx| ==> idx[k] < |xs| && Filter(xs, removees)[k] == xs[idx[k]]
    ensures forall k, l :: 0 <= k < l < |idx| ==> idx[k] < idx[l]
    decreases |xs|
  {
    if xs == [] {
      return [];
    }
    var init := xs[..|xs| - 1];
    var last := xs[|xs| - 1];
    var prev := FilterSubsequence(init, removees);
    var f := Filter(init, removees);
    var r := Filter(xs, removees);
    assert r == f + (if last in removees then [] else [last]);
    idx := if last in removees then prev else prev + [|xs| - 1];
    forall k | 0 <= k < |idx|
      ensures idx[k] < |xs| && r[k] == xs[idx[k]]
    {
      if k < |prev| {
        assert idx[k] == prev[k] && r[k] == f[k];
        assert xs[prev[k]] == init[prev[k]];
      }
    }
  }

  /** An element is kept exactly when it occurs in the input and not among the removees. */
  lemma {:induction false} FilterMembership<V>(xs: seq<V>, removees: seq<V>, x: V)
    ensures x in Filter(xs, removees) <==> x in xs && x !in removees
    decreases |xs|
  {
    if xs != [] {
      var init := xs[..|xs| - 1];
      FilterMembership(init, removees, x);
      assert xs == init + [xs[|xs| - 1]];
    }
  }

  /** Every copy of a kept element is kept, and no copy of a removee. */
  lemma {:induction false} FilterCounts<V>(xs: seq<V>, removees: seq<V>, x: V)
    ensures multiset(Filter(xs, removees))[x] == if x in removees then 0 else multiset(xs)[x]
    decreases |xs|
  {
    if xs != [] {
      var init := xs[..|xs| - 1];
      FilterCounts(init, removees, x);
      assert xs == init + [xs[|xs| - 1]];
    }
  }

  /** With no removees the result is the input. */
  lemma {:induction false} FilterNothing<V>(xs: seq<V>)
    ensures Filter(xs, []) == xs
    decreases |xs|
  {
    if xs != [] {
      FilterNothing(xs[..|xs| - 1]);
      assert xs == xs[..|xs| - 1] + [xs[|xs| - 1]];
    }
  }

  /** Filtering twice with the same removees is filtering once. */
  lemma {:induction false} FilterIdempotent<V>(xs: seq<V>, removees: seq<V>)
    ensures Filter(Filter(xs, removees), removees) == Filter(xs, removees)
    decreases |xs|
  {
    if xs != [] {
      var init := xs[..|xs| - 1];
      var last := xs[|xs| - 1];
      FilterIdempotent(init, removees);
      var f := Filter(init, removees);
      assert Filter(xs, removees) == f + (if last in removees then [] else [last]);
      if last in removees {
        assert f + [] == f;
      } else {
        var g := f + [last];
        assert g[|g| - 1] == last && g[..|g| - 1] == f;
        assert Filter(g, removees) == Filter(f, removees) + [last];
      }
    }
  }
}
