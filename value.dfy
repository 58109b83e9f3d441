/**
 * value.go: the `Value` wrapper's list and map views. NewValue and IsNil
 * are part of the data model (module Types).
 */
module Values {
  import opened Types
  import DataMap

  /** What List returns: nothing and an error for nil, the elements of a slice, else the value alone. */
  function ListOf(v: Value): Outcome<seq<Value>>
  {
    if v.data == Nil then Outcome([], Some(ValueIsNil))
    else if IsSliceKind(v.data) then
      var es := Elements(v.data);
      Outcome(seq(|es|, i requires 0 <= i < |es| => NewValue(es[i])), None)
    else Outcome([v], None)
  }

  /** Value.List: `ret[i]` wraps element i of a slice. */
  method List(v: Value) returns (r: seq<Value>, err: Option<Error>)
    ensures Outcome(r, err) == ListOf(v)
  {
    if v.data == Nil {
      return [], Some(ValueIsNil);
    }
    if IsSliceKind(v.data) {
      var l := Elements(v.data);
      var ret := new Value[|l|];
      for i := 0 to |l|
        invariant forall j :: 0 <= j < i ==> ret[j] == NewValue(l[j])
      {
        ret[i] := NewValue(l[i]);
      }
      assert ret[..] == ListOf(v).value;
      return ret[..], None;
    }
    return [v], None;
  }

  /** Value.MustList: the list half of List. */
  method MustList(v: Value) returns (r: seq<Value>)
    ensures r == ListOf(v).value
  {
    var err;
    r, err := List(v);
  }

  /** Value.Map: NewMap of the datum. */
  method Map(v: Value) returns (m: DataMap.DMap, err: Option<Error>)
    ensures Outcome(m, err) == DataMap.NewMapOf(v.data)
  {
    m, err := DataMap.NewMap(v.data);
  }

  /** Value.MustMap: the map half of Map. */
  method MustMap(v: Value) returns (m: DataMap.DMap)
    ensures m == DataMap.NewMapOf(v.data).value
  {
    var err;
    m, err := Map(v);
  }

  // ---- Properties ----

  /** List fails exactly for nil, with an empty list. */
  lemma ListFailsOnlyForNil(v: Value)
    ensures !ListOf(v).Ok() <==> v.data == Nil
    ensures v.data == Nil ==> ListOf(v) == Outcome([], Some(ValueIsNil))
  {
  }

  /** A slice gives one Value per element, in order; unwrapping them gives the elements back. */
  lemma ListElementwise(v: Value)
    requires IsSliceKind(v.data)
    ensures |ListOf(v).value| == |Elements(v.data)|
    ensures forall i :: 0 <= i < |Elements(v.data)| ==> ListOf(v).value[i].data == Elements(v.data)[i]
    ensures v.data.Slice? ==>
              seq(|ListOf(v).value|, i requires 0 <= i < |ListOf(v).value| => ListOf(v).value[i].data) == v.data.elems
  {
  }

  /** A non-slice, a string included, is the one element of its list: no splitting happens. */
  lemma ListOfScalar(v: Value)
    requires v.data != Nil && !IsSliceKind(v.data)
    ensures ListOf(v) == Outcome([v], None)
  {
  }

  /** `[]any{1, "test", 3.56}` gives the three Values in order. */
  lemma ListExample()
    ensures ListOf(Value(Slice([Integer(Int, 1), Str("test"), Float(Float64, "3.56", 3)]))) ==
            Outcome([Value(Integer(Int, 1)), Value(Str("test")), Value(Float(Float64, "3.56", 3))], None)
  {
    var l := ListOf(Value(Slice([Integer(Int, 1), Str("test"), Float(Float64, "3.56", 3)]))).value;
    assert |l| == 3;
    assert l == [Value(Integer(Int, 1)), Value(Str("test")), Value(Float(Float64, "3.56", 3))];
  }
}
