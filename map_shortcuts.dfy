/**
 * mapShortcuts.gen.go: Map.Int, Int64, Uint, Uint64, String and Time, each
 * a Get followed by the Value converter of the same name, and their Must*
 * forms. A Get error comes back unchanged with the type's zero value.
 */
module MapShortcuts {
  import opened Types
  import DataMap
  import ValueNumbers
  import ValueString
  import ValueTime

  /** The integer shortcuts: Get, then Value.Int, Int64, Uint or Uint64 as `t` says. */
  function IntegerAt(m: DataMap.DMap, keys: seq<Datum>, t: IntKind, parseFloat: string -> Option<int>): (r: Outcome<int>)
    ensures !DataMap.Get(m, keys).Ok() ==> r == Outcome(0, Some(NoValidKey(keys)))
    ensures forall i :: DataMap.FirstKeyAt(m, keys, i) ==> r == ValueNumbers.ToInteger(m[keys[i]], t, parseFloat)
  {
    DataMap.FirstKeyUnique(m, keys);
    var g := DataMap.Get(m, keys);
    if !g.Ok() then Outcome(0, g.err)
    else ValueNumbers.ToInteger(g.value.data, t, parseFloat)
  }

  /** Map.Int(keys...). */
  function Int(m: DataMap.DMap, keys: seq<Datum>, parseFloat: string -> Option<int>): (r: Outcome<int>)
    ensures r == IntegerAt(m, keys, IntKind.Int, parseFloat)
  {
    IntegerAt(m, keys, IntKind.Int, parseFloat)
  }

  /** Map.MustInt: the value half of Int. */
  function MustInt(m: DataMap.DMap, keys: seq<Datum>, parseFloat: string -> Option<int>): (r: int)
    ensures r == Int(m, keys, parseFloat).value
  {
    Int(m, keys, parseFloat).value
  }

  /** Map.Int64(keys...). */
  function Int64(m: DataMap.DMap, keys: seq<Datum>, parseFloat: string -> Option<int>): (r: Outcome<int>)
    ensures r == IntegerAt(m, keys, IntKind.Int64, parseFloat)
  {
    IntegerAt(m, keys, IntKind.Int64, parseFloat)
  }

  /** Map.MustInt64: the value half of Int64. */
  function MustInt64(m: DataMap.DMap, keys: seq<Datum>, parseFloat: string -> Option<int>): (r: int)
    ensures r == Int64(m, keys, parseFloat).value
  {
    Int64(m, keys, parseFloat).value
  }

  /** Map.Uint(keys...). */
  function Uint(m: DataMap.DMap, keys: seq<Datum>, parseFloat: string -> Option<int>): (r: Outcome<int>)
    ensures r == IntegerAt(m, keys, IntKind.Uint, parseFloat)
  {
    IntegerAt(m, keys, IntKind.Uint, parseFloat)
  }

  /** Map.MustUint: the value half of Uint. */
  function MustUint(m: DataMap.DMap, keys: seq<Datum>, parseFloat: string -> Option<int>): (r: int)
    ensures r == Uint(m, keys, parseFloat).value
  {
    Uint(m, keys, parseFloat).value
  }

  /** Map.Uint64(keys...). */
  function Uint64(m: DataMap.DMap, keys: seq<Datum>, parseFloat: string -> Option<int>): (r: Outcome<int>)
    ensures r == IntegerAt(m, keys, IntKind.Uint64, parseFloat)
  {
    IntegerAt(m, keys, IntKind.Uint64, parseFloat)
  }

  /** Map.MustUint64: the value half of Uint64. */
  function MustUint64(m: DataMap.DMap, keys: seq<Datum>, parseFloat: string -> Option<int>): (r: int)
    ensures r == Uint64(m, keys, parseFloat).value
  {
    Uint64(m, keys, parseFloat).value
  }

  /** Map.String(keys...): fails only when no key is present. */
  function String(m: DataMap.DMap, keys: seq<Datum>): (r: Outcome<string>)
    ensures r.Ok() <==> DataMap.Get(m, keys).Ok()
    ensures !r.Ok() ==> r == Outcome("", Some(NoValidKey(keys)))
    ensures forall i :: DataMap.FirstKeyAt(m, keys, i) ==> r == ValueString.String(Value(m[keys[i]]))
  {
    DataMap.FirstKeyUnique(m, keys);
    var g := DataMap.Get(m, keys);
    if !g.Ok() then Outcome("", g.err)
    else ValueString.String(g.value)
  }

  /** Map.MustString: the value half of String. */
  function MustString(m: DataMap.DMap, keys: seq<Datum>): (r: string)
    ensures r == String(m, keys).value
  {
    String(m, keys).value
  }

  /** Map.Time(keys...): the zero time with the Get error when no key is present. */
  function Time(m: DataMap.DMap, keys: seq<Datum>, parse: string -> Option<ValueTime.Instant>): (r: Outcome<ValueTime.Instant>)
    ensures !DataMap.Get(m, keys).Ok() ==> r == Outcome(ValueTime.ZeroTime, Some(NoValidKey(keys)))
    ensures forall i :: DataMap.FirstKeyAt(m, keys, i) ==> r == ValueTime.Time(Value(m[keys[i]]), parse)
  {
    DataMap.FirstKeyUnique(m, keys);
    var g := DataMap.Get(m, keys);
    if !g.Ok() then Outcome(ValueTime.ZeroTime, g.err)
    else ValueTime.Time(g.value, parse)
  }

  /** Map.MustTime: the value half of Time. */
  function MustTime(m: DataMap.DMap, keys: seq<Datum>, parse: string -> Option<ValueTime.Instant>): (r: ValueTime.Instant)
    ensures r == Time(m, keys, parse).value
  {
    Time(m, keys, parse).value
  }

  // ---- Properties ----

  /** Every shortcut's failure for a missing key gives the zero value: 0, "" or the zero time. */
  lemma MissingKeyDefaults(m: DataMap.DMap, keys: seq<Datum>, t: IntKind, parseFloat: string -> Option<int>,
                           parse: string -> Option<ValueTime.Instant>)
    requires forall i :: 0 <= i < |keys| ==> keys[i] !in m
    ensures IntegerAt(m, keys, t, parseFloat) == Outcome(0, Some(NoValidKey(keys)))
    ensures MustString(m, keys) == ""
    ensures Time(m, keys, parse) == Outcome(ValueTime.ZeroTime, Some(NoValidKey(keys)))
    ensures MustTime(m, keys, parse) == ValueTime.ZeroTime
  {
  }

  /** An integer shortcut yields a value of its type whenever the map's data are representable. */
  lemma IntegerInRange(m: DataMap.DMap, keys: seq<Datum>, t: IntKind, parseFloat: string -> Option<int>)
    requires forall k :: k in m ==> Representable(m[k])
    ensures InRange(IntegerAt(m, keys, t, parseFloat).value, t)
  {
    if DataMap.Get(m, keys).Ok() {
      var i :| DataMap.FirstKeyAt(m, keys, i);
      assert Representable(m[keys[i]]);
    } else {
      assert t.Min() <= 0 <= t.Max();
    }
  }

  /** With "a" bound to the string "123", Int("a") is 123 and MustString("b", "a") is "123". */
  lemma ShortcutExample(parseFloat: string -> Option<int>)
    ensures Int(map[Str("a") := Str("123")], [Str("a")], parseFloat) == Outcome(123, None)
    ensures MustString(map[Str("a") := Str("123")], [Str("b"), Str("a")]) == "123"
  {
    var m := map[Str("a") := Str("123")];
    assert DataMap.FirstKeyAt(m, [Str("a")], 0);
    assert DataMap.FirstKeyAt(m, [Str("b"), Str("a")], 1);
    ValueNumbers.DecimalExample(IntKind.Int, parseFloat);
  }
}
