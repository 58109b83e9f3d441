/**
 * map.go: the `Map` type, a table from dynamically typed keys to data.
 * NewMap snapshots a Go map or the exported fields of a struct, Get and its
 * relatives look up the first present key of several, FromKVString parses
 * "k=v" lists, and To binds the entries to the fields of a struct.
 */
module DataMap {
  import opened Types
  import opened GoStrings
  import Utils

  /** A `Map`: Go's `map[any]any`. */
  type DMap = map<Datum, Datum>

  // ---- NewMap ----

  /** The datum a chain of pointers leads to (`for val.Kind() == Pointer { val = val.Elem() }`). */
  function Deref(d: Datum): (r: Datum)
    ensures !r.Pointer?
    decreases d
  {
    if d.Pointer? then Deref(d.target) else d
  }

  /** The entries of a struct: one per exported field, keyed by the field's name. */
  function StructEntries(fields: seq<Field>): DMap
  {
    if fields == [] then map[]
    else
      var f := fields[|fields| - 1];
      var m := StructEntries(fields[..|fields| - 1]);
      if f.decl.exported then m[Str(f.decl.name) := f.value] else m
  }

  /** What NewMap returns for `in`. */
  function NewMapOf(input: Datum): Outcome<DMap>
  {
    if input == Nil then Outcome(map[], Some(ValueIsNil))
    else
      match Deref(input)
      case MapD(entries) => Outcome(entries, None)
      case Struct(fields) => Outcome(StructEntries(fields), None)
      case _ => Outcome(map[], Some(NotMapOrStruct(input)))
  }

  /** NewMap: a copy of a map, or the exported fields of a struct, behind any number of pointers. */
  method NewMap(input: Datum) returns (m: DMap, err: Option<Error>)
    ensures Outcome(m, err) == NewMapOf(input)
  {
    if input == Nil {
      return map[], Some(ValueIsNil);
    }
    var val := input;
    while val.Pointer?
      invariant Deref(val) == Deref(input)
      decreases val
    {
      val := val.target;
    }
    match val {
      case MapD(entries) =>
        m := map[];
        var pending := entries.Keys;
        while pending != {}
          invariant pending <= entries.Keys
          invariant m.Keys == entries.Keys - pending
          invariant forall k :: k in m ==> m[k] == entries[k]
          decreases pending
        {
          var k :| k in pending;
          m := m[k := entries[k]];
          pending := pending - {k};
        }
        assert m == entries;
        return m, None;
      case Struct(fields) =>
        m := map[];
        var i := 0;
        while i < |fields|
          invariant 0 <= i <= |fields|
          invariant m == StructEntries(fields[..i])
        {
          assert fields[..i + 1][..i] == fields[..i];
          if fields[i].decl.exported {
            m := m[Str(fields[i].decl.name) := fields[i].value];
          }
          i := i + 1;
        }
        assert fields[..i] == fields;
        return m, None;
      case _ =>
        return map[], Some(NotMapOrStruct(input));
    }
  }

  // ---- Get, MustGet, Has ----

  /** The index of the first key, from `from` on, that the map holds. */
  function FirstPresent(m: DMap, keys: seq<Datum>, from: nat): (r: Option<nat>)
    requires from <= |keys|
    ensures r.Some? ==> from <= r.value < |keys| && keys[r.value] in m
    ensures r.Some? ==> forall j :: from <= j < r.value ==> keys[j] !in m
    ensures r.None? ==> forall j :: from <= j < |keys| ==> keys[j] !in m
    decreases |keys| - from
  {
    if from == |keys| then None
    else if keys[from] in m then Some(from)
    else FirstPresent(m, keys, from + 1)
  }

  /** Key `i` is the first of `keys` that the map holds. */
  predicate FirstKeyAt(m: DMap, keys: seq<Datum>, i: int)
  {
    0 <= i < |keys| && keys[i] in m && forall j :: 0 <= j < i ==> keys[j] !in m
  }

  /** Map.Get(keys...): the value of the first key present, else a nil Value and "no valid key". */
  function Get(m: DMap, keys: seq<Datum>): (r: Outcome<Value>)
    ensures r.Ok() <==> exists i :: 0 <= i < |keys| && keys[i] in m
    ensures r.Ok() ==> exists i :: FirstKeyAt(m, keys, i) && r.value == Value(m[keys[i]])
    ensures !r.Ok() ==> r == Outcome(Value(Nil), Some(NoValidKey(keys)))
  {
    match FirstPresent(m, keys, 0)
    case Some(i) => assert FirstKeyAt(m, keys, i); Outcome(NewValue(m[keys[i]]), None)
    case None => Outcome(NewValue(Nil), Some(NoValidKey(keys)))
  }

  /** Map.MustGet: the Value half of Get. */
  function MustGet(m: DMap, keys: seq<Datum>): (r: Value)
    ensures Outcome(r, Get(m, keys).err) == Get(m, keys)
  {
    var v := Get(m, keys);
    v.value
  }

  /**
   * Map.Has: the first present key is bound to a non-nil datum; a key bound
   * to nil counts as absent.
   */
  function Has(m: DMap, keys: seq<Datum>): (r: bool)
    ensures r <==> exists i :: FirstKeyAt(m, keys, i) && m[keys[i]] != Nil
  {
    FirstKeyUnique(m, keys);
    !IsNil(MustGet(m, keys))
  }

  /** At most one index is the first present key. */
  lemma FirstKeyUnique(m: DMap, keys: seq<Datum>)
    ensures forall i, j :: FirstKeyAt(m, keys, i) && FirstKeyAt(m, keys, j) ==> i == j
  {
    forall i, j | FirstKeyAt(m, keys, i) && FirstKeyAt(m, keys, j)
      ensures i == j
    {
    }
  }

  // ---- Map.Map and Map.MustMap ----

  /** What Map.Map(keys...) returns: NewMap of the first present key's value. */
  function MapOf(m: DMap, keys: seq<Datum>): Outcome<DMap>
  {
    match FirstPresent(m, keys, 0)
    case Some(i) => NewMapOf(m[keys[i]])
    case None => Outcome(map[], Some(NoValidKey(keys)))
  }

  /** Map.Map(keys...). */
  method MapAt(m: DMap, keys: seq<Datum>) returns (r: DMap, err: Option<Error>)
    ensures Outcome(r, err) == MapOf(m, keys)
  {
    for i := 0 to |keys|
      invariant forall j :: 0 <= j < i ==> keys[j] !in m
    {
      if keys[i] in m {
        assert FirstPresent(m, keys, 0) == Some(i);
        r, err := NewMap(m[keys[i]]);
        return;
      }
    }
    return map[], Some(NoValidKey(keys));
  }

  /** Map.MustMap: the map half of Map.Map. */
  method MustMapAt(m: DMap, keys: seq<Datum>) returns (r: DMap)
    ensures r == MapOf(m, keys).value
  {
    var err;
    r, err := MapAt(m, keys);
  }

  // ---- FromKVString ----

  /** The key of a "k=v" piece: the text before the first "=", trimmed. */
  function KVKey(piece: string): string
  {
    TrimSpace(SplitN2(piece, "=")[0])
  }

  /** The value of a "k=v" piece: the text after the first "=", or nil without "=". */
  function KVValue(piece: string, trimSpace: bool): Datum
  {
    var split := SplitN2(piece, "=");
    if |split| > 1 then Str(if trimSpace then TrimSpace(split[1]) else split[1]) else Nil
  }

  /** The map the first `n` items make under `key` and `val`, entered from first to last. */
  function Enter<P>(ps: seq<P>, n: nat, key: P -> Datum, val: P -> Datum): DMap
    requires n <= |ps|
  {
    if n == 0 then map[] else Enter(ps, n - 1, key, val)[key(ps[n - 1]) := val(ps[n - 1])]
  }

  /** The map the first `n` pieces of a "k=v" text make. */
  function KVEntries(pieces: seq<string>, n: nat, trimSpace: bool): DMap
    requires n <= |pieces|
  {
    Enter(pieces, n, p => Str(KVKey(p)), p => KVValue(p, trimSpace))
  }

  /** The body of FromKVString's loop: one piece cut at its first "=". */
  method KVPair(elem: string, trimSpace: bool) returns (key: string, value: Datum)
    ensures key == KVKey(elem) && value == KVValue(elem, trimSpace)
  {
    var split := SplitN2(elem, "=");
    key := TrimSpace(split[0]);
    value := Nil;
    if |split| > 1 {
      if trimSpace {
        value := Str(TrimSpace(split[1]));
      } else {
        value := Str(split[1]);
      }
    }
  }

  /** One step of the fold: piece `n` is entered over the map of the pieces before it. */
  lemma KVEntriesStep(pieces: seq<string>, n: nat, trimSpace: bool)
    requires n < |pieces|
    ensures KVEntries(pieces, n + 1, trimSpace)
            == KVEntries(pieces, n, trimSpace)[Str(KVKey(pieces[n])) := KVValue(pieces[n], trimSpace)]
  {
  }

  /** FromKVString's loop: each piece is entered in turn, a later key replacing an earlier one. */
  method EnterPieces(pieces: seq<string>, trimSpace: bool) returns (m: DMap)
    ensures m == KVEntries(pieces, |pieces|, trimSpace)
  {
    m := map[];
    var i := 0;
    while i < |pieces|
      invariant 0 <= i <= |pieces|
      invariant m == KVEntries(pieces, i, trimSpace)
    {
      var key, value := KVPair(pieces[i], trimSpace);
      KVEntriesStep(pieces, i, trimSpace);
      m := m[Str(key) := value];
      i := i + 1;
    }
  }

  /** FromKVString(kv), with the separator and the trimming switch as parameters. */
  method FromKVString(kv: string, separator: string, trimSpace: bool) returns (m: DMap, err: Option<Error>)
    ensures err == None
    ensures m == KVEntries(Split(kv, separator), |Split(kv, separator)|, trimSpace)
  {
    var pieces := Split(kv, separator);
    m := EnterPieces(pieces, trimSpace);
    return m, None;
  }

  // ---- To ----

  /**
   * The struct a pointer passed to To designates: the declarations of its
   * fields and their current contents, which To overwrites one by one.
   */
  class Record {
    const decls: seq<FieldDecl>
    var values: seq<Datum>

    predicate Valid()
      reads this
    {
      |values| == |decls|
    }

    constructor (decls: seq<FieldDecl>, values: seq<Datum>)
      requires |values| == |decls|
      ensures this.decls == decls && this.values == values
      ensures Valid()
    {
      this.decls := decls;
      this.values := values;
    }
  }

  /** The argument of To: not a pointer, a nil pointer, a pointer to a struct, or to something else. */
  datatype Dest = NotPointer(d: Datum) | NilRecordPointer | RecordPointer(rec: Record) | OtherPointer(target: Datum)

  /**
   * Value.To for one field: from the field's declaration, its current content
   * and the Value found in the map, the new content and an error.
   */
  type Setter = (FieldDecl, Datum, Value) -> Outcome<Datum>

  /**
   * The keys a field is looked up by: its name when it has no `dataparse`
   * tag, nothing (the field is skipped) for an empty tag, else the tag's
   * comma-separated parts.
   */
  function LookupKeys(decl: FieldDecl): Option<seq<Datum>>
  {
    match decl.tag
    case None => Some([Str(decl.name)])
    case Some(t) =>
      if t == "" then None
      else
        Some(StrKeys(Split(t, ",")))
  }

  /** Texts boxed as string keys. */
  function StrKeys(parts: seq<string>): (r: seq<Datum>)
    ensures |r| == |parts| && forall i :: 0 <= i < |parts| ==> r[i] == Str(parts[i])
  {
    seq(|parts|, i requires 0 <= i < |parts| => Str(parts[i]))
  }

  /** What happens to one field. */
  datatype Step = Skipped | Failed(e: Error) | Written(v: Datum, err: Option<Error>)

  function FieldStep(m: DMap, decl: FieldDecl, current: Datum, setter: Setter): Step
  {
    match LookupKeys(decl)
    case None => Skipped
    case Some(keys) =>
      var g := Get(m, keys);
      if !g.Ok() then Failed(FieldGet(decl.name, g.err.value))
      // `Addr().Interface()` of an unexported field panics.
      else if !decl.exported then Failed(Panicked)
      else
        var o := setter(decl, current, g.value);
        Written(o.value, if o.Ok() then None else Some(FieldSet(decl.name, o.err.value)))
  }

  /** The field contents and the error after the steps of fields `i..`, in declaration order. */
  function Bind(decls: seq<FieldDecl>, values: seq<Datum>, i: nat, step: (FieldDecl, Datum) -> Step): (r: (seq<Datum>, Option<Error>))
    requires |values| == |decls| && i <= |decls|
    ensures |r.0| == |decls|
    ensures forall j :: 0 <= j < i ==> r.0[j] == values[j]
    decreases |decls| - i
  {
    if i == |decls| then (values, None)
    else
      match step(decls[i], values[i])
      case Skipped => Bind(decls, values, i + 1, step)
      case Failed(e) => (values, Some(e))
      case Written(v, err) =>
        if err.Some? then (values[i := v], err)
        else Bind(decls, values[i := v], i + 1, step)
  }

  /**
   * The steps stop at field `k`: every field before it was skipped or
   * written without error, no field after it is touched, and field `k`
   * failed or was written with an error.
   */
  lemma {:induction false} BindStops(decls: seq<FieldDecl>, values: seq<Datum>, i: nat, step: (FieldDecl, Datum) -> Step)
    returns (k: nat)
    requires |values| == |decls| && i <= |decls|
    ensures i <= k <= |decls|
    ensures Bind(decls, values, i, step).1.None? <==> k == |decls|
    ensures forall j :: k < j < |decls| ==> Bind(decls, values, i, step).0[j] == values[j]
    ensures forall j :: i <= j < k ==>
              || (step(decls[j], values[j]).Skipped? && Bind(decls, values, i, step).0[j] == values[j])
              || (&& step(decls[j], values[j]).Written? && step(decls[j], values[j]).err.None?
                  && Bind(decls, values, i, step).0[j] == step(decls[j], values[j]).v)
    ensures k < |decls| ==>
              || (&& step(decls[k], values[k]).Failed?
                  && Bind(decls, values, i, step).1 == Some(step(decls[k], values[k]).e)
                  && Bind(decls, values, i, step).0[k] == values[k])
              || (step(decls[k], values[k]).Written? && step(decls[k], values[k]).err.Some?)
    decreases |decls| - i
  {
    if i == |decls| {
      return i;
    }
    match step(decls[i], values[i])
    case Skipped =>
      k := BindStops(decls, values, i + 1, step);
    case Failed(e) =>
      k := i;
    case Written(v, err) =>
      if err.Some? {
        k := i;
      } else {
        var vs := values[i := v];
        k := BindStops(decls, vs, i + 1, step);
        assert forall j :: i + 1 <= j < |decls| ==> vs[j] == values[j];
        if k < |decls| {
          assert step(decls[k], vs[k]) == step(decls[k], values[k]);
        }
      }
  }

  /** Skipped fields keep their content, and a run without error skipped or wrote every field. */
  lemma BindKeeps(decls: seq<FieldDecl>, values: seq<Datum>, i: nat, step: (FieldDecl, Datum) -> Step)
    requires |values| == |decls| && i <= |decls|
    ensures forall j :: i <= j < |decls| && step(decls[j], values[j]).Skipped? ==>
              Bind(decls, values, i, step).0[j] == values[j]
    ensures Bind(decls, values, i, step).1.None? ==> forall j :: i <= j < |decls| ==>
              step(decls[j], values[j]).Skipped? || (step(decls[j], values[j]).Written? && step(decls[j], values[j]).err.None?)
  {
    var k := BindStops(decls, values, i, step);
  }

  /** What FieldStep's outcome says about the field's keys, the lookup and the setter. */
  lemma FieldStepFacts(m: DMap, decl: FieldDecl, current: Datum, setter: Setter)
    ensures FieldStep(m, decl, current, setter).Skipped? <==> LookupKeys(decl).None?
    ensures FieldStep(m, decl, current, setter).Written? ==>
              && LookupKeys(decl).Some? && Get(m, LookupKeys(decl).value).Ok() && decl.exported
              && FieldStep(m, decl, current, setter).v == setter(decl, current, Get(m, LookupKeys(decl).value).value).value
              && (FieldStep(m, decl, current, setter).err.None? <==> setter(decl, current, Get(m, LookupKeys(decl).value).value).Ok())
    ensures LookupKeys(decl).Some? && !Get(m, LookupKeys(decl).value).Ok() ==>
              FieldStep(m, decl, current, setter) == Failed(FieldGet(decl.name, NoValidKey(LookupKeys(decl).value)))
  {
  }

  /** The field contents and the error after processing fields `i..` of a struct in declaration order. */
  function BindFrom(m: DMap, decls: seq<FieldDecl>, values: seq<Datum>, i: nat, setter: Setter): (r: (seq<Datum>, Option<Error>))
    requires |values| == |decls| && i <= |decls|
    ensures |r.0| == |decls|
    ensures forall j :: 0 <= j < i ==> r.0[j] == values[j]
    ensures forall j :: i <= j < |decls| && LookupKeys(decls[j]).None? ==> r.0[j] == values[j]
    ensures r.1.None? ==> forall j :: i <= j < |decls| && LookupKeys(decls[j]).Some? ==>
              Get(m, LookupKeys(decls[j]).value).Ok() && decls[j].exported
  {
    var step := (d, c) => FieldStep(m, d, c, setter);
    BindKeeps(decls, values, i, step);
    assert forall j :: i <= j < |decls| ==> step(decls[j], values[j]) == FieldStep(m, decls[j], values[j], setter);
    forall j | 0 <= j < |decls|
      ensures FieldStep(m, decls[j], values[j], setter).Skipped? <==> LookupKeys(decls[j]).None?
      ensures FieldStep(m, decls[j], values[j], setter).Written? ==>
                LookupKeys(decls[j]).Some? && Get(m, LookupKeys(decls[j]).value).Ok() && decls[j].exported
    {
      FieldStepFacts(m, decls[j], values[j], setter);
    }
    Bind(decls, values, i, step)
  }

  /**
   * Map.To(dest): errors for a non-pointer and a nil pointer, a panic for a
   * pointer to a non-struct, else the fields bound in declaration order.
   */
  method To(m: DMap, dest: Dest, setter: Setter) returns (err: Option<Error>)
    requires dest.RecordPointer? ==> dest.rec.Valid()
    modifies if dest.RecordPointer? then {dest.rec} else {}
    ensures dest.NotPointer? ==> err == Some(ValueIsNotPointer)
    ensures dest.NilRecordPointer? ==> err == Some(ValueIsNil)
    ensures dest.OtherPointer? ==> err == Some(Panicked)
    ensures dest.RecordPointer? ==> dest.rec.Valid()
    ensures dest.RecordPointer? ==>
              (dest.rec.values, err) == BindFrom(m, dest.rec.decls, old(dest.rec.values), 0, setter)
  {
    match dest {
      case NotPointer(_) => return Some(ValueIsNotPointer);
      case NilRecordPointer => return Some(ValueIsNil);
      case OtherPointer(_) => return Some(Panicked);
      case RecordPointer(rec) =>
        var i := 0;
        while i < |rec.decls|
          invariant 0 <= i <= |rec.decls| && rec.Valid()
          invariant BindFrom(m, rec.decls, old(rec.values), 0, setter) == BindFrom(m, rec.decls, rec.values, i, setter)
        {
          var decl := rec.decls[i];
          var keys := [Str(decl.name)];
          if decl.tag.Some? {
            var tags := decl.tag.value;
            if |tags| == 0 {
              i := i + 1;
              continue;
            }
            keys := Utils.ListToAny(Split(tags, ","), (p: string) => Str(p));
            assert keys == StrKeys(Split(tags, ","));
          }
          assert LookupKeys(decl) == Some(keys);
          var v := Get(m, keys);
          if !v.Ok() {
            return Some(FieldGet(decl.name, v.err.value));
          }
          if !decl.exported {
            return Some(Panicked);
          }
          var o := setter(decl, rec.values[i], v.value);
          rec.values := rec.values[i := o.value];
          if !o.Ok() {
            return Some(FieldSet(decl.name, o.err.value));
          }
          i := i + 1;
        }
        return None;
    }
  }

  // ---- Properties ----

  /** NewMap(nil) is ErrValueIsNil; a string such as "test" is no map. */
  lemma NewMapRejects()
    ensures NewMapOf(Nil) == Outcome(map[], Some(ValueIsNil))
    ensures NewMapOf(Str("test")) == Outcome(map[], Some(NotMapOrStruct(Str("test"))))
    ensures NewMapOf(NilPointer).err == Some(NotMapOrStruct(NilPointer))
  {
  }

  /** A map comes back with exactly its own pairs, behind any number of pointers. */
  lemma {:induction false} NewMapCopies(d: Datum, entries: DMap)
    requires Deref(d) == MapD(entries)
    ensures NewMapOf(d) == Outcome(entries, None)
  {
  }

  /** Pointers to a map or a struct are looked through. */
  lemma NewMapThroughPointer(d: Datum)
    requires Deref(d).MapD? || Deref(d).Struct?
    ensures NewMapOf(Pointer(d)) == NewMapOf(d)
    ensures NewMapOf(d).Ok()
  {
  }

  /** The key set of a struct's map: the names of its exported fields. */
  lemma {:induction false} StructKeys(fields: seq<Field>, k: Datum)
    ensures k in StructEntries(fields) <==>
              exists i :: 0 <= i < |fields| && fields[i].decl.exported && k == Str(fields[i].decl.name)
  {
    if fields != [] {
      var init := fields[..|fields| - 1];
      StructKeys(init, k);
      if k in StructEntries(init) {
        var i :| 0 <= i < |init| && init[i].decl.exported && k == Str(init[i].decl.name);
        assert fields[i] == init[i];
      }
      if exists i :: 0 <= i < |fields| && fields[i].decl.exported && k == Str(fields[i].decl.name) {
        var i :| 0 <= i < |fields| && fields[i].decl.exported && k == Str(fields[i].decl.name);
        if i < |fields| - 1 {
          assert init[i] == fields[i];
        }
      }
    }
  }

  /** With distinct field names (as Go guarantees), each exported field maps to its content. */
  lemma {:induction false} StructValues(fields: seq<Field>, i: nat)
    requires i < |fields| && fields[i].decl.exported
    requires forall a, b :: 0 <= a < b < |fields| ==> fields[a].decl.name != fields[b].decl.name
    ensures Str(fields[i].decl.name) in StructEntries(fields)
    ensures StructEntries(fields)[Str(fields[i].decl.name)] == fields[i].value
  {
    var init := fields[..|fields| - 1];
    if i < |fields| - 1 {
      StructValues(init, i);
      assert init[i] == fields[i];
    }
  }

  /** Later keys are not consulted once an earlier one is present. */
  lemma GetIgnoresLaterKeys(m: DMap, keys: seq<Datum>, more: seq<Datum>)
    requires Get(m, keys).Ok()
    ensures Get(m, keys + more).value == Get(m, keys).value
  {
    var i :| FirstKeyAt(m, keys, i);
    assert FirstKeyAt(m, keys + more, i);
    FirstKeyUnique(m, keys);
    FirstKeyUnique(m, keys + more);
  }

  /** With no keys at all, Get fails and Has is false. */
  lemma NoKeys(m: DMap)
    ensures Get(m, []) == Outcome(Value(Nil), Some(NoValidKey([])))
    ensures !Has(m, [])
  {
  }

  /** Has is true exactly when Get gives a non-nil Value. */
  lemma HasMeansNonNilGet(m: DMap, keys: seq<Datum>)
    ensures Has(m, keys) <==> Get(m, keys).value.data != Nil
    ensures Has(m, keys) ==> Get(m, keys).Ok()
  {
  }

  /** Map.Map works like Get followed by NewMap, and never tries a later key. */
  lemma MapIsGetThenNewMap(m: DMap, keys: seq<Datum>)
    ensures Get(m, keys).Ok() ==> MapOf(m, keys) == NewMapOf(Get(m, keys).value.data)
    ensures !Get(m, keys).Ok() ==> MapOf(m, keys) == Outcome(map[], Some(NoValidKey(keys)))
  {
    FirstKeyUnique(m, keys);
    if FirstPresent(m, keys, 0).Some? {
      assert FirstKeyAt(m, keys, FirstPresent(m, keys, 0).value);
    }
  }

  /** The keys of the map are exactly the keys of the items. */
  lemma {:induction false} EnterKeys<P>(ps: seq<P>, n: nat, key: P -> Datum, val: P -> Datum, k: Datum)
    requires n <= |ps|
    ensures k in Enter(ps, n, key, val) <==> exists i :: 0 <= i < n && k == key(ps[i])
  {
    if n > 0 {
      EnterKeys(ps, n - 1, key, val, k);
      if k in Enter(ps, n, key, val) && k != key(ps[n - 1]) {
        var i :| 0 <= i < n - 1 && k == key(ps[i]);
        assert 0 <= i < n && k == key(ps[i]);
      }
    }
  }

  /** An item whose key no later item repeats keeps its value in the map. */
  lemma {:induction false} EnterLastWins<P>(ps: seq<P>, n: nat, key: P -> Datum, val: P -> Datum, i: nat)
    requires i < n <= |ps|
    requires forall j :: i < j < n ==> key(ps[j]) != key(ps[i])
    ensures key(ps[i]) in Enter(ps, n, key, val)
    ensures Enter(ps, n, key, val)[key(ps[i])] == val(ps[i])
  {
    if i < n - 1 {
      EnterLastWins(ps, n - 1, key, val, i);
    }
  }

  /** Every key FromKVString makes is a string, and the keys are exactly those of the pieces. */
  lemma KVKeys(pieces: seq<string>, trimSpace: bool, k: Datum)
    ensures k in KVEntries(pieces, |pieces|, trimSpace) <==> exists i :: 0 <= i < |pieces| && k == Str(KVKey(pieces[i]))
  {
    EnterKeys(pieces, |pieces|, p => Str(KVKey(p)), p => KVValue(p, trimSpace), k);
  }

  /** A repeated key keeps the value of its last piece. */
  lemma KVLastWins(pieces: seq<string>, trimSpace: bool, i: nat)
    requires i < |pieces|
    requires forall j :: i < j < |pieces| ==> KVKey(pieces[j]) != KVKey(pieces[i])
    ensures Str(KVKey(pieces[i])) in KVEntries(pieces, |pieces|, trimSpace)
    ensures KVEntries(pieces, |pieces|, trimSpace)[Str(KVKey(pieces[i]))] == KVValue(pieces[i], trimSpace)
  {
    var key := p => Str(KVKey(p));
    forall j | i < j < |pieces|
      ensures key(pieces[j]) != key(pieces[i])
    {
    }
    EnterLastWins(pieces, |pieces|, key, p => KVValue(p, trimSpace), i);
  }

  /**
   * A piece without "=" binds nil; otherwise the key is the trimmed text
   * before the first "=" and the value the text after it.
   */
  lemma KVPiece(piece: string, trimSpace: bool)
    ensures !Contains(piece, "=") ==> KVValue(piece, trimSpace) == Nil && KVKey(piece) == TrimSpace(piece)
    ensures Contains(piece, "=") ==>
              var i := Index(piece, "=");
              && 0 <= i < |piece| && piece[i] == '=' && !Contains(piece[..i], "=")
              && KVKey(piece) == TrimSpace(piece[..i])
              && KVValue(piece, trimSpace) == Str(if trimSpace then TrimSpace(piece[i + 1..]) else piece[i + 1..])
  {
    var split := SplitN2(piece, "=");
    if !Contains(piece, "=") {
      assert split == [piece];
      assert KVKey(piece) == TrimSpace(split[0]);
    } else {
      var i := Index(piece, "=");
      assert OccursAt(piece, "=", i);
      assert piece[i..i + 1] == "=";
      NoOccurrenceInPrefix(piece, "=", i);
      assert split == [piece[..i], piece[i + 1..]];
    }
  }

  /** A field has its name as the key when untagged, none when tagged "", the tag's parts otherwise. */
  lemma KeysOfField(decl: FieldDecl)
    ensures decl.tag.None? ==> LookupKeys(decl) == Some([Str(decl.name)])
    ensures decl.tag == Some("") ==> LookupKeys(decl).None?
    ensures decl.tag.Some? && decl.tag.value != "" ==>
              && LookupKeys(decl).Some?
              && |LookupKeys(decl).value| == |Split(decl.tag.value, ",")|
              && (forall i :: 0 <= i < |LookupKeys(decl).value| ==> LookupKeys(decl).value[i].Str?)
              && Join(Texts(LookupKeys(decl).value), ",") == decl.tag.value
  {
    if decl.tag.Some? && decl.tag.value != "" {
      var parts := Split(decl.tag.value, ",");
      var ks := LookupKeys(decl).value;
      assert Texts(ks) == parts;
      JoinSplit(decl.tag.value, ",");
    }
  }

  /** The texts of string keys. */
  function Texts(ks: seq<Datum>): (r: seq<string>)
    ensures |r| == |ks|
  {
    seq(|ks|, i requires 0 <= i < |ks| => if ks[i].Str? then ks[i].s else "")
  }

  /** A tag `a,b` (as `dataparse:"varying,second_varying"`) is looked up by both parts in order. */
  lemma TwoKeyTag(name: string, exported: bool, a: string, b: string)
    requires forall i :: 0 <= i < |a| ==> a[i] != ','
    requires forall i :: 0 <= i < |b| ==> b[i] != ','
    ensures LookupKeys(FieldDecl(name, exported, Some(a + "," + b))) == Some([Str(a), Str(b)])
  {
    SplitAtRune(a, b, ',');
    var ks := LookupKeys(FieldDecl(name, exported, Some(a + "," + b))).value;
    assert a + "," + b == a + [','] + b;
    assert |ks| == 2 && ks[0] == Str(a) && ks[1] == Str(b);
    assert ks == [Str(a), Str(b)];
  }

  /**
   * Fields are processed in declaration order and the call stops at field
   * `k`: every field before it that has keys found one and got the setter's
   * value, no field after it is touched, and the error says why it stopped.
   */
  lemma FailFast(m: DMap, decls: seq<FieldDecl>, values: seq<Datum>, i: nat, setter: Setter)
    returns (k: nat)
    requires |values| == |decls| && i <= |decls|
    ensures i <= k <= |decls|
    ensures BindFrom(m, decls, values, i, setter).1.None? <==> k == |decls|
    ensures forall j :: k < j < |decls| ==> BindFrom(m, decls, values, i, setter).0[j] == values[j]
    ensures forall j :: i <= j < k && LookupKeys(decls[j]).Some? ==>
              && Get(m, LookupKeys(decls[j]).value).Ok() && decls[j].exported
              && setter(decls[j], values[j], Get(m, LookupKeys(decls[j]).value).value).Ok()
              && BindFrom(m, decls, values, i, setter).0[j] ==
                   setter(decls[j], values[j], Get(m, LookupKeys(decls[j]).value).value).value
    ensures k < |decls| ==> LookupKeys(decls[k]).Some?
    ensures k < |decls| && !Get(m, LookupKeys(decls[k]).value).Ok() ==>
              && BindFrom(m, decls, values, i, setter).1 ==
                   Some(FieldGet(decls[k].name, NoValidKey(LookupKeys(decls[k]).value)))
              && BindFrom(m, decls, values, i, setter).0[k] == values[k]
  {
    var step := (d, c) => FieldStep(m, d, c, setter);
    k := BindStops(decls, values, i, step);
    assert BindFrom(m, decls, values, i, setter) == Bind(decls, values, i, step);
    forall j | 0 <= j < |decls|
      ensures step(decls[j], values[j]) == FieldStep(m, decls[j], values[j], setter)
    {
      FieldStepFacts(m, decls[j], values[j], setter);
    }
  }

  /** A field whose keys all miss stops the binding at or before it. */
  lemma MissingFieldAborts(m: DMap, decls: seq<FieldDecl>, values: seq<Datum>, setter: Setter, j: nat)
    requires |values| == |decls| && j < |decls|
    requires LookupKeys(decls[j]).Some? && !Get(m, LookupKeys(decls[j]).value).Ok()
    ensures BindFrom(m, decls, values, 0, setter).1.Some?
  {
  }

  /**
   * An untagged field found by its name gets the setter's value; a field
   * tagged "" keeps its content.
   */
  lemma BindExample(setter: Setter)
    requires forall d, c, v :: setter(d, c, v) == Outcome(v.data, None)
    ensures BindFrom(map[Str("A") := Integer(Int, 5)],
                     [FieldDecl("A", true, None), FieldDecl("B", true, Some(""))],
                     [Integer(Int, 0), Str("kept")], 0, setter) ==
            ([Integer(Int, 5), Str("kept")], None)
  {
    var m := map[Str("A") := Integer(Int, 5)];
    var decls := [FieldDecl("A", true, None), FieldDecl("B", true, Some(""))];
    var values := [Integer(Int, 0), Str("kept")];
    assert FirstKeyAt(m, [Str("A")], 0);
    assert Get(m, [Str("A")]) == Outcome(Value(Integer(Int, 5)), None);
    assert FieldStep(m, decls[0], values[0], setter) == Written(Integer(Int, 5), None);
    var written := values[0 := Integer(Int, 5)];
    assert FieldStep(m, decls[1], written[1], setter) == Skipped;
    assert BindFrom(m, decls, written, 2, setter) == (written, None);
    assert BindFrom(m, decls, written, 1, setter) == (written, None);
    assert BindFrom(m, decls, values, 0, setter) == (written, None);
    assert written == [Integer(Int, 5), Str("kept")];
  }
}
