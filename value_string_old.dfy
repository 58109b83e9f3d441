/**
 * value_string.go, the older revision of the string conversions: String
 * without an error result, and ListString with a single separator and no
 * fallback chain.
 */
module ValueStringOld {
  import opened Types
  import opened GoStrings
  import opened Fmt
  import ValueString

  /** Value.String: "" for nil, the character of a rune, the `%v` form of anything else. */
  function String(v: Value): (r: string)
    ensures v.data == Nil ==> r == ""
    ensures v.data.Str? ==> r == v.data.s
    ensures v.data.Integer? && v.data.kind == Int32 ==> r == RuneString(v.data.n)
  {
    match v.data
    case Nil => ""
    case Integer(Int32, n) => RuneString(n)
    case _ => Sprint(v.data)
  }

  /** Value.TrimString: String without leading and trailing white space. */
  function TrimString(v: Value): (r: string)
    ensures r == [] || (!IsSpace(r[0]) && !IsSpace(r[|r| - 1]))
    ensures r == TrimSpace(String(v))
  {
    TrimSpace(String(v))
  }

  /**
   * What ListString returns: for a slice, reflect's String of each element
   * (the content of a string element, "<T Value>" for others, "<invalid
   * Value>" for a nil element of a `[]any`); else the text split at `sep`.
   */
  function ListStringSpec(v: Value, sep: string): seq<string>
  {
    if IsSliceKind(v.data) then
      var es := Elements(v.data);
      seq(|es|, i requires 0 <= i < |es| => ReflectString(es[i]))
    else
      Split(String(v), sep)
  }

  /** Value.ListString(sep): never an error. */
  method ListString(v: Value, sep: string) returns (r: seq<string>, err: Option<Error>)
    ensures err == None
    ensures r == ListStringSpec(v, sep)
  {
    if IsSliceKind(v.data) {
      var es := Elements(v.data);
      var ret := new string[|es|];
      var i := 0;
      while i < |es|
        invariant 0 <= i <= |es|
        invariant forall j :: 0 <= j < i ==> ret[j] == ReflectString(es[j])
      {
        ret[i] := ReflectString(es[i]);
        i := i + 1;
      }
      return ret[..], None;
    }
    return Split(String(v), sep), None;
  }

  /** Value.MustListString(sep): ListString without its error. */
  method MustListString(v: Value, sep: string) returns (r: seq<string>)
    ensures r == ListStringSpec(v, sep)
  {
    var err;
    r, err := ListString(v, sep);
  }

  // ---- Properties ----

  /** The older String is the value half of the newer one. */
  lemma AgreesWithNewerString(v: Value)
    ensures ValueString.String(v) == Outcome(String(v), None)
  {
  }

  /** Without a slice, the pieces joined with a non-empty separator give the text back. */
  lemma SplitJoins(v: Value, sep: string)
    requires !IsSliceKind(v.data) && sep != []
    ensures Join(ListStringSpec(v, sep), sep) == String(v)
    ensures forall p :: p in ListStringSpec(v, sep) ==> !Contains(p, sep)
  {
    JoinSplit(String(v), sep);
    SplitPiecesFree(String(v), sep);
  }

  /** A text without the separator comes back as the only element: -1 on "|" gives ["-1"]. */
  lemma NoSeparatorSingle(v: Value, sep: string)
    requires !IsSliceKind(v.data) && sep != [] && !Contains(String(v), sep)
    ensures ListStringSpec(v, sep) == [String(v)]
  {
    SplitSingle(String(v), sep);
  }

  lemma MinusOneExample()
    ensures ListStringSpec(Value(Integer(Int, -1)), "|") == ["-1"]
  {
    var s := String(Value(Integer(Int, -1)));
    assert s == "-1";
    AbsentRune(s, '|');
    NoSeparatorSingle(Value(Integer(Int, -1)), "|");
  }

  /** No trimming: "test1 |test2" on "|" keeps the space of "test1 ". */
  lemma UntrimmedExample()
    ensures ListStringSpec(Value(Str("test1 |test2")), "|") == ["test1 ", "test2"]
  {
    ValueString.PipeSplit();
  }

  /** For a slice, one string per element in order; string elements are verbatim. */
  lemma SliceElementwise(v: Value, sep: string)
    requires IsSliceKind(v.data)
    ensures |ListStringSpec(v, sep)| == |Elements(v.data)|
    ensures forall i :: 0 <= i < |Elements(v.data)| && Elements(v.data)[i].Str? ==>
              ListStringSpec(v, sep)[i] == Elements(v.data)[i].s
  {
  }
}
