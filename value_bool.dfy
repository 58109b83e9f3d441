/**
 * valueBool.go: Value.Bool, which lower-cases the text of the datum and
 * checks it against two word lists before falling back to strconv.ParseBool.
 */
module ValueBool {
  import opened Types
  import opened GoStrings
  import opened Strconv
  import opened Fmt

  /** BoolStringsFalse: the lower-case texts read as false. */
  const BoolStringsFalse: seq<string> := ["", "0", "no", "n", "false", "na", "n/a"]

  /** BoolStringsTrue: the lower-case texts read as true. */
  const BoolStringsTrue: seq<string> := ["1", "yes", "y", "true"]

  /** The text Bool examines: a string as it is, anything else in its `%v` form. */
  function BoolText(d: Datum): string
  {
    if d.Str? then d.s else Sprint(d)
  }

  /** Value.Bool. */
  function Bool(v: Value): (r: Outcome<bool>)
    ensures v.data == Nil ==> r == Outcome(false, Some(ValueIsNil))
    ensures r.err.Some? ==> !r.value
    ensures v.data != Nil && ToLower(BoolText(v.data)) in BoolStringsFalse ==> r == Outcome(false, None)
    ensures v.data != Nil && ToLower(BoolText(v.data)) in BoolStringsTrue ==> r == Outcome(true, None)
  {
    if v.data == Nil then Outcome(false, Some(ValueIsNil))
    else
      var s := ToLower(BoolText(v.data));
      if s in BoolStringsFalse then Outcome(false, None)
      else if s in BoolStringsTrue then Outcome(true, None)
      else
        match ParseBool(s)
        case None => Outcome(false, Some(ParseBoolFailed(s)))
        case Some(b) => Outcome(b, None)
  }

  /** Value.MustBool: the result of Bool, false on error. */
  function MustBool(v: Value): (r: bool)
    ensures r == Bool(v).value
    ensures !Bool(v).Ok() ==> !r
  {
    var o := Bool(v);
    if o.Ok() then o.value else false
  }

  // ---- Properties ----

  /** No text is in both lists, so checking the false list first decides nothing. */
  lemma ListsDisjoint(s: string)
    ensures !(s in BoolStringsFalse && s in BoolStringsTrue)
  {
  }

  /**
   * For a non-nil datum with lower-cased text `s`: true exactly for the true
   * list and "t", false without error exactly for the false list and "f",
   * an error for every other text.
   */
  lemma BoolSpec(v: Value)
    requires v.data != Nil
    ensures Bool(v) == Outcome(true, None) <==> ToLower(BoolText(v.data)) in BoolStringsTrue + ["t"]
    ensures Bool(v) == Outcome(false, None) <==> ToLower(BoolText(v.data)) in BoolStringsFalse + ["f"]
    ensures !Bool(v).Ok() <==> ToLower(BoolText(v.data)) !in BoolStringsFalse + BoolStringsTrue + ["t", "f"]
    ensures !Bool(v).Ok() ==> Bool(v) == Outcome(false, Some(ParseBoolFailed(ToLower(BoolText(v.data)))))
  {
    var s := ToLower(BoolText(v.data));
    ParseBoolLower(s);
  }

  /** Upper-case spellings are recognised: "FALSE" is false, "YES" is true. */
  lemma UpperCaseExamples()
    ensures Bool(Value(Str("FALSE"))) == Outcome(false, None)
    ensures Bool(Value(Str("YES"))) == Outcome(true, None)
  {
    assert ToLower("FALSE") == "false";
    assert ToLower("YES") == "yes";
  }

  /** "maybe" and "2" are errors. */
  lemma RejectedExamples()
    ensures !Bool(Value(Str("maybe"))).Ok()
    ensures !Bool(Value(Str("2"))).Ok()
  {
    assert ToLower("maybe") == "maybe";
    assert ToLower("2") == "2";
  }

  /** Non-string data go through `%v`: bool true and the integer 1 are true. */
  lemma FormattedExamples(k: IntKind)
    ensures Bool(Value(Datum.Bool(true))) == Outcome(true, None)
    ensures Bool(Value(Integer(k, 1))) == Outcome(true, None)
  {
    assert ToLower("true") == "true";
    assert Sprint(Integer(k, 1)) == "1";
    assert ToLower("1") == "1";
  }
}
