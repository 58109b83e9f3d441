/**
 * value_bool.go, the older revision of Value.Bool: the text of the datum
 * goes to strconv.ParseBool as it is, without lower-casing or word lists.
 */
module ValueBoolOld {
  import opened Types
  import opened Strconv
  import opened Fmt
  import opened GoStrings
  import ValueBool

  /** Value.Bool. */
  function Bool(v: Value): (r: Outcome<bool>)
    ensures v.data == Nil ==> r == Outcome(false, Some(ValueIsNil))
    ensures r.err.Some? ==> !r.value
    ensures v.data != Nil ==> (r.Ok() <==> ParseBool(ValueBool.BoolText(v.data)).Some?)
  {
    if v.data == Nil then Outcome(false, Some(ValueIsNil))
    else
      var s := ValueBool.BoolText(v.data);
      match ParseBool(s)
      case None => Outcome(false, Some(ParseBoolFailed(s)))
      case Some(b) => Outcome(b, None)
  }

  /** Value.MustBool: the result of Bool, false on error. */
  function MustBool(v: Value): (r: bool)
    ensures r == Bool(v).value
    ensures !Bool(v).Ok() ==> !r
  {
    var o := Bool(v);
    if o.Ok() then o.value else false
  }

  // ---- Properties ----

  /** Exactly the six spellings of true and the six of false are accepted. */
  lemma Accepted(v: Value)
    requires v.data != Nil
    ensures Bool(v) == Outcome(true, None) <==> ValueBool.BoolText(v.data) in ["1", "t", "T", "TRUE", "true", "True"]
    ensures Bool(v) == Outcome(false, None) <==> ValueBool.BoolText(v.data) in ["0", "f", "F", "FALSE", "false", "False"]
  {
  }

  /** "yes" and "tRUE" are errors: no word list and no lower-casing. */
  lemma RejectedExamples()
    ensures !Bool(Value(Str("yes"))).Ok()
    ensures !Bool(Value(Str("tRUE"))).Ok()
  {
  }

  /** Non-string data go through `%v`: bool true and the integer 1 are true. */
  lemma FormattedExamples(k: IntKind)
    ensures Bool(Value(Datum.Bool(true))) == Outcome(true, None)
    ensures Bool(Value(Integer(k, 1))) == Outcome(true, None)
  {
    assert Sprint(Integer(k, 1)) == "1";
  }

  /** Every text the older Bool accepts, the newer one accepts with the same result. */
  lemma NewerExtendsOlder(v: Value)
    requires Bool(v).Ok()
    ensures ValueBool.Bool(v) == Bool(v)
  {
    ValueBool.BoolSpec(v);
    var s := ValueBool.BoolText(v.data);
    assert s in ["1", "t", "T", "TRUE", "true", "True", "0", "f", "F", "FALSE", "false", "False"];
    LowerSpellings();
  }

  /** The lower-case forms of the twelve spellings. */
  lemma LowerSpellings()
    ensures ToLower("1") == "1" && ToLower("t") == "t" && ToLower("T") == "t"
    ensures ToLower("TRUE") == "true" && ToLower("true") == "true" && ToLower("True") == "true"
    ensures ToLower("0") == "0" && ToLower("f") == "f" && ToLower("F") == "f"
    ensures ToLower("FALSE") == "false" && ToLower("false") == "false" && ToLower("False") == "false"
  {
    assert ToLower("TRUE") == "true";
    assert ToLower("True") == "true";
    assert ToLower("FALSE") == "false";
    assert ToLower("False") == "false";
  }
}
