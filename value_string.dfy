/**
 * valueString.go: the text form of a Value and its expansion into a list of
 * strings, either element by element or by splitting at the first separator
 * of a chain that cuts the text.
 */
module ValueString {
  import opened Types
  import opened GoStrings
  import opened Strconv
  import opened Fmt
  import ValueNumbers

  /**
   * Value.String: "" for nil, the character of a rune (Go's int32), and the
   * `%v` form of anything else. The error is never set.
   */
  function String(v: Value): (r: Outcome<string>)
    ensures r.Ok()
    ensures v.data == Nil ==> r.value == ""
    ensures v.data.Str? ==> r.value == v.data.s
  {
    match v.data
    case Nil => Outcome("", None)
    case Integer(Int32, n) => Outcome(RuneString(n), None)
    case _ => Outcome(Sprint(v.data), None)
  }

  /** Value.MustString: String without its (never set) error, so the whole result. */
  function MustString(v: Value): (r: string)
    ensures Outcome(r, None) == String(v)
  {
    String(v).value
  }

  /** Value.TrimString: the text without leading and trailing white space. */
  function TrimString(v: Value): (r: string)
    ensures r == TrimSpace(MustString(v))
    ensures r == [] || (!IsSpace(r[0]) && !IsSpace(r[|r| - 1]))
  {
    TrimSpace(MustString(v))
  }

  /** DefaultStringSeparators: the chain used when no separator is passed. */
  const DefaultStringSeparators: seq<string> := [",", "\n"]

  function MaybeTrim(p: string, trim: bool): string
  {
    if trim then TrimSpace(p) else p
  }

  function TrimAll(ps: seq<string>, trim: bool): (r: seq<string>)
    ensures |r| == |ps| && forall i :: 0 <= i < |ps| ==> r[i] == MaybeTrim(ps[i], trim)
  {
    seq(|ps|, i requires 0 <= i < |ps| => MaybeTrim(ps[i], trim))
  }

  /**
   * The separator loop of ListString: the pieces of the first separator whose
   * split is not exactly one piece (trimmed when asked), or `[s]` when none.
   */
  function SplitChain(s: string, seps: seq<string>, trim: bool): seq<string>
  {
    if seps == [] then [s]
    else
      var split := TrimAll(Split(s, seps[0]), trim);
      if |split| == 1 then SplitChain(s, seps[1..], trim) else split
  }

  /**
   * What ListString returns: for a slice, the text of each element in order
   * (a nil element of a `[]any` giving ""), else the split of the text along
   * the separator chain, DefaultStringSeparators when none is passed.
   */
  function ListStringSpec(v: Value, seps: seq<string>, trim: bool): seq<string>
  {
    if IsSliceKind(v.data) then
      var es := Elements(v.data);
      seq(|es|, i requires 0 <= i < |es| => MaybeTrim(MustString(Value(es[i])), trim))
    else
      SplitChain(MustString(v), if seps == [] then DefaultStringSeparators else seps, trim)
  }

  /**
   * Value.ListString(seps...), with the trimming switch as a parameter. For
   * a nil element of a `[]any` this renders "" like Value.String does; the
   * code as written panics there (ListStringAsWritten).
   */
  method ListString(v: Value, seps: seq<string>, trimSpace: bool) returns (r: seq<string>, err: Option<Error>)
    ensures err == None
    ensures r == ListStringSpec(v, seps, trimSpace)
  {
    if IsSliceKind(v.data) {
      r := RenderElements(Elements(v.data), trimSpace);
      return r, None;
    }
    var chain := if |seps| == 0 then DefaultStringSeparators else seps;
    r := SplitAlong(MustString(v), chain, trimSpace);
    return r, None;
  }

  /** The slice branch of ListString: `ret[i]` is the text of element i, trimmed when asked. */
  method RenderElements(es: seq<Datum>, trimSpace: bool) returns (r: seq<string>)
    ensures r == seq(|es|, i requires 0 <= i < |es| => MaybeTrim(MustString(Value(es[i])), trimSpace))
  {
    var ret := new string[|es|];
    var i := 0;
    while i < |es|
      invariant 0 <= i <= |es|
      invariant forall j :: 0 <= j < i ==> ret[j] == MaybeTrim(MustString(Value(es[j])), trimSpace)
    {
      ret[i] := MustString(NewValue(es[i]));
      if trimSpace {
        ret[i] := TrimSpace(ret[i]);
      }
      i := i + 1;
    }
    r := ret[..];
  }

  /** The separator loop of ListString, returning at the first split that is not one piece. */
  method SplitAlong(s: string, chain: seq<string>, trimSpace: bool) returns (r: seq<string>)
    ensures r == SplitChain(s, chain, trimSpace)
  {
    var k := 0;
    while k < |chain|
      invariant 0 <= k <= |chain|
      invariant SplitChain(s, chain[k..], trimSpace) == SplitChain(s, chain, trimSpace)
    {
      var parts := Split(s, chain[k]);
      var split := new string[|parts|](j requires 0 <= j < |parts| => parts[j]);
      assert split[..] == parts;
      if trimSpace {
        TrimEach(split);
      }
      assert split[..] == TrimAll(parts, trimSpace);
      assert chain[k..][0] == chain[k] && chain[k..][1..] == chain[k + 1..];
      if split.Length != 1 {
        return split[..];
      }
      k := k + 1;
    }
    assert chain[k..] == [];
    return [s];
  }

  /** `split[i] = strings.TrimSpace(split[i])` for every piece, in place. */
  method TrimEach(a: array<string>)
    modifies a
    ensures a[..] == TrimAll(old(a[..]), true)
  {
    var i := 0;
    while i < a.Length
      invariant 0 <= i <= a.Length
      invariant forall j :: 0 <= j < i ==> a[j] == TrimSpace(old(a[j]))
      invariant forall j :: i <= j < a.Length ==> a[j] == old(a[j])
    {
      a[i] := TrimSpace(a[i]);
      i := i + 1;
    }
  }

  /** Value.MustListString(sep): ListString with the one separator, error dropped. */
  method MustListString(v: Value, sep: string, trimSpace: bool) returns (r: seq<string>)
    ensures r == ListStringSpec(v, [sep], trimSpace)
  {
    var err;
    r, err := ListString(v, [sep], trimSpace);
  }

  // ---- The code as written on a nil element ----

  /**
   * ListString as the code reads: for an element of kind Interface it takes
   * `elem.Elem()`, which is the zero reflect.Value for a nil element, and
   * `Interface()` on the zero Value panics (None here).
   */
  function ListStringAsWritten(v: Value, seps: seq<string>, trim: bool): (r: Option<seq<string>>)
    ensures IsSliceKind(v.data) ==> (r.None? <==> exists i :: 0 <= i < |Elements(v.data)| && Elements(v.data)[i] == Nil)
    ensures r.Some? ==> r.value == ListStringSpec(v, seps, trim)
  {
    if IsSliceKind(v.data) && exists i :: 0 <= i < |Elements(v.data)| && Elements(v.data)[i] == Nil then None
    else Some(ListStringSpec(v, seps, trim))
  }

  /** `[]any{nil}`: the code as written panics where Value.String of the element is "". */
  lemma NilElementPanics()
    ensures ListStringAsWritten(Value(Slice([Nil])), [], false) == None
    ensures ListStringSpec(Value(Slice([Nil])), [], false) == [MustString(Value(Nil))]
    ensures ListStringSpec(Value(Slice([Nil])), [], false) == [""]
  {
    assert Elements(Slice([Nil]))[0] == Nil;
  }

  // ---- Properties ----

  /** A rune renders as its character: 'c' gives "c". */
  lemma RuneRendersAsCharacter(n: int)
    requires ScalarValue(n)
    ensures MustString(Value(Integer(Int32, n))) == [n as char]
    ensures MustString(Value(Integer(Int32, 'c' as int))) == "c"
  {
  }

  /**
   * Any other integer renders in decimal, "-" first for negatives, and
   * converting that text back to the same type gives the number again.
   */
  lemma IntegerRendersInDecimal(k: IntKind, n: int, parseFloat: string -> Option<int>)
    requires k != Int32 && InRange(n, k)
    ensures MustString(Value(Integer(k, n))) == FormatInt(n)
    ensures (MustString(Value(Integer(k, n)))[0] == '-') <==> n < 0
    ensures ValueNumbers.ToInteger(Str(MustString(Value(Integer(k, n)))), k, parseFloat) == Outcome(n, None)
  {
    FormatIntShape(n);
    ValueNumbers.DecimalRoundTrip(n, k, parseFloat);
  }

  /** A rune does not come back from its text: "c" is no number. */
  lemma RuneDoesNotRoundTrip(parseFloat: string -> Option<int>)
    ensures MustString(Value(Integer(Int32, 99))) == "c"
    ensures !ValueNumbers.ToInteger(Str("c"), Int32, parseFloat).Ok()
  {
    ParseIntSpec("c", W32);
    assert !AllDigits(SignedBody("c"));
    assert !Contains("c", ".") by {
      AbsentRune("c", '.');
    }
  }

  /** Trimming the trimmed text changes nothing. */
  lemma TrimStringIdempotent(v: Value)
    ensures TrimSpace(TrimString(v)) == TrimString(v)
  {
    TrimSpaceIdempotent(MustString(v));
  }

  /** For a slice, one string per element, in order: the element's own text. */
  lemma SliceRenderedElementwise(v: Value, seps: seq<string>, trim: bool)
    requires IsSliceKind(v.data)
    ensures |ListStringSpec(v, seps, trim)| == |Elements(v.data)|
    ensures forall i :: 0 <= i < |Elements(v.data)| && Elements(v.data)[i].Str? && !trim ==>
              ListStringSpec(v, seps, trim)[i] == Elements(v.data)[i].s
    ensures forall i :: 0 <= i < |Elements(v.data)| ==>
              ListStringSpec(v, seps, trim)[i] == MaybeTrim(MustString(Value(Elements(v.data)[i])), trim)
  {
  }

  /** []any{"test1", "test2", "test3"} gives the three strings. */
  lemma StringSliceExample()
    ensures ListStringSpec(Value(Slice([Str("test1"), Str("test2"), Str("test3")])), [","], false)
            == ["test1", "test2", "test3"]
  {
  }

  /** When every separator leaves the text whole, the result is the text alone. */
  lemma {:induction false} ChainFallback(s: string, seps: seq<string>, trim: bool)
    requires forall j :: 0 <= j < |seps| ==> |Split(s, seps[j])| == 1
    ensures SplitChain(s, seps, trim) == [s]
    decreases |seps|
  {
    if seps != [] {
      assert forall j :: 0 <= j < |seps| - 1 ==> seps[1..][j] == seps[j + 1];
      ChainFallback(s, seps[1..], trim);
    }
  }

  /** The first separator whose split is not exactly one piece decides the result. */
  lemma {:induction false} ChainFirstSplit(s: string, seps: seq<string>, trim: bool, k: nat)
    requires k < |seps| && |Split(s, seps[k])| != 1
    requires forall j :: 0 <= j < k ==> |Split(s, seps[j])| == 1
    ensures SplitChain(s, seps, trim) == TrimAll(Split(s, seps[k]), trim)
    decreases k
  {
    if k > 0 {
      assert forall j :: 0 <= j < k - 1 ==> seps[1..][j] == seps[j + 1];
      ChainFirstSplit(s, seps[1..], trim, k - 1);
    }
  }

  /**
   * Without trimming, the result is the split at one of the separators:
   * joining it with that separator gives the text back, and no piece holds it.
   */
  lemma {:induction false} ChainUntrimmed(s: string, seps: seq<string>)
    requires seps != [] && forall j :: 0 <= j < |seps| ==> seps[j] != []
    ensures exists k ::
              && 0 <= k < |seps|
              && Join(SplitChain(s, seps, false), seps[k]) == s
              && forall p :: p in SplitChain(s, seps, false) ==> !Contains(p, seps[k])
    decreases |seps|
  {
    var r := SplitChain(s, seps, false);
    var split := TrimAll(Split(s, seps[0]), false);
    assert split == Split(s, seps[0]);
    if |split| != 1 {
      JoinSplit(s, seps[0]);
      SplitPiecesFree(s, seps[0]);
      assert r == split;
    } else if |seps| == 1 {
      SplitSingle(s, seps[0]);
      assert seps[1..] == [];
      assert SplitChain(s, seps[1..], false) == [s];
      assert r == [s];
      assert Join(r, seps[0]) == s;
    } else {
      ChainUntrimmed(s, seps[1..]);
      var k :|
               && 0 <= k < |seps| - 1
               && Join(SplitChain(s, seps[1..], false), seps[1..][k]) == s
               && forall p :: p in SplitChain(s, seps[1..], false) ==> !Contains(p, seps[1..][k]);
      assert seps[1..][k] == seps[k + 1];
    }
  }

  /** With no separator passed, the chain is "," then "\n". */
  lemma DefaultChain(v: Value, trim: bool)
    requires !IsSliceKind(v.data)
    ensures ListStringSpec(v, [], trim) == SplitChain(MustString(v), [",", "\n"], trim)
  {
  }

  /** "test1,test2" split at "," gives the two strings. */
  lemma CommaExample()
    ensures ListStringSpec(Value(Str("test1,test2")), [","], false) == ["test1", "test2"]
  {
    SplitAtRune("test1", "test2", ',');
    assert "test1" + [','] + "test2" == "test1,test2";
    TwoPieces("test1,test2", ",", false, "test1", "test2");
  }

  /** "test" holds no separator of the chain and comes back whole. */
  lemma NoSeparatorExample()
    ensures ListStringSpec(Value(Str("test")), [","], false) == ["test"]
  {
    AbsentRune("test", ',');
    SplitSingle("test", ",");
  }

  /** "test1 |test2" split at "|" with trimming gives "test1" and "test2". */
  lemma TrimmedPipeExample()
    ensures ListStringSpec(Value(Str("test1 |test2")), ["|"], true) == ["test1", "test2"]
  {
    PipeSplit();
    TrimmedPieces();
    TwoPieces("test1 |test2", "|", true, "test1 ", "test2");
  }

  /** A text that splits into two pieces gives those pieces, trimmed when asked. */
  lemma TwoPieces(s: string, sep: string, trim: bool, a: string, b: string)
    requires Split(s, sep) == [a, b]
    ensures ListStringSpec(Value(Str(s)), [sep], trim) == [MaybeTrim(a, trim), MaybeTrim(b, trim)]
  {
    var t := TrimAll([a, b], trim);
    assert t == [MaybeTrim(a, trim), MaybeTrim(b, trim)];
    ChainFirstSplit(s, [sep], trim, 0);
    assert SplitChain(s, [sep], trim) == t;
    assert MustString(Value(Str(s))) == s;
  }

  lemma PipeSplit()
    ensures Split("test1 |test2", "|") == ["test1 ", "test2"]
  {
    SplitAtRune("test1 ", "test2", '|');
    assert "test1 " + ['|'] + "test2" == "test1 |test2";
  }

  lemma TrimmedPieces()
    ensures TrimSpace("test1 ") == "test1"
    ensures TrimSpace("test2") == "test2"
  {
    assert TrimLeft("test1 ") == "test1 ";
    TrailingSpace();
    assert TrimLeft("test2") == "test2";
    assert TrimRight("test2") == "test2";
  }

  lemma TrailingSpace()
    ensures TrimRight("test1 ") == "test1"
  {
    assert "test1 "[..5] == "test1";
    assert TrimRight("test1") == "test1";
  }
}
