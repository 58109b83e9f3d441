/**
 * The integer converters of valueNumbers.gen.go: Value.Int, Int8, Int16,
 * Int32, Int64, Uint, Uint8, Uint16, Uint32 and Uint64, and their Must
 * variants. The generated functions differ only in the target type, so one
 * function takes the target as a parameter.
 */
module ValueNumbers {
  import opened Types
  import opened GoStrings
  import opened Strconv
  import opened Binary

  /**
   * Go's conversion `T(n)` between integer types: `n` reduced modulo 2^N into
   * the range of T, with no overflow check.
   */
  function Cast(n: int, t: IntKind): (r: int)
    ensures InRange(r, t)
    ensures r % t.Width().Modulus() == n % t.Width().Modulus()
  {
    var m := t.Width().Modulus();
    var u := n % m;
    if t.Signed() && u >= m / 2 then u - m else u
  }

  /** Two values of a type that agree modulo 2^N are equal: Cast has exactly one possible result. */
  lemma CastUnique(a: int, b: int, t: IntKind)
    requires InRange(a, t) && InRange(b, t)
    requires a % t.Width().Modulus() == b % t.Width().Modulus()
    ensures a == b
  {
    assert t.Max() - t.Min() == t.Width().Modulus() - 1;
    SameResidue(a, b, t.Min(), t.Width().Modulus());
  }

  /** Two numbers in one window of m consecutive integers that agree modulo m are equal. */
  lemma SameResidue(a: int, b: int, lo: int, m: int)
    requires m > 0 && lo <= a < lo + m && lo <= b < lo + m && a % m == b % m
    ensures a == b
  {
    assert a == m * (a / m) + a % m && b == m * (b / m) + b % m;
    var q := a / m - b / m;
    assert a - b == m * q;
    MultipleBelow(m, q);
  }

  /** The only multiple of m strictly between -m and m is 0. */
  lemma MultipleBelow(m: int, q: int)
    requires m > 0
    ensures -m < m * q < m ==> q == 0
  {
    assert q >= 1 ==> m * q >= m * 1;
    assert q <= -1 ==> m * q <= m * -1;
  }

  /** A conversion to a type that holds the value keeps it. */
  lemma CastInRange(n: int, t: IntKind)
    requires InRange(n, t)
    ensures Cast(n, t) == n
  {
    CastUnique(Cast(n, t), n, t);
  }

  /**
   * strconv.ParseInt for signed targets, ParseUint for unsigned ones, at the
   * target's bit size.
   */
  function ParseFor(s: string, t: IntKind): NumResult
  {
    if t.Signed() then ParseInt(s, t.Width()) else ParseUint(s, t.Width())
  }

  /** binary.Varint for signed targets, binary.Uvarint for unsigned ones. */
  function VarintFor(bs: seq<byte>, t: IntKind): (int, int)
  {
    if t.Signed() then Varint(bs) else Uvarint(bs)
  }

  /**
   * Value.Int ... Value.Uint64 on the datum `d`, for target `t`.
   * `parseFloat` is strconv.ParseFloat(s, 64) followed by truncation toward
   * zero: None when it fails. A float datum carries its truncation.
   */
  function ToInteger(d: Datum, t: IntKind, parseFloat: string -> Option<int>): (r: Outcome<int>)
    ensures r.err.Some? ==> r.value == 0
    ensures Representable(d) ==> InRange(r.value, t)
    ensures r.err.Some? ==> d.Nil? || d.Str? || d.Bytes? || r.err == Some(Unhandled(d))
  {
    match d
    case Nil => Outcome(0, Some(ValueIsNil))
    case Integer(k, n) => if k == t then Outcome(n, None) else Outcome(Cast(n, t), None)
    case Float(_, _, trunc) => Outcome(Cast(trunc, t), None)
    case Str(s) =>
      if Contains(s, ".") then
        (match parseFloat(s)
         case None => Outcome(0, Some(ParseFloatFailed(t, s)))
         case Some(f) => Outcome(Cast(f, t), None))
      else
        (match ParseFor(s, t)
         case Failed(e) => Outcome(0, Some(ParseNumber(t, s, e)))
         case Parsed(n) => Outcome(Cast(n, t), None))
    case Bool(b) => Outcome(if b then 1 else 0, None)
    case Bytes(bs) =>
      var (x, consumed) := VarintFor(bs, t);
      if consumed <= 0 then Outcome(0, Some(VarintFailed(t, consumed)))
      else Outcome(Cast(x, t), None)
    case _ => Outcome(0, Some(Unhandled(d)))
  }

  /** Value.MustInt ... Value.MustUint64: the result when there is no error, 0 otherwise. */
  function MustToInteger(d: Datum, t: IntKind, parseFloat: string -> Option<int>): (r: int)
    ensures r == ToInteger(d, t, parseFloat).value
    ensures !ToInteger(d, t, parseFloat).Ok() ==> r == 0
  {
    var o := ToInteger(d, t, parseFloat);
    if o.Ok() then o.value else 0
  }

  // ---- Properties ----

  /** Nil is an error for every target. */
  lemma NilIsError(t: IntKind, parseFloat: string -> Option<int>)
    ensures ToInteger(Nil, t, parseFloat) == Outcome(0, Some(ValueIsNil))
  {
  }

  /** A datum of the target type comes back unchanged. */
  lemma SameKindUnchanged(n: int, t: IntKind, parseFloat: string -> Option<int>)
    ensures ToInteger(Integer(t, n), t, parseFloat) == Outcome(n, None)
  {
  }

  /**
   * An integer of another type is converted without overflow check: the
   * result is the one value of the target type congruent to it modulo 2^N,
   * and the value itself when the target holds it.
   */
  lemma OtherKindWraps(k: IntKind, n: int, t: IntKind, parseFloat: string -> Option<int>)
    requires k != t
    ensures ToInteger(Integer(k, n), t, parseFloat).Ok()
    ensures forall x :: InRange(x, t) && x % t.Width().Modulus() == n % t.Width().Modulus() ==>
              ToInteger(Integer(k, n), t, parseFloat).value == x
    ensures InRange(n, t) ==> ToInteger(Integer(k, n), t, parseFloat).value == n
  {
    var r := ToInteger(Integer(k, n), t, parseFloat).value;
    forall x | InRange(x, t) && x % t.Width().Modulus() == n % t.Width().Modulus()
      ensures r == x
    {
      CastUnique(r, x, t);
    }
    if InRange(n, t) {
      CastInRange(n, t);
    }
  }

  /** A bool gives 1 or 0 at every width. */
  lemma BoolIsOneOrZero(b: bool, t: IntKind, parseFloat: string -> Option<int>)
    ensures ToInteger(Bool(b), t, parseFloat) == Outcome(if b then 1 else 0, None)
  {
  }

  /**
   * A string without "." and an unsigned target: accepted exactly when it is
   * a non-empty digit string whose value fits, giving that value; otherwise
   * an error with 0, never a wrapped value.
   */
  lemma UnsignedDecimal(s: string, t: IntKind, parseFloat: string -> Option<int>)
    requires !t.Signed() && !Contains(s, ".")
    ensures ToInteger(Str(s), t, parseFloat).Ok() <==> s != [] && AllDigits(s) && Decimal(s, 0) <= t.Max()
    ensures ToInteger(Str(s), t, parseFloat).Ok() ==> ToInteger(Str(s), t, parseFloat).value == Decimal(s, 0)
    ensures !ToInteger(Str(s), t, parseFloat).Ok() ==>
              exists e :: ToInteger(Str(s), t, parseFloat) == Outcome(0, Some(ParseNumber(t, s, e)))
  {
    ParseUintSpec(s, t.Width());
    if ParseUint(s, t.Width()).Parsed? {
      CastInRange(ParseUint(s, t.Width()).n, t);
    }
  }

  /**
   * A string without "." and a signed target: accepted exactly when it is an
   * optional sign and a non-empty digit string whose signed value fits,
   * giving that value; otherwise an error with 0.
   */
  lemma SignedDecimal(s: string, t: IntKind, parseFloat: string -> Option<int>)
    requires t.Signed() && !Contains(s, ".")
    ensures ToInteger(Str(s), t, parseFloat).Ok() <==>
              && s != [] && SignedBody(s) != [] && AllDigits(SignedBody(s))
              && (if s[0] == '-' then -(Decimal(SignedBody(s), 0) as int) >= t.Min()
                  else Decimal(SignedBody(s), 0) <= t.Max())
    ensures ToInteger(Str(s), t, parseFloat).Ok() ==>
              ToInteger(Str(s), t, parseFloat).value ==
                (if s[0] == '-' then -(Decimal(SignedBody(s), 0) as int) else Decimal(SignedBody(s), 0))
    ensures !ToInteger(Str(s), t, parseFloat).Ok() ==>
              exists e :: ToInteger(Str(s), t, parseFloat) == Outcome(0, Some(ParseNumber(t, s, e)))
  {
    ParseIntSpec(s, t.Width());
    if ParseInt(s, t.Width()).Parsed? {
      CastInRange(ParseInt(s, t.Width()).n, t);
    }
  }

  /** The decimal form of a number contains no ".". */
  lemma FormatIntNoDot(n: int)
    ensures !Contains(FormatInt(n), ".")
  {
    var s := FormatInt(n);
    FormatIntShape(n);
    forall i | 0 <= i < |s|
      ensures s[i] != '.'
    {
      if n < 0 && i > 0 {
        assert s[1..][i - 1] == s[i];
      }
    }
    AbsentRune(s, '.');
  }

  /** The decimal form of any value of the target type converts back to that value. */
  lemma DecimalRoundTrip(n: int, t: IntKind, parseFloat: string -> Option<int>)
    requires InRange(n, t)
    ensures ToInteger(Str(FormatInt(n)), t, parseFloat) == Outcome(n, None)
  {
    FormatIntNoDot(n);
    if t.Signed() {
      ParseIntFormat(n, t.Width());
    } else {
      ParseUintFormat(n, t.Width());
    }
    CastInRange(n, t);
  }

  /** "123" gives 123 at every width. */
  lemma DecimalExample(t: IntKind, parseFloat: string -> Option<int>)
    ensures ToInteger(Str("123"), t, parseFloat) == Outcome(123, None)
  {
    assert FormatInt(123) == "123" by {
      assert FormatNat(1) == "1";
      assert FormatNat(12) == "12";
    }
    DecimalRoundTrip(123, t, parseFloat);
  }

  /**
   * A byte slice converts exactly when the varint decoder consumes at least
   * one byte; otherwise the error carries the decoder's count.
   */
  lemma BytesNeedVarint(bs: seq<byte>, t: IntKind, parseFloat: string -> Option<int>)
    ensures ToInteger(Bytes(bs), t, parseFloat).Ok() <==> VarintFor(bs, t).1 > 0
    ensures !ToInteger(Bytes(bs), t, parseFloat).Ok() ==>
              ToInteger(Bytes(bs), t, parseFloat).err == Some(VarintFailed(t, VarintFor(bs, t).1))
  {
  }

  /** The empty byte slice is an error: the decoder consumes nothing. */
  lemma EmptyBytesFail(t: IntKind, parseFloat: string -> Option<int>)
    ensures ToInteger(Bytes([]), t, parseFloat) == Outcome(0, Some(VarintFailed(t, 0)))
  {
  }

  /** For a signed target the bytes are a zig-zag varint: every value of the type reads back. */
  lemma SignedVarintRoundTrip(x: int, rest: seq<byte>, t: IntKind, parseFloat: string -> Option<int>)
    requires t.Signed() && InRange(x, t)
    ensures ToInteger(Bytes(PutVarint(x) + rest), t, parseFloat) == Outcome(x, None)
  {
    assert t.Width().Modulus() <= 0x1_0000_0000_0000_0000;
    VarintRoundTrip(x, rest);
    CastInRange(x, t);
  }

  /** For an unsigned target the bytes are a plain varint: every value of the type reads back. */
  lemma UnsignedVarintRoundTrip(x: nat, rest: seq<byte>, t: IntKind, parseFloat: string -> Option<int>)
    requires !t.Signed() && InRange(x, t)
    ensures ToInteger(Bytes(PutUvarint(x) + rest), t, parseFloat) == Outcome(x, None)
  {
    UvarintRoundTrip(x, rest);
    CastInRange(x, t);
  }

  /** The bytes 9c 85 e3 0b 00 00 00 00 give 12345678 as an int. */
  lemma VarintBytesExample(parseFloat: string -> Option<int>)
    ensures ToInteger(Bytes([0x9c, 0x85, 0xe3, 0x0b, 0, 0, 0, 0]), Int, parseFloat) == Outcome(12345678, None)
  {
    VarintExample();
    CastInRange(12345678, Int);
  }

  /** Every kind the converters do not handle is ErrUnhandled carrying the datum. */
  lemma UnhandledKinds(d: Datum, t: IntKind, parseFloat: string -> Option<int>)
    requires d.Slice? || d.MapD? || d.Struct? || d.Pointer? || d.NilPointer? || d.Other?
    ensures ToInteger(d, t, parseFloat) == Outcome(0, Some(Unhandled(d)))
  {
  }

  /** The Must variant is the value half of the converter: 0 on every error. */
  lemma MustIsValueHalf(d: Datum, t: IntKind, parseFloat: string -> Option<int>)
    ensures MustToInteger(d, t, parseFloat) == ToInteger(d, t, parseFloat).value
    ensures ToInteger(d, t, parseFloat).Ok() ==> ToInteger(d, t, parseFloat).value == MustToInteger(d, t, parseFloat)
  {
  }
}
