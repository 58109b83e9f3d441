/**
 * valueTime.go: Value.Time, which reads integers as Unix seconds and hands
 * strings to ParseTime (time.go).
 */
module ValueTime {
  import opened Types
  import ValueNumbers

  /** A time.Time, as its Unix second count; sub-second parts never arise here. */
  datatype Instant = Instant(unix: int)

  /** time.Time{}, 1 January of year 1, UTC. */
  const ZeroTime: Instant := Instant(-62135596800)

  const MaxInt64: int := 0x7FFF_FFFF_FFFF_FFFF

  /**
   * ParseTime: the first layout of ParseTimeFormats that `parse` accepts, or
   * the zero time and an error. `parse` stands for time.Parse tried over the
   * layouts in order.
   */
  function ParseTime(s: string, parse: string -> Option<Instant>): (r: Outcome<Instant>)
    ensures r.Ok() <==> parse(s).Some?
    ensures r.err.Some? ==> r == Outcome(ZeroTime, Some(TimeParseFailed(s)))
  {
    match parse(s)
    case Some(t) => Outcome(t, None)
    case None => Outcome(ZeroTime, Some(TimeParseFailed(s)))
  }

  /** Value.Time. */
  function Time(v: Value, parse: string -> Option<Instant>): (r: Outcome<Instant>)
    ensures r.err.Some? ==> r.value == ZeroTime
    ensures !v.data.Str? && r.err.Some? ==> v.data.Integer? && !v.data.kind.Signed() && v.data.n > MaxInt64
  {
    match v.data
    case Integer(k, n) =>
      if k.Signed() then Outcome(Instant(n), None)
      else if n > MaxInt64 then Outcome(ZeroTime, Some(TimeTooBig(n)))
      else Outcome(Instant(n), None)
    case Float(_, _, trunc) => Outcome(Instant(ValueNumbers.Cast(trunc, Int64)), None)
    case Str(s) => ParseTime(s, parse)
    case _ => Outcome(ZeroTime, None)
  }

  /** Value.MustTime: Time without its error. */
  function MustTime(v: Value, parse: string -> Option<Instant>): (r: Instant)
    ensures r == Time(v, parse).value
    ensures !Time(v, parse).Ok() ==> r == ZeroTime
  {
    Time(v, parse).value
  }

  // ---- Properties ----

  /** A signed integer of any width is that many Unix seconds. */
  lemma SignedIsUnixSeconds(k: IntKind, n: int, parse: string -> Option<Instant>)
    requires k.Signed()
    ensures Time(Value(Integer(k, n)), parse) == Outcome(Instant(n), None)
  {
  }

  /**
   * An unsigned integer is that many Unix seconds up to MaxInt64, and above
   * it an error with the zero time, never a wrapped count.
   */
  lemma UnsignedBound(k: IntKind, n: int, parse: string -> Option<Instant>)
    requires !k.Signed() && n >= 0
    ensures Time(Value(Integer(k, n)), parse).Ok() <==> n <= MaxInt64
    ensures n <= MaxInt64 ==> Time(Value(Integer(k, n)), parse).value == Instant(n)
    ensures n > MaxInt64 ==> Time(Value(Integer(k, n)), parse) == Outcome(ZeroTime, Some(TimeTooBig(n)))
  {
  }

  /** Unsigned types narrower than 64 bits always fit. */
  lemma NarrowUnsignedFits(k: IntKind, n: int, parse: string -> Option<Instant>)
    requires !k.Signed() && k.Width() != W64 && InRange(n, k)
    ensures Time(Value(Integer(k, n)), parse) == Outcome(Instant(n), None)
  {
  }

  /** A string goes to ParseTime, whose result and error come back unchanged. */
  lemma StringIsParsed(s: string, parse: string -> Option<Instant>)
    ensures Time(Value(Str(s)), parse) == ParseTime(s, parse)
  {
  }

  /** Every other datum, nil included, is the zero time without error. */
  lemma OthersAreZero(d: Datum, parse: string -> Option<Instant>)
    requires !d.Integer? && !d.Float? && !d.Str?
    ensures Time(Value(d), parse) == Outcome(ZeroTime, None)
  {
  }

  /** A float is its truncation toward zero, in seconds. */
  lemma FloatTruncates(fk: FloatKind, text: string, trunc: int, parse: string -> Option<Instant>)
    requires InRange(trunc, Int64)
    ensures Time(Value(Float(fk, text, trunc)), parse) == Outcome(Instant(trunc), None)
  {
    ValueNumbers.CastInRange(trunc, Int64);
  }
}
