/**
 * The parts of Go's `strconv` package that dataparse calls: ParseUint and
 * ParseInt in base 10, ParseBool, and the decimal formatting that `%v` and
 * strconv.Itoa use for integers.
 */
module Strconv {
  import opened Types

  /** What a number parser returns: the parsed value or the kind of failure. */
  datatype NumResult = Parsed(n: int) | Failed(kind: NumErrorKind)

  const MaxUint64: nat := 0xFFFF_FFFF_FFFF_FFFF

  /** strconv's guard against overflow of n * 10 in 64 bits. */
  const Cutoff: nat := MaxUint64 / 10 + 1

  predicate IsDigit(c: char)
  {
    '0' <= c <= '9'
  }

  predicate AllDigits(s: string)
  {
    forall i :: 0 <= i < |s| ==> IsDigit(s[i])
  }

  function DigitValue(c: char): (d: nat)
    requires IsDigit(c)
    ensures d < 10
  {
    c as int - '0' as int
  }

  function DigitChar(d: nat): (c: char)
    requires d < 10
    ensures IsDigit(c) && DigitValue(c) == d
  {
    ('0' as int + d) as char
  }

  /** The number a digit string denotes, read from the left onto `acc`. */
  function Decimal(s: string, acc: nat): nat
    requires AllDigits(s)
  {
    if s == [] then acc else Decimal(s[1..], acc * 10 + DigitValue(s[0]))
  }

  /**
   * The digit loop of strconv.ParseUint for base 10, going on from the value
   * `n` read so far. A rune that is not a digit is a syntax error; the first
   * step that would leave the range is a range error. Go's check
   * `n1 < n || n1 > maxVal` after `n1 := n*10 + d` in 64-bit arithmetic is
   * `n*10 + d > maxVal` over the integers, because maxVal < 2^64.
   */
  function UintLoop(s: string, n: nat, maxVal: nat): (r: NumResult)
    requires n <= maxVal
    ensures r.Parsed? ==> n <= r.n <= maxVal
    decreases |s|
  {
    if s == [] then Parsed(n)
    else if !IsDigit(s[0]) then Failed(NumSyntax)
    else if n >= Cutoff then Failed(NumRange)
    else
      var n1 := n * 10 + DigitValue(s[0]);
      if n1 > maxVal then Failed(NumRange) else UintLoop(s[1..], n1, maxVal)
  }

  /** strconv.ParseUint(s, 10, bits). */
  function ParseUint(s: string, w: Width): (r: NumResult)
    ensures r.Parsed? ==> 0 <= r.n < w.Modulus()
  {
    if s == [] then Failed(NumSyntax) else UintLoop(s, 0, w.Modulus() - 1)
  }

  /**
   * strconv.ParseInt(s, 10, bits): an optional sign, then ParseUint at the
   * same bit size, then the signed range check. A range error from ParseUint
   * stays a range error, since its value maxVal is past the signed cutoff.
   */
  function ParseInt(s: string, w: Width): (r: NumResult)
    ensures r.Parsed? ==> -(w.Modulus() / 2) <= r.n < w.Modulus() / 2
  {
    if s == [] then Failed(NumSyntax)
    else
      var neg := s[0] == '-';
      match ParseUint(SignedBody(s), w)
      case Failed(e) => Failed(e)
      case Parsed(un) =>
        var cutoff := w.Modulus() / 2;
        if !neg && un >= cutoff then Failed(NumRange)
        else if neg && un > cutoff then Failed(NumRange)
        else Parsed(if neg then -un else un)
  }

  /** What ParseInt reads as digits: the text after an optional sign. */
  function SignedBody(s: string): string
    requires s != []
  {
    if s[0] == '+' || s[0] == '-' then s[1..] else s
  }

  /** The decimal digits of a natural number, most significant first. */
  function FormatNat(n: nat): (s: string)
    ensures s != [] && AllDigits(s)
    decreases n
  {
    if n < 10 then [DigitChar(n)] else FormatNat(n / 10) + [DigitChar(n % 10)]
  }

  /** strconv.Itoa and `%v` on an integer: "-" for negatives, then the digits. */
  function FormatInt(n: int): string
  {
    if n < 0 then "-" + FormatNat(-n) else FormatNat(n)
  }

  /** strconv.ParseBool: the accepted spellings, None for a syntax error. */
  function ParseBool(s: string): (r: Option<bool>)
  {
    if s in ["1", "t", "T", "TRUE", "true", "True"] then Some(true)
    else if s in ["0", "f", "F", "FALSE", "false", "False"] then Some(false)
    else None
  }

  // ---- Properties ----

  lemma {:induction false} DecimalAtLeast(s: string, acc: nat)
    requires AllDigits(s)
    ensures Decimal(s, acc) >= acc
    ensures s != [] ==> Decimal(s, acc) >= acc * 10
    decreases |s|
  {
    if s != [] {
      DecimalAtLeast(s[1..], acc * 10 + DigitValue(s[0]));
    }
  }

  lemma {:induction false} DecimalSnoc(s: string, c: char, acc: nat)
    requires AllDigits(s) && IsDigit(c)
    ensures AllDigits(s + [c])
    ensures Decimal(s + [c], acc) == Decimal(s, acc) * 10 + DigitValue(c)
    decreases |s|
  {
    if s == [] {
      assert s + [c] == [c];
    } else {
      assert (s + [c])[1..] == s[1..] + [c];
      DecimalSnoc(s[1..], c, acc * 10 + DigitValue(s[0]));
    }
  }

  /** On digits, the loop succeeds exactly when the number stays in range, and then gives that number. */
  lemma {:induction false} UintLoopDigits(s: string, n: nat, maxVal: nat)
    requires AllDigits(s) && n <= maxVal <= MaxUint64
    ensures UintLoop(s, n, maxVal).Parsed? <==> Decimal(s, n) <= maxVal
    ensures UintLoop(s, n, maxVal).Parsed? ==> UintLoop(s, n, maxVal).n == Decimal(s, n)
    ensures UintLoop(s, n, maxVal).Failed? ==> UintLoop(s, n, maxVal).kind == NumRange
    decreases |s|
  {
    if s != [] {
      DecimalAtLeast(s, n);
      var n1 := n * 10 + DigitValue(s[0]);
      DecimalAtLeast(s[1..], n1);
      if n < Cutoff && n1 <= maxVal {
        UintLoopDigits(s[1..], n1, maxVal);
      }
    }
  }

  /** A rune that is not a digit always makes the loop fail. */
  lemma {:induction false} UintLoopNonDigit(s: string, n: nat, maxVal: nat)
    requires !AllDigits(s) && n <= maxVal
    ensures UintLoop(s, n, maxVal).Failed?
    decreases |s|
  {
    if IsDigit(s[0]) && n < Cutoff && n * 10 + DigitValue(s[0]) <= maxVal {
      assert !AllDigits(s[1..]) by {
        var i :| 0 <= i < |s| && !IsDigit(s[i]);
        assert i > 0 && s[1..][i - 1] == s[i];
      }
      UintLoopNonDigit(s[1..], n * 10 + DigitValue(s[0]), maxVal);
    }
  }

  /**
   * ParseUint accepts exactly the non-empty digit strings whose value fits
   * the bit size, and returns that value; failure is never a wrapped value.
   */
  lemma ParseUintSpec(s: string, w: Width)
    ensures ParseUint(s, w).Parsed? <==> s != [] && AllDigits(s) && Decimal(s, 0) < w.Modulus()
    ensures ParseUint(s, w).Parsed? ==> ParseUint(s, w).n == Decimal(s, 0)
  {
    if s != [] {
      if AllDigits(s) {
        UintLoopDigits(s, 0, w.Modulus() - 1);
      } else {
        UintLoopNonDigit(s, 0, w.Modulus() - 1);
      }
    }
  }

  /**
   * ParseInt accepts exactly an optional sign followed by a non-empty digit
   * string whose signed value fits the bit size, and returns that value.
   */
  lemma ParseIntSpec(s: string, w: Width)
    ensures ParseInt(s, w).Parsed? <==>
              && s != [] && SignedBody(s) != [] && AllDigits(SignedBody(s))
              && (if s[0] == '-' then Decimal(SignedBody(s), 0) <= w.Modulus() / 2
                  else Decimal(SignedBody(s), 0) < w.Modulus() / 2)
    ensures ParseInt(s, w).Parsed? ==>
              ParseInt(s, w).n == (if s[0] == '-' then -(Decimal(SignedBody(s), 0) as int) else Decimal(SignedBody(s), 0))
  {
    if s != [] {
      ParseUintSpec(SignedBody(s), w);
    }
  }

  lemma {:induction false} DecimalFormatNat(n: nat)
    ensures Decimal(FormatNat(n), 0) == n
    decreases n
  {
    if n >= 10 {
      DecimalFormatNat(n / 10);
      DecimalSnoc(FormatNat(n / 10), DigitChar(n % 10), 0);
    }
  }

  /** Parsing the decimal form of an unsigned number in range gives the number back. */
  lemma ParseUintFormat(n: nat, w: Width)
    requires n < w.Modulus()
    ensures ParseUint(FormatNat(n), w) == Parsed(n)
  {
    DecimalFormatNat(n);
    ParseUintSpec(FormatNat(n), w);
  }

  /** Parsing the decimal form of a signed number in range gives the number back. */
  lemma ParseIntFormat(n: int, w: Width)
    requires -(w.Modulus() / 2) <= n < w.Modulus() / 2
    ensures ParseInt(FormatInt(n), w) == Parsed(n)
  {
    var s := FormatInt(n);
    if n < 0 {
      ParseUintFormat(-n, w);
      assert s[1..] == FormatNat(-n);
    } else {
      ParseUintFormat(n, w);
      assert s[0] != '-' && s[0] != '+';
    }
  }

  /** The decimal form: a "-" exactly for negatives, then digits denoting the magnitude. */
  lemma FormatIntShape(n: int)
    ensures FormatInt(n) != []
    ensures (FormatInt(n)[0] == '-') <==> n < 0
    ensures n < 0 ==> AllDigits(FormatInt(n)[1..]) && Decimal(FormatInt(n)[1..], 0) == -n
    ensures n >= 0 ==> AllDigits(FormatInt(n)) && Decimal(FormatInt(n), 0) == n
  {
    if n < 0 {
      DecimalFormatNat(-n);
      assert FormatInt(n)[1..] == FormatNat(-n);
    } else {
      DecimalFormatNat(n);
      assert IsDigit(FormatInt(n)[0]);
    }
  }

  /** ParseBool on lower-case text accepts only "1", "t", "true", "0", "f" and "false". */
  lemma ParseBoolLower(s: string)
    requires forall i :: 0 <= i < |s| ==> !('A' <= s[i] <= 'Z')
    ensures ParseBool(s) == Some(true) <==> s in ["1", "t", "true"]
    ensures ParseBool(s) == Some(false) <==> s in ["0", "f", "false"]
  {
    assert |s| > 0 ==> !('A' <= s[0] <= 'Z');
  }
}
