/**
 * binary.Uvarint and binary.Varint from Go's `encoding/binary`, which the
 * integer conversions use on byte slices, with the encoders that invert them.
 * The unsigned form is the unsigned LEB128 encoding (section 7.6 of DWARF
 * Debugging Information Format v4): 7 bits per byte, least significant group
 * first, high bit set on every byte but the last. The signed form zig-zags the
 * number onto the unsigned one.
 */
module Binary {
  import opened Types

  const MaxVarintLen64: nat := 10
  const MaxUint64: nat := 0xFFFF_FFFF_FFFF_FFFF

  function Pow128(i: nat): (r: nat)
    ensures r >= 1
  {
    if i == 0 then 1 else 128 * Pow128(i - 1)
  }

  /** A byte that ends a varint: its continuation bit is clear. */
  predicate Last(b: byte)
  {
    b < 0x80
  }

  /**
   * The loop of binary.Uvarint from byte `i` on, `x` being the value of the
   * groups read so far. Returns the value and the number of bytes consumed:
   * 0 when the buffer ends before the last byte, -(i+1) when byte i makes
   * the value overflow 64 bits. `x | b<<s` is `x + b * 128^i` because the
   * groups occupy disjoint bits and, on every path that returns the value,
   * fit in 64 bits.
   */
  function UvarintFrom(buf: seq<byte>, i: nat, x: nat): (r: (int, int))
    requires i <= |buf| && i <= MaxVarintLen64 && x < Pow128(i)
    ensures r.1 > 0 ==> i < r.1 <= |buf| && r.1 <= MaxVarintLen64 && 0 <= r.0 <= MaxUint64
    ensures r.1 <= 0 ==> r.0 == 0 && r.1 >= -(MaxVarintLen64 as int + 1)
    ensures r.1 > 0 ==> Last(buf[r.1 - 1]) && forall j :: i <= j < r.1 - 1 ==> !Last(buf[j])
    ensures r.1 == 0 ==> |buf| <= MaxVarintLen64 && forall j :: i <= j < |buf| ==> !Last(buf[j])
    decreases |buf| - i
  {
    if i == |buf| then (0, 0)
    else if i == MaxVarintLen64 then (0, -(i + 1))
    else if Last(buf[i]) then
      if i == MaxVarintLen64 - 1 && buf[i] > 1 then (0, -(i + 1))
      else
        GroupBound(x, buf[i], i);
        (x + buf[i] * Pow128(i), i + 1)
    else
      GroupFits(x, buf[i] - 0x80, i);
      UvarintFrom(buf, i + 1, x + (buf[i] - 0x80) * Pow128(i))
  }

  /** binary.Uvarint(buf): the value and the count of bytes consumed (0 or less on failure). */
  function Uvarint(buf: seq<byte>): (r: (int, int))
  {
    UvarintFrom(buf, 0, 0)
  }

  /** Zig-zag decoding: even numbers are the non-negatives, odd ones the negatives. */
  function ZigZagDecode(ux: nat): int
  {
    if ux % 2 == 0 then ux / 2 else -(ux / 2) - 1
  }

  function ZigZagEncode(x: int): nat
  {
    if x >= 0 then 2 * x else -2 * x - 1
  }

  /** binary.Varint(buf): Uvarint followed by zig-zag decoding; the count is Uvarint's. */
  function Varint(buf: seq<byte>): (r: (int, int))
    ensures r.1 == Uvarint(buf).1
    ensures r.1 > 0 ==> -0x8000_0000_0000_0000 <= r.0 < 0x8000_0000_0000_0000
    ensures r.1 <= 0 ==> r.0 == 0
  {
    var (ux, n) := Uvarint(buf);
    (ZigZagDecode(ux), n)
  }

  /** binary.PutUvarint: the bytes of `x`, least significant group first. */
  function PutUvarint(x: nat): (bs: seq<byte>)
    ensures |bs| >= 1
    decreases x
  {
    if x < 0x80 then [x] else [x % 0x80 + 0x80] + PutUvarint(x / 0x80)
  }

  /** binary.PutVarint: zig-zag, then PutUvarint. */
  function PutVarint(x: int): seq<byte>
  {
    PutUvarint(ZigZagEncode(x))
  }

  // ---- Arithmetic helpers ----

  lemma Pow128Values()
    ensures Pow128(9) == 0x8000_0000_0000_0000
    ensures Pow128(10) == 0x40_0000_0000_0000_0000
  {
    assert Pow128(1) == 0x80;
    assert Pow128(2) == 0x4000;
    assert Pow128(3) == 0x20_0000;
    assert Pow128(4) == 0x1000_0000;
    assert Pow128(5) == 0x8_0000_0000;
    assert Pow128(6) == 0x400_0000_0000;
    assert Pow128(7) == 0x2_0000_0000_0000;
    assert Pow128(8) == 0x100_0000_0000_0000;
    assert Pow128(9) == 0x8000_0000_0000_0000;
  }

  lemma {:induction false} Pow128Mono(i: nat, j: nat)
    requires i <= j
    ensures Pow128(i) <= Pow128(j)
    decreases j - i
  {
    if i < j {
      Pow128Mono(i, j - 1);
    }
  }

  lemma MulBound(a: nat, b: nat, p: nat)
    requires a <= b
    ensures a * p <= b * p
  {
  }

  /** A further group keeps the value below the next power of 128. */
  lemma GroupFits(x: nat, g: nat, i: nat)
    requires x < Pow128(i) && g < 0x80
    ensures x + g * Pow128(i) < Pow128(i + 1)
  {
    MulBound(g, 127, Pow128(i));
  }

  /** A last group at byte i < 9, or at byte 9 with value at most 1, fits in 64 bits. */
  lemma GroupBound(x: nat, b: nat, i: nat)
    requires i < MaxVarintLen64 && x < Pow128(i) && b < 0x80
    requires i == MaxVarintLen64 - 1 ==> b <= 1
    ensures x + b * Pow128(i) <= MaxUint64
  {
    Pow128Values();
    if i < 9 {
      GroupFits(x, b, i);
      Pow128Mono(i + 1, 9);
    } else {
      MulBound(b, 1, Pow128(i));
    }
  }

  // ---- Round trips ----

  /** A value past one group at byte i fills byte i+1 too, which must lie within the ten bytes to fit in 64 bits. */
  lemma MoreGroups(x: nat, y: nat, i: nat)
    requires x < Pow128(i) && y >= 0x80 && x + y * Pow128(i) <= MaxUint64
    ensures i + 1 < MaxVarintLen64
    ensures x + (y % 0x80) * Pow128(i) < Pow128(i + 1)
    ensures y * Pow128(i) == (y % 0x80) * Pow128(i) + (y / 0x80) * Pow128(i + 1)
  {
    var p := Pow128(i);
    Pow128Values();
    MulBound(0x80, y, p);
    if i + 1 >= MaxVarintLen64 {
      Pow128Mono(MaxVarintLen64, i + 1);
      assert false;
    }
    assert y == (y / 0x80) * 0x80 + y % 0x80;
    assert Pow128(i + 1) == 0x80 * p;
    GroupFits(x, y % 0x80, i);
  }

  /** The last group at byte 9 can only be 0 or 1 when the value fits in 64 bits. */
  lemma LastGroupSmall(x: nat, y: nat, i: nat)
    requires i == MaxVarintLen64 - 1 && x + y * Pow128(i) <= MaxUint64
    ensures y <= 1
  {
    Pow128Values();
    if y > 1 {
      MulBound(2, y, Pow128(i));
    }
  }

  /**
   * Decoding from byte i a buffer that holds the encoding of `y` there adds
   * y's groups above the `x` already read, provided the total fits in 64 bits.
   */
  lemma {:induction false} UvarintFromEncoding(buf: seq<byte>, i: nat, x: nat, y: nat)
    requires i < MaxVarintLen64 && x < Pow128(i)
    requires i + |PutUvarint(y)| <= |buf| && buf[i..i + |PutUvarint(y)|] == PutUvarint(y)
    requires x + y * Pow128(i) <= MaxUint64
    ensures UvarintFrom(buf, i, x) == (x + y * Pow128(i), i + |PutUvarint(y)|)
    decreases y
  {
    var e := PutUvarint(y);
    assert buf[i] == e[0];
    if y < 0x80 {
      if i == MaxVarintLen64 - 1 {
        LastGroupSmall(x, y, i);
      }
    } else {
      MoreGroups(x, y, i);
      var y' := y / 0x80;
      var x' := x + (y % 0x80) * Pow128(i);
      assert e[1..] == PutUvarint(y');
      assert buf[i + 1..i + 1 + |PutUvarint(y')|] == e[1..];
      UvarintFromEncoding(buf, i + 1, x', y');
    }
  }

  /** Uvarint reads back what PutUvarint wrote, whatever follows it. */
  lemma UvarintRoundTrip(x: nat, rest: seq<byte>)
    requires x <= MaxUint64
    ensures Uvarint(PutUvarint(x) + rest) == (x, |PutUvarint(x)|)
  {
    var buf := PutUvarint(x) + rest;
    assert buf[0..|PutUvarint(x)|] == PutUvarint(x);
    UvarintFromEncoding(buf, 0, 0, x);
  }

  lemma ZigZagRoundTrip(x: int)
    ensures ZigZagDecode(ZigZagEncode(x)) == x
  {
  }

  /** Varint reads back what PutVarint wrote for every 64-bit signed number. */
  lemma VarintRoundTrip(x: int, rest: seq<byte>)
    requires -0x8000_0000_0000_0000 <= x < 0x8000_0000_0000_0000
    ensures Varint(PutVarint(x) + rest) == (x, |PutVarint(x)|)
  {
    UvarintRoundTrip(ZigZagEncode(x), rest);
  }

  /** The byte slice of dataparse's own test decodes to 12345678, consuming four bytes. */
  lemma VarintExample()
    ensures Varint([0x9c, 0x85, 0xe3, 0x0b, 0, 0, 0, 0]) == (12345678, 4)
  {
    assert PutUvarint(11) == [0x0b];
    assert PutUvarint(1507) == [0xe3, 0x0b];
    assert PutUvarint(192901) == [0x85, 0xe3, 0x0b];
    assert PutVarint(12345678) == [0x9c, 0x85, 0xe3, 0x0b];
    VarintRoundTrip(12345678, [0, 0, 0, 0]);
    assert [0x9c, 0x85, 0xe3, 0x0b] + [0, 0, 0, 0] == [0x9c, 0x85, 0xe3, 0x0b, 0, 0, 0, 0];
  }
}
