/**
 * The data model shared by every part of dataparse: the dynamically typed
 * datum a `Value` holds, the error values of errors.go, the `Value` struct
 * of value.go and Go's two-result convention `(T, error)`.
 */
module Types {

  datatype Option<+T> = None | Some(value: T)

  /** Bit widths of Go's integer types. */
  datatype Width = W8 | W16 | W32 | W64
  {
    function Bits(): nat
    {
      match this
      case W8 => 8
      case W16 => 16
      case W32 => 32
      case W64 => 64
    }

    /** 2^Bits(). */
    function Modulus(): nat
    {
      match this
      case W8 => 0x100
      case W16 => 0x1_0000
      case W32 => 0x1_0000_0000
      case W64 => 0x1_0000_0000_0000_0000
    }
  }

  /**
   * The ten integer types of Go. `int` and `uint` are 64 bits wide on the
   * platforms the generator targets; `byte` is `uint8` and `rune` is `int32`.
   */
  datatype IntKind = Int | Int8 | Int16 | Int32 | Int64 | Uint | Uint8 | Uint16 | Uint32 | Uint64
  {
    predicate Signed()
    {
      match this
      case Int | Int8 | Int16 | Int32 | Int64 => true
      case _ => false
    }

    function Width(): Width
    {
      match this
      case Int8 | Uint8 => W8
      case Int16 | Uint16 => W16
      case Int32 | Uint32 => W32
      case Int | Int64 | Uint | Uint64 => W64
    }

    /** Smallest value of the type. */
    function Min(): int
    {
      if Signed() then -(Width().Modulus() / 2) else 0
    }

    /** Largest value of the type. */
    function Max(): int
    {
      if Signed() then Width().Modulus() / 2 - 1 else Width().Modulus() - 1
    }
  }

  predicate InRange(n: int, k: IntKind)
  {
    k.Min() <= n <= k.Max()
  }

  datatype FloatKind = Float32 | Float64

  type byte = b: int | 0 <= b < 0x100

  /** What reflection tells about one declared field of a struct type. */
  datatype FieldDecl = FieldDecl(name: string, exported: bool, tag: Option<string>)

  /**
   * One dynamically typed Go datum, as stored in an `any`.
   * `Nil` is the untyped nil interface; `NilPointer` a typed nil pointer,
   * which Go does not consider equal to nil. `Bytes` is a `[]byte`, `Slice`
   * any other slice. A float is opaque: it carries its `%v` text and its value
   * truncated toward zero. `Other` stands for every type the conversions do
   * not handle (named types, channels, ...), with its type name and `%v` text.
   */
  datatype Datum =
    | Nil
    | Integer(kind: IntKind, n: int)
    | Float(fkind: FloatKind, text: string, trunc: int)
    | Str(s: string)
    | Bool(b: bool)
    | Bytes(bytes: seq<byte>)
    | Slice(elems: seq<Datum>)
    | MapD(entries: map<Datum, Datum>)
    | Struct(fields: seq<Field>)
    | Pointer(target: Datum)
    | NilPointer
    | Other(typeName: string, text: string)

  /** A field of a struct datum: its declaration and its current content. */
  datatype Field = Field(decl: FieldDecl, value: Datum)

  /** A Go integer datum always holds a value of its type. */
  predicate Representable(d: Datum)
  {
    d.Integer? ==> InRange(d.n, d.kind)
  }

  /** The two failures of strconv's number parsers. */
  datatype NumErrorKind = NumSyntax | NumRange

  /** The errors the core returns (errors.go and the wrapped errors of the converters). */
  datatype Error =
    | ValueIsNil
    | ValueIsNotPointer
    | Unhandled(value: Datum)
    | NoValidKey(keys: seq<Datum>)
    | NotMapOrStruct(value: Datum)
    | ParseNumber(target: IntKind, text: string, cause: NumErrorKind)
    | ParseFloatFailed(target: IntKind, text: string)
    | VarintFailed(target: IntKind, consumed: int)
    | ParseBoolFailed(text: string)
    | TimeTooBig(u: int)
    | TimeParseFailed(text: string)
    | FieldGet(field: string, inner: Error)
    | FieldSet(field: string, inner: Error)
    | Panicked

  /** Go's `(T, error)` pair: both halves always exist. */
  datatype Outcome<+T> = Outcome(value: T, err: Option<Error>)
  {
    predicate Ok()
    {
      err.None?
    }
  }

  /** The `Value` struct: exactly one datum. */
  datatype Value = Value(data: Datum)

  function NewValue(data: Datum): (v: Value)
    ensures v.data == data
  {
    Value(data)
  }

  function IsNil(v: Value): (r: bool)
    ensures r <==> v.data == Nil
  {
    v.data.Nil?
  }

  /** The data reflect sees as slices: a `[]any` and a `[]byte`. */
  predicate IsSliceKind(d: Datum)
  {
    d.Slice? || d.Bytes?
  }

  /** The elements of a slice datum; those of a `[]byte` are uint8 values. */
  function Elements(d: Datum): (es: seq<Datum>)
    requires IsSliceKind(d)
    ensures d.Slice? ==> es == d.elems
    ensures d.Bytes? ==> |es| == |d.bytes| && forall i :: 0 <= i < |es| ==> es[i] == Integer(Uint8, d.bytes[i])
  {
    if d.Slice? then d.elems else seq(|d.bytes|, i requires 0 <= i < |d.bytes| => Integer(Uint8, d.bytes[i]))
  }
}
