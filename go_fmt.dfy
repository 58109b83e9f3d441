/**
 * The text forms dataparse produces through Go's `fmt` and `reflect`:
 * the `%v` verb of fmt.Sprintf, the conversion `string(r)` of a rune, and
 * reflect.Value.String.
 */
module Fmt {
  import opened Types
  import opened GoStrings
  import opened Strconv

  /** `%v` of a `[]byte`: "[" then the bytes in decimal, space-separated, then "]". */
  function SprintBytes(bs: seq<byte>): string
  {
    "[" + Join(seq(|bs|, i requires 0 <= i < |bs| => FormatInt(bs[i])), " ") + "]"
  }

  /**
   * fmt.Sprintf("%v", d). `top` tells whether `d` is the operand itself:
   * only there does a pointer to a struct, slice or map print as "&" and its
   * target; deeper pointers, like maps, print forms this model does not
   * compute (an address, the sorted entries) and stand as fixed placeholders.
   */
  function SprintAt(d: Datum, top: bool): string
    decreases d
  {
    match d
    case Nil => "<nil>"
    case Integer(_, n) => FormatInt(n)
    case Float(_, text, _) => text
    case Str(s) => s
    case Bool(b) => if b then "true" else "false"
    case Bytes(bs) => SprintBytes(bs)
    case Slice(elems) =>
      "[" + Join(seq(|elems|, i requires 0 <= i < |elems| => SprintAt(elems[i], false)), " ") + "]"
    case MapD(_) => "map[...]"
    case Struct(fields) =>
      "{" + Join(seq(|fields|, i requires 0 <= i < |fields| => SprintAt(fields[i].value, false)), " ") + "}"
    case Pointer(target) =>
      if top && (target.Struct? || target.Slice? || target.Bytes? || target.MapD?)
      then "&" + SprintAt(target, false)
      else "0x..."
    case NilPointer => "<nil>"
    case Other(_, text) => text
  }

  function Sprint(d: Datum): string
  {
    SprintAt(d, true)
  }

  /** A number that is a Unicode scalar value, the runes `string(r)` keeps. */
  predicate ScalarValue(n: int)
  {
    (0 <= n < 0xD800) || (0xE000 <= n < 0x11_0000)
  }

  /** Go's `string(r)` for a rune: the rune itself, or U+FFFD for a number that is no scalar value. */
  function RuneString(n: int): (r: string)
    ensures |r| == 1
    ensures ScalarValue(n) ==> r[0] as int == n
    ensures !ScalarValue(n) ==> r == "\U{FFFD}"
  {
    if ScalarValue(n) then [n as char] else "\U{FFFD}"
  }

  /**
   * The name reflect gives the type of a datum. The names of struct, map and
   * pointer types depend on declarations the datum does not record and are
   * placeholders; a `Slice` is a `[]any`.
   */
  function TypeName(d: Datum): string
  {
    match d
    case Nil => "invalid"
    case Integer(k, _) => IntTypeName(k)
    case Float(fk, _, _) => if fk == Float32 then "float32" else "float64"
    case Str(_) => "string"
    case Bool(_) => "bool"
    case Bytes(_) => "[]uint8"
    case Slice(_) => "[]interface {}"
    case MapD(_) => "map[interface {}]interface {}"
    case Struct(_) => "struct {...}"
    case Pointer(_) => "*..."
    case NilPointer => "*..."
    case Other(name, _) => name
  }

  function IntTypeName(k: IntKind): string
  {
    match k
    case Int => "int"
    case Int8 => "int8"
    case Int16 => "int16"
    case Int32 => "int32"
    case Int64 => "int64"
    case Uint => "uint"
    case Uint8 => "uint8"
    case Uint16 => "uint16"
    case Uint32 => "uint32"
    case Uint64 => "uint64"
  }

  /**
   * reflect.Value.String: a string value is its content, the zero Value is
   * "<invalid Value>", and any other value is "<T Value>" for its type T.
   */
  function ReflectString(d: Datum): (r: string)
    ensures d.Str? ==> r == d.s
    ensures d.Nil? ==> r == "<invalid Value>"
    ensures !d.Str? && !d.Nil? ==> r == "<" + TypeName(d) + " Value>"
  {
    match d
    case Str(s) => s
    case Nil => "<invalid Value>"
    case _ => "<" + TypeName(d) + " Value>"
  }

  /** `%v` of an integer is its decimal form, which strconv parses back to the integer. */
  lemma SprintIntegerParses(k: IntKind, n: int)
    requires InRange(n, k)
    ensures Sprint(Integer(k, n)) == FormatInt(n)
    ensures k.Signed() ==> ParseInt(Sprint(Integer(k, n)), k.Width()) == Parsed(n)
    ensures !k.Signed() ==> ParseUint(Sprint(Integer(k, n)), k.Width()) == Parsed(n)
  {
    if k.Signed() {
      ParseIntFormat(n, k.Width());
    } else {
      ParseUintFormat(n, k.Width());
    }
  }
}
