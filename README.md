# dataparse in Dafny

dataparse wraps one dynamically typed Go datum in a `Value`. It coerces
that datum to a concrete type on request: the ten integer types, strings,
lists of strings, booleans and times. A `Map` is a table from dynamic keys
to such data. It can be built from a Go map or a struct, or parsed from a
`k=v` text. Its entries are looked up by the first present one of several
keys, and they can be bound to the fields of a struct.

This project models those coercions and the `Map` operations, and proves
what they promise.

## Layout

One module per Go file of the library:

- `DataMap` — map.go
- `MapShortcuts` — mapShortcuts.gen.go
- `Values` — value.go
- `ValueNumbers` — valueNumbers.gen.go
- `ValueString` — valueString.go
- `ValueStringOld` — value_string.go
- `ValueBool` — valueBool.go
- `ValueBoolOld` — value_bool.go
- `ValueTime` — valueTime.go
- `Utils` — utils.go

Two revisions of `String`/`ListString` and of `Bool`, an older and a newer
one, sit side by side in the library. Each revision is its own module, and
lemmas relate the two.

`Types` holds the data model:
- `Datum`, one Go value stored in an `any`;
- `Error`, the error values the core returns;
- `Value`;
- `Outcome<T>`, Go's `(T, error)` pair, in which both halves always exist.

So a `Must*` function is the value half of its `Outcome`.

The library functions of Go that the core relies on are modelled exactly
in their own modules, on the inputs the core passes:
- `GoStrings`: `strings.Index`, `Split`, `SplitN(…, 2)`, `Join`, `TrimSpace` and `ToLower`;
- `Strconv`: `strconv.ParseInt`, `ParseUint` (base 10), `Itoa` and `ParseBool`;
- `Binary`: `binary.Uvarint` and `Varint`, the unsigned LEB128 groups of section 7.6 of DWARF v4, Go's 10-byte cap and zig-zag for the signed form;
- `Fmt`: the `%v` verb and `reflect.Value.String`.

Code that loops and updates state is modelled as a method with loop
invariants, proved equal to a specification function:
- building a map (`NewMap`, `FromKVString`);
- filling a result array (`List`, `ListString`, `ListToAny`);
- binding a struct (`To`, on a `Record` class whose field contents it overwrites one at a time).

The conversions themselves are functions.

The model follows the code where the code and its documentation part
ways:
- `Get` looks keys up literally. It does not walk dotted paths, although one test expects that.
- `valueString.go:63` reads a configuration field, and so do `map.go:219,225`, but none of those fields exists in the library. The trimming switch and the `FromKVString` separator are therefore explicit parameters.

## Model

| member | source | states |
|---|---|---|
| Types.NewValue | value.go:9-11 | the new Value holds exactly the datum given |
| Types.IsNil | value.go:15-17 | true exactly when the datum is nil |
| Types.Elements | value.go:25-31 | the elements reflect sees: a `[]any` gives its elements, a `[]byte` gives one uint8 per byte in order |
| Values.List | value.go:19-35 | the result and error are ListOf: nil gives `[]` and ErrValueIsNil, a slice gives one Value per element, anything else gives `[v]` |
| Values.MustList | value.go:37-40 | the list half of List |
| Values.Map | value.go:42-44 | the result and error are those of NewMap on the datum |
| Values.MustMap | value.go:46-49 | the map half of NewMap on the datum |
| Values.ListFailsOnlyForNil | value.go:20-22 | List fails exactly for nil, and then returns the empty list with ErrValueIsNil |
| Values.ListElementwise | value.go:25-31 | for a slice, the list has one Value per element in the same order; unwrapping a `[]any`'s list gives the elements back |
| Values.ListOfScalar | value.go:32-33 | a non-nil non-slice, a string included, comes back as `[v]`; nothing is split |
| Values.ListExample | value.go:25-31 | `[]any{1, "test", 3.56}` gives the three Values in order |
| ValueNumbers.Cast | valueNumbers.gen.go:19-36 | Go's integer conversion: the result lies in the target's range and is congruent to the source modulo 2^N |
| ValueNumbers.CastUnique | valueNumbers.gen.go:19-36 | two in-range numbers with the same residue modulo 2^N are equal, so the conversion's result is determined |
| ValueNumbers.CastInRange | valueNumbers.gen.go:19-36 | a number already in the target's range is unchanged by the conversion |
| ValueNumbers.ToInteger | valueNumbers.gen.go:12-69 | Value.Int … Value.Uint64 for any target: an error comes with 0; it can only arise for nil, a string, a byte slice or an unhandled kind; a representable datum gives a value in the target's range |
| ValueNumbers.MustToInteger | valueNumbers.gen.go:74-79 | the converter's value when it succeeds and 0 otherwise |
| ValueNumbers.NilIsError | valueNumbers.gen.go:13-15 | nil gives 0 and ErrValueIsNil for every target |
| ValueNumbers.SameKindUnchanged | valueNumbers.gen.go:17-18 | a datum of the target's own type is returned unchanged |
| ValueNumbers.OtherKindWraps | valueNumbers.gen.go:19-36 | an integer of another type always succeeds, and gives the unique in-range number congruent to it modulo 2^N, which is the number itself when it fits |
| ValueNumbers.BoolIsOneOrZero | valueNumbers.gen.go:54-58 | true gives 1 and false gives 0, without error, at every width |
| ValueNumbers.UnsignedDecimal | valueNumbers.gen.go:409-413 | for an unsigned target, a string without "." succeeds iff it is a non-empty run of decimal digits whose value fits the target, and then gives that value; otherwise 0 and a syntax or range error |
| ValueNumbers.SignedDecimal | valueNumbers.gen.go:49-53 | for a signed target, a string without "." succeeds iff it is an optional sign and a non-empty run of digits whose signed value fits the target, and then gives that value; otherwise 0 and a syntax or range error |
| ValueNumbers.FormatIntNoDot | valueNumbers.gen.go:42 | a decimal integer's text never contains ".", so it takes the integer-parsing branch |
| ValueNumbers.DecimalRoundTrip | valueNumbers.gen.go:49-53 | the decimal text of an in-range integer converts back to that integer at every width |
| ValueNumbers.DecimalExample | valueNumbers.gen.go:49-53 | "123" gives 123 at every width |
| ValueNumbers.BytesNeedVarint | valueNumbers.gen.go:59-65 | a byte slice converts iff the varint decoder consumes at least one byte; otherwise the error carries the decoder's count |
| ValueNumbers.EmptyBytesFail | valueNumbers.gen.go:59-65 | an empty byte slice is an error with count 0 |
| ValueNumbers.SignedVarintRoundTrip | valueNumbers.gen.go:59-65 | for a signed target, the zig-zag varint encoding of an in-range number, followed by any bytes, converts back to it |
| ValueNumbers.UnsignedVarintRoundTrip | valueNumbers.gen.go:419-425 | for an unsigned target, the varint encoding of an in-range number, followed by any bytes, converts back to it |
| ValueNumbers.VarintBytesExample | valueNumbers.gen.go:59-65 | [0x9c,0x85,0xe3,0x0b,0,0,0,0] gives 12345678 as an int |
| ValueNumbers.UnhandledKinds | valueNumbers.gen.go:66-67 | slices, maps, structs, pointers and other types give 0 and ErrUnhandled carrying the datum |
| ValueNumbers.MustIsValueHalf | valueNumbers.gen.go:74-79 | the Must form is exactly the value half of the converter |
| Strconv.ParseUint | valueNumbers.gen.go:409 | a parsed value lies in the unsigned range of the bit size |
| Strconv.ParseInt | valueNumbers.gen.go:49 | a parsed value lies in the signed range of the bit size |
| Strconv.ParseUintSpec | valueNumbers.gen.go:409 | parsing succeeds iff the text is a non-empty run of digits whose value is below 2^N, and then yields that value |
| Strconv.ParseIntSpec | valueNumbers.gen.go:49 | parsing succeeds iff the text is an optional sign and a non-empty run of digits whose signed value is in range, and then yields that value |
| Strconv.UintLoopDigits | valueNumbers.gen.go:409 | on digits, the accumulating loop succeeds iff the decimal value stays within the maximum, and a failure is a range error |
| Strconv.UintLoopNonDigit | valueNumbers.gen.go:409 | a text with a non-digit fails |
| Strconv.DecimalFormatNat | valueString.go:23 | the decimal text of a natural number reads back as that number |
| Strconv.ParseUintFormat | valueNumbers.gen.go:409 | ParseUint of the decimal text of an in-range number gives the number |
| Strconv.ParseIntFormat | valueNumbers.gen.go:49 | ParseInt of the decimal text of an in-range number gives the number |
| Strconv.FormatIntShape | valueString.go:23 | the decimal text starts with "-" exactly for negative numbers, and the digits after it read back as the magnitude |
| Strconv.FormatNat | valueString.go:23 | the decimal text of a natural number is a non-empty run of digits |
| Strconv.ParseBoolLower | valueBool.go:62-66 | on lower-case text, ParseBool gives true exactly for "1", "t" and "true", and false exactly for "0", "f" and "false" |
| Binary.UvarintFrom | valueNumbers.gen.go:420 | the decoder's result: on success, the count is at most 10 and at most the buffer, the value fits 64 bits and the last byte consumed is the only terminator; otherwise the value is 0, and a count of 0 means the buffer ran out within 10 bytes with no terminator |
| Binary.Varint | valueNumbers.gen.go:60 | the signed decoder consumes exactly what the unsigned one does and yields an int64, or 0 on failure |
| Binary.UvarintFromEncoding | valueNumbers.gen.go:420 | decoding an encoded number from any position at which its encoding sits gives the number and the position after it |
| Binary.UvarintRoundTrip | valueNumbers.gen.go:420 | Uvarint of the encoding of a 64-bit number, followed by any bytes, gives the number and the length of its encoding |
| Binary.ZigZagRoundTrip | valueNumbers.gen.go:60 | zig-zag decoding inverts zig-zag encoding |
| Binary.VarintRoundTrip | valueNumbers.gen.go:60 | Varint of the encoding of an int64, followed by any bytes, gives the number and the length of its encoding |
| Binary.VarintExample | valueNumbers.gen.go:60 | [0x9c,0x85,0xe3,0x0b,0,0,0,0] decodes to 12345678 in 4 bytes |
| Fmt.RuneString | valueString.go:20-21 | `string(r)` is one character: the rune itself when it is a Unicode scalar value, else U+FFFD |
| Fmt.ReflectString | value_string.go:36 | reflect's String: a string is its content, the zero Value is "<invalid Value>", anything else "<T Value>" |
| Fmt.SprintIntegerParses | valueString.go:23 | `%v` of an integer is its decimal text, which strconv parses back to the integer |
| GoStrings.Index | valueString.go:79 | the first position at which the separator occurs, or -1 when it occurs nowhere |
| GoStrings.SplitN2 | map.go:220 | one piece when "=" is absent; otherwise two pieces around the first "=", the first one free of "=" |
| GoStrings.JoinSplit | valueString.go:79 | joining the pieces of a split with the separator gives the text back |
| GoStrings.SplitPiecesFree | valueString.go:79 | no piece of a split contains the separator |
| GoStrings.SplitSingle | valueString.go:85 | a split has one piece iff the separator does not occur, and that piece is then the whole text |
| GoStrings.SplitAtRune | map.go:357 | two texts free of a character, joined by it, split back into those two texts |
| GoStrings.SplitNonEmpty | valueString.go:79 | a split at a non-empty separator has at least one piece |
| GoStrings.TrimSpace | valueString.go:35 | the result is no longer than the text and neither starts nor ends with white space |
| GoStrings.TrimSpaceCuts | valueString.go:35 | the result is the slice s[i..j] of the text, and everything before i and from j on is white space |
| GoStrings.TrimSpaceIdempotent | valueString.go:35 | trimming twice is trimming once |
| GoStrings.ToLower | valueBool.go:52 | the same length, with every letter lower-cased |
| GoStrings.ToLowerIdempotent | valueBool.go:52 | lower-casing twice is lower-casing once |
| ValueString.String | valueString.go:14-25 | never an error; nil gives "" and a string gives its content |
| ValueString.MustString | valueString.go:28-31 | String's value, with String's error always absent |
| ValueString.TrimString | valueString.go:34-36 | MustString with white space trimmed: the result neither starts nor ends with white space |
| ValueString.ListString | valueString.go:52-97 | never an error, and the result is ListStringSpec for every datum, separator list and trimming switch |
| ValueString.RenderElements | valueString.go:56-66 | element i of the result is the String of element i of the slice, trimmed when asked |
| ValueString.SplitAlong | valueString.go:78-95 | the separator loop gives the split at the first separator that yields more than one piece, or the text alone |
| ValueString.TrimEach | valueString.go:81-83 | trimming in place replaces every piece by its trimmed form |
| ValueString.MustListString | valueString.go:100-103 | ListString with the one separator passed |
| ValueString.ListStringAsWritten | valueString.go:59-62 | the code as written: a slice with a nil element panics (None), and otherwise its result is ListStringSpec |
| ValueString.NilElementPanics | valueString.go:59-62 | `[]any{nil}` panics as written, where String of the element gives [""] |
| ValueString.RuneRendersAsCharacter | valueString.go:20-21 | a rune renders as its character, not its number; 'c' gives "c" |
| ValueString.IntegerRendersInDecimal | valueString.go:22-23 | any other integer renders in decimal, with "-" exactly for negatives, and converts back to itself |
| ValueString.RuneDoesNotRoundTrip | valueString.go:20-21 | the rune 99 renders as "c", which does not convert back to an int32 |
| ValueString.TrimStringIdempotent | valueString.go:34-36 | TrimString's result is already trimmed |
| ValueString.SliceRenderedElementwise | valueString.go:55-67 | for a slice, one string per element in order: the element's String, trimmed when asked, and a string element's own content when not trimmed |
| ValueString.StringSliceExample | valueString.go:55-67 | []any{"test1","test2","test3"} gives the three strings |
| ValueString.ChainFallback | valueString.go:93-95 | when no separator splits the text, the result is the text alone |
| ValueString.ChainFirstSplit | valueString.go:78-91 | the first separator whose split has more than one piece decides the result; earlier separators are skipped |
| ValueString.ChainUntrimmed | valueString.go:78-95 | without trimming, some separator of the chain is absent from every piece, and joining the pieces with it gives the text back |
| ValueString.DefaultChain | valueString.go:74-76 | with no separators, the chain is "," then "\n" |
| ValueString.CommaExample | valueString.go:78-91 | "test1,test2" on "," gives ["test1", "test2"] |
| ValueString.NoSeparatorExample | valueString.go:93-95 | "test" on "," gives ["test"] |
| ValueString.TrimmedPipeExample | valueString.go:80-84 | "test1 \|test2" on "\|" with trimming gives ["test1", "test2"] |
| ValueString.TrimAll | valueString.go:81-83 | the same number of pieces, each trimmed when asked |
| ValueStringOld.String | value_string.go:9-20 | "" for nil, a string's content, the character of a rune |
| ValueStringOld.TrimString | value_string.go:22-24 | String with white space trimmed: the result neither starts nor ends with white space |
| ValueStringOld.ListString | value_string.go:26-42 | never an error; the result is reflect's String per element for a slice, and Split of String at the separator otherwise |
| ValueStringOld.MustListString | value_string.go:44-47 | ListString without its error |
| ValueStringOld.AgreesWithNewerString | value_string.go:9-20 | the older String is the value half of the newer one |
| ValueStringOld.SplitJoins | value_string.go:39-40 | for a non-slice, the pieces hold no separator and join back to String |
| ValueStringOld.NoSeparatorSingle | value_string.go:40 | a text without the separator gives a one-element list |
| ValueStringOld.MinusOneExample | value_string.go:40 | -1 on "\|" gives ["-1"] |
| ValueStringOld.UntrimmedExample | value_string.go:40 | "test1 \|test2" on "\|" gives ["test1 ", "test2"]; nothing is trimmed |
| ValueStringOld.SliceElementwise | value_string.go:29-38 | for a slice, one string per element in order, string elements verbatim |
| ValueBool.Bool | valueBool.go:39-67 | nil is ErrValueIsNil; an error comes with false; a lower-cased text in the false list gives false, one in the true list gives true |
| ValueBool.MustBool | valueBool.go:69-72 | Bool's value, false whenever Bool fails |
| ValueBool.ListsDisjoint | valueBool.go:12-31 | no text is in both lists, so testing the false list first changes nothing |
| ValueBool.BoolSpec | valueBool.go:44-66 | after lower-casing, true iff the text is in the true list or "t"; false iff it is in the false list or "f"; an error with the lower-cased text iff it is none of these |
| ValueBool.UpperCaseExamples | valueBool.go:52 | "FALSE" gives false and "YES" gives true |
| ValueBool.RejectedExamples | valueBool.go:62-66 | "maybe" and "2" are errors |
| ValueBool.FormattedExamples | valueBool.go:48-49 | bool true and the integer 1 of any width give true through `%v` |
| ValueBoolOld.Bool | value_bool.go:8-26 | nil is ErrValueIsNil; an error comes with false; otherwise it succeeds exactly when ParseBool accepts the text |
| ValueBoolOld.MustBool | value_bool.go:28-31 | Bool's value, false whenever Bool fails |
| ValueBoolOld.Accepted | value_bool.go:21-25 | only 1, t, T, TRUE, true, True give true and only 0, f, F, FALSE, false, False give false |
| ValueBoolOld.RejectedExamples | value_bool.go:21-24 | "yes" and "tRUE" are errors |
| ValueBoolOld.FormattedExamples | value_bool.go:13-19 | bool true and the integer 1 give true through `%v` |
| ValueBoolOld.NewerExtendsOlder | value_bool.go:8-26 | whatever the older Bool accepts, the newer one accepts with the same result |
| ValueTime.ParseTime | time.go:41-49 | it succeeds iff some layout parses the text; otherwise it gives the zero time and an error |
| ValueTime.Time | valueTime.go:10-30 | an error comes with the zero time; apart from a string, only an unsigned integer above MaxInt64 fails |
| ValueTime.MustTime | valueTime.go:32-35 | Time's value, the zero time on error |
| ValueTime.SignedIsUnixSeconds | valueTime.go:13-14 | a signed integer n of any width is the time n seconds after the Unix epoch |
| ValueTime.UnsignedBound | valueTime.go:15-20 | an unsigned integer succeeds iff it is at most MaxInt64, then as Unix seconds; above that it is an error with the zero time, never a wrapped time |
| ValueTime.NarrowUnsignedFits | valueTime.go:15-20 | unsigned integers narrower than 64 bits always fit |
| ValueTime.StringIsParsed | valueTime.go:25-26 | a string gives exactly ParseTime's result and error |
| ValueTime.OthersAreZero | valueTime.go:27-28 | any other datum (nil, bool, bytes, slice, map …) gives the zero time and no error |
| ValueTime.FloatTruncates | valueTime.go:21-24 | a float gives its truncation toward zero as Unix seconds |
| Utils.ListToAny | utils.go:4-10 | the same length, with element i of the input, boxed, at position i |
| Utils.ListToMap | utils.go:16-22 | the key set is exactly the set of input elements, and every value is true |
| Utils.FilterSlice | utils.go:26-38 | the result is Filter of the input and removees |
| Utils.FilterSubsequence | utils.go:29-37 | the result is an order-preserving subsequence of the input, given by strictly increasing indices |
| Utils.FilterMembership | utils.go:30-35 | an element is kept iff it is in the input and not among the removees |
| Utils.FilterCounts | utils.go:30-35 | every kept element keeps all its duplicates; removed elements do not occur |
| Utils.FilterNothing | utils.go:26-38 | with no removees the result is the input |
| Utils.FilterIdempotent | utils.go:26-38 | filtering twice with the same removees is filtering once |
| DataMap.FirstPresent | map.go:283-287 | the index of the first key, from a start position on, that the map contains; no earlier key is contained, and None means no key from there on is |
| DataMap.Deref | map.go:245-248 | following pointers ends at a datum that is no pointer |
| DataMap.NewMap | map.go:240-270 | the map and error are NewMapOf: nil is ErrValueIsNil; behind any number of pointers, a map is copied and a struct gives its exported fields; anything else fails |
| DataMap.NewMapRejects | map.go:241-243 | nil fails with ErrValueIsNil; "test" and a nil pointer fail as neither map nor struct |
| DataMap.NewMapCopies | map.go:251-257 | a map, behind any number of pointers, comes back with exactly its own pairs |
| DataMap.NewMapThroughPointer | map.go:245-248 | a pointer to a map or a struct gives the same map as its target |
| DataMap.StructKeys | map.go:258-266 | the keys of a struct's map are exactly the names of its exported fields |
| DataMap.StructValues | map.go:258-266 | with distinct field names, each exported field's name maps to its content |
| DataMap.Get | map.go:282-289 | it succeeds iff some key is present, and then gives the value of the first present key in argument order; otherwise a nil Value and "no valid key" with the keys |
| DataMap.MustGet | map.go:292-295 | the Value half of Get |
| DataMap.Has | map.go:274-276 | true iff the first present key is bound to a non-nil datum |
| DataMap.GetIgnoresLaterKeys | map.go:283-287 | once a key is present, appending more keys does not change the result |
| DataMap.NoKeys | map.go:288 | with no keys at all, Get fails with a nil Value and Has is false |
| DataMap.HasMeansNonNilGet | map.go:274-276 | Has is true exactly when Get yields a non-nil Value, so a key bound to nil counts as absent |
| DataMap.MapAt | map.go:298-305 | the map and error are MapOf: NewMap of the first present key's value, or an empty map and "no valid keys" |
| DataMap.MustMapAt | map.go:308-311 | the map half of Map |
| DataMap.MapIsGetThenNewMap | map.go:298-305 | Map is Get followed by NewMap, even when NewMap fails; a later key is never tried |
| DataMap.FromKVString | map.go:215-236 | never an error; the map is KVEntries of the pieces of the text split at the separator |
| DataMap.KVKeys | map.go:219-232 | the keys are exactly the trimmed key texts of the pieces, all of them strings |
| DataMap.KVLastWins | map.go:232 | a repeated key keeps the value of its last piece |
| DataMap.KVPiece | map.go:220-230 | a piece without "=" binds nil under its trimmed text; otherwise the key is the trimmed text before the first "=" and the value is the (optionally trimmed) text after it |
| DataMap.KVPair | map.go:220-230 | one piece of the text gives exactly KVPiece's key and value |
| DataMap.To | map.go:335-378 | a non-pointer gives ErrValueIsNotPointer and a nil pointer ErrValueIsNil; otherwise the final fields and error are BindFrom over the fields in declaration order |
| DataMap.BindFrom | map.go:348-375 | the field count is kept; skipped fields and fields before the start stay as they were; on success every field with keys found one and is exported |
| DataMap.BindStops | map.go:348-375 | the field loop stops at one field: every field before it was skipped, keeping its content, or written without error; no later field is touched; the field it stops at failed with its content kept, or was written with an error |
| DataMap.FieldStepFacts | map.go:351-374 | a field is skipped exactly when it has no keys; a written field had keys, a successful lookup and is exported, gets the setter's value, and carries an error exactly when the setter fails; keys that all miss give the FieldGet error with "no valid key" |
| DataMap.KeysOfField | map.go:351-358 | an untagged field is looked up by its name, a field tagged "" is skipped, and other tags give string keys that join back to the tag with "," |
| DataMap.TwoKeyTag | map.go:357 | a tag `a,b` is looked up by a and then b |
| DataMap.FailFast | map.go:348-375 | the call stops at one field: every field before it with keys got the setter's value from its first present key; no field after it is touched; if its keys all miss, the error names it and it stays as it was |
| DataMap.MissingFieldAborts | map.go:360-364 | a field whose keys all miss makes the call fail |
| DataMap.BindExample | map.go:348-375 | an untagged field found by name gets the setter's value; a field tagged "" keeps its content |
| MapShortcuts.IntegerAt | mapShortcuts.gen.go:20-26 | when no key is present, 0 and Get's error; otherwise exactly the converter's result on the first present key's datum |
| MapShortcuts.Int | mapShortcuts.gen.go:20-26 | IntegerAt with target int |
| MapShortcuts.MustInt | mapShortcuts.gen.go:29-32 | the value half of Int |
| MapShortcuts.Int64 | mapShortcuts.gen.go:47-53 | IntegerAt with target int64 |
| MapShortcuts.MustInt64 | mapShortcuts.gen.go:56-59 | the value half of Int64 |
| MapShortcuts.Uint | mapShortcuts.gen.go:74-80 | IntegerAt with target uint |
| MapShortcuts.MustUint | mapShortcuts.gen.go:83-86 | the value half of Uint |
| MapShortcuts.Uint64 | mapShortcuts.gen.go:101-107 | IntegerAt with target uint64 |
| MapShortcuts.MustUint64 | mapShortcuts.gen.go:110-113 | the value half of Uint64 |
| MapShortcuts.String | mapShortcuts.gen.go:128-134 | it fails exactly when no key is present, with "" and Get's error; otherwise it is Value.String of the first present key's datum |
| MapShortcuts.MustString | mapShortcuts.gen.go:137-140 | the value half of String |
| MapShortcuts.Time | mapShortcuts.gen.go:155-161 | the zero time and Get's error when no key is present; otherwise Value.Time of the first present key's datum |
| MapShortcuts.MustTime | mapShortcuts.gen.go:164-167 | the value half of Time |
| MapShortcuts.MissingKeyDefaults | mapShortcuts.gen.go:21-24 | with no key present, the integer shortcuts give 0, String "" and Time the zero time, each with "no valid key" |
| MapShortcuts.IntegerInRange | mapShortcuts.gen.go:20-26 | on a map of representable data, an integer shortcut's value is in its type's range |
| MapShortcuts.ShortcutExample | mapShortcuts.gen.go:20-26 | with "a" bound to "123", Int("a") is 123 and MustString("b", "a") is "123" |

## Left out

- File and stream readers (`From`, `FromSingle`, `FromJson`, `FromCsv`) are left out: they do file I/O, decompression, JSON and CSV decoding, and use goroutines and channels.
- The configuration files fromconfig.go and readconfig.go are not part of this model. The two configuration settings the core reads are parameters instead: the trimming switch of `ValueString.ListString` and `DataMap.FromKVString`, and the separator of `DataMap.FromKVString`.
- `Float32`, `Float64` and float formatting are left out, because floating point is out of scope. A float datum is opaque: it carries its `%v` text and its truncation toward zero.
- ValueNumbers.ToInteger: the string-with-"." branch takes strconv.ParseFloat, plus truncation, as a parameter. A float outside the target's range is wrapped like an integer, whereas Go leaves that conversion implementation-defined.
- ValueTime.ParseTime: `time.Parse` over the layout list is a parameter, because the time package's layout grammar is not modelled. A time is its Unix second count, and the zero time is -62135596800.
- valueNet.go is left out: it only calls the library parsers `net.ParseIP` and `net.ParseMAC`.
- The custom converter registry and `customtoers/pq` are left out: they depend on code outside the library.
- `Value.To` is not part of this model. DataMap.To takes the per-field setter as a parameter, applied to the field's declaration, its current content and the Value found.
- `Fmt.SprintAt`: `%v` of maps and of pointers nested inside other data is a fixed placeholder, and struct, map and pointer type names are placeholders too. Their exact text depends on addresses, on map ordering and on declarations the datum does not record.
- `Error` values are not rendered as messages, because the message text carries no behaviour. An error carries the data its message would print.
- DataMap.Get: Go panics when a map key is a slice or a map, because such keys are unhashable. The model compares every key structurally.
- DataMap.To: the "not addressable" branch (map.go:367-369) is left out: a field reached through a pointer is always addressable. `Addr().Interface()` on an unexported field panics, and the model returns `Panicked` there.
- GoStrings.ToLower: only ASCII letters are lower-cased. Every spelling the boolean lists recognise is ASCII.
- Embedded structs are treated as ordinary fields. The dot-path lookup one test expects is not in the code, so it is not modelled.
- The code generators and the tests are left out; the tests serve only as evidence for the properties above.

## Findings

| source | as written | input that shows it | evidently intended | confidence | as-written member | corrected member |
|---|---|---|---|---|---|---|
| valueString.go:59-62 | for a `[]any` element, `elem.Elem()` of a nil interface is the zero Value, and `Interface()` on it panics | `NewValue([]any{nil}).ListString()` | each element rendered by `String`, which gives "" for nil, so the result is `[""]` | medium, not executed | ValueString.ListStringAsWritten, ValueString.NilElementPanics | ValueString.ListString |
