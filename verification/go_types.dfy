/** The Go value types the models share: bytes, fixed-width integers, slices that may be nil. */
module GoTypes {
  const TWO32: int := 0x1_0000_0000
  const TWO63: int := 0x8000_0000_0000_0000
  const TWO64: int := 0x1_0000_0000_0000_0000

  type byte = x: int | 0 <= x < 256
  type uint32 = x: int | 0 <= x < 0x1_0000_0000
  type uint64 = x: int | 0 <= x < 0x1_0000_0000_0000_0000
  type int32 = x: int | -0x8000_0000 <= x < 0x8000_0000
  type int64 = x: int | -0x8000_0000_0000_0000 <= x < 0x8000_0000_0000_0000

  type Bytes = seq<byte>

  datatype Option<+T> = None | Some(value: T)

  /** A Go []byte: None is the nil slice, Some([]) the empty one. */
  type Slice = Option<Bytes>

  /** What every use of a slice other than a comparison with nil sees. */
  function Content(s: Slice): Bytes {
    if s.Some? then s.value else []
  }

  /** bytes.Equal, which does not tell nil from empty. */
  predicate BytesEqual(a: Slice, b: Slice) {
    Content(a) == Content(b)
  }

  /** nil and empty identified, as a decoder that never saw the field leaves it. */
  function NormSlice(s: Slice): Slice {
    if Content(s) == [] then None else s
  }

  /** The bytes of a Go string constant. */
  function Ascii(s: string): Bytes {
    seq(|s|, i requires 0 <= i < |s| => (s[i] as int) % 256)
  }

  /** uint64 addition and subtraction, which wrap. */
  function Add64(a: uint64, b: uint64): uint64 {
    (a + b) % TWO64
  }

  function Sub64(a: uint64, b: uint64): uint64 {
    (a - b) % TWO64
  }
}
