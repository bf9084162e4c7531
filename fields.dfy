/** Field descriptors: each logical field of the binary layout has a fixed
    half-open byte range, a value type, little- and big-endian decoders and
    encoders, and may carry the `Mutable` capability. The layout modelled is
    the one the crate documents: `Field1`, a `u8` at bytes `0..1`, and
    `Field2`, a `u32` at bytes `1..5`; both are mutable. */
module Fields {
  import opened Endian

  /** The byte order a view reads and writes in; there are exactly two. */
  datatype Encode = Le | Be

  /** A half-open byte range `start..end`. */
  datatype Range = Range(start: nat, end: nat)

  /** The field descriptors of the layout. */
  datatype Field = Field1 | Field2

  /** The field's byte range, the same whatever the byte order. */
  function RangeOf(f: Field): (r: Range)
    ensures r.start < r.end && r.end - r.start == Size(f)
  {
    match f
    case Field1 => Range(0, 1)
    case Field2 => Range(1, 5)
  }

  /** The size in bytes of the field's value type (`u8` or `u32`). */
  function Size(f: Field): (n: nat)
  {
    match f
    case Field1 => 1
    case Field2 => 4
  }

  /** One more than the largest value of the field's value type. */
  function Bound(f: Field): (b: nat)
  {
    Pow256(Size(f))
  }

  /** The `Mutable` capability: only such fields may be written. Both fields
      of the layout implement it. */
  predicate IsMutable(f: Field): (m: bool)
    ensures m
  {
    match f
    case Field1 => true
    case Field2 => true
  }

  /** The slices the field's decoders accept without panicking: `Field1`
      reads `val[0]`; `Field2` turns the slice into a `[u8; 4]` with
      `try_into().unwrap()`. */
  predicate Decodable(f: Field, val: seq<U8>)
  {
    match f
    case Field1 => |val| >= 1
    case Field2 => |val| == 4
  }

  /** The field's `from_le_bytes`. */
  function FromLeBytes(f: Field, val: seq<U8>): (r: nat)
    requires Decodable(f, val)
    ensures r < Bound(f)
  {
    match f
    case Field1 => val[0]
    case Field2 => FromLe(val)
  }

  /** The field's `from_be_bytes`. */
  function FromBeBytes(f: Field, val: seq<U8>): (r: nat)
    requires Decodable(f, val)
    ensures r < Bound(f)
  {
    match f
    case Field1 => val[0]
    case Field2 => FromBe(val)
  }

  /** The field's `to_le_bytes`, defined on the values of its type. */
  function ToLeBytes(f: Field, v: nat): (r: seq<U8>)
    requires v < Bound(f)
    ensures |r| == Size(f)
  {
    match f
    case Field1 => ToLe(v, 1)
    case Field2 => ToLe(v, 4)
  }

  /** The field's `to_be_bytes`, defined on the values of its type. */
  function ToBeBytes(f: Field, v: nat): (r: seq<U8>)
    requires v < Bound(f)
    ensures |r| == Size(f)
  {
    match f
    case Field1 => ToBe(v, 1)
    case Field2 => ToBe(v, 4)
  }

  /** The decoder for byte order `o`. */
  function FromBytes(f: Field, o: Encode, val: seq<U8>): (r: nat)
    requires Decodable(f, val)
    ensures r < Bound(f)
  {
    match o
    case Le => FromLeBytes(f, val)
    case Be => FromBeBytes(f, val)
  }

  /** The encoder for byte order `o`. */
  function ToBytes(f: Field, o: Encode, v: nat): (r: seq<U8>)
    requires v < Bound(f)
    ensures |r| == Size(f)
  {
    match o
    case Le => ToLeBytes(f, v)
    case Be => ToBeBytes(f, v)
  }

  /** Every descriptor is consistent: its range is non-empty, as long as its
      value type, as long as every encoding it produces, and its decoders
      accept every slice of that length. */
  lemma DescriptorWellFormed(f: Field, o: Encode, v: nat, val: seq<U8>)
    requires v < Bound(f)
    ensures RangeOf(f).start < RangeOf(f).end
    ensures RangeOf(f).end - RangeOf(f).start == Size(f) == |ToBytes(f, o, v)|
    ensures |val| == Size(f) ==> Decodable(f, val)
  {
  }

  /** Round trip from values: decoding an encoding in the same byte order
      returns the encoded value. */
  lemma CodecValueRoundTrip(f: Field, o: Encode, v: nat)
    requires v < Bound(f)
    ensures Decodable(f, ToBytes(f, o, v))
    ensures FromBytes(f, o, ToBytes(f, o, v)) == v
  {
    match o
    case Le => LeValueRoundTrip(v, Size(f));
    case Be => BeValueRoundTrip(v, Size(f));
  }

  /** Round trip from bytes: encoding the value decoded from a slice of the
      field's size, in the same byte order, reproduces the slice. */
  lemma CodecBytesRoundTrip(f: Field, o: Encode, val: seq<U8>)
    requires |val| == Size(f)
    ensures Decodable(f, val)
    ensures ToBytes(f, o, FromBytes(f, o, val)) == val
  {
    match o
    case Le => LeBytesRoundTrip(val);
    case Be => BeBytesRoundTrip(val);
  }

  /** The value decoded from a slice is the only value of the field's type
      whose encoding in that order is the slice. */
  lemma DecodedValueUnique(f: Field, o: Encode, val: seq<U8>, v: nat)
    requires |val| == Size(f) && v < Bound(f)
    ensures Decodable(f, val)
    ensures ToBytes(f, o, v) == val <==> FromBytes(f, o, val) == v
  {
    CodecBytesRoundTrip(f, o, val);
    CodecValueRoundTrip(f, o, v);
  }

  /** For the one-byte field the byte order makes no difference. */
  lemma Field1OrderIrrelevant(v: nat, val: seq<U8>)
    requires v < Bound(Field1)
    requires Decodable(Field1, val)
    ensures FromBytes(Field1, Le, val) == FromBytes(Field1, Be, val) == val[0]
    ensures ToBytes(Field1, Le, v) == ToBytes(Field1, Be, v) == [v]
  {
  }

  /** Big-endian encoding of any field is its little-endian encoding with
      the bytes reversed, and the two decoders agree on reversed input. */
  lemma BeIsReversedLe(f: Field, v: nat, val: seq<U8>)
    requires v < Bound(f) && |val| == Size(f)
    ensures ToBytes(f, Be, v) == Reverse(ToBytes(f, Le, v))
    ensures Decodable(f, Reverse(val))
    ensures FromBytes(f, Be, Reverse(val)) == FromBytes(f, Le, val)
  {
    ToBeIsReversedToLe(v, Size(f));
    FromBeOfReversed(val);
  }
}
