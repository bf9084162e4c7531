# accessor — typed field access over a shared byte buffer

This project models the accessor crate's core in Dafny. The core is a typed, chainable way to read and write the fields of a fixed-layout binary buffer. It has two parts:

- A *field descriptor* (trait `Field`) fixes a half-open byte range, a value type, and little- and big-endian decoders and encoders. A descriptor may also carry the `Mutable` capability, which write operations require.
- A *view* (traits `Getter` and `Setter`) pairs a shared, mutable byte buffer with an active byte order (`Encode::Le` or `Encode::Be`). It offers these operations:
  - `get` decodes a field's slice in the current order.
  - `out` stores what `get` returns in a destination and returns the view.
  - `with` encodes a value and copies it over the field's slice, then returns the view.
  - `getter(order)` and `setter(order)` derive a view on the same buffer with another order.

The crate's body declares only the traits. The concrete behaviour is in its documented example: `Field1` is a `u8` at bytes `0..1`, `Field2` is a `u32` at bytes `1..5`, and `Test` is the view. The example's `main` runs a big-endian getter and a little-endian setter over one eight-byte buffer.

Files:

- `endian.dfy` (module `Endian`): bytes (`U8`) and unsigned integers of `n` bytes. It covers their little- and big-endian encodings, as Rust's `from_le_bytes`, `from_be_bytes`, `to_le_bytes` and `to_be_bytes` compute them. It proves round trips in both directions for both orders, and that big-endian is little-endian reversed.
- `fields.dfy` (module `Fields`): `Encode`, the descriptor table `Field = Field1 | Field2` and each descriptor's `range()` and codecs. The `Mutable` capability is the predicate `IsMutable`. It proves that each descriptor's range length matches its encoded length, that the codecs round-trip, and that order does not matter for the one-byte field.
- `accessor.dfy` (module `Accessor`):
  - `Read` and `Write` say what `get` and `with` do to buffer contents.
  - Lemmas relate reads and writes: read-after-write, last write wins, a write leaves disjoint fields alone, and disjoint writes commute.
  - The class `View` models `Test`. It has a `const data: array<U8>`, which is the buffer that derived views share, and a `const encode: Encode`. Its members are `Get` (a function that reads only `data`), `Out`, and `With` (which modifies only `data`). `Getter` and `Setter` return a fresh view on the same array.
- `example.dfy` (module `Example`): the documented `main`. It returns the values the example prints and the final buffer contents.

## Model

| member | source | states |
|---|---|---|
| Endian.FromLe | src/lib.rs:60-62 | the little-endian value of `n` bytes is below 256^n, so four bytes fit in a `u32` |
| Endian.FromBe | src/lib.rs:63-65 | the big-endian value of `n` bytes is below 256^n |
| Endian.ToLe | src/lib.rs:71-73 | `to_le_bytes` yields exactly as many bytes as the width |
| Endian.ToBe | src/lib.rs:67-69 | `to_be_bytes` yields exactly as many bytes as the width |
| Endian.LeValueRoundTrip | src/lib.rs:60-73 | little-endian decoding of an encoding returns every representable value |
| Endian.LeBytesRoundTrip | src/lib.rs:60-73 | little-endian encoding of a decoded slice returns the slice |
| Endian.BeValueRoundTrip | src/lib.rs:60-73 | big-endian decoding of an encoding returns every representable value |
| Endian.BeBytesRoundTrip | src/lib.rs:60-73 | big-endian encoding of a decoded slice returns the slice |
| Endian.ToBeIsReversedToLe | src/lib.rs:67-73 | the big-endian bytes of a value are its little-endian bytes reversed |
| Endian.FromBeOfReversed | src/lib.rs:60-65 | decoding reversed bytes big-endian gives their little-endian value |
| Fields.RangeOf | src/lib.rs:29-58 | `range()` is `0..1` for `Field1` and `1..5` for `Field2`: non-empty, and as long as the field's value type (1 and 4 bytes); it takes no byte order |
| Fields.IsMutable | src/lib.rs:27-51 | both `Field1` and `Field2` implement `Mutable`, so both may be written |
| Fields.FromBytes | src/lib.rs:100-103 | the `match self.encode` of `get`: the decoder for the order returns a value of the field's type |
| Fields.ToBytes | src/lib.rs:114-122 | the `match self.encode` of `with`: the encoder for the order yields exactly the size of the field's type |
| Fields.FromLeBytes | src/lib.rs:33-62 | `Field1` and `Field2` `from_le_bytes` return a value of the field's type (`u8` below 0x100, `u32` below 2^32); `Field1` needs at least one byte, `Field2` exactly four |
| Fields.FromBeBytes | src/lib.rs:36-65 | the same for `from_be_bytes` |
| Fields.ToLeBytes | src/lib.rs:46-73 | `to_le_bytes` of a field value has the size of the field's type (1 or 4 bytes) |
| Fields.ToBeBytes | src/lib.rs:42-69 | `to_be_bytes` of a field value has the size of the field's type |
| Fields.DescriptorWellFormed | src/lib.rs:28-58 | each range is non-empty; its length equals the type size and every encoding's length; the decoders accept every slice of that length |
| Fields.CodecValueRoundTrip | src/lib.rs:33-73 | for both fields and both orders, decoding the encoding of `v` returns `v` |
| Fields.CodecBytesRoundTrip | src/lib.rs:33-73 | for both fields and both orders, encoding the value decoded from a slice of the right size returns that slice |
| Fields.DecodedValueUnique | src/lib.rs:160-171 | a value of the field's type encodes to a slice exactly when that slice decodes to the value (both directions) |
| Fields.Field1OrderIrrelevant | src/lib.rs:33-48 | for the one-byte field, the LE and BE decoders both return `val[0]`, and the LE and BE encoders both return `[v]` |
| Fields.BeIsReversedLe | src/lib.rs:60-73 | a field's BE encoding is its LE encoding reversed; BE decoding of reversed bytes equals LE decoding |
| Accessor.Overwrite | src/lib.rs:116-121 | `copy_from_slice` over `at..at+len`: the length is kept, the range holds the source, and every other byte is unchanged |
| Accessor.Read | src/lib.rs:96-104 | `get` on buffer contents returns a value of the field's type whose encoding in the view's order is exactly `buffer[range]` |
| Accessor.Write | src/lib.rs:113-123 | `with` on buffer contents keeps the length; `buffer[range]` becomes the encoding of the value in the view's order; no byte outside the range changes |
| Accessor.ReadAfterWrite | src/lib.rs:96-125 | after `with(v)` in order `o`, `get` in order `o` returns `v` |
| Accessor.WriteWhatWasRead | src/lib.rs:96-125 | writing back the value `get` returned, in the same order, leaves the buffer unchanged |
| Accessor.LastWriteWins | src/lib.rs:113-125 | of two `with` calls on one field, in any orders, the second decides the buffer |
| Accessor.WriteLeavesDisjointField | src/lib.rs:113-123 | a `with` on one field leaves what `get` returns for a disjoint field unchanged, in either order |
| Accessor.DisjointWritesCommute | src/lib.rs:136-141 | chained `with` calls on disjoint fields give the same buffer in either sequence |
| Accessor.BeReadIsReversedLeRead | src/lib.rs:100-103 | a big-endian `get` equals a little-endian decode of the reversed slice |
| Accessor.View.constructor | src/lib.rs:81-86 | `Test::new` binds the buffer and starts little-endian |
| Accessor.View.Of | src/lib.rs:91-94 | the view literal holds the given buffer and order |
| Accessor.View.Getter | src/lib.rs:90-95 | `getter(o)` returns a new view with order `o` on the same buffer; the original view's order is unchanged |
| Accessor.View.Setter | src/lib.rs:107-112 | `setter(o)` returns a new view with order `o` on the same buffer; the original view's order is unchanged |
| Accessor.View.Get | src/lib.rs:96-104 | `get` reads only the buffer; it returns the field-type value whose encoding in the view's order is `data[start..end]`, which is `Read` of the contents |
| Accessor.View.Out | src/lib.rs:186-189 | `out` sets the destination to `get`'s value, changes no buffer byte and returns the same view |
| Accessor.View.With | src/lib.rs:113-125 | `with` requires `Mutable`; the new contents are `Write` of the old ones; `get` then returns the value; bytes outside the range are unchanged; it returns the same view |
| Example.ExampleOnContents | src/lib.rs:128-143 | on the example buffer, BE reads give 0x12 and 0x3456789a; after the three LE writes the buffer is `23 78 56 34 12 bc de f0` and BE reads give 0x23 and 0x78563412 |
| Example.DocExample | src/lib.rs:127-149 | the example run through shared views: BE reads 0x12 and 0x3456789a; after the chained LE writes the getter reads 0x23 and 0x78563412; chained `out` calls give those same values |

## Left out

- The `Field` derive macro in `field_proc` is `todo!{}` in the repository, so there is nothing to model. field_proc/src/lib.rs is not part of this model.
- `println!` in the example's `main` is output only. `DocExample` returns the printed values instead.
- `Rc<RefCell<[u8]>>` reference counting and runtime borrow checks, including double-borrow panics. The shared buffer is one Dafny `array` that every derived view references.
- The `Mutable` trait bound is a compile-time check in Rust. Here it is the predicate `IsMutable`, which `View.With` requires. Both example fields are mutable, so no descriptor without the capability exists to exercise it.
- The associated types `FieldType` and `BytesType` are not modelled as types. Values are `nat` below the field's `Bound`, and encodings are `seq<U8>` of the field's `Size`.
- Out-of-range slicing panics in Rust. So do `try_into().unwrap()` on a slice that is not four bytes and `copy_from_slice` with unequal lengths. Out-of-range slicing is excluded by the precondition `InBounds`, and a decoder input of the wrong size by `Decodable`; neither is an error result, because the crate has no error path. The copy length mismatch cannot arise: `DescriptorWellFormed` (and `RangeOf`'s contract) show each range is exactly as long as every encoding of the field.
- The descriptors are a closed table (`Field1`, `Field2`) rather than an open trait, so user-defined descriptors with arbitrary codecs are not modelled.
