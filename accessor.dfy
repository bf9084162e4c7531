/** Views over a shared byte buffer. A view pairs a reference to the buffer
    with the byte order it reads and writes in; views derived from one another
    share the buffer, so a write through one is seen by all. `Read` and `Write`
    say, on the buffer's contents, what `get` and `with` do; the lemmas after
    them relate reads and writes of one field and of disjoint fields. */
module Accessor {
  import opened Endian
  import opened Fields

  /** `buf` with `src` copied over the bytes from `at` on. */
  function Overwrite(buf: seq<U8>, at: nat, src: seq<U8>): (r: seq<U8>)
    requires at + |src| <= |buf|
    ensures |r| == |buf|
    ensures r[at..at + |src|] == src
    ensures forall i :: 0 <= i < |buf| && !(at <= i < at + |src|) ==> r[i] == buf[i]
  {
    buf[..at] + src + buf[at + |src|..]
  }

  /** Taking the field's slice of a buffer of length `len` does not panic. */
  predicate InBounds(f: Field, len: nat)
  {
    RangeOf(f).start <= RangeOf(f).end <= len
  }

  /** The two fields occupy no common byte. */
  predicate Disjoint(f: Field, g: Field)
  {
    RangeOf(f).end <= RangeOf(g).start || RangeOf(g).end <= RangeOf(f).start
  }

  /** The field's slice of `buf`. */
  function Slice(buf: seq<U8>, f: Field): seq<U8>
    requires InBounds(f, |buf|)
  {
    buf[RangeOf(f).start..RangeOf(f).end]
  }

  /** What `get` returns on a buffer holding `buf`: the value of the field's
      type whose encoding in order `o` is exactly the field's slice. */
  function Read(buf: seq<U8>, f: Field, o: Encode): (r: nat)
    requires InBounds(f, |buf|)
    ensures r < Bound(f)
    ensures ToBytes(f, o, r) == Slice(buf, f)
  {
    CodecBytesRoundTrip(f, o, Slice(buf, f));
    FromBytes(f, o, Slice(buf, f))
  }

  /** What `with` leaves in a buffer that held `buf`: the field's slice holds
      the encoding of `v` in order `o`, and every other byte is as it was. */
  function Write(buf: seq<U8>, f: Field, o: Encode, v: nat): (r: seq<U8>)
    requires InBounds(f, |buf|) && v < Bound(f)
    ensures |r| == |buf|
    ensures Slice(r, f) == ToBytes(f, o, v)
    ensures forall i :: 0 <= i < |buf| && !(RangeOf(f).start <= i < RangeOf(f).end) ==> r[i] == buf[i]
  {
    DescriptorWellFormed(f, o, v, []);
    Overwrite(buf, RangeOf(f).start, ToBytes(f, o, v))
  }

  /** Reading a field after writing it in the same order gives the value
      written. */
  lemma ReadAfterWrite(buf: seq<U8>, f: Field, o: Encode, v: nat)
    requires InBounds(f, |buf|) && v < Bound(f)
    ensures Read(Write(buf, f, o, v), f, o) == v
  {
    DecodedValueUnique(f, o, ToBytes(f, o, v), v);
  }

  /** Writing back the value just read, in the same order, changes nothing. */
  lemma WriteWhatWasRead(buf: seq<U8>, f: Field, o: Encode)
    requires InBounds(f, |buf|)
    ensures Write(buf, f, o, Read(buf, f, o)) == buf
  {
  }

  /** Of two writes to the same field, whatever their orders, the last wins. */
  lemma LastWriteWins(buf: seq<U8>, f: Field, o1: Encode, v1: nat, o2: Encode, v2: nat)
    requires InBounds(f, |buf|) && v1 < Bound(f) && v2 < Bound(f)
    ensures Write(Write(buf, f, o1, v1), f, o2, v2) == Write(buf, f, o2, v2)
  {
  }

  /** A write to a field leaves every field disjoint from it reading as
      before, in either order. */
  lemma WriteLeavesDisjointField(buf: seq<U8>, f: Field, o: Encode, v: nat, g: Field, og: Encode)
    requires InBounds(f, |buf|) && InBounds(g, |buf|) && v < Bound(f)
    requires Disjoint(f, g)
    ensures Read(Write(buf, f, o, v), g, og) == Read(buf, g, og)
  {
    assert Slice(Write(buf, f, o, v), g) == Slice(buf, g);
  }

  /** Writes to disjoint fields commute. */
  lemma DisjointWritesCommute(buf: seq<U8>, f: Field, o: Encode, v: nat, g: Field, og: Encode, w: nat)
    requires InBounds(f, |buf|) && InBounds(g, |buf|) && v < Bound(f) && w < Bound(g)
    requires Disjoint(f, g)
    ensures Write(Write(buf, f, o, v), g, og, w) == Write(Write(buf, g, og, w), f, o, v)
  {
  }

  /** A big-endian read of a field is the little-endian read of its slice
      with the bytes reversed. */
  lemma BeReadIsReversedLeRead(buf: seq<U8>, f: Field)
    requires InBounds(f, |buf|)
    ensures Decodable(f, Reverse(Slice(buf, f)))
    ensures Read(buf, f, Be) == FromBytes(f, Le, Reverse(Slice(buf, f)))
  {
    var rev := Reverse(Slice(buf, f));
    BeIsReversedLe(f, 0, rev);
    assert Reverse(rev) == Slice(buf, f);
  }

  /** A view: the shared buffer and the byte order of this handle. */
  class View {
    const data: array<U8>
    const encode: Encode

    /** A new view on `data`, little-endian. */
    constructor (data: array<U8>)
      ensures this.data == data && this.encode == Le
    {
      this.data := data;
      this.encode := Le;
    }

    /** The view literal `{ data, encode }`. */
    constructor Of(data: array<U8>, encode: Encode)
      ensures this.data == data && this.encode == encode
    {
      this.data := data;
      this.encode := encode;
    }

    /** `getter`: a new view on the same buffer that reads in order
        `encode`; this view is unchanged. */
    method Getter(encode: Encode) returns (v: View)
      ensures fresh(v) && v.data == data && v.encode == encode
    {
      v := new View.Of(data, encode);
    }

    /** `setter`: a new view on the same buffer that writes in order
        `encode`; this view is unchanged. */
    method Setter(encode: Encode) returns (v: View)
      ensures fresh(v) && v.data == data && v.encode == encode
    {
      v := new View.Of(data, encode);
    }

    /** `get`: decode the field's slice in this view's order. */
    function Get(f: Field): (r: nat)
      reads data
      requires InBounds(f, data.Length)
      ensures r == Read(data[..], f, encode)
      ensures r < Bound(f) && ToBytes(f, encode, r) == data[RangeOf(f).start..RangeOf(f).end]
    {
      match encode
      case Le => FromLeBytes(f, data[RangeOf(f).start..RangeOf(f).end])
      case Be => FromBeBytes(f, data[RangeOf(f).start..RangeOf(f).end])
    }

    /** `out`: store the field's value in `dest` and return this view, so
        that several `out` calls chain. */
    method Out(f: Field) returns (dest: nat, self: View)
      requires InBounds(f, data.Length)
      ensures dest == Get(f) && self == this
    {
      dest := Get(f);
      self := this;
    }

    /** `with`: copy the encoding of `value` in this view's order over the
        field's slice and return this view, so that several `with` calls
        chain. Only mutable fields may be written. */
    method With(f: Field, value: nat) returns (self: View)
      requires IsMutable(f) && InBounds(f, data.Length) && value < Bound(f)
      modifies data
      ensures self == this
      ensures data[..] == Write(old(data[..]), f, encode, value)
      ensures Get(f) == value
      ensures forall i :: 0 <= i < data.Length && !(RangeOf(f).start <= i < RangeOf(f).end) ==> data[i] == old(data[i])
    {
      var r := RangeOf(f);
      var bytes := match encode
        case Le => ToLeBytes(f, value)
        case Be => ToBeBytes(f, value);
      DescriptorWellFormed(f, encode, value, []);
      forall i | r.start <= i < r.end {
        data[i] := bytes[i - r.start];
      }
      assert data[..] == Write(old(data[..]), f, encode, value);
      ReadAfterWrite(old(data[..]), f, encode, value);
      self := this;
    }
  }
}
