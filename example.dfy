/** The crate's documented example run: a big-endian getter and a
    little-endian setter share one eight-byte buffer; writes through the
    setter (chained, and through a further setter derived from it) are seen
    by the getter. The values the example prints are the method's results. */
module Example {
  import opened Endian
  import opened Fields
  import opened Accessor

  /** The buffer the example starts from. */
  function Initial(): (buf: seq<U8>)
  {
    [0x12, 0x34, 0x56, 0x78, 0x9a, 0xbc, 0xde, 0xf0]
  }

  /** The buffer after the example's three little-endian writes. */
  function Final(): (buf: seq<U8>)
  {
    [0x23, 0x78, 0x56, 0x34, 0x12, 0xbc, 0xde, 0xf0]
  }

  /** The example on buffer contents: what the big-endian reads give before
      and after the writes, and what the writes leave in the buffer. */
  lemma ExampleOnContents()
    ensures Read(Initial(), Field1, Be) == 0x12
    ensures Read(Initial(), Field2, Be) == 0x3456789a
    ensures Write(Write(Write(Initial(), Field1, Le, 0x12), Field2, Le, 0x12345678), Field1, Le, 0x23) == Final()
    ensures Read(Final(), Field1, Be) == 0x23
    ensures Read(Final(), Field2, Be) == 0x78563412
  {
    assert Slice(Initial(), Field2) == ToBe(0x3456789a, 4);
    BeValueRoundTrip(0x3456789a, 4);
    assert Slice(Final(), Field2) == ToBe(0x78563412, 4);
    BeValueRoundTrip(0x78563412, 4);
    var w1 := Write(Initial(), Field1, Le, 0x12);
    assert w1 == Initial();
    var w2 := Write(w1, Field2, Le, 0x12345678);
    assert w2 == [0x12, 0x78, 0x56, 0x34, 0x12, 0xbc, 0xde, 0xf0];
  }

  /** The example's `main`, on a heap buffer shared by every view. */
  method DocExample() returns (before1: nat, before2: nat, after1: nat, after2: nat,
                               field1: nat, field2: nat, final: seq<U8>)
    ensures before1 == 0x12 && before2 == 0x3456789a
    ensures after1 == 0x23 && after2 == 0x78563412
    ensures field1 == after1 && field2 == after2
    ensures final == Final()
  {
    ExampleOnContents();
    var buf := new U8[8] [0x12, 0x34, 0x56, 0x78, 0x9a, 0xbc, 0xde, 0xf0];
    assert buf[..] == Initial();
    var a := new View(buf);

    var getter := a.Getter(Be);
    before1 := getter.Get(Field1);
    before2 := getter.Get(Field2);

    var setter := a.Setter(Le);
    var s := setter.With(Field1, 0x12);
    s := s.With(Field2, 0x12345678);
    s := s.Setter(Le);
    s := s.With(Field1, 0x23);
    assert buf[..] == Final();
    after1 := getter.Get(Field1);
    after2 := getter.Get(Field2);

    var g;
    field1, g := getter.Out(Field1);
    field2, g := g.Out(Field2);
    final := buf[..];
  }
}
