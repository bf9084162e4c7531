/** Fixed-width unsigned integers and their byte representations, least
    significant byte first (little-endian) or most significant byte first
    (big-endian): what Rust's `from_le_bytes`, `from_be_bytes`, `to_le_bytes`
    and `to_be_bytes` compute for an integer type of `n` bytes (`u8`: 1,
    `u32`: 4). */
module Endian {

  /** A byte, Rust `u8`. */
  type U8 = x: int | 0 <= x < 0x100

  /** 256 to the power `n`: how many values an `n`-byte unsigned integer has. */
  function Pow256(n: nat): (p: nat)
    ensures p > 0
  {
    if n == 0 then 1 else 0x100 * Pow256(n - 1)
  }

  /** The bytes in reverse order. */
  function Reverse(s: seq<U8>): (r: seq<U8>)
    ensures |r| == |s|
    ensures forall i :: 0 <= i < |s| ==> r[i] == s[|s| - 1 - i]
  {
    seq(|s|, i requires 0 <= i < |s| => s[|s| - 1 - i])
  }

  /** The unsigned value of `bs`, least significant byte first. */
  function FromLe(bs: seq<U8>): (r: nat)
    ensures r < Pow256(|bs|)
  {
    if bs == [] then 0 else bs[0] + 0x100 * FromLe(bs[1..])
  }

  /** The unsigned value of `bs`, most significant byte first. */
  function FromBe(bs: seq<U8>): (r: nat)
    ensures r < Pow256(|bs|)
  {
    if bs == [] then 0 else 0x100 * FromBe(bs[..|bs| - 1]) + bs[|bs| - 1]
  }

  /** The `n` low-order bytes of `v`, least significant first. */
  function ToLe(v: nat, n: nat): (r: seq<U8>)
    ensures |r| == n
  {
    if n == 0 then [] else [v % 0x100] + ToLe(v / 0x100, n - 1)
  }

  /** The `n` low-order bytes of `v`, most significant first. */
  function ToBe(v: nat, n: nat): (r: seq<U8>)
    ensures |r| == n
  {
    if n == 0 then [] else ToBe(v / 0x100, n - 1) + [v % 0x100]
  }

  /** Decoding a little-endian encoding gives back every representable value. */
  lemma {:induction false} LeValueRoundTrip(v: nat, n: nat)
    requires v < Pow256(n)
    ensures FromLe(ToLe(v, n)) == v
  {
    if n > 0 {
      LeValueRoundTrip(v / 0x100, n - 1);
      assert ToLe(v, n)[1..] == ToLe(v / 0x100, n - 1);
    }
  }

  /** Encoding a little-endian decoding gives back every byte sequence. */
  lemma {:induction false} LeBytesRoundTrip(bs: seq<U8>)
    ensures ToLe(FromLe(bs), |bs|) == bs
  {
    if bs != [] {
      var v := FromLe(bs);
      assert v % 0x100 == bs[0] && v / 0x100 == FromLe(bs[1..]);
      LeBytesRoundTrip(bs[1..]);
      assert bs == [bs[0]] + bs[1..];
    }
  }

  /** Decoding a big-endian encoding gives back every representable value. */
  lemma {:induction false} BeValueRoundTrip(v: nat, n: nat)
    requires v < Pow256(n)
    ensures FromBe(ToBe(v, n)) == v
  {
    if n > 0 {
      BeValueRoundTrip(v / 0x100, n - 1);
      var t := ToBe(v, n);
      assert t[..n - 1] == ToBe(v / 0x100, n - 1);
    }
  }

  /** Encoding a big-endian decoding gives back every byte sequence. */
  lemma {:induction false} BeBytesRoundTrip(bs: seq<U8>)
    ensures ToBe(FromBe(bs), |bs|) == bs
  {
    if bs != [] {
      var init := bs[..|bs| - 1];
      var v := FromBe(bs);
      assert v % 0x100 == bs[|bs| - 1] && v / 0x100 == FromBe(init);
      BeBytesRoundTrip(init);
      assert bs == init + [bs[|bs| - 1]];
    }
  }

  /** The big-endian encoding is the little-endian one reversed. */
  lemma {:induction false} ToBeIsReversedToLe(v: nat, n: nat)
    ensures ToBe(v, n) == Reverse(ToLe(v, n))
  {
    if n > 0 {
      ToBeIsReversedToLe(v / 0x100, n - 1);
      var le := ToLe(v, n);
      assert le[1..] == ToLe(v / 0x100, n - 1);
      assert Reverse(le) == Reverse(le[1..]) + [le[0]];
    }
  }

  /** Reading reversed bytes big-endian gives their little-endian value. */
  lemma {:induction false} FromBeOfReversed(bs: seq<U8>)
    ensures FromBe(Reverse(bs)) == FromLe(bs)
  {
    if bs != [] {
      FromBeOfReversed(bs[1..]);
      var rev := Reverse(bs);
      assert rev[..|rev| - 1] == Reverse(bs[1..]);
    }
  }
}
