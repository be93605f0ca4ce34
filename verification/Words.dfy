/** Machine words, big-endian fields and byte strings shared by every component. */
module Words {

  type byte = x: int | 0 <= x < 256
  type u16 = x: int | 0 <= x < 0x1_0000
  type u32 = x: int | 0 <= x < 0x1_0000_0000

  const TWO32: int := 0x1_0000_0000

  datatype Option<+T> = None | Some(value: T)

  function Min(a: nat, b: nat): nat { if a < b then a else b }

  /** Rust's `Wrapping<u32>`: every sequence number is reduced modulo 2^32. */
  function Wrap(x: int): u32 { x % TWO32 }

  /** Two integers less than 2^32 apart that wrap to the same word are equal. */
  lemma WrapInjective(x: int, y: int)
    requires Wrap(x) == Wrap(y)
    requires -TWO32 < x - y < TWO32
    ensures x == y
  {
  }

  lemma WrapSmall(x: u32)
    ensures Wrap(x) == x
  {
  }

  lemma WrapAdd(x: int, y: int)
    ensures Wrap(Wrap(x) + y) == Wrap(x + y)
  {
    var q := x / TWO32;
    assert x == q * TWO32 + Wrap(x);
    WrapShift(Wrap(x) + y, q);
  }

  lemma WrapShift(x: int, q: int)
    ensures Wrap(x + q * TWO32) == Wrap(x)
  {
    var k := x / TWO32;
    var r := x % TWO32;
    assert x + q * TWO32 == (k + q) * TWO32 + r;
    DivModUnique(x + q * TWO32, k + q, r);
  }

  lemma DivModUnique(x: int, q: int, r: int)
    requires x == q * TWO32 + r && 0 <= r < TWO32
    ensures x % TWO32 == r
  {
    var q' := x / TWO32;
    assert (q - q') * TWO32 == x % TWO32 - r;
  }

  /** The two bytes of a 16-bit field, most significant first. */
  function Be16(x: u16): (s: seq<byte>)
    ensures |s| == 2
  {
    [x / 256, x % 256]
  }

  function FromBe16(hi: byte, lo: byte): (x: u16) { hi * 256 + lo }

  function Be32(x: u32): (s: seq<byte>)
    ensures |s| == 4
  {
    Be16(x / 0x1_0000) + Be16(x % 0x1_0000)
  }

  function FromBe32(a: byte, b: byte, c: byte, d: byte): (x: u32) {
    FromBe16(a, b) * 0x1_0000 + FromBe16(c, d)
  }

  lemma Be16RoundTrip(x: u16)
    ensures FromBe16(Be16(x)[0], Be16(x)[1]) == x
  {
  }

  lemma Be32RoundTrip(x: u32)
    ensures var s := Be32(x); FromBe32(s[0], s[1], s[2], s[3]) == x
  {
  }

  lemma Be16OfBytes(a: byte, b: byte)
    ensures Be16(FromBe16(a, b)) == [a, b]
  {
  }

  lemma Be32OfWords(h: u16, l: u16)
    ensures Be32(h * 0x1_0000 + l) == Be16(h) + Be16(l)
  {
  }

  lemma Be32OfBytes(a: byte, b: byte, c: byte, d: byte)
    ensures Be32(FromBe32(a, b, c, d)) == [a, b, c, d]
  {
    hide Be16, FromBe16, Be32;
    Be16OfBytes(a, b);
    Be16OfBytes(c, d);
    Be32OfWords(FromBe16(a, b), FromBe16(c, d));
  }

  /** Concatenation of a list of byte strings. */
  function Flatten(ps: seq<seq<byte>>): (s: seq<byte>) {
    if ps == [] then [] else ps[0] + Flatten(ps[1..])
  }

  lemma {:induction false} FlattenAppend(ps: seq<seq<byte>>, qs: seq<seq<byte>>)
    ensures Flatten(ps + qs) == Flatten(ps) + Flatten(qs)
  {
    if ps == [] {
      assert ps + qs == qs;
    } else {
      FlattenAppend(ps[1..], qs);
      assert (ps + qs)[1..] == ps[1..] + qs;
    }
  }

  lemma FlattenSnoc(ps: seq<seq<byte>>, p: seq<byte>)
    ensures Flatten(ps + [p]) == Flatten(ps) + p
  {
    FlattenAppend(ps, [p]);
    assert Flatten([p]) == p;
  }
}
