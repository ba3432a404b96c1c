/** 32-bit words, their memory image on a little-endian host, and the swap done by
    `htonl`/`ntohl`. Network byte order is the one of Appendix B of RFC 791. */
module ByteOrder {
  import opened Common

  const TWO_31: int := 0x8000_0000
  const TWO_32: int := 0x1_0000_0000

  type uint32 = x: int | 0 <= x < 0x1_0000_0000

  /** The conversion `(int) x` of an unsigned 32-bit length. */
  function AsInt32(x: uint32): (r: int)
    ensures -TWO_31 <= r < TWO_31 && (r - x) % TWO_32 == 0
  {
    if x < TWO_31 then x else x - TWO_32
  }

  /** Memory image of a word on the (little-endian) host. */
  function HostBytes(x: uint32): (b: seq<byte>)
    ensures |b| == 4
  {
    [x % 0x100, x / 0x100 % 0x100, x / 0x1_0000 % 0x100, x / 0x100_0000]
  }

  function HostWord(b: seq<byte>): (r: uint32)
    requires |b| == 4
  {
    var b0: int, b1: int, b2: int, b3: int := b[0], b[1], b[2], b[3];
    b0 + 0x100 * b1 + 0x1_0000 * b2 + 0x100_0000 * b3
  }

  /** Most significant byte first. */
  function NetworkBytes(x: uint32): (b: seq<byte>)
    ensures |b| == 4
  {
    [x / 0x100_0000, x / 0x1_0000 % 0x100, x / 0x100 % 0x100, x % 0x100]
  }

  function NetworkWord(b: seq<byte>): (r: uint32)
    requires |b| == 4
  {
    var b0: int, b1: int, b2: int, b3: int := b[0], b[1], b[2], b[3];
    ((b0 * 0x100 + b1) * 0x100 + b2) * 0x100 + b3
  }

  /** `htonl`, and also `ntohl`: the arithmetic swap of the four bytes. */
  function Swap(x: uint32): (r: uint32)
  {
    x % 0x100 * 0x100_0000 + x / 0x100 % 0x100 * 0x1_0000 + x / 0x1_0000 % 0x100 * 0x100 + x / 0x100_0000
  }

  lemma DigitsOfWord(a: byte, b: byte, c: byte, d: byte)
    ensures var x := a + 0x100 * b + 0x1_0000 * c + 0x100_0000 * d;
            x < TWO_32 && HostBytes(x) == [a, b, c, d] && NetworkBytes(x) == [d, c, b, a]
  {
    var x := a + 0x100 * b + 0x1_0000 * c + 0x100_0000 * d;
    assert x / 0x100 == b + 0x100 * c + 0x1_0000 * d;
    assert x / 0x1_0000 == c + 0x100 * d;
    assert x / 0x100_0000 == d;
  }

  lemma WordOfDigits(x: uint32)
    ensures HostWord(HostBytes(x)) == x && NetworkWord(NetworkBytes(x)) == x
  {
    assert x == x % 0x100 + 0x100 * (x / 0x100);
    assert x / 0x100 == x / 0x100 % 0x100 + 0x100 * (x / 0x1_0000);
    assert x / 0x1_0000 == x / 0x1_0000 % 0x100 + 0x100 * (x / 0x100_0000);
  }

  /** A swapped word lies in host memory in network order. */
  lemma SwapIsNetworkOrder(x: uint32)
    ensures HostBytes(Swap(x)) == NetworkBytes(x)
  {
    var b := NetworkBytes(x);
    DigitsOfWord(b[0], b[1], b[2], b[3]);
  }

  /** Swapping twice restores every 32-bit value, so zero is only swapped to zero. */
  lemma SwapTwice(x: uint32)
    ensures Swap(Swap(x)) == x
    ensures Swap(x) == 0 <==> x == 0
  {
    var b := NetworkBytes(x);
    DigitsOfWord(b[0], b[1], b[2], b[3]);
    WordOfDigits(x);
    assert Swap(Swap(x)) == NetworkWord(HostBytes(Swap(x)));
  }

  /** The two readings of four bytes differ by the swap. */
  lemma NetworkReading(b: seq<byte>)
    requires |b| == 4
    ensures Swap(HostWord(b)) == NetworkWord(b)
  {
    DigitsOfWord(b[0], b[1], b[2], b[3]);
  }
}
