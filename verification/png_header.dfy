/** The part of the PNG format the atlas tooling reads: the 8-byte signature, the
    IHDR chunk that must follow it, and the big-endian ("network byte order",
    section 7.1 of the W3C PNG Specification, Second Edition) four-byte integers in
    which IHDR stores the image width and height (section 11.2.2). */
module PngHeader {

  type Byte = x: int | 0 <= x < 256

  /** The four bytes of `n` most significant first. */
  function BigEndian32(n: nat): (r: seq<Byte>)
    requires n < 0x1_0000_0000
    ensures |r| == 4
  {
    var n1 := n / 0x100;
    var n2 := n1 / 0x100;
    [n2 / 0x100, n2 % 0x100, n1 % 0x100, n % 0x100]
  }

  /** The unsigned integer four big-endian bytes denote. */
  function ReadBigEndian32(b: seq<Byte>): (r: nat)
    requires |b| == 4
    ensures r < 0x1_0000_0000
  {
    var b0, b1, b2, b3 := b[0] as int, b[1] as int, b[2] as int, b[3] as int;
    ((b0 * 0x100 + b1) * 0x100 + b2) * 0x100 + b3
  }

  lemma DivModByte(q: int, r: int)
    requires 0 <= r < 0x100
    ensures (q * 0x100 + r) / 0x100 == q && (q * 0x100 + r) % 0x100 == r
  {
    var x := q * 0x100 + r;
    assert x == (x / 0x100) * 0x100 + x % 0x100;
  }

  /** Encoding a 32-bit value and reading it back gives the value. */
  lemma ReadBigEndian32Inverse(n: nat)
    requires n < 0x1_0000_0000
    ensures ReadBigEndian32(BigEndian32(n)) == n
  {
    var n1 := n / 0x100;
    var n2 := n1 / 0x100;
    assert n == n1 * 0x100 + n % 0x100;
    assert n1 == n2 * 0x100 + n1 % 0x100;
    assert n2 == (n2 / 0x100) * 0x100 + n2 % 0x100;
  }

  /** Reading four bytes and encoding the value gives the bytes back. */
  lemma BigEndian32Inverse(b: seq<Byte>)
    requires |b| == 4
    ensures BigEndian32(ReadBigEndian32(b)) == b
  {
    var b0, b1, b2, b3 := b[0] as int, b[1] as int, b[2] as int, b[3] as int;
    var c := b0 * 0x100 + b1;
    var a := c * 0x100 + b2;
    var n := a * 0x100 + b3;
    DivModByte(a, b3);
    DivModByte(c, b2);
    DivModByte(b0, b1);
    assert ReadBigEndian32(b) == n;
  }

  /** The PNG signature, section 5.2. */
  const Signature: seq<Byte> := [137, 80, 78, 71, 13, 10, 26, 10]

  /** The chunk type "IHDR" as ASCII bytes. */
  const IhdrType: seq<Byte> := [73, 72, 68, 82]

  /** The first 24 bytes of a PNG file of the given size: the signature, the IHDR
      length field (13), the chunk type, the width and the height. */
  function HeaderPrefix(width: nat, height: nat): (r: seq<Byte>)
    requires width < 0x1_0000_0000 && height < 0x1_0000_0000
    ensures |r| == 24
    ensures r[..8] == Signature && r[12..16] == IhdrType
  {
    Signature + BigEndian32(13) + IhdrType + BigEndian32(width) + BigEndian32(height)
  }
}
