/** Fixed-width unsigned integers stored little-endian in a byte sequence. */
module LittleEndian {

  /** One byte of the input file. */
  type Byte = b: int | 0 <= b < 0x100

  /** The range of C's `unsigned short`. */
  type U16 = x: int | 0 <= x < 0x1_0000

  /** The range of C's `unsigned int` (and of a raw IEEE-754 single, read as a word). */
  type U32 = x: int | 0 <= x < 0x1_0000_0000

  /** The 16-bit value whose low byte is `bytes[pos]` and high byte is `bytes[pos + 1]`. */
  function U16At(bytes: seq<Byte>, pos: nat): U16
    requires pos + 2 <= |bytes|
  {
    bytes[pos] as int + 0x100 * bytes[pos + 1] as int
  }

  /** The 32-bit value stored in the four bytes from `pos`, least significant first. */
  function U32At(bytes: seq<Byte>, pos: nat): U32
    requires pos + 4 <= |bytes|
  {
    U16At(bytes, pos) as int + 0x1_0000 * U16At(bytes, pos + 2) as int
  }

  /** The two bytes that store `v`, least significant first. */
  function EncodeU16(v: U16): (b: seq<Byte>)
    ensures |b| == 2
  {
    [v % 0x100, v / 0x100]
  }

  /** The four bytes that store `v`, least significant first. */
  function EncodeU32(v: U32): (b: seq<Byte>)
    ensures |b| == 4
  {
    EncodeU16(v % 0x1_0000) + EncodeU16(v / 0x1_0000)
  }

  /** Reading back the two bytes that store `v` yields `v`. */
  lemma U16OfEncoding(v: U16)
    ensures U16At(EncodeU16(v), 0) == v
  {
  }

  /** Reading back the four bytes that store `v` yields `v`. */
  lemma U32OfEncoding(v: U32)
    ensures U32At(EncodeU32(v), 0) == v
  {
    var lo := EncodeU16(v % 0x1_0000);
    var hi := EncodeU16(v / 0x1_0000);
    U16OfEncoding(v % 0x1_0000);
    U16OfEncoding(v / 0x1_0000);
    assert U16At(lo + hi, 2) == U16At(hi, 0);
  }

  /** Reading two bytes and writing the value back reproduces those bytes. */
  lemma EncodeU16OfRead(bytes: seq<Byte>, pos: nat)
    requires pos + 2 <= |bytes|
    ensures EncodeU16(U16At(bytes, pos)) == bytes[pos..pos + 2]
  {
  }

  /** Reading four bytes and writing the value back reproduces those bytes. */
  lemma EncodeU32OfRead(bytes: seq<Byte>, pos: nat)
    requires pos + 4 <= |bytes|
    ensures EncodeU32(U32At(bytes, pos)) == bytes[pos..pos + 4]
  {
    var lo: int := U16At(bytes, pos);
    var hi: int := U16At(bytes, pos + 2);
    EncodeU16OfRead(bytes, pos);
    EncodeU16OfRead(bytes, pos + 2);
    assert (lo + 0x1_0000 * hi) % 0x1_0000 == lo;
    assert (lo + 0x1_0000 * hi) / 0x1_0000 == hi;
    assert bytes[pos..pos + 4] == bytes[pos..pos + 2] + bytes[pos + 2..pos + 4];
  }

  /** Wherever the encoding of `v` sits in a larger sequence, reading there yields `v`. */
  lemma U16AtEncoding(bytes: seq<Byte>, pos: nat, v: U16)
    requires pos + 2 <= |bytes|
    requires bytes[pos..pos + 2] == EncodeU16(v)
    ensures U16At(bytes, pos) == v
  {
    U16OfEncoding(v);
    assert bytes[pos] == EncodeU16(v)[0] && bytes[pos + 1] == EncodeU16(v)[1];
  }

  /** Wherever the encoding of `v` sits in a larger sequence, reading there yields `v`. */
  lemma U32AtEncoding(bytes: seq<Byte>, pos: nat, v: U32)
    requires pos + 4 <= |bytes|
    requires bytes[pos..pos + 4] == EncodeU32(v)
    ensures U32At(bytes, pos) == v
  {
    EncodeU32OfRead(bytes, pos);
    U32OfEncoding(U32At(bytes, pos));
    U32OfEncoding(v);
    assert EncodeU32(U32At(bytes, pos)) == EncodeU32(v);
    assert U32At(EncodeU32(U32At(bytes, pos)), 0) == U32At(EncodeU32(v), 0);
  }
}
