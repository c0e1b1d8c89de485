/** The 3DS chunk header: a 16-bit tag followed by a 32-bit total length, both little-endian. */
module ChunkReader {
  import opened LittleEndian
  import opened Results

  /** Tags the decoder recognises. */
  const MainChunk: U16 := 0x4D4D
  const Editor3DChunk: U16 := 0x3D3D
  const ObjectBlockChunk: U16 := 0x4000
  const TriangularMeshChunk: U16 := 0x4100
  const VerticesChunk: U16 := 0x4110
  const FacesChunk: U16 := 0x4120

  /** Bytes a header occupies on disk: 2 for the tag and 4 for the length, with no padding
      between them (an in-memory struct of the same two fields is 8 bytes long). */
  const HeaderSize: nat := 6

  /** `length` counts the whole chunk, header included. */
  datatype Header = Header(tag: U16, length: U32)

  /** The six bytes that store `h` on disk. */
  function EncodeHeader(h: Header): (b: seq<Byte>)
    ensures |b| == HeaderSize
  {
    EncodeU16(h.tag) + EncodeU32(h.length)
  }

  /** Reads the header starting at `pos`, the tag and the length as two separate fields.
      On success the cursor has moved past exactly the six header bytes. */
  function ReadHeader(bytes: seq<Byte>, pos: nat): (r: Result<(Header, nat)>)
    ensures r.Ok? <==> pos + HeaderSize <= |bytes|
    ensures r.Err? ==> r.error == Truncated(pos)
    ensures r.Ok? ==> r.value.1 == pos + HeaderSize
  {
    if pos + HeaderSize <= |bytes| then
      Ok((Header(U16At(bytes, pos), U32At(bytes, pos + 2)), pos + HeaderSize))
    else
      Err(Truncated(pos))
  }

  /** The header read at `pos` is precisely what the six bytes there encode. */
  lemma ReadHeaderEncodes(bytes: seq<Byte>, pos: nat)
    requires pos + HeaderSize <= |bytes|
    ensures ReadHeader(bytes, pos).Ok?
    ensures EncodeHeader(ReadHeader(bytes, pos).value.0) == bytes[pos..pos + HeaderSize]
  {
    EncodeU16OfRead(bytes, pos);
    EncodeU32OfRead(bytes, pos + 2);
    assert bytes[pos..pos + HeaderSize] == bytes[pos..pos + 2] + bytes[pos + 2..pos + HeaderSize];
  }

  /** Whatever surrounds it, an encoded header reads back as itself and is followed by the cursor
      position just past it. */
  lemma ReadEncodedHeader(bytes: seq<Byte>, pos: nat, h: Header)
    requires pos + HeaderSize <= |bytes|
    requires bytes[pos..pos + HeaderSize] == EncodeHeader(h)
    ensures ReadHeader(bytes, pos) == Ok((h, pos + HeaderSize))
  {
    assert bytes[pos..pos + 2] == bytes[pos..pos + HeaderSize][..2] == EncodeU16(h.tag);
    assert bytes[pos + 2..pos + HeaderSize] == bytes[pos..pos + HeaderSize][2..];
    assert bytes[pos + 2..pos + HeaderSize] == EncodeU32(h.length);
    U16AtEncoding(bytes, pos, h.tag);
    U32AtEncoding(bytes, pos + 2, h.length);
  }
}
