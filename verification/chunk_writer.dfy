/** The writer side of the format, used as the reader's partner: how chunks and whole scenes
    are laid out on disk, and which chunks the reader finds in such a layout. */
module ChunkWriter {
  import opened LittleEndian
  import opened Results
  import opened SeqFacts
  import opened ChunkReader
  import opened Payloads
  import opened Chunks

  /** A chunk on disk: a header whose length counts itself and the payload, then the payload. */
  function EncodeChunk(tag: U16, payload: seq<Byte>): (b: seq<Byte>)
    requires HeaderSize + |payload| < 0x1_0000_0000
    ensures |b| == HeaderSize + |payload|
  {
    EncodeHeader(Header(tag, HeaderSize + |payload|)) + payload
  }

  /** Sizes of the encoded chunks, as plain arithmetic on the element counts. */
  function VertexChunkSize(n: nat): nat
  {
    HeaderSize + 2 + VectorSize * n
  }

  function FaceChunkSize(n: nat): nat
  {
    HeaderSize + 2 + FaceRecordSize * n
  }

  function EncodeVertexChunk(vs: seq<Vector3>): (b: seq<Byte>)
    requires |vs| < 0x1_0000
    ensures |b| == VertexChunkSize(|vs|)
  {
    EncodeChunk(VerticesChunk, EncodeU16(|vs|) + EncodeVertices(vs))
  }

  function EncodeFaceChunk(fs: seq<FaceRecord>): (b: seq<Byte>)
    requires |fs| < 0x1_0000
    ensures |b| == FaceChunkSize(|fs|)
  {
    EncodeChunk(FacesChunk, EncodeU16(|fs|) + EncodeFaces(fs))
  }

  /** One mesh object as a writer would describe it. */
  datatype Mesh = Mesh(name: seq<Byte>, vertices: seq<Vector3>, faces: seq<FaceRecord>)

  /** A bound on name length that keeps every object block's length within 32 bits. */
  const NameLimit: nat := 0x100_0000

  predicate Encodable(m: Mesh)
  {
    && Terminated(m.name)
    && |m.name| <= NameLimit
    && |m.vertices| < 0x1_0000
    && |m.faces| < 0x1_0000
  }

  /** The size of an encoded object block. */
  function MeshSize(m: Mesh): nat
  {
    2 * HeaderSize + |m.name| + VertexChunkSize(|m.vertices|) + FaceChunkSize(|m.faces|)
  }

  /** OBJECT BLOCK holding the name and a TRIANGULAR MESH with a vertex list then a face list. */
  function EncodeMesh(m: Mesh): (b: seq<Byte>)
    requires Encodable(m)
    ensures |b| == MeshSize(m)
  {
    EncodeChunk(ObjectBlockChunk,
      m.name + EncodeChunk(TriangularMeshChunk, EncodeVertexChunk(m.vertices) + EncodeFaceChunk(m.faces)))
  }

  function EncodeMeshes(ms: seq<Mesh>): seq<Byte>
    requires forall i :: 0 <= i < |ms| ==> Encodable(ms[i])
  {
    if ms == [] then [] else EncodeMesh(ms[0]) + EncodeMeshes(ms[1..])
  }

  predicate SceneFits(ms: seq<Mesh>)
  {
    && (forall i :: 0 <= i < |ms| ==> Encodable(ms[i]))
    && 2 * HeaderSize + |EncodeMeshes(ms)| < 0x1_0000_0000
  }

  /** A whole file: MAIN holding 3D EDITOR holding the object blocks one after another. */
  function EncodeScene(ms: seq<Mesh>): seq<Byte>
    requires SceneFits(ms)
  {
    EncodeChunk(MainChunk, EncodeChunk(Editor3DChunk, EncodeMeshes(ms)))
  }

  /** The chunks the decoder visits inside one encoded object block. */
  function MeshChunks(m: Mesh): seq<Chunk>
    requires Encodable(m)
  {
    [ ObjectBlock(m.name),
      Container(TriangularMeshChunk),
      VertexList(|m.vertices|, m.vertices),
      FaceList(|m.faces|, TrianglesOf(m.faces)) ]
  }

  function MeshesChunks(ms: seq<Mesh>): seq<Chunk>
    requires forall i :: 0 <= i < |ms| ==> Encodable(ms[i])
  {
    if ms == [] then [] else MeshChunks(ms[0]) + MeshesChunks(ms[1..])
  }

  /** Where the header, count and records of an encoded list chunk sit. */
  lemma ListChunkLayout(bytes: seq<Byte>, pos: nat, tag: U16, count: U16, records: seq<Byte>)
    requires HeaderSize + 2 + |records| < 0x1_0000_0000
    requires Stored(bytes, pos, EncodeChunk(tag, EncodeU16(count) + records))
    ensures Stored(bytes, pos, EncodeHeader(Header(tag, HeaderSize + 2 + |records|)))
    ensures Stored(bytes, pos + HeaderSize, EncodeU16(count))
    ensures Stored(bytes, pos + HeaderSize + 2, records)
  {
    var h := Header(tag, HeaderSize + 2 + |records|);
    StoredConcat(bytes, pos, EncodeHeader(h), EncodeU16(count) + records);
    StoredConcat(bytes, pos + HeaderSize, EncodeU16(count), records);
  }

  /** An encoded header occurs at `pos` and so reads back. */
  lemma ReadStoredHeader(bytes: seq<Byte>, pos: nat, h: Header)
    requires Stored(bytes, pos, EncodeHeader(h))
    ensures ReadHeader(bytes, pos) == Ok((h, pos + HeaderSize))
  {
    StoredIsSlice(bytes, pos, EncodeHeader(h));
    ReadEncodedHeader(bytes, pos, h);
  }

  /** An encoded container header reads back as that container and nothing more. */
  lemma ReadEncodedContainer(bytes: seq<Byte>, pos: nat, h: Header)
    requires IsContainerTag(h.tag)
    requires Stored(bytes, pos, EncodeHeader(h))
    ensures ReadChunk(bytes, pos) == Ok((Container(h.tag), pos + HeaderSize))
  {
    ReadStoredHeader(bytes, pos, h);
  }

  /** An encoded object-block header followed by a NUL-terminated name reads back as that name,
      with the cursor just past the NUL. */
  lemma ReadEncodedObjectBlock(bytes: seq<Byte>, pos: nat, length: U32, name: seq<Byte>)
    requires Terminated(name)
    requires Stored(bytes, pos, EncodeHeader(Header(ObjectBlockChunk, length)) + name)
    ensures ReadChunk(bytes, pos) == Ok((ObjectBlock(name), pos + HeaderSize + |name|))
  {
    var h := Header(ObjectBlockChunk, length);
    assert ReadHeader(bytes, pos) == Ok((h, pos + HeaderSize)) && Stored(bytes, pos + HeaderSize, name) by {
      StoredConcat(bytes, pos, EncodeHeader(h), name);
      ReadStoredHeader(bytes, pos, h);
    }
    assert ReadName(bytes, pos + HeaderSize) == Ok((name, pos + HeaderSize + |name|)) by {
      StoredIsSlice(bytes, pos + HeaderSize, name);
      ReadStoredName(bytes, pos + HeaderSize, name);
    }
  }

  /** An encoded vertex-list chunk reads back as its vertices, with the cursor at its end. */
  lemma ReadEncodedVertexChunk(bytes: seq<Byte>, pos: nat, vs: seq<Vector3>)
    requires |vs| < 0x1_0000
    requires Stored(bytes, pos, EncodeVertexChunk(vs))
    ensures ReadChunk(bytes, pos) == Ok((VertexList(|vs|, vs), pos + |EncodeVertexChunk(vs)|))
  {
    var n := VectorSize * |vs|;
    ListChunkLayout(bytes, pos, VerticesChunk, |vs|, EncodeVertices(vs));
    ReadStoredHeader(bytes, pos, Header(VerticesChunk, HeaderSize + 2 + n));
    ReadEncodedCount(bytes, pos + HeaderSize, |vs|);
    assert ReadVertices(bytes, pos + HeaderSize + 2, |vs|) == Ok((vs, pos + HeaderSize + 2 + n)) by {
      StoredIsSlice(bytes, pos + HeaderSize + 2, EncodeVertices(vs));
      ReadEncodedVertices(bytes, pos + HeaderSize + 2, vs);
    }
  }

  /** An encoded face-list chunk reads back as its triangles, with the cursor at its end. */
  lemma ReadEncodedFaceChunk(bytes: seq<Byte>, pos: nat, fs: seq<FaceRecord>)
    requires |fs| < 0x1_0000
    requires Stored(bytes, pos, EncodeFaceChunk(fs))
    ensures ReadChunk(bytes, pos) == Ok((FaceList(|fs|, TrianglesOf(fs)), pos + |EncodeFaceChunk(fs)|))
  {
    var n := FaceRecordSize * |fs|;
    ListChunkLayout(bytes, pos, FacesChunk, |fs|, EncodeFaces(fs));
    ReadStoredHeader(bytes, pos, Header(FacesChunk, HeaderSize + 2 + n));
    ReadEncodedCount(bytes, pos + HeaderSize, |fs|);
    assert ReadFaces(bytes, pos + HeaderSize + 2, |fs|) == Ok((TrianglesOf(fs), pos + HeaderSize + 2 + n)) by {
      StoredIsSlice(bytes, pos + HeaderSize + 2, EncodeFaces(fs));
      ReadEncodedFaces(bytes, pos + HeaderSize + 2, fs);
    }
  }

  /** Parsing a chunk that reads successfully before the end of the input. */
  lemma ParseCons(bytes: seq<Byte>, pos: nat, c: Chunk, next: nat, rest: seq<Chunk>)
    requires pos < |bytes|
    requires ReadChunk(bytes, pos) == Ok((c, next))
    requires Parse(bytes, next) == Ok(rest)
    ensures Parse(bytes, pos) == Ok([c] + rest)
  {
  }

  /** An encoded chunk occurs at `pos` exactly when its header does and its payload follows. */
  lemma StoredChunk(bytes: seq<Byte>, pos: nat, tag: U16, payload: seq<Byte>)
    requires HeaderSize + |payload| < 0x1_0000_0000
    requires Stored(bytes, pos, EncodeChunk(tag, payload))
    ensures Stored(bytes, pos, EncodeHeader(Header(tag, HeaderSize + |payload|)))
    ensures Stored(bytes, pos + HeaderSize, payload)
  {
    StoredConcat(bytes, pos, EncodeHeader(Header(tag, HeaderSize + |payload|)), payload);
  }

  /** Where the pieces of an encoded object block sit, relative to its start. */
  lemma MeshLayout(bytes: seq<Byte>, pos: nat, m: Mesh)
    requires Encodable(m)
    requires Stored(bytes, pos, EncodeMesh(m))
    ensures Stored(bytes, pos, EncodeHeader(Header(ObjectBlockChunk, MeshSize(m))) + m.name)
    ensures Stored(bytes, pos + HeaderSize + |m.name|,
              EncodeHeader(Header(TriangularMeshChunk, HeaderSize + VertexChunkSize(|m.vertices|) + FaceChunkSize(|m.faces|))))
    ensures Stored(bytes, pos + 2 * HeaderSize + |m.name|, EncodeVertexChunk(m.vertices))
    ensures Stored(bytes, pos + 2 * HeaderSize + |m.name| + VertexChunkSize(|m.vertices|), EncodeFaceChunk(m.faces))
  {
    var vc := EncodeVertexChunk(m.vertices);
    var fc := EncodeFaceChunk(m.faces);
    var meshChunk := EncodeChunk(TriangularMeshChunk, vc + fc);
    var objHeader := EncodeHeader(Header(ObjectBlockChunk, MeshSize(m)));
    StoredChunk(bytes, pos, ObjectBlockChunk, m.name + meshChunk);
    StoredConcat(bytes, pos + HeaderSize, m.name, meshChunk);
    StoredConcat(bytes, pos, objHeader, m.name);
    var p1 := pos + HeaderSize + |m.name|;
    StoredChunk(bytes, p1, TriangularMeshChunk, vc + fc);
    StoredConcat(bytes, p1 + HeaderSize, vc, fc);
  }

  /** The first chunk of an encoded object block: its header and name. */
  lemma ReadMeshName(bytes: seq<Byte>, pos: nat, m: Mesh)
    requires Encodable(m)
    requires Stored(bytes, pos, EncodeMesh(m))
    ensures ReadChunk(bytes, pos) == Ok((ObjectBlock(m.name), pos + HeaderSize + |m.name|))
  {
    assert Stored(bytes, pos, EncodeHeader(Header(ObjectBlockChunk, MeshSize(m))) + m.name) by {
      MeshLayout(bytes, pos, m);
    }
    ReadEncodedObjectBlock(bytes, pos, MeshSize(m), m.name);
  }

  /** The second chunk of an encoded object block: the TRIANGULAR MESH header. */
  lemma ReadMeshContainer(bytes: seq<Byte>, pos: nat, m: Mesh)
    requires Encodable(m)
    requires Stored(bytes, pos, EncodeMesh(m))
    ensures ReadChunk(bytes, pos + HeaderSize + |m.name|) ==
            Ok((Container(TriangularMeshChunk), pos + 2 * HeaderSize + |m.name|))
  {
    var h := Header(TriangularMeshChunk, HeaderSize + VertexChunkSize(|m.vertices|) + FaceChunkSize(|m.faces|));
    assert Stored(bytes, pos + HeaderSize + |m.name|, EncodeHeader(h)) by {
      MeshLayout(bytes, pos, m);
    }
    ReadEncodedContainer(bytes, pos + HeaderSize + |m.name|, h);
  }

  /** The third chunk of an encoded object block: the vertex list. */
  lemma ReadMeshVertices(bytes: seq<Byte>, pos: nat, m: Mesh)
    requires Encodable(m)
    requires Stored(bytes, pos, EncodeMesh(m))
    ensures ReadChunk(bytes, pos + 2 * HeaderSize + |m.name|) ==
            Ok((VertexList(|m.vertices|, m.vertices), pos + 2 * HeaderSize + |m.name| + VertexChunkSize(|m.vertices|)))
  {
    assert Stored(bytes, pos + 2 * HeaderSize + |m.name|, EncodeVertexChunk(m.vertices)) by {
      MeshLayout(bytes, pos, m);
    }
    ReadEncodedVertexChunk(bytes, pos + 2 * HeaderSize + |m.name|, m.vertices);
  }

  /** The fourth chunk of an encoded object block: the face list, which ends the block. */
  lemma ReadMeshFaces(bytes: seq<Byte>, pos: nat, m: Mesh)
    requires Encodable(m)
    requires Stored(bytes, pos, EncodeMesh(m))
    ensures ReadChunk(bytes, pos + 2 * HeaderSize + |m.name| + VertexChunkSize(|m.vertices|)) ==
            Ok((FaceList(|m.faces|, TrianglesOf(m.faces)), pos + MeshSize(m)))
  {
    var p3 := pos + 2 * HeaderSize + |m.name| + VertexChunkSize(|m.vertices|);
    assert Stored(bytes, p3, EncodeFaceChunk(m.faces)) by {
      MeshLayout(bytes, pos, m);
    }
    ReadEncodedFaceChunk(bytes, p3, m.faces);
  }

  /** Parsing from the face list of an encoded object block. */
  lemma ParseMeshFaces(bytes: seq<Byte>, pos: nat, m: Mesh, rest: seq<Chunk>)
    requires Encodable(m)
    requires Stored(bytes, pos, EncodeMesh(m))
    requires Parse(bytes, pos + MeshSize(m)) == Ok(rest)
    ensures Parse(bytes, pos + 2 * HeaderSize + |m.name| + VertexChunkSize(|m.vertices|)) ==
            Ok([FaceList(|m.faces|, TrianglesOf(m.faces))] + rest)
  {
    ReadMeshFaces(bytes, pos, m);
    ParseCons(bytes, pos + 2 * HeaderSize + |m.name| + VertexChunkSize(|m.vertices|),
              FaceList(|m.faces|, TrianglesOf(m.faces)), pos + MeshSize(m), rest);
  }

  /** Parsing from the vertex list of an encoded object block. */
  lemma ParseMeshVertices(bytes: seq<Byte>, pos: nat, m: Mesh, rest: seq<Chunk>)
    requires Encodable(m)
    requires Stored(bytes, pos, EncodeMesh(m))
    requires Parse(bytes, pos + 2 * HeaderSize + |m.name| + VertexChunkSize(|m.vertices|)) == Ok(rest)
    ensures Parse(bytes, pos + 2 * HeaderSize + |m.name|) ==
            Ok([VertexList(|m.vertices|, m.vertices)] + rest)
  {
    ReadMeshVertices(bytes, pos, m);
    ParseCons(bytes, pos + 2 * HeaderSize + |m.name|, VertexList(|m.vertices|, m.vertices),
              pos + 2 * HeaderSize + |m.name| + VertexChunkSize(|m.vertices|), rest);
  }

  /** Parsing from the TRIANGULAR MESH header of an encoded object block. */
  lemma ParseMeshContainer(bytes: seq<Byte>, pos: nat, m: Mesh, rest: seq<Chunk>)
    requires Encodable(m)
    requires Stored(bytes, pos, EncodeMesh(m))
    requires Parse(bytes, pos + 2 * HeaderSize + |m.name|) == Ok(rest)
    ensures Parse(bytes, pos + HeaderSize + |m.name|) == Ok([Container(TriangularMeshChunk)] + rest)
  {
    ReadMeshContainer(bytes, pos, m);
    ParseCons(bytes, pos + HeaderSize + |m.name|, Container(TriangularMeshChunk),
              pos + 2 * HeaderSize + |m.name|, rest);
  }

  /** Parsing from the start of an encoded object block. */
  lemma ParseMeshName(bytes: seq<Byte>, pos: nat, m: Mesh, rest: seq<Chunk>)
    requires Encodable(m)
    requires Stored(bytes, pos, EncodeMesh(m))
    requires Parse(bytes, pos + HeaderSize + |m.name|) == Ok(rest)
    ensures Parse(bytes, pos) == Ok([ObjectBlock(m.name)] + rest)
  {
    ReadMeshName(bytes, pos, m);
    ParseCons(bytes, pos, ObjectBlock(m.name), pos + HeaderSize + |m.name|, rest);
  }

  /** An encoded object block followed by input that parses to `rest` parses to the block's
      four chunks and then `rest`. */
  lemma ParseStoredMesh(bytes: seq<Byte>, pos: nat, m: Mesh, rest: seq<Chunk>)
    requires Encodable(m)
    requires Stored(bytes, pos, EncodeMesh(m))
    requires Parse(bytes, pos + MeshSize(m)) == Ok(rest)
    ensures Parse(bytes, pos) == Ok(MeshChunks(m) + rest)
  {
    var c0, c1 := ObjectBlock(m.name), Container(TriangularMeshChunk);
    var c2, c3 := VertexList(|m.vertices|, m.vertices), FaceList(|m.faces|, TrianglesOf(m.faces));
    ParseMeshFaces(bytes, pos, m, rest);
    ParseMeshVertices(bytes, pos, m, [c3] + rest);
    ParseMeshContainer(bytes, pos, m, [c2] + ([c3] + rest));
    ParseMeshName(bytes, pos, m, [c1] + ([c2] + ([c3] + rest)));
    FourConcat(c0, c1, c2, c3, rest);
  }

  /** Encoded object blocks laid out back to back up to the end of the input parse to their
      chunks in order. */
  lemma {:induction false} ParseStoredMeshes(bytes: seq<Byte>, pos: nat, ms: seq<Mesh>)
    requires forall i :: 0 <= i < |ms| ==> Encodable(ms[i])
    requires Stored(bytes, pos, EncodeMeshes(ms))
    requires pos + |EncodeMeshes(ms)| == |bytes|
    ensures Parse(bytes, pos) == Ok(MeshesChunks(ms))
    decreases |ms|
  {
    if ms != [] {
      MeshesLayout(bytes, pos, ms);
      ParseStoredMeshes(bytes, pos + MeshSize(ms[0]), ms[1..]);
      ParseStoredMesh(bytes, pos, ms[0], MeshesChunks(ms[1..]));
    }
  }

  /** The first of several encoded object blocks, and where the others start. */
  lemma MeshesLayout(bytes: seq<Byte>, pos: nat, ms: seq<Mesh>)
    requires ms != [] && forall i :: 0 <= i < |ms| ==> Encodable(ms[i])
    requires Stored(bytes, pos, EncodeMeshes(ms))
    ensures Stored(bytes, pos, EncodeMesh(ms[0]))
    ensures Stored(bytes, pos + MeshSize(ms[0]), EncodeMeshes(ms[1..]))
    ensures |EncodeMeshes(ms)| == MeshSize(ms[0]) + |EncodeMeshes(ms[1..])|
  {
    StoredConcat(bytes, pos, EncodeMesh(ms[0]), EncodeMeshes(ms[1..]));
  }

  /** Where the MAIN header, the 3D EDITOR header and the payload sit in MAIN holding 3D EDITOR
      holding `inner`. */
  lemma NestedContainersLayout(inner: seq<Byte>)
    requires 2 * HeaderSize + |inner| < 0x1_0000_0000
    ensures var bytes := EncodeChunk(MainChunk, EncodeChunk(Editor3DChunk, inner));
            && Stored(bytes, 0, EncodeHeader(Header(MainChunk, 2 * HeaderSize + |inner|)))
            && Stored(bytes, HeaderSize, EncodeHeader(Header(Editor3DChunk, HeaderSize + |inner|)))
            && Stored(bytes, 2 * HeaderSize, inner)
            && 2 * HeaderSize + |inner| == |bytes|
  {
    var editor := EncodeHeader(Header(Editor3DChunk, HeaderSize + |inner|));
    var main := EncodeHeader(Header(MainChunk, 2 * HeaderSize + |inner|));
    assert EncodeChunk(MainChunk, EncodeChunk(Editor3DChunk, inner)) == main + (editor + inner);
    StoredPieces(main, editor, inner);
  }

  /** Where the MAIN header, the 3D EDITOR header and the object blocks sit in an encoded
      scene. */
  lemma SceneLayout(ms: seq<Mesh>)
    requires SceneFits(ms)
    ensures Stored(EncodeScene(ms), 0, EncodeHeader(Header(MainChunk, 2 * HeaderSize + |EncodeMeshes(ms)|)))
    ensures Stored(EncodeScene(ms), HeaderSize, EncodeHeader(Header(Editor3DChunk, HeaderSize + |EncodeMeshes(ms)|)))
    ensures Stored(EncodeScene(ms), 2 * HeaderSize, EncodeMeshes(ms))
    ensures 2 * HeaderSize + |EncodeMeshes(ms)| == |EncodeScene(ms)|
  {
    NestedContainersLayout(EncodeMeshes(ms));
  }

  /** In an encoded scene, MAIN and 3D EDITOR read as containers and the object blocks fill
      the rest of the file. */
  lemma ReadEncodedScene(ms: seq<Mesh>)
    requires SceneFits(ms)
    ensures ReadChunk(EncodeScene(ms), 0) == Ok((Container(MainChunk), HeaderSize))
    ensures ReadChunk(EncodeScene(ms), HeaderSize) == Ok((Container(Editor3DChunk), 2 * HeaderSize))
    ensures Stored(EncodeScene(ms), 2 * HeaderSize, EncodeMeshes(ms))
    ensures 2 * HeaderSize + |EncodeMeshes(ms)| == |EncodeScene(ms)|
  {
    SceneLayout(ms);
    ReadEncodedContainer(EncodeScene(ms), 0, Header(MainChunk, 2 * HeaderSize + |EncodeMeshes(ms)|));
    ReadEncodedContainer(EncodeScene(ms), HeaderSize, Header(Editor3DChunk, HeaderSize + |EncodeMeshes(ms)|));
  }

  /** A scene's MAIN and 3D EDITOR headers followed by encoded object blocks up to the end of
      the input parse to the two containers and then every block's chunks. */
  lemma ParseScene(bytes: seq<Byte>, ms: seq<Mesh>)
    requires forall i :: 0 <= i < |ms| ==> Encodable(ms[i])
    requires ReadChunk(bytes, 0) == Ok((Container(MainChunk), HeaderSize))
    requires ReadChunk(bytes, HeaderSize) == Ok((Container(Editor3DChunk), 2 * HeaderSize))
    requires Stored(bytes, 2 * HeaderSize, EncodeMeshes(ms))
    requires 2 * HeaderSize + |EncodeMeshes(ms)| == |bytes|
    ensures Parse(bytes, 0) == Ok([Container(MainChunk), Container(Editor3DChunk)] + MeshesChunks(ms))
  {
    var cs := MeshesChunks(ms);
    ParseStoredMeshes(bytes, 2 * HeaderSize, ms);
    ParseCons(bytes, HeaderSize, Container(Editor3DChunk), 2 * HeaderSize, cs);
    ParseCons(bytes, 0, Container(MainChunk), HeaderSize, [Container(Editor3DChunk)] + cs);
    TwoConcat(Container(MainChunk), Container(Editor3DChunk), cs);
  }

  /** An encoded scene parses to MAIN, 3D EDITOR and then the chunks of every mesh. */
  lemma ParseEncodedScene(ms: seq<Mesh>)
    requires SceneFits(ms)
    ensures Parse(EncodeScene(ms), 0) ==
            Ok([Container(MainChunk), Container(Editor3DChunk)] + MeshesChunks(ms))
  {
    ReadEncodedScene(ms);
    ParseScene(EncodeScene(ms), ms);
  }
}
