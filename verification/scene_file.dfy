/** What the decoder produces from a file laid out by the writer: the round trip from meshes
    to bytes and back to objects. */
module SceneFile {
  import opened LittleEndian
  import opened Results
  import opened SeqFacts
  import opened ChunkReader
  import opened Payloads
  import opened Chunks
  import opened Objects
  import opened Decoder
  import opened ChunkWriter

  /** The object the decoder should produce for a mesh: its name with the NUL, its vertices, and
      its faces flattened with the flag words dropped. */
  function Expected(m: Mesh): Object3D
    requires Encodable(m)
  {
    Object3D(m.name, |m.vertices|, |m.faces|, m.vertices, Flatten(TrianglesOf(m.faces)))
  }

  function ExpectedObjects(ms: seq<Mesh>): seq<Object3D>
    requires forall i :: 0 <= i < |ms| ==> Encodable(ms[i])
  {
    if ms == [] then [] else [Expected(ms[0])] + ExpectedObjects(ms[1..])
  }

  function VertexTotal(ms: seq<Mesh>): nat
  {
    if ms == [] then 0 else |ms[0].vertices| + VertexTotal(ms[1..])
  }

  /** From a fresh object, the four chunks of one encoded mesh complete exactly the expected
      object and leave a fresh object behind. */
  lemma FoldMesh(p: Progress, m: Mesh)
    requires Encodable(m)
    requires p.current == EmptyObject
    ensures Fold(p, MeshChunks(m)) ==
            Progress(EmptyObject, p.objects + [Expected(m)], p.totalVertices + |m.vertices|)
  {
    var c := MeshChunks(m);
    var p1 := Apply(p, c[0]);
    var p2 := Apply(p1, c[1]);
    var p3 := Apply(p2, c[2]);
    var p4 := Apply(p3, c[3]);
    assert c[1..][1..][1..][1..] == [];
    assert Fold(p, c) == Fold(p1, c[1..]) == Fold(p2, c[1..][1..]) == Fold(p3, c[1..][1..][1..]) == p4;
  }

  /** Starting from a fresh object, the chunks of each encoded mesh complete exactly the
      expected object, and the vertex total grows by each mesh's vertex count. */
  lemma {:induction false} FoldMeshes(p: Progress, ms: seq<Mesh>)
    requires forall i :: 0 <= i < |ms| ==> Encodable(ms[i])
    requires p.current == EmptyObject
    ensures Fold(p, MeshesChunks(ms)) ==
            Progress(EmptyObject, p.objects + ExpectedObjects(ms), p.totalVertices + VertexTotal(ms))
    decreases |ms|
  {
    if ms == [] {
      assert p.objects + [] == p.objects;
    } else {
      var m := ms[0];
      var q := Progress(EmptyObject, p.objects + [Expected(m)], p.totalVertices + |m.vertices|);
      FoldConcat(p, MeshChunks(m), MeshesChunks(ms[1..]));
      FoldMesh(p, m);
      FoldMeshes(q, ms[1..]);
      AppendOne(p.objects, Expected(m), ExpectedObjects(ms[1..]));
    }
  }

  /** MAIN and 3D EDITOR leave the accumulator alone, so a scene's chunks end with exactly the
      expected objects and vertex total. */
  lemma FoldScene(ms: seq<Mesh>)
    requires forall i :: 0 <= i < |ms| ==> Encodable(ms[i])
    ensures Fold(Start, [Container(MainChunk), Container(Editor3DChunk)] + MeshesChunks(ms)) ==
            Progress(EmptyObject, ExpectedObjects(ms), VertexTotal(ms))
  {
    var cs := MeshesChunks(ms);
    var all := [Container(MainChunk), Container(Editor3DChunk)] + cs;
    DropTwo(Container(MainChunk), Container(Editor3DChunk), cs);
    assert Fold(Start, all) == Fold(Start, all[1..]) == Fold(Start, cs);
    FoldMeshes(Start, ms);
    assert [] + ExpectedObjects(ms) == ExpectedObjects(ms);
  }

  /** Round trip: decoding an encoded scene yields one object per mesh, in order, each with
      the mesh's name, vertices and faces, and a vertex total equal to the sum of the
      meshes' vertex counts. */
  lemma DecodeEncodedScene(ms: seq<Mesh>)
    requires SceneFits(ms)
    ensures Decode(EncodeScene(ms)) == Ok(Scene(ExpectedObjects(ms), VertexTotal(ms)))
  {
    ParseEncodedScene(ms);
    FoldScene(ms);
  }

  /** The name `Cube` as it sits in the file, NUL included. */
  const CubeName: seq<Byte> := [0x43, 0x75, 0x62, 0x65, 0x00]

  /** A file holding one object block named `Cube` with 8 vertices and 12 faces decodes to
      exactly one object with that name (NUL included), those vertices and faces, and a
      vertex total of 8. */
  lemma DecodeCube(m: Mesh)
    requires m.name == CubeName && |m.vertices| == 8 && |m.faces| == 12
    ensures SceneFits([m])
    ensures Decode(EncodeScene([m])) == Ok(Scene([Expected(m)], 8))
  {
    assert Terminated(CubeName) by {
      NulFreeEverywhere(CubeName[..4]);
    }
    assert [m][1..] == [];
    assert EncodeMeshes([m]) == EncodeMesh(m) + EncodeMeshes([m][1..]);
    DecodeEncodedScene([m]);
    assert ExpectedObjects([m]) == [Expected(m)];
    assert VertexTotal([m]) == 8 + VertexTotal([]);
    assert Decode(EncodeScene([m])) == Ok(Scene(ExpectedObjects([m]), VertexTotal([m])));
  }
}
