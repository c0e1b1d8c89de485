/** The chunk-walking decoder: the loop that reads a chunk at the cursor, dispatches on its tag
    and updates the accumulator until the cursor reaches or passes the end of the input. */
module Decoder {
  import opened LittleEndian
  import opened Results
  import opened ChunkReader
  import opened Payloads
  import opened Chunks
  import opened Objects

  /** What a successful decode yields: the completed objects in completion order and the total
      number of vertices read. */
  datatype Scene = Scene(objects: seq<Object3D>, totalVertices: nat)

  /** The scene an accumulator has produced once the loop stops; the object still being
      filled in is dropped. */
  function SceneOf(p: Progress): Scene
  {
    Scene(p.objects, p.totalVertices)
  }

  /** Finishes a decode from accumulator `p`, given what the rest of the input parses to. */
  function Resume(rest: Result<seq<Chunk>>, p: Progress): Result<Scene>
  {
    match rest
    case Err(e) => Err(e)
    case Ok(cs) => Ok(SceneOf(Fold(p, cs)))
  }

  /** Decodes a whole file: walk every chunk from offset 0 and apply them in order to a fresh
      accumulator. Any failed read fails the whole decode; there is no partial result. A
      successful decode holds one completed object per face-list chunk in the file, and a
      vertex total equal to the sum of the counts of all vertex-list chunks. */
  function Decode(bytes: seq<Byte>): (r: Result<Scene>)
    ensures r.Ok? <==> Parse(bytes, 0).Ok?
    ensures r.Err? ==> r.error == Parse(bytes, 0).error
    ensures r.Ok? ==> |r.value.objects| == |FaceLists(Parse(bytes, 0).value)|
    ensures r.Ok? ==> r.value.totalVertices == VertexCountSum(Parse(bytes, 0).value)
  {
    Resume(Parse(bytes, 0), Start)
  }

  /** A decode fails exactly when a pass the loop reaches fails to read its chunk, and then
      with that pass's error: a file that ends inside a field, or a malformed skip, never
      yields the objects read before it. A malformed skip comes only from a chunk whose tag the
      decoder does not know; every other failure is a truncation. */
  lemma DecodeFailsExactlyAtAFailedRead(bytes: seq<Byte>)
    ensures Decode(bytes).Err? <==>
              exists q: nat :: Reaches(bytes, 0, q) && q < |bytes| && ReadChunk(bytes, q).Err?
    ensures forall q: nat :: Reaches(bytes, 0, q) && q < |bytes| && ReadChunk(bytes, q).Err? ==>
              Decode(bytes) == Err(ReadChunk(bytes, q).error)
    ensures Decode(bytes).Err? && Decode(bytes).error.MalformedSkip? ==>
              exists q: nat :: && Reaches(bytes, 0, q) && q + HeaderSize <= |bytes|
                               && ReadChunk(bytes, q) == Err(Decode(bytes).error)
                               && !IsKnownTag(U16At(bytes, q))
  {
    forall q: nat | Reaches(bytes, 0, q) && q < |bytes| && ReadChunk(bytes, q).Err?
      ensures Decode(bytes) == Err(ReadChunk(bytes, q).error)
    {
      ParseFailsAtReachedFailure(bytes, 0, q);
    }
    if Decode(bytes).Err? {
      ParseFailureIsReached(bytes, 0);
    }
  }

  /** What a successful decode holds, object by object: the k-th object is the one completed by
      the k-th face-list chunk, carrying that chunk's count and its faces flattened, and every
      object has counts agreeing with its arrays. */
  lemma DecodeSummary(bytes: seq<Byte>)
    requires Decode(bytes).Ok?
    ensures Parse(bytes, 0).Ok?
    ensures forall k :: 0 <= k < |FaceLists(Parse(bytes, 0).value)| ==>
              && Decode(bytes).value.objects[k].noFaces == FaceLists(Parse(bytes, 0).value)[k].count
              && Decode(bytes).value.objects[k].indices == Flatten(FaceLists(Parse(bytes, 0).value)[k].triangles)
    ensures forall i :: 0 <= i < |Decode(bytes).value.objects| ==> WellFormed(Decode(bytes).value.objects[i])
  {
    var cs := Parse(bytes, 0).value;
    FoldEmitsOneObjectPerFaceList(Start, cs);
    FoldKeepsWellFormed(Start, cs);
  }

  /** One pass of the loop: read the chunk at `pos`, apply it, and return where the next chunk
      starts. Every pass moves the cursor forward by at least a header and only ever appends
      to the output. */
  function Step(bytes: seq<Byte>, pos: nat, p: Progress): (r: Result<(Progress, nat)>)
    ensures r.Ok? ==> r.value.1 >= pos + HeaderSize
    ensures r.Ok? ==> |p.objects| <= |r.value.0.objects| <= |p.objects| + 1
    ensures r.Ok? ==> r.value.0.objects[..|p.objects|] == p.objects
  {
    var cn :- ReadChunk(bytes, pos);
    Ok((Apply(p, cn.0), cn.1))
  }

  /** The tag of the chunk whose header starts at `pos`. */
  function TagAt(bytes: seq<Byte>, pos: nat): U16
    requires pos + HeaderSize <= |bytes|
  {
    U16At(bytes, pos)
  }

  /** MAIN, 3D EDITOR and TRIANGULAR MESH consume their header and nothing else, and leave the
      accumulator as it was: their children are read by the following passes. */
  lemma StepContainer(bytes: seq<Byte>, pos: nat, p: Progress)
    requires pos + HeaderSize <= |bytes|
    requires IsContainerTag(TagAt(bytes, pos))
    ensures Step(bytes, pos, p) == Ok((p, pos + HeaderSize))
  {
  }

  /** A chunk with any other tag is stepped over by its declared length, so the next chunk starts
      that many bytes after its header began, even past the end of the input; the accumulator
      is untouched. A declared length shorter than the header is rejected. */
  lemma StepSkip(bytes: seq<Byte>, pos: nat, p: Progress)
    requires pos + HeaderSize <= |bytes|
    requires !IsKnownTag(TagAt(bytes, pos))
    ensures U32At(bytes, pos + 2) < HeaderSize ==>
              Step(bytes, pos, p) == Err(MalformedSkip(pos, U32At(bytes, pos + 2)))
    ensures U32At(bytes, pos + 2) >= HeaderSize ==>
              Step(bytes, pos, p) == Ok((p, pos + U32At(bytes, pos + 2)))
  {
  }

  /** OBJECT BLOCK names the current object with the bytes after its header up to and including
      the first NUL, and keeps whatever vertices and faces the object already had. It fails
      exactly when no NUL follows. */
  lemma StepObjectBlock(bytes: seq<Byte>, pos: nat, p: Progress)
    requires pos + HeaderSize <= |bytes|
    requires TagAt(bytes, pos) == ObjectBlockChunk
    ensures Step(bytes, pos, p).Ok? <==> !NulFree(bytes[pos + HeaderSize..])
    ensures Step(bytes, pos, p).Ok? ==>
              var (q, next) := Step(bytes, pos, p).value;
              && pos + HeaderSize < next <= |bytes|
              && q.current == p.current.(name := bytes[pos + HeaderSize..next])
              && Terminated(q.current.name)
              && q.objects == p.objects
              && q.totalVertices == p.totalVertices
    ensures Step(bytes, pos, p).Err? ==> Step(bytes, pos, p).error.Truncated?
  {
  }

  /** VERTICES LIST reads a count n and then n vertices of 12 bytes each, so the cursor moves
      2 + 12n bytes past the header. The current object's vertex array is replaced by exactly
      those n vertices in file order, and the running total grows by n. It fails exactly when
      the input ends before the last vertex. */
  lemma StepVertexList(bytes: seq<Byte>, pos: nat, p: Progress)
    requires pos + HeaderSize <= |bytes|
    requires TagAt(bytes, pos) == VerticesChunk
    ensures Step(bytes, pos, p).Ok? <==>
              pos + HeaderSize + 2 <= |bytes| &&
              pos + HeaderSize + 2 + VectorSize * U16At(bytes, pos + HeaderSize) <= |bytes|
    ensures Step(bytes, pos, p).Ok? ==>
              var n := U16At(bytes, pos + HeaderSize);
              var (q, next) := Step(bytes, pos, p).value;
              && next == pos + HeaderSize + 2 + VectorSize * n
              && q.current.noVertices == n
              && |q.current.vertices| == n
              && (forall i :: 0 <= i < n ==>
                    q.current.vertices[i] == VectorAt(bytes, pos + HeaderSize + 2 + VectorSize * i))
              && q.current.name == p.current.name
              && q.current.noFaces == p.current.noFaces
              && q.current.indices == p.current.indices
              && q.objects == p.objects
              && q.totalVertices == p.totalVertices + n
    ensures Step(bytes, pos, p).Err? ==> Step(bytes, pos, p).error.Truncated?
  {
  }

  /** FACES LIST reads a count n and then n records of four 16-bit words, so the cursor moves
      2 + 8n bytes past the header. The first three words of record i become indices 3i..3i+2
      and the fourth is dropped. The completed object is appended to the output and a fresh
      one takes its place. It fails exactly when the input ends before the last record. */
  lemma StepFaceList(bytes: seq<Byte>, pos: nat, p: Progress)
    requires pos + HeaderSize <= |bytes|
    requires TagAt(bytes, pos) == FacesChunk
    ensures Step(bytes, pos, p).Ok? <==>
              pos + HeaderSize + 2 <= |bytes| &&
              pos + HeaderSize + 2 + FaceRecordSize * U16At(bytes, pos + HeaderSize) <= |bytes|
    ensures Step(bytes, pos, p).Ok? ==>
              var n := U16At(bytes, pos + HeaderSize);
              var (q, next) := Step(bytes, pos, p).value;
              && next == pos + HeaderSize + 2 + FaceRecordSize * n
              && q.current == EmptyObject
              && |q.objects| == |p.objects| + 1
              && q.objects[..|p.objects|] == p.objects
              && var done := q.objects[|p.objects|];
              && done.name == p.current.name
              && done.noVertices == p.current.noVertices
              && done.vertices == p.current.vertices
              && done.noFaces == n
              && |done.indices| == 3 * n
              && (forall i :: 0 <= i < n ==>
                    IndexTriple(done.indices, i) == TriangleAt(bytes, pos + HeaderSize + 2 + FaceRecordSize * i))
              && q.totalVertices == p.totalVertices
    ensures Step(bytes, pos, p).Err? ==> Step(bytes, pos, p).error.Truncated?
  {
  }

  /** The decoder as the source writes it: a loop over the input that runs while the cursor is
      below the input length, one chunk per pass. It computes exactly `Decode`. */
  method ReadChunks(bytes: seq<Byte>) returns (r: Result<Scene>)
    ensures r == Decode(bytes)
  {
    var pos: nat := 0;
    var p := Start;
    while pos < |bytes|
      invariant Resume(Parse(bytes, pos), p) == Decode(bytes)
      decreases |bytes| - pos
    {
      var s := Step(bytes, pos, p);
      if s.Err? {
        return Err(s.error);
      }
      ghost var cn := ReadChunk(bytes, pos).value;
      ghost var rest := Parse(bytes, cn.1);
      if rest.Ok? {
        assert ([cn.0] + rest.value)[1..] == rest.value;
      }
      p, pos := s.value.0, s.value.1;
    }
    return Ok(SceneOf(p));
  }
}
