/** One pass of the decoder's loop seen from the input side: which chunk starts at the cursor,
    what its payload holds, and where the next chunk starts. */
module Chunks {
  import opened LittleEndian
  import opened Results
  import opened ChunkReader
  import opened Payloads

  /** What one pass of the loop found at the cursor. */
  datatype Chunk =
    /** MAIN, 3D EDITOR or TRIANGULAR MESH: a chunk whose children follow its header directly. */
    | Container(tag: U16)
    /** OBJECT BLOCK: the name that follows its header, NUL included. */
    | ObjectBlock(name: seq<Byte>)
    /** VERTICES LIST: the declared count and the vertices that follow it. */
    | VertexList(count: U16, vertices: seq<Vector3>)
    /** FACES LIST: the declared count and the first three words of every face record. */
    | FaceList(count: U16, triangles: seq<Triangle>)
    /** Any other tag: the chunk is stepped over as a whole, children included. */
    | Skipped(header: Header)

  predicate IsContainerTag(tag: U16)
  {
    tag == MainChunk || tag == Editor3DChunk || tag == TriangularMeshChunk
  }

  /** The six tags the decoder recognises; every other tag is skipped. */
  predicate IsKnownTag(tag: U16)
  {
    IsContainerTag(tag) || tag == ObjectBlockChunk || tag == VerticesChunk || tag == FacesChunk
  }

  /** The shape every chunk produced by `ReadChunk` has. */
  predicate Valid(c: Chunk)
  {
    match c
    case Container(tag) => IsContainerTag(tag)
    case ObjectBlock(name) => Terminated(name)
    case VertexList(count, vertices) => |vertices| == count
    case FaceList(count, triangles) => |triangles| == count
    case Skipped(h) => !IsKnownTag(h.tag) && h.length >= HeaderSize
  }

  /** Reads the header at `pos` and, depending on its tag, the payload the decoder consumes;
      returns the chunk and the position of the next one. Every chunk read moves the cursor by at
      least the header size, a short header is a truncation, and the result is always `Valid`.
      Only a chunk with an unknown tag can be malformed; every other failure is a truncation. */
  function ReadChunk(bytes: seq<Byte>, pos: nat): (r: Result<(Chunk, nat)>)
    ensures pos + HeaderSize > |bytes| ==> r == Err(Truncated(pos))
    ensures r.Err? && r.error.MalformedSkip? ==>
              pos + HeaderSize <= |bytes| && !IsKnownTag(U16At(bytes, pos))
    ensures r.Ok? ==> r.value.1 >= pos + HeaderSize
    ensures r.Ok? ==> Valid(r.value.0)
  {
    var hp :- ReadHeader(bytes, pos);
    var (h, p) := hp;
    if IsContainerTag(h.tag) then
      Ok((Container(h.tag), p))
    else if h.tag == ObjectBlockChunk then
      var np :- ReadName(bytes, p);
      Ok((ObjectBlock(np.0), np.1))
    else if h.tag == VerticesChunk then
      var cp :- ReadCount(bytes, p);
      var vp :- ReadVertices(bytes, cp.1, cp.0);
      Ok((VertexList(cp.0, vp.0), vp.1))
    else if h.tag == FacesChunk then
      var cp :- ReadCount(bytes, p);
      var fp :- ReadFaces(bytes, cp.1, cp.0);
      Ok((FaceList(cp.0, fp.0), fp.1))
    else if h.length < HeaderSize then
      Err(MalformedSkip(pos, h.length))
    else
      Ok((Skipped(h), pos + h.length))
  }

  /** The chunks the decoder's loop visits from `pos` until the cursor reaches or passes the end
      of the input, in order; fails as soon as one of them fails to read. */
  function Parse(bytes: seq<Byte>, pos: nat): (r: Result<seq<Chunk>>)
    decreases |bytes| - pos
    ensures pos >= |bytes| ==> r == Ok([])
    ensures pos < |bytes| && r.Ok? ==> |r.value| > 0
    ensures r.Ok? ==> forall i :: 0 <= i < |r.value| ==> Valid(r.value[i])
  {
    if pos >= |bytes| then
      Ok([])
    else
      var cn :- ReadChunk(bytes, pos);
      var rest :- Parse(bytes, cn.1);
      Ok([cn.0] + rest)
  }

  /** `q` is a cursor position the loop reaches from `pos`: `pos` itself, or a position reached
      from where the chunk at `pos` ends when that chunk is read successfully before the end of
      the input. */
  predicate Reaches(bytes: seq<Byte>, pos: nat, q: nat)
    decreases |bytes| - pos
  {
    pos == q ||
    (pos < |bytes| && ReadChunk(bytes, pos).Ok? && Reaches(bytes, ReadChunk(bytes, pos).value.1, q))
  }

  /** A pass the loop reaches that fails to read its chunk fails the whole walk, with that
      pass's error: the walk never returns the chunks read before it. */
  lemma {:induction false} ParseFailsAtReachedFailure(bytes: seq<Byte>, pos: nat, q: nat)
    requires Reaches(bytes, pos, q)
    requires q < |bytes| && ReadChunk(bytes, q).Err?
    ensures Parse(bytes, pos) == Err(ReadChunk(bytes, q).error)
    decreases |bytes| - pos
  {
    if pos != q {
      var next := ReadChunk(bytes, pos).value.1;
      ParseFailsAtReachedFailure(bytes, next, q);
    }
  }

  /** Conversely, a failed walk failed at a pass it reaches, with that pass's error. */
  lemma {:induction false} ParseFailureIsReached(bytes: seq<Byte>, pos: nat)
    requires Parse(bytes, pos).Err?
    ensures exists q: nat :: Reaches(bytes, pos, q) && q < |bytes| && ReadChunk(bytes, q) == Err(Parse(bytes, pos).error)
    decreases |bytes| - pos
  {
    if ReadChunk(bytes, pos).Err? {
      assert Reaches(bytes, pos, pos);
    } else {
      var next := ReadChunk(bytes, pos).value.1;
      ParseFailureIsReached(bytes, next);
      var q: nat :| Reaches(bytes, next, q) && q < |bytes| && ReadChunk(bytes, q) == Err(Parse(bytes, next).error);
      assert Reaches(bytes, pos, q);
    }
  }
}
