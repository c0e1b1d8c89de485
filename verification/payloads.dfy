/** The payloads of the three chunk kinds whose contents the decoder reads: the NUL-terminated
    object name, the vertex list and the face list. */
module Payloads {
  import opened LittleEndian
  import opened Results
  import opened SeqFacts

  /** One vertex. Each coordinate is kept as the raw 32-bit word of its IEEE-754 single;
      the decoder copies the words and never does arithmetic on them. */
  datatype Vector3 = Vector3(x: U32, y: U32, z: U32)

  /** The three vertex indices kept from one face record. */
  datatype Triangle = Triangle(a: U16, b: U16, c: U16)

  /** One face record as stored on disk: three indices and a flag word the decoder discards. */
  datatype FaceRecord = FaceRecord(triangle: Triangle, flags: U16)

  /** Bytes per vertex (three 4-byte coordinates) and per face record (four 2-byte words). */
  const VectorSize: nat := 12
  const FaceRecordSize: nat := 8

  /** The vertex whose coordinates are the three words from `pos`, in x, y, z order. */
  function VectorAt(bytes: seq<Byte>, pos: nat): Vector3
    requires pos + VectorSize <= |bytes|
  {
    Vector3(U32At(bytes, pos), U32At(bytes, pos + 4), U32At(bytes, pos + 8))
  }

  /** The first three words of the face record at `pos`; the fourth, at `pos + 6`, is not part
      of the result. */
  function TriangleAt(bytes: seq<Byte>, pos: nat): Triangle
    requires pos + FaceRecordSize <= |bytes|
  {
    Triangle(U16At(bytes, pos), U16At(bytes, pos + 2), U16At(bytes, pos + 4))
  }

  /** Reads the 16-bit element count that opens a vertex or face list. It succeeds exactly when
      two bytes remain and then moves the cursor past them; otherwise the list is truncated
      where its count should start. */
  function ReadCount(bytes: seq<Byte>, pos: nat): (r: Result<(U16, nat)>)
    ensures r.Ok? <==> pos + 2 <= |bytes|
    ensures r.Err? ==> r.error == Truncated(pos)
    ensures r.Ok? ==> r.value.1 == pos + 2
  {
    if pos + 2 <= |bytes| then Ok((U16At(bytes, pos), pos + 2)) else Err(Truncated(pos))
  }

  /** A count written little-endian at `pos` reads back as itself, cursor just past it. */
  lemma ReadEncodedCount(bytes: seq<Byte>, pos: nat, n: U16)
    requires Stored(bytes, pos, EncodeU16(n))
    ensures ReadCount(bytes, pos) == Ok((n, pos + 2))
  {
    StoredIsSlice(bytes, pos, EncodeU16(n));
    U16AtEncoding(bytes, pos, n);
  }

  /** Reads an object name one byte at a time up to and including the first NUL, which stays
      part of the name. Fails when the input ends before a NUL. */
  function ReadName(bytes: seq<Byte>, pos: nat): (r: Result<(seq<Byte>, nat)>)
    decreases |bytes| - pos
    ensures r.Ok? <==> pos < |bytes| && !NulFree(bytes[pos..])
    ensures r.Err? ==> r.error == Truncated(|bytes|)
    ensures r.Ok? ==> pos < r.value.1 <= |bytes| && r.value.0 == bytes[pos..r.value.1]
    ensures r.Ok? ==> Terminated(r.value.0)
  {
    if pos >= |bytes| then
      Err(Truncated(|bytes|))
    else if bytes[pos] == 0 then
      Ok((bytes[pos..pos + 1], pos + 1))
    else
      assert bytes[pos..][1..] == bytes[pos + 1..];
      var rest :- ReadName(bytes, pos + 1);
      var name := bytes[pos..pos + 1] + rest.0;
      assert name[..|name| - 1][1..] == rest.0[..|rest.0| - 1];
      Ok((name, rest.1))
  }

  /** Reads `n` vertices stored back to back from `pos`. Succeeds exactly when all `n * 12`
      bytes are present; the i-th result is the i-th record, and the cursor ends just past
      the last record. */
  function ReadVertices(bytes: seq<Byte>, pos: nat, n: nat): (r: Result<(seq<Vector3>, nat)>)
    requires pos <= |bytes|
    decreases n
    ensures r.Ok? <==> pos + VectorSize * n <= |bytes|
    ensures r.Err? ==> r.error.Truncated?
    ensures r.Ok? ==> r.value.1 == pos + VectorSize * n && |r.value.0| == n
    ensures r.Ok? ==> forall i :: 0 <= i < n ==> r.value.0[i] == VectorAt(bytes, pos + VectorSize * i)
  {
    if n == 0 then
      Ok(([], pos))
    else if pos + VectorSize > |bytes| then
      Err(Truncated(pos))
    else
      var rest :- ReadVertices(bytes, pos + VectorSize, n - 1);
      Ok(([VectorAt(bytes, pos)] + rest.0, rest.1))
  }

  /** Reads `n` face records stored back to back from `pos`, keeping the first three words of
      each and stepping over the fourth. Succeeds exactly when all `n * 8` bytes are present. */
  function ReadFaces(bytes: seq<Byte>, pos: nat, n: nat): (r: Result<(seq<Triangle>, nat)>)
    requires pos <= |bytes|
    decreases n
    ensures r.Ok? <==> pos + FaceRecordSize * n <= |bytes|
    ensures r.Err? ==> r.error.Truncated?
    ensures r.Ok? ==> r.value.1 == pos + FaceRecordSize * n && |r.value.0| == n
    ensures r.Ok? ==> forall i :: 0 <= i < n ==> r.value.0[i] == TriangleAt(bytes, pos + FaceRecordSize * i)
  {
    if n == 0 then
      Ok(([], pos))
    else if pos + FaceRecordSize > |bytes| then
      Err(Truncated(pos))
    else
      var rest :- ReadFaces(bytes, pos + FaceRecordSize, n - 1);
      Ok(([TriangleAt(bytes, pos)] + rest.0, rest.1))
  }

  // Encoders: the inverse direction, used to state what the readers recover.

  function EncodeVector(v: Vector3): (b: seq<Byte>)
    ensures |b| == VectorSize
  {
    EncodeU32(v.x) + EncodeU32(v.y) + EncodeU32(v.z)
  }

  function EncodeVertices(vs: seq<Vector3>): (b: seq<Byte>)
    ensures |b| == VectorSize * |vs|
  {
    if vs == [] then [] else EncodeVector(vs[0]) + EncodeVertices(vs[1..])
  }

  function EncodeFace(f: FaceRecord): (b: seq<Byte>)
    ensures |b| == FaceRecordSize
  {
    EncodeU16(f.triangle.a) + EncodeU16(f.triangle.b) + EncodeU16(f.triangle.c) + EncodeU16(f.flags)
  }

  function EncodeFaces(fs: seq<FaceRecord>): (b: seq<Byte>)
    ensures |b| == FaceRecordSize * |fs|
  {
    if fs == [] then [] else EncodeFace(fs[0]) + EncodeFaces(fs[1..])
  }

  /** The triangles a list of face records carries once the flag words are dropped. */
  function TrianglesOf(fs: seq<FaceRecord>): (ts: seq<Triangle>)
    ensures |ts| == |fs|
    ensures forall i :: 0 <= i < |fs| ==> ts[i] == fs[i].triangle
  {
    seq(|fs|, i requires 0 <= i < |fs| => fs[i].triangle)
  }

  /** No byte of `s` is NUL. */
  predicate NulFree(s: seq<Byte>)
    decreases |s|
  {
    s == [] || (s[0] != 0 && NulFree(s[1..]))
  }

  /** `NulFree` is the byte-by-byte reading of "contains no NUL". */
  lemma {:induction false} NulFreeEverywhere(s: seq<Byte>)
    ensures NulFree(s) <==> forall i :: 0 <= i < |s| ==> s[i] != 0
    decreases |s|
  {
    if s != [] {
      NulFreeEverywhere(s[1..]);
      assert forall i :: 1 <= i < |s| ==> s[i] == s[1..][i - 1];
    }
  }

  /** A name as stored on disk: non-empty, its last byte the first and only NUL. */
  predicate Terminated(name: seq<Byte>)
  {
    && |name| > 0
    && name[|name| - 1] == 0
    && NulFree(name[..|name| - 1])
  }

  /** An encoded vertex reads back as itself. */
  lemma VectorAtEncoding(bytes: seq<Byte>, pos: nat, v: Vector3)
    requires pos + VectorSize <= |bytes|
    requires bytes[pos..pos + VectorSize] == EncodeVector(v)
    ensures VectorAt(bytes, pos) == v
  {
    var w := bytes[pos..pos + VectorSize];
    var x, y, z := EncodeU32(v.x), EncodeU32(v.y), EncodeU32(v.z);
    assert w == x + y + z;
    MiddleOfConcat(x, y, z);
    MiddleOfConcat(x + y, z, []);
    SliceOfSlice(bytes, pos, pos + VectorSize, 0, 4);
    SliceOfSlice(bytes, pos, pos + VectorSize, 4, 8);
    SliceOfSlice(bytes, pos, pos + VectorSize, 8, 12);
    U32AtEncoding(bytes, pos, v.x);
    U32AtEncoding(bytes, pos + 4, v.y);
    U32AtEncoding(bytes, pos + 8, v.z);
  }

  /** An encoded face record reads back as its triangle. */
  lemma TriangleAtEncoding(bytes: seq<Byte>, pos: nat, f: FaceRecord)
    requires pos + FaceRecordSize <= |bytes|
    requires bytes[pos..pos + FaceRecordSize] == EncodeFace(f)
    ensures TriangleAt(bytes, pos) == f.triangle
  {
    var w := bytes[pos..pos + FaceRecordSize];
    var a, b, c, d := EncodeU16(f.triangle.a), EncodeU16(f.triangle.b), EncodeU16(f.triangle.c), EncodeU16(f.flags);
    assert w == a + b + c + d;
    MiddleOfConcat(a, b, c + d);
    MiddleOfConcat(a + b, c, d);
    assert a + b + c + d == a + b + (c + d);
    SliceOfSlice(bytes, pos, pos + FaceRecordSize, 0, 2);
    SliceOfSlice(bytes, pos, pos + FaceRecordSize, 2, 4);
    SliceOfSlice(bytes, pos, pos + FaceRecordSize, 4, 6);
    U16AtEncoding(bytes, pos, f.triangle.a);
    U16AtEncoding(bytes, pos + 2, f.triangle.b);
    U16AtEncoding(bytes, pos + 4, f.triangle.c);
  }

  /** A run of encoded vertices reads back as the same list, whatever surrounds it. */
  lemma {:induction false} ReadEncodedVertices(bytes: seq<Byte>, pos: nat, vs: seq<Vector3>)
    requires pos + VectorSize * |vs| <= |bytes|
    requires bytes[pos..pos + VectorSize * |vs|] == EncodeVertices(vs)
    ensures ReadVertices(bytes, pos, |vs|) == Ok((vs, pos + VectorSize * |vs|))
    decreases |vs|
  {
    if vs != [] {
      var w := bytes[pos..pos + VectorSize * |vs|];
      assert bytes[pos..pos + VectorSize] == w[..VectorSize] == EncodeVector(vs[0]);
      assert bytes[pos + VectorSize..pos + VectorSize * |vs|] == w[VectorSize..] == EncodeVertices(vs[1..]);
      VectorAtEncoding(bytes, pos, vs[0]);
      ReadEncodedVertices(bytes, pos + VectorSize, vs[1..]);
      assert [vs[0]] + vs[1..] == vs;
    }
  }

  /** A run of encoded face records reads back as their triangles, whatever surrounds it. */
  lemma {:induction false} ReadEncodedFaces(bytes: seq<Byte>, pos: nat, fs: seq<FaceRecord>)
    requires pos + FaceRecordSize * |fs| <= |bytes|
    requires bytes[pos..pos + FaceRecordSize * |fs|] == EncodeFaces(fs)
    ensures ReadFaces(bytes, pos, |fs|) == Ok((TrianglesOf(fs), pos + FaceRecordSize * |fs|))
    decreases |fs|
  {
    if fs != [] {
      var w := bytes[pos..pos + FaceRecordSize * |fs|];
      assert bytes[pos..pos + FaceRecordSize] == w[..FaceRecordSize] == EncodeFace(fs[0]);
      assert bytes[pos + FaceRecordSize..pos + FaceRecordSize * |fs|] == w[FaceRecordSize..] == EncodeFaces(fs[1..]);
      TriangleAtEncoding(bytes, pos, fs[0]);
      ReadEncodedFaces(bytes, pos + FaceRecordSize, fs[1..]);
      assert [fs[0].triangle] + TrianglesOf(fs[1..]) == TrianglesOf(fs);
    }
  }

  /** A NUL-terminated name reads back as itself, whatever follows it. */
  lemma {:induction false} ReadStoredName(bytes: seq<Byte>, pos: nat, name: seq<Byte>)
    requires Terminated(name)
    requires pos + |name| <= |bytes| && bytes[pos..pos + |name|] == name
    ensures ReadName(bytes, pos) == Ok((name, pos + |name|))
    decreases |name|
  {
    assert bytes[pos] == name[0];
    if |name| > 1 {
      var tail := name[1..];
      assert tail[..|tail| - 1] == name[..|name| - 1][1..];
      assert bytes[pos + 1..pos + 1 + |tail|] == tail;
      ReadStoredName(bytes, pos + 1, tail);
      assert bytes[pos..pos + 1] + tail == name;
    }
  }
}
