/** The decoder's accumulator: the object being filled in, the queue of completed objects and
    the running vertex total, and how each kind of chunk changes them. */
module Objects {
  import opened LittleEndian
  import opened Payloads
  import opened Chunks

  /** One mesh object. `indices` holds three vertex indices per face, face after face. */
  datatype Object3D = Object3D(
    name: seq<Byte>,
    noVertices: U16,
    noFaces: U16,
    vertices: seq<Vector3>,
    indices: seq<U16>)

  /** A freshly started object: no name, no vertices, no faces. */
  const EmptyObject := Object3D([], 0, 0, [], [])

  /** The counts agree with the arrays they describe. */
  predicate WellFormed(o: Object3D)
  {
    |o.vertices| == o.noVertices && |o.indices| == 3 * o.noFaces
  }

  /** The face stored at positions 3i, 3i+1 and 3i+2 of a flat index array. */
  function IndexTriple(indices: seq<U16>, i: nat): Triangle
    requires 3 * i + 3 <= |indices|
  {
    Triangle(indices[3 * i], indices[3 * i + 1], indices[3 * i + 2])
  }

  /** The flat index array holding the given faces in order, three entries per face. */
  function Flatten(ts: seq<Triangle>): (r: seq<U16>)
    ensures |r| == 3 * |ts|
    ensures forall i :: 0 <= i < |ts| ==> IndexTriple(r, i) == ts[i]
  {
    if ts == [] then []
    else
      var rest := Flatten(ts[1..]);
      var r := [ts[0].a, ts[0].b, ts[0].c] + rest;
      assert forall i :: 1 <= i < |ts| ==> IndexTriple(r, i) == IndexTriple(rest, i - 1);
      r
  }

  /** Everything the decoder carries from one pass of its loop to the next. */
  datatype Progress = Progress(current: Object3D, objects: seq<Object3D>, totalVertices: nat)

  /** The state before the first chunk: an empty object, no output, no vertices counted. */
  const Start := Progress(EmptyObject, [], 0)

  /** Every object in the accumulator, the one being filled in and the completed ones, has
      counts that agree with its arrays. */
  predicate AllWellFormed(p: Progress)
  {
    WellFormed(p.current) && forall i :: 0 <= i < |p.objects| ==> WellFormed(p.objects[i])
  }

  /** The effect of one chunk on the accumulator. Only a face list completes an object: it is
      appended at the end of the output and a fresh object takes its place. Only a vertex list
      adds to the total, by its count. A chunk of the shape the reader produces keeps every
      object's counts in agreement with its arrays. */
  function Apply(p: Progress, c: Chunk): (r: Progress)
    ensures !c.FaceList? ==> r.objects == p.objects
    ensures c.FaceList? ==>
              |r.objects| == |p.objects| + 1 && r.objects[..|p.objects|] == p.objects &&
              r.current == EmptyObject
    ensures r.totalVertices == p.totalVertices + (if c.VertexList? then c.count as nat else 0)
    ensures Valid(c) && AllWellFormed(p) ==> AllWellFormed(r)
  {
    match c
    case Container(_) => p
    case Skipped(_) => p
    case ObjectBlock(name) => p.(current := p.current.(name := name))
    case VertexList(n, vs) =>
      p.(current := p.current.(noVertices := n, vertices := vs), totalVertices := p.totalVertices + n)
    case FaceList(n, ts) =>
      Progress(EmptyObject, p.objects + [p.current.(noFaces := n, indices := Flatten(ts))], p.totalVertices)
  }

  /** The accumulator after a run of chunks, applied in order. The output grows by one object
      per face-list chunk of the run, and the total by the counts of its vertex-list chunks. */
  function Fold(p: Progress, cs: seq<Chunk>): (r: Progress)
    decreases |cs|
    ensures |r.objects| == |p.objects| + |FaceLists(cs)|
    ensures r.totalVertices == p.totalVertices + VertexCountSum(cs)
  {
    if cs == [] then p else Fold(Apply(p, cs[0]), cs[1..])
  }

  /** The face-list chunks of a run, in order. */
  function FaceLists(cs: seq<Chunk>): (r: seq<Chunk>)
    ensures forall k :: 0 <= k < |r| ==> r[k].FaceList?
  {
    if cs == [] then []
    else if cs[0].FaceList? then [cs[0]] + FaceLists(cs[1..])
    else FaceLists(cs[1..])
  }

  /** The sum of the declared counts of the vertex-list chunks of a run. */
  function VertexCountSum(cs: seq<Chunk>): nat
  {
    if cs == [] then 0
    else (if cs[0].VertexList? then cs[0].count as nat else 0) + VertexCountSum(cs[1..])
  }

  /** Folding a run in two parts is folding it in one. */
  lemma {:induction false} FoldConcat(p: Progress, xs: seq<Chunk>, ys: seq<Chunk>)
    ensures Fold(p, xs + ys) == Fold(Fold(p, xs), ys)
    decreases |xs|
  {
    if xs != [] {
      assert (xs + ys)[0] == xs[0];
      assert (xs + ys)[1..] == xs[1..] + ys;
      FoldConcat(Apply(p, xs[0]), xs[1..], ys);
    } else {
      assert xs + ys == ys;
    }
  }

  /** Objects are only ever appended, one per face-list chunk, in the order those chunks occur;
      the k-th new object carries the k-th face list's count and its faces, flattened. */
  lemma {:induction false} FoldEmitsOneObjectPerFaceList(p: Progress, cs: seq<Chunk>)
    ensures |Fold(p, cs).objects| == |p.objects| + |FaceLists(cs)|
    ensures Fold(p, cs).objects[..|p.objects|] == p.objects
    ensures forall k :: 0 <= k < |FaceLists(cs)| ==>
              && Fold(p, cs).objects[|p.objects| + k].noFaces == FaceLists(cs)[k].count
              && Fold(p, cs).objects[|p.objects| + k].indices == Flatten(FaceLists(cs)[k].triangles)
    decreases |cs|
  {
    if cs != [] {
      var q := Apply(p, cs[0]);
      FoldEmitsOneObjectPerFaceList(q, cs[1..]);
      var out := Fold(p, cs).objects;
      assert out == Fold(q, cs[1..]).objects;
      if cs[0].FaceList? {
        assert FaceLists(cs) == [cs[0]] + FaceLists(cs[1..]);
        assert |q.objects| == |p.objects| + 1;
        assert out[..|q.objects|] == q.objects;
        assert out[..|p.objects|] == out[..|q.objects|][..|p.objects|];
        assert out[|p.objects|] == out[..|q.objects|][|p.objects|];
        forall k | 1 <= k < |FaceLists(cs)|
          ensures FaceLists(cs)[k] == FaceLists(cs[1..])[k - 1]
          ensures out[|p.objects| + k] == out[|q.objects| + (k - 1)]
        {
        }
      }
    }
  }

  /** Every object in the accumulator, completed or not, keeps counts that agree with its
      arrays, as long as every chunk applied has the shape the reader produces. */
  lemma {:induction false} FoldKeepsWellFormed(p: Progress, cs: seq<Chunk>)
    requires AllWellFormed(p)
    requires forall i :: 0 <= i < |cs| ==> Valid(cs[i])
    ensures AllWellFormed(Fold(p, cs))
    decreases |cs|
  {
    if cs != [] {
      var q := Apply(p, cs[0]);
      assert Valid(cs[0]);
      assert AllWellFormed(q);
      FoldKeepsWellFormed(q, cs[1..]);
    }
  }
}
