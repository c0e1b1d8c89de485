/** Small facts about slicing and regrouping sequences, used when locating a field inside a larger
    input and when lining up a chunk run with its parts. */
module SeqFacts {

  /** Slicing a slice is slicing the original at shifted bounds. */
  lemma SliceOfSlice<T>(s: seq<T>, lo: nat, hi: nat, i: nat, j: nat)
    requires lo <= hi <= |s| && i <= j <= hi - lo
    ensures s[lo..hi][i..j] == s[lo + i..lo + j]
  {
    forall k | 0 <= k < j - i
      ensures s[lo..hi][i..j][k] == s[lo + i..lo + j][k]
    {
    }
  }

  /** The middle part of a three-way concatenation can be sliced back out. */
  lemma MiddleOfConcat<T>(a: seq<T>, b: seq<T>, c: seq<T>)
    ensures (a + b + c)[|a|..|a| + |b|] == b
  {
  }

  /** `x` occurs in `s` starting at position `pos`, element by element. */
  predicate Stored<T(==)>(s: seq<T>, pos: nat, x: seq<T>)
    decreases |x|
  {
    if x == [] then pos <= |s|
    else pos < |s| && s[pos] == x[0] && Stored(s, pos + 1, x[1..])
  }

  /** Occurring at `pos` is being the slice of `s` that starts there. */
  lemma {:induction false} StoredIsSlice<T>(s: seq<T>, pos: nat, x: seq<T>)
    ensures Stored(s, pos, x) <==> pos + |x| <= |s| && s[pos..pos + |x|] == x
    decreases |x|
  {
    if x != [] {
      StoredIsSlice(s, pos + 1, x[1..]);
      if pos + |x| <= |s| {
        assert s[pos..pos + |x|] == [s[pos]] + s[pos + 1..pos + |x|];
        assert x == [x[0]] + x[1..];
      }
    }
  }

  /** A concatenation occurs at `pos` exactly when its first part does and its second part
      follows directly. */
  lemma StoredConcat<T>(s: seq<T>, pos: nat, x: seq<T>, y: seq<T>)
    ensures Stored(s, pos, x + y) <==> Stored(s, pos, x) && Stored(s, pos + |x|, y)
  {
    StoredIsSlice(s, pos, x + y);
    StoredIsSlice(s, pos, x);
    StoredIsSlice(s, pos + |x|, y);
    if pos + |x| + |y| <= |s| {
      SliceOfSlice(s, pos, pos + |x| + |y|, 0, |x|);
      SliceOfSlice(s, pos, pos + |x| + |y|, |x|, |x| + |y|);
      assert s[pos..pos + |x| + |y|] == s[pos..pos + |x|] + s[pos + |x|..pos + |x| + |y|];
    }
  }

  /** Three pieces stored back to back. */
  lemma StoredThree<T>(s: seq<T>, pos: nat, x: seq<T>, y: seq<T>, z: seq<T>)
    requires Stored(s, pos, x + (y + z))
    ensures Stored(s, pos, x) && Stored(s, pos + |x|, y) && Stored(s, pos + |x| + |y|, z)
  {
    StoredConcat(s, pos, x, y + z);
    StoredConcat(s, pos + |x|, y, z);
  }

  /** The three pieces of `x + (y + z)` are stored where they were put. */
  lemma StoredPieces<T>(x: seq<T>, y: seq<T>, z: seq<T>)
    ensures Stored(x + (y + z), 0, x)
    ensures Stored(x + (y + z), |x|, y)
    ensures Stored(x + (y + z), |x| + |y|, z)
  {
    StoredIsSlice(x + (y + z), 0, x + (y + z));
    StoredThree(x + (y + z), 0, x, y, z);
  }

  /** Appending one element and then a sequence is appending the two joined. */
  lemma AppendOne<T>(s: seq<T>, x: T, rest: seq<T>)
    ensures s + [x] + rest == s + ([x] + rest)
  {
  }

  /** Two leading elements, regrouped one at a time. */
  lemma TwoConcat<T>(a: T, b: T, rest: seq<T>)
    ensures [a, b] + rest == [a] + ([b] + rest)
  {
  }

  /** Four leading elements, regrouped one at a time. */
  lemma FourConcat<T>(a: T, b: T, c: T, d: T, rest: seq<T>)
    ensures [a, b, c, d] + rest == [a] + ([b] + ([c] + ([d] + rest)))
  {
  }

  /** Dropping the first element twice leaves what followed the two leading elements. */
  lemma DropTwo<T>(a: T, b: T, rest: seq<T>)
    ensures ([a, b] + rest)[1..][1..] == rest
  {
  }
}
