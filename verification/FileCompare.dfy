/**
 FileIsIdentical: two files are read in chunks into zeroed buffers, and the whole
 buffers are compared; the number of bytes read is ignored.
 */
module FileCompare {
  import opened Text

  type Bytes = string

  const CHUNK_SIZE := 64000

  const NUL: char := '\0'

  /** How many bytes the environment would deliver for a read at an offset. */
  type Reader = nat -> nat

  const FULL: Reader := _ => CHUNK_SIZE

  /** A read before the end of the file delivers at least one byte, at most a chunk and no more than is left. */
  function ReadLength(r: Reader, offset: nat, size: nat): (n: nat)
    requires offset < size
    ensures 1 <= n <= CHUNK_SIZE && offset + n <= size
  {
    var most := if size - offset < CHUNK_SIZE then size - offset else CHUNK_SIZE;
    var n := r(offset);
    if n < 1 then 1 else if n > most then most else n
  }

  /** A fresh buffer after a read of `b` into it. */
  function Buffer(b: Bytes): (r: Bytes)
    requires |b| <= CHUNK_SIZE
    ensures |r| == CHUNK_SIZE
    ensures forall i :: 0 <= i < |r| ==> r[i] == if i < |b| then b[i] else NUL
  {
    b + seq(CHUNK_SIZE - |b|, _ => NUL)
  }

  /** The buffers that reading `c` from `offset` to its end fills. */
  ghost function Buffers(c: Bytes, r: Reader, offset: nat): seq<Bytes>
    requires offset <= |c|
    decreases |c| - offset
  {
    if offset == |c| then []
    else
      var n := ReadLength(r, offset, |c|);
      [Buffer(c[offset..offset + n])] + Buffers(c, r, offset + n)
  }

  /** What the comparison answers; None is a file that is not there. */
  ghost predicate Identical(f1: Option<Bytes>, f2: Option<Bytes>, r1: Reader, r2: Reader) {
    f1.Some? && f2.Some? && |f1.value| == |f2.value| && Buffers(f1.value, r1, 0) == Buffers(f2.value, r2, 0)
  }

  /** One round of the comparison. */
  lemma CompareHeads(a: Bytes, b: Bytes, r1: Reader, r2: Reader, o1: nat, o2: nat, n1: nat, n2: nat)
    requires o1 < |a| && o2 < |b| && n1 == ReadLength(r1, o1, |a|) && n2 == ReadLength(r2, o2, |b|)
    ensures Buffers(a, r1, o1) == Buffers(b, r2, o2) <==>
              && Buffer(a[o1..o1 + n1]) == Buffer(b[o2..o2 + n2])
              && Buffers(a, r1, o1 + n1) == Buffers(b, r2, o2 + n2)
  {
    var b1, b2 := Buffer(a[o1..o1 + n1]), Buffer(b[o2..o2 + n2]);
    var t1, t2 := Buffers(a, r1, o1 + n1), Buffers(b, r2, o2 + n2);
    assert ([b1] + t1)[0] == b1 && ([b2] + t2)[0] == b2;
    assert ([b1] + t1)[1..] == t1 && ([b2] + t2)[1..] == t2;
  }

  /** The comparison at the end of either file. */
  lemma AtEnd(a: Bytes, b: Bytes, r1: Reader, r2: Reader, o1: nat, o2: nat)
    requires o1 <= |a| && o2 <= |b| && (o1 == |a| || o2 == |b|)
    ensures Buffers(a, r1, o1) == Buffers(b, r2, o2) <==> o1 == |a| && o2 == |b|
  {}

  method FileIsIdentical(f1: Option<Bytes>, f2: Option<Bytes>, r1: Reader, r2: Reader) returns (same: bool)
    ensures same <==> Identical(f1, f2, r1, r2)
  {
    if f1.None? || f2.None? { return false; }
    var c1, c2 := f1.value, f2.value;
    if |c1| != |c2| { return false; }
    var o1: nat, o2: nat := 0, 0;
    ghost var answer := Buffers(c1, r1, 0) == Buffers(c2, r2, 0);
    while true
      invariant o1 <= |c1| && o2 <= |c2|
      invariant answer <==> Buffers(c1, r1, o1) == Buffers(c2, r2, o2)
      decreases |c1| - o1
    {
      var eof1, eof2 := o1 == |c1|, o2 == |c2|;
      if eof1 || eof2 {
        AtEnd(c1, c2, r1, r2, o1, o2);
        return eof1 && eof2;
      }
      var n1, n2 := ReadLength(r1, o1, |c1|), ReadLength(r2, o2, |c2|);
      CompareHeads(c1, c2, r1, r2, o1, o2, n1, n2);
      var b1, b2 := Buffer(c1[o1..o1 + n1]), Buffer(c2[o2..o2 + n2]);
      if b1 != b2 { return false; }
      o1, o2 := o1 + n1, o2 + n2;
    }
  }

  /** The lengths of the reads of a file of this size, from an offset. */
  ghost function Cuts(size: nat, r: Reader, offset: nat): seq<nat>
    requires offset <= size
    decreases size - offset
  {
    if offset == size then [] else var n := ReadLength(r, offset, size); [n] + Cuts(size, r, offset + n)
  }

  /** Equal buffers mean equal bytes when both files are read in the same pieces, or when no byte is NUL. */
  ghost predicate Comparable(a: Bytes, b: Bytes, r1: Reader, r2: Reader) {
    |a| == |b| ==> Cuts(|a|, r1, 0) == Cuts(|b|, r2, 0) || NulFree(a, b)
  }

  predicate NulFree(a: Bytes, b: Bytes) { NUL !in a && NUL !in b }

  lemma CutHeads(size: nat, r1: Reader, r2: Reader, o: nat)
    requires o < size
    ensures Cuts(size, r1, o) == Cuts(size, r2, o) <==>
              && ReadLength(r1, o, size) == ReadLength(r2, o, size)
              && Cuts(size, r1, o + ReadLength(r1, o, size)) == Cuts(size, r2, o + ReadLength(r1, o, size))
  {
    var n1, n2 := ReadLength(r1, o, size), ReadLength(r2, o, size);
    var t1, t2 := Cuts(size, r1, o + n1), Cuts(size, r2, o + n2);
    assert ([n1] + t1)[0] == n1 && ([n2] + t2)[0] == n2;
    assert ([n1] + t1)[1..] == t1 && ([n2] + t2)[1..] == t2;
  }

  lemma EqualChunks(x: Bytes, y: Bytes)
    requires |x| <= CHUNK_SIZE && |y| <= CHUNK_SIZE
    requires |x| == |y| || (NUL !in x && NUL !in y)
    requires Buffer(x) == Buffer(y)
    ensures x == y
  {
    if x != [] { assert Buffer(x)[|x| - 1] in x; }
    if y != [] { assert Buffer(y)[|y| - 1] in y; }
    assert forall i :: 0 <= i < |x| ==> Buffer(x)[i] == x[i] && Buffer(y)[i] == y[i];
  }

  lemma Glue(a: Bytes, b: Bytes, o: nat, n: nat)
    requires o + n <= |a| == |b| && a[o..o + n] == b[o..o + n] && a[o + n..] == b[o + n..]
    ensures a[o..] == b[o..]
  {
    assert a[o..] == a[o..o + n] + a[o + n..];
    assert b[o..] == b[o..o + n] + b[o + n..];
  }

  /** From one offset, files read in the same pieces fill equal buffers exactly when they are equal. */
  lemma {:induction false} SameCutsExact(a: Bytes, b: Bytes, r1: Reader, r2: Reader, o: nat)
    requires o <= |a| == |b| && Cuts(|a|, r1, o) == Cuts(|b|, r2, o)
    ensures Buffers(a, r1, o) == Buffers(b, r2, o) <==> a[o..] == b[o..]
    decreases |a| - o
  {
    if o < |a| {
      CutHeads(|a|, r1, r2, o);
      var n := ReadLength(r1, o, |a|);
      CompareHeads(a, b, r1, r2, o, o, n, n);
      SameCutsExact(a, b, r1, r2, o + n);
      if Buffers(a, r1, o) == Buffers(b, r2, o) {
        EqualChunks(a[o..o + n], b[o..o + n]);
        Glue(a, b, o, n);
      }
      if a[o..] == b[o..] { Unglue(a, b, o, n); }
    }
  }

  /** Without NUL bytes the pieces show in the buffers. */
  lemma {:induction false} NulFreeCuts(a: Bytes, b: Bytes, r1: Reader, r2: Reader, o: nat)
    requires o <= |a| == |b| && NulFree(a, b) && Buffers(a, r1, o) == Buffers(b, r2, o)
    ensures Cuts(|a|, r1, o) == Cuts(|b|, r2, o)
    decreases |a| - o
  {
    if o < |a| {
      var n1, n2 := ReadLength(r1, o, |a|), ReadLength(r2, o, |b|);
      CompareHeads(a, b, r1, r2, o, o, n1, n2);
      EqualChunks(a[o..o + n1], b[o..o + n2]);
      assert |a[o..o + n1]| == n1 && |b[o..o + n2]| == n2;
      NulFreeCuts(a, b, r1, r2, o + n1);
      CutHeads(|a|, r1, r2, o);
    }
  }

  lemma NulFreeExact(a: Bytes, b: Bytes, r1: Reader, r2: Reader, o: nat)
    requires o <= |a| == |b| && NulFree(a, b)
    ensures Buffers(a, r1, o) == Buffers(b, r2, o) <==> a[o..] == b[o..] && Cuts(|a|, r1, o) == Cuts(|b|, r2, o)
  {
    if Buffers(a, r1, o) == Buffers(b, r2, o) { NulFreeCuts(a, b, r1, r2, o); }
    if Cuts(|a|, r1, o) == Cuts(|b|, r2, o) { SameCutsExact(a, b, r1, r2, o); }
  }

  lemma Unglue(a: Bytes, b: Bytes, o: nat, n: nat)
    requires o + n <= |a| == |b| && a[o..] == b[o..]
    ensures a[o..o + n] == b[o..o + n] && a[o + n..] == b[o + n..]
  {
    assert a[o..][..n] == a[o..o + n] && b[o..][..n] == b[o..o + n];
    assert a[o..][n..] == a[o + n..] && b[o..][n..] == b[o + n..];
  }

  /** Any reads, in the same pieces for both files or of NUL-free contents: "identical" is never said of different files. */
  lemma IdenticalSound(a: Bytes, b: Bytes, r1: Reader, r2: Reader)
    requires Comparable(a, b, r1, r2) && Identical(Some(a), Some(b), r1, r2)
    ensures a == b
  {
    if NulFree(a, b) { NulFreeExact(a, b, r1, r2, 0); } else { SameCutsExact(a, b, r1, r2, 0); }
    assert a == a[0..] && b == b[0..];
  }

  /** Files read in the same pieces: the answer is equality, whatever the contents. */
  lemma SameCutsIdenticalIff(a: Bytes, b: Bytes, r1: Reader, r2: Reader)
    requires |a| == |b| ==> Cuts(|a|, r1, 0) == Cuts(|b|, r2, 0)
    ensures Identical(Some(a), Some(b), r1, r2) <==> a == b
  {
    if |a| == |b| { SameCutsExact(a, b, r1, r2, 0); }
    assert a == a[0..] && b == b[0..];
  }

  /** Arbitrary reads of NUL-free files: the answer is equality and being read in the same pieces. */
  lemma NulFreeIdenticalIff(a: Bytes, b: Bytes, r1: Reader, r2: Reader)
    requires NulFree(a, b)
    ensures Identical(Some(a), Some(b), r1, r2) <==> a == b && Cuts(|a|, r1, 0) == Cuts(|a|, r2, 0)
  {
    if |a| == |b| { NulFreeExact(a, b, r1, r2, 0); }
    assert a == a[0..] && b == b[0..];
  }

  /** Full reads of 64000 bytes: the answer is exactly equality of contents, for every size. */
  lemma FullReadsExact(f1: Option<Bytes>, f2: Option<Bytes>)
    ensures Identical(f1, f2, FULL, FULL) <==> f1.Some? && f1 == f2
    ensures forall offset: nat, size: nat :: offset < size ==>
              ReadLength(FULL, offset, size) == if size - offset < 64000 then size - offset else 64000
  {
    if f1.Some? && f2.Some? { SameCutsIdenticalIff(f1.value, f2.value, FULL, FULL); }
  }

  /** With short reads a NUL byte can pass for padding. */
  lemma NulHidesDifference()
    ensures exists a, b, r1, r2 :: Identical(Some(a), Some(b), r1, r2) && a != b
  {
    var a, b := ['x', NUL, 'y'], ['x', 'y', NUL];
    var r1: Reader, r2: Reader := o => if o == 0 then 2 else 1, o => if o == 0 then 1 else 2;
    assert Buffers(a, r1, 3) == [] && Buffers(b, r2, 3) == [];
    assert a[2..3] == ['y'] && b[1..3] == ['y', NUL] && a[0..2] == ['x', NUL] && b[0..1] == ['x'];
    assert Buffer(['y']) == Buffer(['y', NUL]) && Buffer(['x', NUL]) == Buffer(['x']);
    assert Buffers(a, r1, 2) == [Buffer(['y'])] && Buffers(b, r2, 1) == [Buffer(['y', NUL])];
    assert Identical(Some(a), Some(b), r1, r2);
    assert a[1] != b[1];
  }

  /** With short reads a file can also differ from itself. */
  lemma ShortReadsMissEquality()
    ensures exists a, r1, r2 :: !Identical(Some(a), Some(a), r1, r2)
  {
    var a := ['x', 'y'];
    var r1: Reader, r2: Reader := _ => 1, _ => 2;
    assert a[0..1] == ['x'] && a[0..2] == ['x', 'y'];
    assert Buffer(['x'])[1] == NUL && Buffer(['x', 'y'])[1] == 'y';
    assert Buffers(a, r1, 0)[0] == Buffer(['x']) && Buffers(a, r2, 0)[0] == Buffer(['x', 'y']);
    assert !Identical(Some(a), Some(a), r1, r2);
  }
}
