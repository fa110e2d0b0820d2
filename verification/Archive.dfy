/**
 Splitting an archive into chunks (scripts/collect_submit.py) and the chunk arithmetic the
 server repeats (services/community-data/src/caps.ts).
 */
module Archive {
  import opened Arith
  import opened Octets

  const CHUNK_BYTES: nat := 768 * 1024
  const MAX_ARCHIVE_BYTES: nat := 8 * 1024 * 1024
  const MAX_CHUNKS: nat := 11

  type Digest = string

  datatype Chunk = Chunk(idx: nat, bytes: Bytes, hash: Digest)

  function Min(a: int, b: int): int {
    if a <= b then a else b
  }

  function Max(a: int, b: int): int {
    if a >= b then a else b
  }

  /** caps.ts:21-23. */
  function ChunkCount(total: nat, size: nat): nat
    requires size > 0
  {
    (total + size - 1) / size
  }

  /** caps.ts:25-32. */
  function ExpectedLength(total: nat, size: nat, idx: nat): nat {
    Max(0, Min(size, total - idx * size))
  }

  /** data[off:off + size] with Python's clipping. */
  function SliceAt(data: Bytes, off: nat, size: nat): Bytes {
    var lo := Min(off, |data|);
    data[lo..Min(lo + size, |data|)]
  }

  function Slice(data: Bytes, size: nat, idx: nat): Bytes {
    SliceAt(data, idx * size, size)
  }

  function Join(pieces: seq<Bytes>): Bytes {
    if pieces == [] then [] else Join(pieces[..|pieces| - 1]) + pieces[|pieces| - 1]
  }

  function Slices(data: Bytes, size: nat, n: nat): (ps: seq<Bytes>)
    ensures |ps| == n
  {
    seq(n, i requires 0 <= i < n => Slice(data, size, i))
  }

  function Hashes(sha: Bytes -> Digest, pieces: seq<Bytes>): (hs: seq<Digest>)
    ensures |hs| == |pieces|
  {
    seq(|pieces|, i requires 0 <= i < |pieces| => sha(pieces[i]))
  }

  /** The slices before the last, and the last. */
  lemma LastSlice(data: Bytes, size: nat, n: nat, lo: nat)
    requires n > 0 && lo == (n - 1) * size
    ensures Slices(data, size, n)[..n - 1] == Slices(data, size, n - 1)
    ensures Slices(data, size, n)[n - 1] == SliceAt(data, lo, size)
  {
  }

  lemma NextSlice(data: Bytes, off: nat, size: nat)
    ensures data[..Min(off, |data|)] + SliceAt(data, off, size) == data[..Min(off + size, |data|)]
  {
  }

  lemma OneMore(n: nat, size: nat)
    requires n > 0
    ensures n * size == (n - 1) * size + size
  {
  }

  /** Where slice n - 1 begins, and where it ends. */
  lemma OffsetOf(n: nat, size: nat) returns (lo: nat)
    requires n > 0
    ensures lo == (n - 1) * size && n * size == lo + size
  {
    OneMore(n, size);
    lo := (n - 1) * size;
  }

  /** The first n slices are the first n * size bytes. */
  lemma {:induction false} JoinSlices(data: Bytes, size: nat, n: nat)
    ensures Join(Slices(data, size, n)) == data[..Min(n * size, |data|)]
    decreases n
  {
    if n == 0 {
      assert 0 * size == 0;
    } else {
      var lo := OffsetOf(n, size);
      JoinSlices(data, size, n - 1);
      LastSlice(data, size, n, lo);
      NextSlice(data, lo, size);
    }
  }

  lemma CountCovers(total: nat, size: nat)
    requires size > 0
    ensures (ChunkCount(total, size) - 1) * size < total <= ChunkCount(total, size) * size
            || total == 0 == ChunkCount(total, size)
  {
    var n := ChunkCount(total, size);
    assert n * size <= total + size - 1 < n * size + size by {
      var m := total + size - 1;
      assert m == m / size * size + m % size;
    }
    assert (n - 1) * size == n * size - size;
    if total == 0 { assert (size - 1) / size == 0; }
  }

  /** All the slices together are the archive. */
  lemma JoinAll(data: Bytes, size: nat)
    requires size > 0
    ensures Join(Slices(data, size, ChunkCount(|data|, size))) == data
  {
    JoinSlices(data, size, ChunkCount(|data|, size));
    CountCovers(|data|, size);
  }

  lemma SliceInFront(front: Bytes, last: Bytes, size: nat, k: nat, n: nat)
    requires k < n && |front| == n * size
    ensures Slice(front + last, size, k) == Slice(front, size, k)
  {
    MulMonotone(k + 1, n, size);
    Distribute(k, 1, size);
  }

  lemma SliceIsLast(front: Bytes, last: Bytes, size: nat, n: nat)
    requires |front| == n * size && |last| <= size
    ensures Slice(front + last, size, n) == last
  {
    assert SliceAt(front + last, n * size, size) == (front + last)[|front|..];
    assert (front + last)[|front|..] == last;
  }

  /** Pieces of the expected lengths are the slices of what they join to. */
  lemma {:induction false} SlicesOfJoin(pieces: seq<Bytes>, total: nat, size: nat)
    requires pieces != [] ==> (|pieces| - 1) * size < total
    requires forall i :: 0 <= i < |pieces| ==> |pieces[i]| == ExpectedLength(total, size, i)
    ensures |Join(pieces)| == Min(|pieces| * size, total)
    ensures Slices(Join(pieces), size, |pieces|) == pieces
    decreases |pieces|
  {
    if pieces != [] {
      var n := |pieces| - 1;
      var front, last := pieces[..n], pieces[n];
      if n > 0 { OneMore(n, size); }
      SlicesOfJoin(front, total, size);
      OneMore(n + 1, size);
      var whole := Join(pieces);
      forall k | 0 <= k <= n ensures Slice(whole, size, k) == pieces[k] {
        if k < n {
          SliceInFront(Join(front), last, size, k, n);
          assert Slices(Join(front), size, n)[k] == front[k];
        } else {
          SliceIsLast(Join(front), last, size, n);
        }
      }
      assert Slices(whole, size, n + 1) == pieces;
    } else {
      assert Slices(Join(pieces), size, 0) == pieces;
      assert 0 * size == 0;
    }
  }

  /** A slice has exactly the length the server expects for its index. */
  lemma SliceLength(data: Bytes, size: nat, idx: nat)
    ensures |Slice(data, size, idx)| == ExpectedLength(|data|, size, idx)
  {
    assert idx * size >= 0;
  }

  /** scripts/collect_submit.py:113-119. */
  method ChunkArchive(data: Bytes, chunkBytes: nat, sha: Bytes -> Digest) returns (chunks: seq<Chunk>)
    requires chunkBytes > 0
    ensures |chunks| == ChunkCount(|data|, chunkBytes)
    ensures forall i :: 0 <= i < |chunks| ==>
              chunks[i] == Chunk(i, Slice(data, chunkBytes, i), sha(Slice(data, chunkBytes, i)))
    ensures Join(Slices(data, chunkBytes, |chunks|)) == data
  {
    chunks := [];
    var idx, off := 0, 0;
    while off < |data|
      invariant idx == |chunks| && off == idx * chunkBytes
      invariant off < |data| + chunkBytes
      invariant forall i :: 0 <= i < idx ==>
                  chunks[i] == Chunk(i, Slice(data, chunkBytes, i), sha(Slice(data, chunkBytes, i)))
      decreases |data| - off
    {
      var piece := data[off..Min(off + chunkBytes, |data|)];
      assert piece == Slice(data, chunkBytes, idx);
      chunks := chunks + [Chunk(idx, piece, sha(piece))];
      assert (idx + 1) * chunkBytes == idx * chunkBytes + chunkBytes;
      idx, off := idx + 1, off + chunkBytes;
    }
    CountIs(|data|, chunkBytes, idx);
    JoinAll(data, chunkBytes);
  }

  lemma CountIs(total: nat, size: nat, n: nat)
    requires size > 0 && total <= n * size < total + size
    ensures n == ChunkCount(total, size)
  {
    var m := total + size - 1;
    var q := m / size;
    assert m == q * size + m % size;
    OneMore(q + 1, size);
    OneMore(n + 1, size);
    MulMonotone(q + 1, n, size);
    MulMonotone(n + 1, q, size);
  }

  /** The largest archive taken, of 2^23 bytes: ten full chunks and one of 2^19 bytes. */
  lemma LargestArchive(data: Bytes)
    requires |data| == MAX_ARCHIVE_BYTES
    ensures |data| == 8_388_608 && ChunkCount(|data|, CHUNK_BYTES) == MAX_CHUNKS == 11
    ensures forall i :: 0 <= i < 11 ==> |Slice(data, CHUNK_BYTES, i)| == if i < 10 then 786_432 else 524_288
  {
  }
}
