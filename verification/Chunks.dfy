/** Closed-form chunk arithmetic of resumable uploads. */
module Chunks {
  import opened Prelude

  const MIN_CHUNK_SIZE: nat := 256 * 1024
  const CHUNK_SIZE: nat := 5 * 1024 * 1024

  predicate IsValidChunkSize(size: nat) {
    size > 0 && size % MIN_CHUNK_SIZE == 0
  }

  function DivCeil(a: nat, b: nat): nat
    requires b > 0
  {
    if a % b == 0 then a / b else a / b + 1
  }

  function ChunkCount(fileLen: nat, chunkSize: nat): nat
    requires chunkSize > 0
  {
    if fileLen == 0 then 0 else DivCeil(fileLen, chunkSize)
  }

  function RangeAt(start: nat, fileLen: nat, chunkSize: nat): Option<(nat, nat)>
    requires chunkSize > 0
  {
    if fileLen == 0 || start >= fileLen then None else Some((start, Min(start + chunkSize, fileLen) - 1))
  }

  /** Inclusive byte range of chunk `n`, over unbounded integers. */
  function ChunkRange(n: nat, fileLen: nat, chunkSize: nat): Option<(nat, nat)>
    requires chunkSize > 0
  {
    RangeAt(n * chunkSize, fileLen, chunkSize)
  }

  function RangeAt64(start: nat, fileLen: nat, chunkSize: nat): Option<(int, int)> {
    if fileLen == 0 || start >= fileLen then None
    else Some((start, (Min((start + chunkSize) % TWO_64, fileLen) - 1) % TWO_64))
  }

  /** The same with 64-bit wrap-around at every operation. */
  function ChunkRange64(n: nat, fileLen: nat, chunkSize: nat): Option<(int, int)> {
    RangeAt64((n * chunkSize) % TWO_64, fileLen, chunkSize)
  }

  /** The count is the number of chunk starts below the file length. */
  lemma CountIsExact(fileLen: nat, chunkSize: nat, n: nat)
    requires chunkSize > 0
    ensures n < ChunkCount(fileLen, chunkSize) <==> n * chunkSize < fileLen
    ensures n < ChunkCount(fileLen, chunkSize) <==> ChunkRange(n, fileLen, chunkSize).Some?
  {
    if fileLen > 0 {
      var q, r := fileLen / chunkSize, fileLen % chunkSize;
      assert fileLen == q * chunkSize + r;
      if n < q {
        MulMonotone(n + 1, q, chunkSize);
        assert (n + 1) * chunkSize == n * chunkSize + chunkSize;
      } else if n > q {
        MulMonotone(q + 1, n, chunkSize);
        assert (q + 1) * chunkSize == q * chunkSize + chunkSize;
      }
    } else {
      MulMonotone(0, n, chunkSize);
    }
  }

  lemma MulMonotone(a: nat, b: nat, c: nat)
    requires a <= b
    ensures a * c <= b * c
  {
    assert b * c == a * c + (b - a) * c;
  }

  /** Content of chunk `n`: the bytes of its range. */
  function Chunk(content: bytes, n: nat, chunkSize: nat): bytes
    requires chunkSize > 0 && n * chunkSize < |content|
  {
    var (start, end) := ChunkRange(n, |content|, chunkSize).value;
    content[start..end + 1]
  }

  /** Consecutive ranges meet, the first starts at 0 and the last ends the file. */
  lemma RangesPartition(fileLen: nat, chunkSize: nat, n: nat)
    requires chunkSize > 0 && n < ChunkCount(fileLen, chunkSize)
    ensures var r := ChunkRange(n, fileLen, chunkSize);
      && r.Some? && r.value.0 <= r.value.1 < fileLen
      && r.value.1 - r.value.0 < chunkSize
      && (n == 0 ==> r.value.0 == 0)
      && (if n + 1 < ChunkCount(fileLen, chunkSize)
          then ChunkRange(n + 1, fileLen, chunkSize).Some? && ChunkRange(n + 1, fileLen, chunkSize).value.0 == r.value.1 + 1
          else r.value.1 + 1 == fileLen)
  {
    CountIsExact(fileLen, chunkSize, n);
    CountIsExact(fileLen, chunkSize, n + 1);
    assert (n + 1) * chunkSize == n * chunkSize + chunkSize;
  }

  /** The first `n` chunks of a file. */
  function Chunked(content: bytes, chunkSize: nat, n: nat): (chunks: seq<bytes>)
    requires chunkSize > 0 && (n == 0 || (n - 1) * chunkSize < |content|)
    ensures |chunks| == n
  {
    if n == 0 then []
    else
      assert n == 1 || (n - 2) * chunkSize == (n - 1) * chunkSize - chunkSize;
      Chunked(content, chunkSize, n - 1) + [Chunk(content, n - 1, chunkSize)]
  }

  lemma OneMoreChunk(n: nat, chunkSize: nat)
    requires n > 0
    ensures n * chunkSize == (n - 1) * chunkSize + chunkSize
  {
  }

  lemma AppendChunk(content: bytes, chunkSize: nat, n: nat, earlier: seq<bytes>, start: nat)
    requires chunkSize > 0 && start == n * chunkSize < |content| && Concat(earlier) == content[..start]
    ensures Concat(earlier + [Chunk(content, n, chunkSize)]) == content[..Min(start + chunkSize, |content|)]
  {
    ConcatSnoc(earlier, Chunk(content, n, chunkSize));
    JoinSlices(content, 0, start, Min(start + chunkSize, |content|));
  }

  /** The first `n` chunks concatenate to the bytes before chunk `n`. */
  lemma {:induction false} ChunksConcatenate(content: bytes, chunkSize: nat, n: nat)
    requires chunkSize > 0 && (n == 0 || (n - 1) * chunkSize < |content|)
    ensures Concat(Chunked(content, chunkSize, n)) == content[..Min(n * chunkSize, |content|)]
  {
    if n > 0 {
      OneMoreChunk(n, chunkSize);
      if n > 1 {
        OneMoreChunk(n - 1, chunkSize);
      }
      ChunksConcatenate(content, chunkSize, n - 1);
      AppendChunk(content, chunkSize, n - 1, Chunked(content, chunkSize, n - 1), (n - 1) * chunkSize);
    }
  }

  /** All chunks together are the file. */
  lemma ChunksAreTheFile(content: bytes, chunkSize: nat)
    requires chunkSize > 0
    ensures var n := ChunkCount(|content|, chunkSize);
      && (n == 0 || (n - 1) * chunkSize < |content|)
      && Concat(Chunked(content, chunkSize, n)) == content
  {
    var n := ChunkCount(|content|, chunkSize);
    if n > 0 {
      CountIsExact(|content|, chunkSize, n - 1);
    }
    CountIsExact(|content|, chunkSize, n);
    ChunksConcatenate(content, chunkSize, n);
    assert content[..|content|] == content;
  }

  /** With a valid chunk size every chunk starts on a multiple of 256 KiB. */
  lemma StartsAreAligned(n: nat, fileLen: nat, chunkSize: nat)
    requires IsValidChunkSize(chunkSize) && n < ChunkCount(fileLen, chunkSize)
    ensures ChunkRange(n, fileLen, chunkSize).Some?
    ensures ChunkRange(n, fileLen, chunkSize).value.0 % 262144 == 0
  {
    CountIsExact(fileLen, chunkSize, n);
    MultipleOfMultiple(n, chunkSize / MIN_CHUNK_SIZE, MIN_CHUNK_SIZE);
  }

  lemma MultipleOfMultiple(n: nat, k: nat, m: nat)
    requires m > 0
    ensures (n * (k * m)) % m == 0
  {
    assert n * (k * m) == (n * k) * m;
    ModOfProduct(n * k, m);
  }

  lemma ModOfProduct(a: nat, m: nat)
    requires m > 0
    ensures (a * m) % m == 0
  {
    var q, r := (a * m) / m, (a * m) % m;
    assert a * m == q * m + r && (q + 1) * m == q * m + m;
    if a > q {
      MulMonotone(q + 1, a, m);
    } else {
      MulMonotone(a, q, m);
    }
  }

  predicate SameRange(a: Option<(nat, nat)>, b: Option<(int, int)>) {
    if a.None? then b.None? else b.Some? && a.value.0 == b.value.0 && a.value.1 == b.value.1
  }

  /** The wrapped code agrees with the exact one at a start inside the file if and only if
      the chunk would end below 2^64, and at a start past the file if and only if the wrapped
      start is past it too. */
  lemma NoWrapAt(start: nat, fileLen: nat, chunkSize: nat)
    requires 0 < chunkSize < TWO_64 && 0 < fileLen < TWO_64
    ensures SameRange(RangeAt(start, fileLen, chunkSize), RangeAt64(start % TWO_64, fileLen, chunkSize))
            <==> if start < fileLen then start + chunkSize < TWO_64 else start % TWO_64 >= fileLen
  {
    if start < fileLen {
      assert start % TWO_64 == start;
      if start + chunkSize < TWO_64 {
        assert (start + chunkSize) % TWO_64 == start + chunkSize;
      } else {
        assert (start + chunkSize) % TWO_64 == start + chunkSize - TWO_64;
      }
    }
  }

  /** For every index, file length and chunk size of 64 bits. */
  lemma NoWrapIff(n: nat, fileLen: nat, chunkSize: nat)
    requires 0 < chunkSize < TWO_64 && fileLen < TWO_64
    ensures SameRange(ChunkRange(n, fileLen, chunkSize), ChunkRange64(n, fileLen, chunkSize))
            <==> if n < ChunkCount(fileLen, chunkSize) then (n + 1) * chunkSize < TWO_64
                 else fileLen == 0 || (n * chunkSize) % TWO_64 >= fileLen
  {
    CountIsExact(fileLen, chunkSize, n);
    assert (n + 1) * chunkSize == n * chunkSize + chunkSize;
    if fileLen > 0 {
      NoWrapAt(n * chunkSize, fileLen, chunkSize);
    }
  }

  predicate AllChunksExact(fileLen: nat, chunkSize: nat)
    requires chunkSize > 0
  {
    forall n: nat :: n < ChunkCount(fileLen, chunkSize) ==>
      SameRange(ChunkRange(n, fileLen, chunkSize), ChunkRange64(n, fileLen, chunkSize))
  }

  /** All chunks of a file are computed without wrap-around if and only if the last one,
      taken at full size, ends below 2^64. */
  lemma AllChunksExactIff(fileLen: nat, chunkSize: nat)
    requires 0 < chunkSize < TWO_64 && fileLen < TWO_64
    ensures AllChunksExact(fileLen, chunkSize) <==> ChunkCount(fileLen, chunkSize) * chunkSize < TWO_64
  {
    var count := ChunkCount(fileLen, chunkSize);
    if count > 0 {
      NoWrapIff(count - 1, fileLen, chunkSize);
    }
    if count * chunkSize < TWO_64 {
      forall n: nat | n < count ensures SameRange(ChunkRange(n, fileLen, chunkSize), ChunkRange64(n, fileLen, chunkSize)) {
        NoWrapIff(n, fileLen, chunkSize);
        MulMonotone(n + 1, count, chunkSize);
      }
    }
  }

  lemma CountTimesSize(fileLen: nat, chunkSize: nat)
    requires chunkSize > 0
    ensures ChunkCount(fileLen, chunkSize) * chunkSize < fileLen + chunkSize
  {
    var count := ChunkCount(fileLen, chunkSize);
    if count > 0 {
      CountIsExact(fileLen, chunkSize, count - 1);
      assert count * chunkSize == (count - 1) * chunkSize + chunkSize;
    }
  }

  /** So they are whenever file length plus chunk size fit in 64 bits. */
  lemma SmallFilesAreExact(fileLen: nat, chunkSize: nat)
    requires 0 < chunkSize < TWO_64 && fileLen < TWO_64 && fileLen + chunkSize <= TWO_64
    ensures AllChunksExact(fileLen, chunkSize)
  {
    AllChunksExactIff(fileLen, chunkSize);
    CountTimesSize(fileLen, chunkSize);
  }

  /** A one-byte file and chunk index 2^32 with chunks of 4 GiB. */
  lemma WrappedRange()
    ensures ChunkRange(0x1_0000_0000, 1, 0x1_0000_0000) == None
    ensures ChunkRange64(0x1_0000_0000, 1, 0x1_0000_0000) == Some((0, 0))
  {
  }

  /** The second and last chunk of a very large file. */
  lemma WrappedChunk()
    ensures var big := 0x8000_0000_0000_0001;
      && ChunkRange(1, TWO_64 - 1, big) == Some((big, TWO_64 - 2))
      && ChunkRange64(1, TWO_64 - 1, big) == Some((big, 1))
  {
  }
}
