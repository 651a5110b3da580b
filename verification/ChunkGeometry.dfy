/** How a file is cut into chunks, and the file operations chunks are read and written with.
    The chunk size is a parameter `c > 0` throughout. Multiples of c are written as repeated
    addition, which keeps every proof about them linear; `OffsetIsProduct` and
    `NumChunksIsDivCeil` say that they are the products and quotients the code computes. */
module ChunkGeometry {
  import opened Bytes

  /** `chunk_index * CHUNK_SIZE` */
  function Offset(i: nat, c: nat): nat
  {
    if i == 0 then 0 else Offset(i - 1, c) + c
  }

  /** `total_bytes.div_ceil(CHUNK_SIZE)` */
  function NumChunks(total: nat, c: nat): nat
    requires c > 0
  {
    if total == 0 then 0 else 1 + NumChunks(if total <= c then 0 else total - c, c)
  }

  function Min(a: nat, b: nat): nat { if a < b then a else b }

  /** `metadata.len().saturating_sub(offset).min(CHUNK_SIZE)` for the chunk at `offset`. */
  function ChunkLen(i: nat, total: nat, c: nat): (len: nat)
    ensures len <= c
  {
    if Offset(i, c) < total then Min(total - Offset(i, c), c) else 0
  }

  /** `read_chunk_from_source` */
  function ReadChunk(file: seq<Byte>, i: nat, c: nat): (s: seq<Byte>)
    ensures |s| == ChunkLen(i, |file|, c)
  {
    if Offset(i, c) < |file| then file[Offset(i, c)..Offset(i, c) + ChunkLen(i, |file|, c)] else []
  }

  function Zeros(n: nat): (s: seq<Byte>)
    ensures |s| == n && forall k :: 0 <= k < n ==> s[k] == 0
  {
    seq(n, _ => 0)
  }

  /** Seek to `offset` and write: bytes outside the written range stay, a gap past the end
      reads as zeros, and writing nothing changes nothing. */
  function WriteAt(file: seq<Byte>, offset: nat, data: seq<Byte>): (r: seq<Byte>)
    ensures offset + |data| <= |file| ==> |r| == |file|
  {
    if data == [] then file
    else if offset >= |file| then file + Zeros(offset - |file|) + data
    else if offset + |data| >= |file| then file[..offset] + data
    else file[..offset] + data + file[offset + |data|..]
  }

  /** Byte by byte: what is written is there, all else is as it was, and a gap is zeros. Writing
      nothing leaves the file alone. */
  lemma WriteAtBytes(file: seq<Byte>, offset: nat, data: seq<Byte>, k: nat)
    ensures var after := WriteAt(file, offset, data);
            && |after| == (if data == [] || offset + |data| <= |file| then |file| else offset + |data|)
            && (k < |after| ==>
                  after[k] == if offset <= k < offset + |data| then data[k - offset]
                              else if k < |file| then file[k] else 0)
  {
  }

  lemma {:induction false} OffsetIsProduct(i: nat, c: nat)
    ensures Offset(i, c) == i * c
  {
    if i > 0 {
      OffsetIsProduct(i - 1, c);
      assert i * c == (i - 1) * c + c;
    }
  }

  lemma {:induction false} OffsetsIncrease(i: nat, j: nat, c: nat)
    requires i < j
    ensures Offset(i, c) + c <= Offset(j, c)
  {
    if i < j - 1 { OffsetsIncrease(i, j - 1, c); }
  }

  lemma DivisionOffset(p: nat, c: nat)
    requires c > 0
    ensures Offset(p / c, c) + p % c == p
  {
    OffsetIsProduct(p / c, c);
  }

  lemma DivisionIsUnique(p: nat, q: nat, r: nat, c: nat)
    requires c > 0 && p == Offset(q, c) + r && r < c
    ensures p / c == q && p % c == r
  {
    var d := p / c;
    DivisionOffset(p, c);
    if d < q { OffsetsIncrease(d, q, c); }
    if q < d { OffsetsIncrease(q, d, c); }
  }

  lemma QuotientStep(total: nat, c: nat)
    requires 0 < c <= total
    ensures total / c == (total - c) / c + 1 && total % c == (total - c) % c
  {
    var q := (total - c) / c;
    DivisionOffset(total - c, c);
    DivisionIsUnique(total, q + 1, (total - c) % c, c);
  }

  lemma {:induction false} NumChunksIsDivCeil(total: nat, c: nat)
    requires c > 0
    ensures NumChunks(total, c) == total / c + if total % c == 0 then 0 else 1
    decreases total
  {
    if total == 0 {
    } else if total < c {
      SmallQuotient(total, c);
    } else {
      NumChunksIsDivCeil(total - c, c);
      QuotientStep(total, c);
    }
  }

  lemma SmallQuotient(total: nat, c: nat)
    requires 0 < total < c
    ensures total / c == 0 && total % c == total
  {
  }

  lemma {:induction false} OffsetBelowTotal(i: nat, total: nat, c: nat)
    requires c > 0
    ensures i < NumChunks(total, c) <==> Offset(i, c) < total
  {
    if i > 0 && total > 0 {
      OffsetBelowTotal(i - 1, if total <= c then 0 else total - c, c);
    }
  }

  /** The indices below the chunk count are exactly the offsets that start inside the file;
      their chunks are non-empty, whole except for the last, and end inside the file. */
  lemma {:induction false} IndexInRange(i: nat, total: nat, c: nat)
    requires c > 0
    ensures i < NumChunks(total, c) <==> Offset(i, c) < total
    ensures i < NumChunks(total, c) ==> 0 < ChunkLen(i, total, c) && Offset(i, c) + ChunkLen(i, total, c) <= total
    ensures i + 1 < NumChunks(total, c) ==> ChunkLen(i, total, c) == c
  {
    OffsetBelowTotal(i, total, c);
    OffsetBelowTotal(i + 1, total, c);
  }

  /** `chunk_index * CHUNK_SIZE` does not overflow u64 for any chunk of any u64-sized file. */
  lemma OffsetFitsU64(i: nat, total: U64, c: nat)
    requires c > 0 && i < NumChunks(total, c)
    ensures i * c == Offset(i, c) < U64_LIMIT
  {
    OffsetBelowTotal(i, total, c);
    OffsetIsProduct(i, c);
  }

  lemma NumChunksBounds(total: nat, c: nat)
    requires c > 0
    ensures total <= Offset(NumChunks(total, c), c) < total + c
  {
    var n := NumChunks(total, c);
    OffsetBelowTotal(n, total, c);
    if n > 0 { OffsetBelowTotal(n - 1, total, c); }
  }

  /** Every byte of the file belongs to exactly one chunk. */
  lemma EveryByteInOneChunk(p: nat, total: nat, c: nat)
    requires c > 0 && p < total
    ensures p / c < NumChunks(total, c)
    ensures forall i: nat :: Offset(i, c) <= p < Offset(i, c) + ChunkLen(i, total, c) <==> i == p / c
  {
    var q := p / c;
    DivisionOffset(p, c);
    OffsetBelowTotal(q, total, c);
    forall i: nat ensures Offset(i, c) <= p < Offset(i, c) + ChunkLen(i, total, c) <==> i == q {
      if i < q { OffsetsIncrease(i, q, c); }
      if q < i { OffsetsIncrease(q, i, c); }
    }
  }

  function SumLens(n: nat, total: nat, c: nat): nat
  {
    if n == 0 then 0 else SumLens(n - 1, total, c) + ChunkLen(n - 1, total, c)
  }

  function JoinChunks(file: seq<Byte>, n: nat, c: nat): seq<Byte>
  {
    if n == 0 then [] else JoinChunks(file, n - 1, c) + ReadChunk(file, n - 1, c)
  }

  lemma {:induction false} LengthsOfPrefix(n: nat, total: nat, c: nat)
    ensures SumLens(n, total, c) == Min(Offset(n, c), total)
  {
    if n > 0 { LengthsOfPrefix(n - 1, total, c); }
  }

  lemma ChunkExtendsPrefix(file: seq<Byte>, from: nat, len: nat)
    requires from + len <= |file|
    ensures file[..from] + file[from..from + len] == file[..from + len]
  {
  }

  lemma OneMoreChunk(file: seq<Byte>, i: nat, c: nat)
    ensures file[..Min(Offset(i, c), |file|)] + ReadChunk(file, i, c) == file[..Min(Offset(i + 1, c), |file|)]
  {
    ChunkAt(file, i, c);
    var from, len := Offset(i, c), ChunkLen(i, |file|, c);
    if from < |file| {
      ChunkExtendsPrefix(file, from, len);
      assert Min(Offset(i + 1, c), |file|) == from + len;
    } else {
      assert file[..|file|] + [] == file[..|file|];
    }
  }

  /** The first n chunks, in order, are exactly the first min(n * c, total) bytes. */
  lemma {:induction false} ChunksCoverPrefix(file: seq<Byte>, n: nat, c: nat)
    ensures JoinChunks(file, n, c) == file[..Min(Offset(n, c), |file|)]
  {
    if n > 0 {
      hide ReadChunk, Min, Offset;
      ChunksCoverPrefix(file, n - 1, c);
      OneMoreChunk(file, n - 1, c);
    }
  }

  /** Cutting a file and joining the pieces gives the file back; the lengths add up to it. */
  lemma ChunksPartitionFile(file: seq<Byte>, c: nat)
    requires c > 0
    ensures JoinChunks(file, NumChunks(|file|, c), c) == file
    ensures SumLens(NumChunks(|file|, c), |file|, c) == |file|
  {
    ChunksCoverPrefix(file, NumChunks(|file|, c), c);
    LengthsOfPrefix(NumChunks(|file|, c), |file|, c);
    NumChunksBounds(|file|, c);
    assert file[..|file|] == file;
  }

  lemma WriteInside(file: seq<Byte>, offset: nat, data: seq<Byte>, lo: nat, hi: nat)
    requires offset + |data| <= |file| && lo <= hi <= |file|
    ensures |WriteAt(file, offset, data)| == |file|
    ensures lo == offset && hi == offset + |data| ==> WriteAt(file, offset, data)[lo..hi] == data
    ensures hi <= offset || offset + |data| <= lo ==> WriteAt(file, offset, data)[lo..hi] == file[lo..hi]
  {
  }

  lemma DisjointChunks(i: nat, j: nat, total: nat, c: nat)
    requires i != j
    ensures Offset(i, c) + ChunkLen(i, total, c) <= Offset(j, c) || Offset(j, c) + ChunkLen(j, total, c) <= Offset(i, c)
  {
    if i < j { OffsetsIncrease(i, j, c); } else { OffsetsIncrease(j, i, c); }
  }

  /** Chunk i of a file reads back as what was written there, and a write at chunk i leaves
      every other chunk as it was. */
  lemma WriteChunkReadChunk(file: seq<Byte>, i: nat, data: seq<Byte>, j: nat, c: nat)
    requires c > 0 && i < NumChunks(|file|, c) && |data| == ChunkLen(i, |file|, c)
    ensures |WriteAt(file, Offset(i, c), data)| == |file|
    ensures ReadChunk(WriteAt(file, Offset(i, c), data), j, c) == if j == i then data else ReadChunk(file, j, c)
  {
    hide WriteAt, NumChunks, Offset, ChunkLen, ReadChunk;
    IndexInRange(i, |file|, c);
    WriteInside(file, Offset(i, c), data, 0, 0);
    var from, written := Offset(j, c), WriteAt(file, Offset(i, c), data);
    ChunkAt(file, j, c);
    ChunkAt(written, j, c);
    if from < |file| {
      if j != i { DisjointChunks(i, j, |file|, c); }
      WriteInside(file, Offset(i, c), data, from, from + ChunkLen(j, |file|, c));
    }
  }

  lemma ChunkAt(file: seq<Byte>, i: nat, c: nat)
    ensures Offset(i, c) >= |file| ==> ReadChunk(file, i, c) == []
    ensures Offset(i, c) < |file| ==>
              && Offset(i, c) + ChunkLen(i, |file|, c) <= |file|
              && ReadChunk(file, i, c) == file[Offset(i, c)..Offset(i, c) + ChunkLen(i, |file|, c)]
  {
  }

  /** Two files of one length that agree on every chunk are the same file. */
  lemma EqualChunksEqualFiles(a: seq<Byte>, b: seq<Byte>, c: nat)
    requires c > 0 && |a| == |b|
    requires forall i :: 0 <= i < NumChunks(|a|, c) ==> ReadChunk(a, i, c) == ReadChunk(b, i, c)
    ensures a == b
  {
    forall p | 0 <= p < |a| ensures a[p] == b[p] {
      EveryByteInOneChunk(p, |a|, c);
      var q := p / c;
      assert ReadChunk(a, q, c)[p - Offset(q, c)] == a[p];
      assert ReadChunk(b, q, c)[p - Offset(q, c)] == b[p];
    }
  }
}
