/** The transfer handle: which chunks are acked, which are pending, and the byte counter
    shown as progress, together with what that counter means. */
module TransferHandle {
  import opened Bytes
  import opened ChunkGeometry

  /** The indices in [0, n) that are not acked, ascending. */
  function Pending(acked: set<nat>, n: nat): (p: seq<nat>)
    ensures forall i: nat :: i in p <==> i < n && i !in acked
    ensures forall j, k :: 0 <= j < k < |p| ==> p[j] < p[k]
  {
    if n == 0 then [] else
    var below := Pending(acked, n - 1);
    assert forall j :: 0 <= j < |below| ==> below[j] in below;
    below + if n - 1 in acked then [] else [n - 1]
  }

  /** How many of the indices below n are acked. */
  function Count(acked: set<nat>, n: nat): (k: nat)
    ensures k <= n
  {
    if n == 0 then 0 else Count(acked, n - 1) + if n - 1 in acked then 1 else 0
  }

  /** The number of bytes in the acked chunks: what progress is meant to show. */
  function AckedBytes(acked: set<nat>, n: nat, total: nat, c: nat): nat
  {
    if n == 0 then 0
    else AckedBytes(acked, n - 1, total, c) + if n - 1 in acked then ChunkLen(n - 1, total, c) else 0
  }

  function AckedTotal(acked: set<nat>, total: nat, c: nat): nat
    requires c > 0
  {
    AckedBytes(acked, NumChunks(total, c), total, c)
  }

  ghost predicate InRange(acked: set<nat>, total: nat, c: nat)
    requires c > 0
  {
    forall i :: i in acked ==> i < NumChunks(total, c)
  }

  datatype Progress = Progress(total: U64, c: nat, acked: set<nat>, bytes: U64)

  /** `|acked| * CHUNK_SIZE` in u64, capped at the total: how a resumed handle starts its
      counter, and how the polled estimate is computed from the manifest. */
  function ChargedBytes(acked: set<nat>, total: U64, c: nat): U64
  {
    Min(Offset(|acked|, c) % U64_LIMIT, total)
  }

  function FreshProgress(total: U64, c: nat): Progress
  {
    Progress(total, c, {}, 0)
  }

  function ResumedProgress(total: U64, c: nat, alreadyAcked: set<nat>): Progress
  {
    Progress(total, c, alreadyAcked, ChargedBytes(alreadyAcked, total, c))
  }

  /** The two critical sections of an ack: the index goes into the set under its lock, and
      only after the lock is released is its length added to the u64 counter. */
  function Insert(p: Progress, i: nat): Progress
  {
    p.(acked := p.acked + {i})
  }

  function Charge(p: Progress, len: nat): Progress
  {
    p.(bytes := (p.bytes + len) % U64_LIMIT)
  }

  /** A whole ack: the first for an index inserts and charges, later ones change nothing. */
  function MarkAcked(p: Progress, i: nat, len: nat): Progress
  {
    if i in p.acked then p else Charge(Insert(p, i), len)
  }

  class TransferHandle {
    const total: U64
    const c: nat
    const totalChunks: nat
    var bytesTransferred: U64
    var acked: set<nat>
    var paused: bool
    var cancelled: bool

    ghost predicate Valid()
    {
      c > 0 && totalChunks == NumChunks(total, c)
    }

    ghost function View(): Progress
      reads this
    {
      Progress(total, c, acked, bytesTransferred)
    }

    constructor (total: U64, c: nat)
      requires c > 0
      ensures Valid() && View() == FreshProgress(total, c) && !paused && !cancelled
    {
      this.total, this.c, totalChunks := total, c, NumChunks(total, c);
      bytesTransferred, acked, paused, cancelled := 0, {}, false, false;
    }

    constructor ResumeFromManifest(total: U64, c: nat, alreadyAcked: set<nat>)
      requires c > 0
      ensures Valid() && View() == ResumedProgress(total, c, alreadyAcked) && !paused && !cancelled
    {
      this.total, this.c, totalChunks := total, c, NumChunks(total, c);
      OffsetIsProduct(|alreadyAcked|, c);
      var bytesDone := (|alreadyAcked| * c) % U64_LIMIT;
      bytesTransferred := if bytesDone < total then bytesDone else total;
      acked, paused, cancelled := alreadyAcked, false, false;
    }

    method PendingChunkIndices() returns (p: seq<nat>)
      requires Valid()
      ensures p == Pending(acked, totalChunks)
    {
      p := [];
      for i := 0 to totalChunks
        invariant p == Pending(acked, i)
      {
        assert Pending(acked, i + 1) == Pending(acked, i) + if i in acked then [] else [i];
        if i !in acked { p := p + [i]; }
      }
    }

    method InsertAcked(i: nat) returns (first: bool)
      modifies this`acked
      ensures first == (i !in old(acked)) && View() == Insert(old(View()), i)
    {
      first := i !in acked;
      acked := acked + {i};
    }

    method AddBytes(len: nat)
      modifies this`bytesTransferred
      ensures View() == Charge(old(View()), len)
    {
      bytesTransferred := (bytesTransferred + len) % U64_LIMIT;
    }

    method MarkChunkAcked(i: nat, len: nat)
      modifies this`acked, this`bytesTransferred
      ensures View() == MarkAcked(old(View()), i, len)
    {
      var first := InsertAcked(i);
      if first { AddBytes(len); } else { assert acked == old(acked); }
    }

    method SetPaused(on: bool)
      modifies this`paused
      ensures paused == on && View() == old(View()) && cancelled == old(cancelled)
    {
      paused := on;
    }

    /** Cancelling is one-way: nothing clears the flag. */
    method Cancel()
      modifies this`cancelled
      ensures cancelled && View() == old(View()) && paused == old(paused)
    {
      cancelled := true;
    }
  }

  // ---------------------------------------------------------------- what is pending

  /** Pending and in-range acked indices split the range between them. */
  lemma {:induction false} PendingPartitions(acked: set<nat>, n: nat)
    ensures |Pending(acked, n)| + Count(acked, n) == n
  {
    if n > 0 { PendingPartitions(acked, n - 1); }
  }

  lemma {:induction false} NothingPending(acked: set<nat>, n: nat)
    ensures Pending(acked, n) == [] <==> forall i: nat :: i < n ==> i in acked
  {
    var p := Pending(acked, n);
    if p != [] { assert p[0] in p; }
    forall i: nat | i < n && i !in acked ensures p != [] { assert i in p; }
  }

  lemma {:induction false} CountIsCardinality(acked: set<nat>, n: nat)
    requires forall i :: i in acked ==> i < n
    ensures |acked| == Count(acked, n)
  {
    if n == 0 {
      assert acked == {};
    } else {
      var below := acked - {n - 1};
      CountIsCardinality(below, n - 1);
      CountDependsBelow(acked, below, n - 1);
    }
  }

  lemma {:induction false} CountDependsBelow(a: set<nat>, b: set<nat>, n: nat)
    requires forall i :: 0 <= i < n ==> (i in a <==> i in b)
    ensures Count(a, n) == Count(b, n)
  {
    if n > 0 { CountDependsBelow(a, b, n - 1); }
  }

  // ---------------------------------------------------------------- what the counter means

  /** Chunks below the last are whole, so n of them that are acked hold c bytes each. */
  lemma {:induction false} WholeChunks(acked: set<nat>, n: nat, total: nat, c: nat)
    requires c > 0 && n < NumChunks(total, c)
    ensures AckedBytes(acked, n, total, c) == Offset(Count(acked, n), c)
  {
    if n > 0 {
      WholeChunks(acked, n - 1, total, c);
      IndexInRange(n - 1, total, c);
    }
  }

  /** By how much a counter started from a manifest runs ahead: the missing part of a short
      last chunk, when that chunk is acked while another one is not. */
  function Drift(manifest: set<nat>, total: nat, c: nat): nat
    requires c > 0
  {
    var n := NumChunks(total, c);
    if n > 0 && n - 1 in manifest && Pending(manifest, n) != []
    then c - ChunkLen(n - 1, total, c) else 0
  }

  lemma AllAckedIsTotal(acked: set<nat>, n: nat, total: nat, c: nat)
    requires forall i :: 0 <= i < n ==> i in acked
    ensures AckedBytes(acked, n, total, c) == SumLens(n, total, c)
  {
  }

  lemma FewerChunksFit(k: nat, total: nat, c: nat)
    requires c > 0 && k < NumChunks(total, c)
    ensures Offset(k, c) < total
  {
    IndexInRange(k, total, c);
  }

  lemma OneMoreCharge(acked: set<nat>, n: nat, total: nat, c: nat)
    requires n > 0 && AckedBytes(acked, n - 1, total, c) == Offset(Count(acked, n - 1), c)
    ensures Offset(Count(acked, n), c)
         == AckedBytes(acked, n, total, c) + if n - 1 in acked then c - ChunkLen(n - 1, total, c) else 0
  {
  }

  /** Charging c per acked chunk exceeds the acked bytes by what a short last chunk lacks. */
  lemma PartlyAcked(acked: set<nat>, n: nat, total: nat, c: nat)
    requires c > 0 && n == NumChunks(total, c) > 0
    ensures Offset(Count(acked, n), c)
         == AckedBytes(acked, n, total, c) + if n - 1 in acked then c - ChunkLen(n - 1, total, c) else 0
  {
    WholeChunks(acked, n - 1, total, c);
    OneMoreCharge(acked, n, total, c);
  }

  lemma ChargedWithoutWrap(acked: set<nat>, charged: nat, total: U64, c: nat)
    requires charged == Offset(|acked|, c) < U64_LIMIT
    ensures ChargedBytes(acked, total, c) == Min(charged, total)
  {
  }

  /** Rounding the last chunk up can carry the product past u64; it then wraps below the total. */
  lemma ChargedWhenComplete(acked: set<nat>, total: U64, c: nat)
    requires 0 < c <= U64_LIMIT && |acked| == NumChunks(total, c)
    ensures Offset(|acked|, c) < U64_LIMIT ==> ChargedBytes(acked, total, c) == total
    ensures Offset(|acked|, c) >= U64_LIMIT ==> ChargedBytes(acked, total, c) < total
  {
    NumChunksBounds(total, c);
    var charged := Offset(|acked|, c);
    if charged < U64_LIMIT {
      ChargedWithoutWrap(acked, charged, total, c);
    } else {
      assert charged % U64_LIMIT == charged - U64_LIMIT;
    }
  }

  lemma ChargedWhenPartial(acked: set<nat>, total: U64, c: nat)
    requires c > 0 && |acked| < NumChunks(total, c)
    ensures ChargedBytes(acked, total, c) == Offset(|acked|, c) < U64_LIMIT
  {
    FewerChunksFit(|acked|, total, c);
    ChargedWithoutWrap(acked, Offset(|acked|, c), total, c);
  }

  /** Charging whole chunks overstates the acked bytes by exactly the drift, if and only if the
      product fits u64; else it understates a complete set. */
  lemma ChargedIsAckedPlusDrift(acked: set<nat>, total: U64, c: nat)
    requires 0 < c <= U64_LIMIT && InRange(acked, total, c)
    ensures ChargedBytes(acked, total, c) == AckedTotal(acked, total, c) + Drift(acked, total, c) <==>
            Offset(|acked|, c) < U64_LIMIT
    ensures Offset(|acked|, c) >= U64_LIMIT ==>
              && |acked| == NumChunks(total, c) && Drift(acked, total, c) == 0
              && ChargedBytes(acked, total, c) < AckedTotal(acked, total, c) == total
  {
    var n := NumChunks(total, c);
    CountIsCardinality(acked, n);
    PendingPartitions(acked, n);
    NothingPending(acked, n);
    if |acked| == n {
      ChargedWhenComplete(acked, total, c);
      AllAckedIsTotal(acked, n, total, c);
      ChunksPartitionLengths(total, c);
    } else {
      ChargedWhenPartial(acked, total, c);
      PartlyAcked(acked, n, total, c);
    }
  }

  lemma ChunksPartitionLengths(total: nat, c: nat)
    requires c > 0
    ensures SumLens(NumChunks(total, c), total, c) == total
  {
    ChunksPartitionFile(Zeros(total), c);
  }

  lemma {:induction false} AckedBytesOneMore(acked: set<nat>, i: nat, n: nat, total: nat, c: nat)
    requires i !in acked
    ensures AckedBytes(acked + {i}, n, total, c)
         == AckedBytes(acked, n, total, c) + if i < n then ChunkLen(i, total, c) else 0
  {
    if n > 0 { AckedBytesOneMore(acked, i, n - 1, total, c); }
  }

  lemma {:induction false} AckedBytesAtMost(acked: set<nat>, n: nat, total: nat, c: nat)
    ensures AckedBytes(acked, n, total, c) <= SumLens(n, total, c)
  {
    if n > 0 { AckedBytesAtMost(acked, n - 1, total, c); }
  }

  /** Acks of chunks with their true lengths, in the order given. */
  function MarkAll(p: Progress, acks: seq<nat>): Progress
  {
    if acks == [] then p
    else
      var before := MarkAll(p, acks[..|acks| - 1]);
      var i := acks[|acks| - 1];
      MarkAcked(before, i, ChunkLen(i, p.total, p.c))
  }

  function Elements(acks: seq<nat>): set<nat> { set i | i in acks }

  /** The counter runs `drift` ahead of the acked bytes, modulo 2^64. */
  ghost predicate Tracks(p: Progress, drift: int)
  {
    && p.c > 0 && InRange(p.acked, p.total, p.c)
    && p.bytes == (AckedTotal(p.acked, p.total, p.c) + drift) % U64_LIMIT
  }

  lemma AckedTotalAtMost(acked: set<nat>, total: nat, c: nat)
    requires c > 0
    ensures AckedTotal(acked, total, c) <= total
  {
    AckedBytesAtMost(acked, NumChunks(total, c), total, c);
    ChunksPartitionLengths(total, c);
  }

  /** An ack of any chunk with its true length, first or repeated, keeps the drift. */
  lemma MarkKeepsDrift(p: Progress, i: nat, drift: int)
    requires Tracks(p, drift) && i < NumChunks(p.total, p.c)
    ensures Tracks(MarkAcked(p, i, ChunkLen(i, p.total, p.c)), drift)
  {
    if i !in p.acked { AckedBytesOneMore(p.acked, i, NumChunks(p.total, p.c), p.total, p.c); }
  }

  lemma DriftBelowChunk(manifest: set<nat>, total: nat, c: nat)
    requires c > 0
    ensures Drift(manifest, total, c) < c
  {
    if NumChunks(total, c) > 0 { IndexInRange(NumChunks(total, c) - 1, total, c); }
  }

  lemma {:induction false} AcksKeepDrift(p: Progress, acks: seq<nat>, drift: int)
    requires Tracks(p, drift) && forall i :: i in acks ==> i < NumChunks(p.total, p.c)
    ensures var q := MarkAll(p, acks);
            Tracks(q, drift) && q.total == p.total && q.c == p.c && q.acked == p.acked + Elements(acks)
  {
    hide Tracks, NumChunks, ChunkLen;
    if acks != [] {
      var init, i := acks[..|acks| - 1], acks[|acks| - 1];
      assert acks == init + [i] && i in acks;
      forall k | k in init ensures k in acks {}
      AcksKeepDrift(p, init, drift);
      MarkKeepsDrift(MarkAll(p, init), i, drift);
      assert Elements(acks) == Elements(init) + {i};
    }
  }

  lemma WholeManifestStays(manifest: set<nat>, acks: seq<nat>, total: nat, c: nat)
    requires c > 0 && InRange(manifest, total, c) && |manifest| == NumChunks(total, c)
    requires forall i :: i in acks ==> i < NumChunks(total, c)
    ensures manifest + Elements(acks) == manifest
  {
    var n := NumChunks(total, c);
    CountIsCardinality(manifest, n);
    PendingPartitions(manifest, n);
    NothingPending(manifest, n);
  }

  /** With no assumption on sizes: the counter keeps, modulo 2^64, the distance from the acked
      bytes that the charged start had. */
  lemma CounterModulo(total: U64, c: nat, manifest: set<nat>, acks: seq<nat>)
    requires c > 0 && InRange(manifest, total, c)
    requires forall i :: i in acks ==> i < NumChunks(total, c)
    ensures var p := MarkAll(ResumedProgress(total, c, manifest), acks);
            && p.total == total && p.c == c && p.acked == manifest + Elements(acks)
            && InRange(p.acked, total, c)
            && p.bytes == (AckedTotal(p.acked, total, c) + ChargedBytes(manifest, total, c)
                           - AckedTotal(manifest, total, c)) % U64_LIMIT
  {
    var start := ResumedProgress(total, c, manifest);
    assert Tracks(start, start.bytes - AckedTotal(manifest, total, c));
    AcksKeepDrift(start, acks, start.bytes - AckedTotal(manifest, total, c));
  }

  lemma CounterArithmetic(bytes: nat, before: nat, charged: nat, acked: nat, drift: nat, wraps: bool)
    requires bytes == (acked + charged - before) % U64_LIMIT && before <= acked && charged < U64_LIMIT
    requires if wraps then acked == before && charged < before else charged == before + drift
    ensures bytes == acked + drift <==> !wraps && acked + drift < U64_LIMIT
  {
  }

  /** The counter of a handle started from a manifest, after any acks: the ack set grows by
      exactly the indices acked, and the counter is the acked bytes plus the drift it started
      with, hence below total + c, if and only if neither the product it started from nor that
      sum leaves u64. */
  lemma CounterTracksAckedBytes(total: U64, c: nat, manifest: set<nat>, acks: seq<nat>)
    requires 0 < c <= U64_LIMIT && InRange(manifest, total, c)
    requires forall i :: i in acks ==> i < NumChunks(total, c)
    ensures var p := MarkAll(ResumedProgress(total, c, manifest), acks);
            && p.total == total && p.c == c && p.acked == manifest + Elements(acks)
            && InRange(p.acked, total, c)
            && AckedTotal(p.acked, total, c) + Drift(manifest, total, c) < total + c
            && (p.bytes == AckedTotal(p.acked, total, c) + Drift(manifest, total, c) <==>
                Offset(|manifest|, c) < U64_LIMIT
                && AckedTotal(p.acked, total, c) + Drift(manifest, total, c) < U64_LIMIT)
  {
    hide AckedBytes, Drift, ChargedBytes, Offset, NumChunks, MarkAll, Elements;
    var p := MarkAll(ResumedProgress(total, c, manifest), acks);
    CounterModulo(total, c, manifest, acks);
    DriftBelowChunk(manifest, total, c);
    ChargedIsAckedPlusDrift(manifest, total, c);
    AckedTotalAtMost(p.acked, total, c);
    AckedBytesMonotone(manifest, p.acked, NumChunks(total, c), total, c);
    var wraps := Offset(|manifest|, c) >= U64_LIMIT;
    if wraps { WholeManifestStays(manifest, acks, total, c); }
    hide AckedTotal, InRange;
    CounterArithmetic(p.bytes, AckedTotal(manifest, total, c), ChargedBytes(manifest, total, c),
                      AckedTotal(p.acked, total, c), Drift(manifest, total, c), wraps);
  }

  /** On a fresh handle the counter is exactly the acked bytes, at most the total, never
      smaller after more acks, and the total exactly when nothing is pending. */
  lemma FreshCounterIsExact(total: U64, c: nat, acks: seq<nat>, more: seq<nat>)
    requires c > 0
    requires forall i :: i in acks + more ==> i < NumChunks(total, c)
    ensures var p := MarkAll(FreshProgress(total, c), acks);
            var q := MarkAll(FreshProgress(total, c), acks + more);
            && p.acked == Elements(acks) && p.bytes == AckedTotal(p.acked, total, c)
            && p.bytes <= q.bytes <= total
            && (p.bytes == total <==> Pending(p.acked, NumChunks(total, c)) == [])
  {
    var n, start := NumChunks(total, c), FreshProgress(total, c);
    forall i | i in acks ensures i in acks + more {}
    NothingAcked(n, total, c);
    FreshCounter(total, c, acks);
    FreshCounter(total, c, acks + more);
    assert Elements(acks) <= Elements(acks + more);
    AckedBytesMonotone(Elements(acks), Elements(acks + more), n, total, c);
    ChunksPartitionLengths(total, c);
    NothingPending(Elements(acks), n);
    AckedBytesFull(Elements(acks), n, total, c);
    hide AckedBytes, MarkAll, Pending, NumChunks, SumLens;
  }

  lemma FreshCounter(total: U64, c: nat, acks: seq<nat>)
    requires c > 0 && forall i :: i in acks ==> i < NumChunks(total, c)
    ensures var p := MarkAll(FreshProgress(total, c), acks);
            p.acked == Elements(acks) && p.bytes == AckedTotal(p.acked, total, c) <= total
  {
    NothingAcked(NumChunks(total, c), total, c);
    AcksKeepDrift(FreshProgress(total, c), acks, 0);
    AckedTotalAtMost(Elements(acks), total, c);
    assert {} + Elements(acks) == Elements(acks);
    hide AckedBytes, MarkAll, NumChunks;
  }

  lemma NothingAcked(n: nat, total: nat, c: nat)
    ensures AckedBytes({}, n, total, c) == 0
  {
  }

  lemma {:induction false} AckedBytesMonotone(a: set<nat>, b: set<nat>, n: nat, total: nat, c: nat)
    requires a <= b
    ensures AckedBytes(a, n, total, c) <= AckedBytes(b, n, total, c)
  {
    if n > 0 { AckedBytesMonotone(a, b, n - 1, total, c); }
  }

  /** A sum of acked lengths reaches the full sum only when every chunk is acked. */
  lemma {:induction false} AckedBytesFull(acked: set<nat>, n: nat, total: nat, c: nat)
    requires c > 0 && n <= NumChunks(total, c)
    ensures AckedBytes(acked, n, total, c) == SumLens(n, total, c) <==> forall i :: 0 <= i < n ==> i in acked
  {
    if n > 0 {
      AckedBytesFull(acked, n - 1, total, c);
      AckedBytesAtMost(acked, n - 1, total, c);
      IndexInRange(n - 1, total, c);
    }
  }

  /** The polled estimate against the counter of the running handle: they differ by the two
      drifts, and both are exact when neither set holds a short last chunk ahead of others.
      This fails only where a product or the counter leaves u64 after the start. */
  lemma EstimateAgainstCounter(total: U64, c: nat, manifest: set<nat>, acks: seq<nat>)
    requires 0 < c <= U64_LIMIT && InRange(manifest, total, c)
    requires forall i :: i in acks ==> i < NumChunks(total, c)
    ensures var p := MarkAll(ResumedProgress(total, c, manifest), acks);
            ChargedBytes(p.acked, total, c) + Drift(manifest, total, c) == p.bytes + Drift(p.acked, total, c) <==>
            || p.acked == manifest
            || (Offset(|p.acked|, c) < U64_LIMIT
                && AckedTotal(p.acked, total, c) + Drift(manifest, total, c) < U64_LIMIT)
  {
    hide AckedBytes, Drift, ChargedBytes, Offset, NumChunks, MarkAll, Elements;
    var p := MarkAll(ResumedProgress(total, c, manifest), acks);
    CounterModulo(total, c, manifest, acks);
    ChargedIsAckedPlusDrift(manifest, total, c);
    ChargedIsAckedPlusDrift(p.acked, total, c);
    AckedTotalAtMost(p.acked, total, c);
    var wrapped := Offset(|manifest|, c) >= U64_LIMIT;
    if wrapped { WholeManifestStays(manifest, acks, total, c); }
    hide AckedTotal, InRange;
    EstimateArithmetic(
      p.bytes, AckedTotal(manifest, total, c), ChargedBytes(manifest, total, c), Drift(manifest, total, c), wrapped,
      AckedTotal(p.acked, total, c), ChargedBytes(p.acked, total, c), Drift(p.acked, total, c),
      Offset(|p.acked|, c) >= U64_LIMIT, p.acked == manifest);
  }

  lemma EstimateArithmetic(bytes: nat, acked0: nat, charged0: nat, drift0: nat, wraps0: bool,
                           acked1: nat, charged1: nat, drift1: nat, wraps1: bool, same: bool)
    requires bytes == (acked1 + charged0 - acked0) % U64_LIMIT && charged0 < U64_LIMIT && acked1 < U64_LIMIT
    requires if wraps0 then same else charged0 == acked0 + drift0
    requires if wraps1 then drift1 == 0 && charged1 < acked1 else charged1 == acked1 + drift1
    requires same ==> acked0 == acked1 && charged0 == charged1 && drift0 == drift1
    ensures charged1 + drift0 == bytes + drift1 <==> same || (!wraps1 && acked1 + drift0 < U64_LIMIT)
  {
  }
}
