/** Accepting an offer again, after a crash: the destination is truncated and the manifest is
    trusted. */
module ReAcceptance {
  import opened Bytes
  import opened ChunkGeometry
  import opened Receiver
  import opened ReceiverCalls
  import TH = TransferHandle

  /** In every run of an acceptance that finds a manifest, with chunks in any order, those of
      the manifest among them, with overlapping handlers, failures and crashes: once nothing
      is pending, the destination is the source if and only if every chunk of the manifest
      that no handler has written again is all zeros. */
  lemma {:induction false} ReAcceptKeepsContentIff(
    s: State, src: seq<Byte>, c: nat, known: bool, events: seq<Event>, hash: Hash)
    requires 0 < c <= U64_LIMIT && |src| < U64_LIMIT && CollisionFree(src, c, hash)
    requires s.handlers == [] && TH.InRange(s.manifest, |src|, c) && Arrivals(events, src, c, hash)
    requires NothingPending(Run(Accept(s, |src|, c, known), events, hash).progress)
    ensures var start := Accept(s, |src|, c, known);
            Run(start, events, hash).file == src <==>
            forall j :: j in StillStale(start, events, hash, s.manifest) ==>
              ReadChunk(src, j, c) == Zeros(ChunkLen(j, |src|, c))
  {
    var start, drift := Accept(s, |src|, c, known), StartDrift(s.manifest, |src|, c);
    AcceptEstablishesInv(s, src, c, known);
    RunKeepsInv(start, events, s.manifest, drift, src, c, hash);
    NothingPendingMeansSame(Run(start, events, hash), StillStale(start, events, hash, s.manifest), drift, src, c);
  }

  /** A chunk of the manifest that arrives again usable, and is written, is no longer stale;
      one that never arrives stays so. */
  lemma {:induction false} UnsentStaysStale(s: State, events: seq<Event>, hash: Hash, stale: set<nat>, j: nat)
    requires s.handlers == [] && j in stale
    requires forall e :: e in events && e.Arrive? ==> e.m.index != j
    ensures j in StillStale(s, events, hash, stale)
    ensures forall h :: h in Run(s, events, hash).handlers && h.Writing? ==> h.i != j
  {
    hide Next;
    if events != [] {
      var init, e := events[..|events| - 1], events[|events| - 1];
      assert e in events && forall x :: x in init ==> x in events;
      UnsentStaysStale(s, init, hash, stale, j);
      var t := Run(s, init, hash);
      assert Writes(t, e) ==> t.handlers[e.k] in t.handlers;
      WritersWereSent(t, e, hash);
    }
  }

  lemma WritersWereSent(s: State, e: Event, hash: Hash)
    ensures forall h :: h in Next(s, e, hash).handlers && h.Writing? ==>
              h in s.handlers || (e.Arrive? && h.i == e.m.index)
  {
    hide WriteAt, NothingPending, TH.Insert, TH.Charge;
  }

  // ---------------------------------------------------------------- without a row

  /** If the message the offer names is not in the database, there is no row: the manifest stays
      empty, so every acceptance starts afresh, on an empty acked set and a zeroed file. */
  lemma {:induction false} UnknownMessageStartsAfresh(
    size: U64, c: nat, events: seq<Event>, hash: Hash)
    ensures var s := Run(FirstAccept(size, c, false), events, hash);
            && s.manifest == {} && !s.hasRow && !s.completedRow
            && Accept(s, size, c, false).progress == TH.FreshProgress(size, c)
            && Accept(s, size, c, false).file == Zeros(size)
  {
    RowStays(FirstAccept(size, c, false), events, hash);
  }

  /** So nothing is resumed, and nothing is lost either: with nothing pending after a second
      acceptance, the destination is the source. */
  lemma {:induction false} RowlessReAcceptIsSafe(
    src: seq<Byte>, c: nat, known: bool, before: seq<Event>, events: seq<Event>, hash: Hash)
    requires 0 < c <= U64_LIMIT && |src| < U64_LIMIT && CollisionFree(src, c, hash) && Arrivals(events, src, c, hash)
    ensures var s := Next(Run(FirstAccept(|src|, c, false), before, hash), Crash, hash);
            NothingPending(Run(Accept(s, |src|, c, known), events, hash).progress) ==>
              Run(Accept(s, |src|, c, known), events, hash).file == src
  {
    UnknownMessageStartsAfresh(|src|, c, before, hash);
    var s := Next(Run(FirstAccept(|src|, c, false), before, hash), Crash, hash);
    var start := Accept(s, |src|, c, known);
    hide Run;
    if NothingPending(Run(start, events, hash).progress) {
      NothingGetsStale(start, events, hash);
      ReAcceptKeepsContentIff(s, src, c, known, events, hash);
    }
  }

  // ---------------------------------------------------------------- a run that loses a chunk

  lemma IndexFitsU64(i: nat, total: U64, c: nat)
    requires c > 0 && i < NumChunks(total, c)
    ensures i < U64_LIMIT
  {
    ManyOffsets(i, c);
    IndexInRange(i, total, c);
  }

  lemma {:induction false} ManyOffsets(i: nat, c: nat)
    requires c > 0
    ensures Offset(i, c) >= i
  {
    if i > 0 { ManyOffsets(i - 1, c); }
  }

  /** The sender's chunk i, handled without trouble. */
  function Sent(src: seq<Byte>, i: nat, c: nat, hash: Hash): (call: Call)
    requires c > 0 && |src| < U64_LIMIT && i < NumChunks(|src|, c)
    ensures call.m.index == i && call.io == Io(true, true, true)
    ensures Usable(call, hash) && SentOrCorrupted(call.m, src, c, hash)
  {
    IndexFitsU64(i, |src|, c);
    Call(ChunkMessage(i, ReadChunk(src, i, c), hash(ReadChunk(src, i, c))), Io(true, true, true))
  }

  function SentFrom(src: seq<Byte>, first: nat, c: nat, hash: Hash): seq<Call>
    requires c > 0 && |src| < U64_LIMIT && first <= NumChunks(|src|, c)
  {
    seq(NumChunks(|src|, c) - first, k requires 0 <= k < NumChunks(|src|, c) - first => Sent(src, first + k, c, hash))
  }

  lemma SentIsGenuine(src: seq<Byte>, first: nat, c: nat, hash: Hash)
    requires c > 0 && |src| < U64_LIMIT && first <= NumChunks(|src|, c)
    ensures forall x :: x in SentFrom(src, first, c, hash) ==>
              x.m.index >= first && x.io == Io(true, true, true) && SentOrCorrupted(x.m, src, c, hash)
  {
    var calls := SentFrom(src, first, c, hash);
    hide SentOrCorrupted;
    forall x | x in calls
      ensures x.m.index >= first && x.io == Io(true, true, true) && SentOrCorrupted(x.m, src, c, hash)
    {
      var k :| 0 <= k < |calls| && calls[k] == x;
      assert x == Sent(src, first + k, c, hash);
    }
  }

  lemma SentArrives(src: seq<Byte>, first: nat, c: nat, hash: Hash, i: nat)
    requires c > 0 && |src| < U64_LIMIT && first <= i < NumChunks(|src|, c)
    ensures Arrived(SentFrom(src, first, c, hash), i, hash)
  {
    var calls := SentFrom(src, first, c, hash);
    assert calls[i - first] in calls && calls[i - first] == Sent(src, i, c, hash);
  }

  /** With a row, the first chunk handled, then a crash. */
  function CrashedAfterFirst(src: seq<Byte>, c: nat, hash: Hash): State
    requires c > 0 && 0 < |src| < U64_LIMIT
  {
    var first := Sent(src, 0, c, hash);
    Next(Handle(FirstAccept(|src|, c, true), first.m, first.io, hash), Crash, hash)
  }

  lemma SeveralChunks(total: nat, c: nat)
    requires 0 < c < total
    ensures NumChunks(total, c) >= 2
  {
    IndexInRange(1, total, c);
    assert Offset(1, c) == Offset(0, c) + c == c;
  }

  lemma CrashedState(src: seq<Byte>, c: nat, hash: Hash)
    requires 0 < c < |src| < U64_LIMIT
    ensures NumChunks(|src|, c) >= 2
    ensures var s := CrashedAfterFirst(src, c, hash);
            s.hasRow && s.manifest == {0} && s.handlers == [] && s.completions == 0 && !s.completedRow
  {
    hide ReadChunk, NumChunks, Offset, Zeros, Sent, Handle;
    SeveralChunks(|src|, c);
    var start, first := FirstAccept(|src|, c, true), Sent(src, 0, c, hash);
    TH.NothingPending({0}, NumChunks(|src|, c));
    var none: set<nat> := {};
    assert none + {0} == {0};
    HandledButPending(start, first, hash);
  }

  lemma HandledButPending(s: State, call: Call, hash: Hash)
    requires s.incoming && s.hasRow && Usable(call, hash) && call.io.ack
    ensures var acked := TH.MarkAcked(s.progress, call.m.index, |call.m.payload|);
            var t := Handle(s, call.m, call.io, hash);
            !NothingPending(acked) ==>
              t == s.(file := t.file, progress := acked, manifest := s.manifest + {call.m.index})
  {
    hide WriteAt, Offset, NothingPending;
  }

  /** If the message is in the database when the offer is first accepted, so that there is a row:
      for any file of several chunks whose first is not all zeros, its first chunk is handled,
      the receiver restarts and accepts the offer again, and the others are handled. The
      transfer is reported and recorded as completed, and the destination is not the source. */
  lemma {:induction false} ReAcceptLosesChunk(src: seq<Byte>, c: nat, known: bool, hash: Hash)
    requires 0 < c < |src| < U64_LIMIT && c <= U64_LIMIT && CollisionFree(src, c, hash)
    requires ReadChunk(src, 0, c) != Zeros(ChunkLen(0, |src|, c))
    ensures NumChunks(|src|, c) >= 2
    ensures var start := Accept(CrashedAfterFirst(src, c, hash), |src|, c, known);
            var s := HandleAll(start, SentFrom(src, 1, c, hash), hash);
            s.file != src && s.completions == 1 && s.completedRow
  {
    CrashedState(src, c, hash);
    var crashed, calls := CrashedAfterFirst(src, c, hash), SentFrom(src, 1, c, hash);
    var start := Accept(crashed, |src|, c, known);
    RestCompletes(crashed, src, c, known, hash);
    SentIsGenuine(src, 1, c, hash);
    var events := CallsAreARun(start, calls, hash);
    hide CrashedAfterFirst, Run, HandleAll;
    LosesFirst(crashed, src, c, known, events, hash);
  }

  /** What is not in the manifest arrives, and completes the transfer. */
  lemma RestCompletes(crashed: State, src: seq<Byte>, c: nat, known: bool, hash: Hash)
    requires c > 0 && |src| < U64_LIMIT && NumChunks(|src|, c) >= 2
    requires crashed.hasRow && crashed.manifest == {0} && crashed.completions == 0 && !crashed.completedRow
    ensures var s := HandleAll(Accept(crashed, |src|, c, known), SentFrom(src, 1, c, hash), hash);
            NothingPending(s.progress) && s.completions == 1 && s.completedRow
  {
    hide HandleAll, SentFrom, Sent, NumChunks, Zeros, SentOrCorrupted, Arrived;
    var n, calls := NumChunks(|src|, c), SentFrom(src, 1, c, hash);
    var start := Accept(crashed, |src|, c, known);
    var s := HandleAll(start, calls, hash);
    SentIsGenuine(src, 1, c, hash);
    CompletesExactlyOnce(start, calls, hash);
    forall i: nat | i < n ensures i in s.progress.acked {
      if i > 0 {
        SentArrives(src, 1, c, hash, i);
        ArrivedIsAcked(start, calls, hash, i);
      }
    }
    TH.NothingPending(s.progress.acked, n);
    SentArrives(src, 1, c, hash, 1);
    ArrivedIsUsable(calls, 1, hash);
    HandledIsRecorded(start, calls, hash);
  }

  lemma ArrivedIsUsable(calls: seq<Call>, i: nat, hash: Hash)
    requires Arrived(calls, i, hash)
    ensures AnyUsable(calls, hash)
  {
  }

  lemma LosesFirst(s: State, src: seq<Byte>, c: nat, known: bool, events: seq<Event>, hash: Hash)
    requires 0 < c <= U64_LIMIT && |src| < U64_LIMIT && CollisionFree(src, c, hash)
    requires s.handlers == [] && s.manifest == {0} && NumChunks(|src|, c) >= 2 && Arrivals(events, src, c, hash)
    requires forall e :: e in events && e.Arrive? ==> e.m.index != 0
    requires NothingPending(Run(Accept(s, |src|, c, known), events, hash).progress)
    requires ReadChunk(src, 0, c) != Zeros(ChunkLen(0, |src|, c))
    ensures Run(Accept(s, |src|, c, known), events, hash).file != src
  {
    UnsentStaysStale(Accept(s, |src|, c, known), events, hash, {0}, 0);
    ReAcceptKeepsContentIff(s, src, c, known, events, hash);
  }
}
