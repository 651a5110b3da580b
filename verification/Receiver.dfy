/** The receiving side of one transfer: accepting an offer, handling arriving chunks (also
    several at once, one micro-step at a time), and crashes that keep disk and manifest. */
module Receiver {
  import opened Bytes
  import opened Framing
  import opened ChunkGeometry
  import TH = TransferHandle

  datatype ChunkMessage = ChunkMessage(index: U64, payload: seq<Byte>, checksum: Digest)

  type Hash = seq<Byte> -> Digest

  /** One running call of the chunk handler, past the checksum test and the lookup. */
  datatype Handler =
    | Writing(i: nat, payload: seq<Byte>)
    | Inserting(i: nat, len: nat)    // about to insert the index into the acked set
    | Counting(i: nat, len: nat)     // inserted first, lock released, length not yet added
    | Persisting(i: nat)
    | Checking
    | Removing
    | Recording
    | Emitting
    | Done

  /** `file`, `manifest`, `completedRow` and the `rowBytes` recorded with it are on disk; the
      rest is memory. `hasRow` says that the database has a row for the transfer, without which
      nothing can be recorded for it, `live` that a handle exists, `incoming` that the transfer
      is registered for arriving chunks. Without a handle no step reads `progress`; it then
      only remembers what had been acked. `completions` counts the handlers' own reports,
      `peerReports` those made because the peer said so. */
  datatype State = State(
    file: seq<Byte>,
    hasRow: bool,
    manifest: set<nat>,
    completedRow: bool,
    rowBytes: U64,
    live: bool,
    incoming: bool,
    progress: TH.Progress,
    handlers: seq<Handler>,
    completions: nat,
    peerReports: nat)

  function Unaccepted(c: nat): State
  {
    State([], false, {}, false, 0, false, false, TH.FreshProgress(0, c), [], 0, 0)
  }

  /** `accept_file`: truncate and preallocate, rehydrate the handle from the manifest, create
      the row, which fails when the message the offer names is not `known`. */
  function Accept(s: State, size: U64, c: nat, known: bool): State
  {
    s.(file := Zeros(size), hasRow := s.hasRow || known, live := true, incoming := true,
       progress := if s.manifest == {} then TH.FreshProgress(size, c)
                   else TH.ResumedProgress(size, c, s.manifest))
  }

  function FirstAccept(size: U64, c: nat, known: bool): State
  {
    Accept(Unaccepted(c), size, c, known)
  }

  predicate NothingPending(p: TH.Progress)
  {
    p.c > 0 && TH.Pending(p.acked, NumChunks(p.total, p.c)) == []
  }

  /** The checksum test and the lookup: whether a handler gets as far as writing. */
  predicate Admitted(s: State, m: ChunkMessage, hash: Hash)
  {
    hash(m.payload) == m.checksum && s.incoming
  }

  function StartHandler(s: State, m: ChunkMessage, hash: Hash): State
  {
    if Admitted(s, m, hash) then s.(handlers := s.handlers + [Writing(m.index, m.payload)]) else s
  }

  /** Where a handler goes from its micro-step; `ok` is whether the disk or database operation
      succeeds. */
  function NextPhase(s: State, h: Handler, ok: bool): Handler
  {
    match h
    case Writing(i, payload) => if ok then Inserting(i, |payload|) else Done
    case Inserting(i, len) => if i in s.progress.acked then Persisting(i) else Counting(i, len)
    case Counting(i, _) => Persisting(i)
    case Persisting(_) => Checking
    case Checking => if NothingPending(s.progress) then Removing else Done
    case Removing => Recording
    case Recording => Emitting
    case Emitting => Done
    case Done => Done
  }

  /** What the micro-step does outside the handler. */
  function Effect(s: State, h: Handler, ok: bool): State
  {
    match h
    case Writing(i, payload) => if ok then s.(file := WriteAt(s.file, Offset(i, s.progress.c), payload)) else s
    case Inserting(i, _) => if i in s.progress.acked then s else s.(progress := TH.Insert(s.progress, i))
    case Counting(_, len) => s.(progress := TH.Charge(s.progress, len))
    case Persisting(i) => if ok && s.hasRow then s.(manifest := s.manifest + {i}) else s
    case Removing => s.(incoming := false)
    case Recording => if ok && s.hasRow then s.(completedRow := true, rowBytes := s.progress.bytes) else s
    case Emitting => s.(completions := s.completions + 1)
    case _ => s
  }

  /** One micro-step of handler k. */
  function RunHandler(s: State, k: nat, ok: bool): State
    requires k < |s.handlers|
  {
    Effect(s, s.handlers[k], ok).(handlers := s.handlers[k := NextPhase(s, s.handlers[k], ok)])
  }

  datatype Event =
    | Arrive(m: ChunkMessage)
    | Advance(k: nat, ok: bool)
    | PeerComplete
    | Crash

  /** A crash discards memory and keeps what is on disk. A peer's completion message takes the
      transfer off the list and is reported, whatever is pending. */
  function Next(s: State, e: Event, hash: Hash): State
  {
    match e
    case Arrive(m) => StartHandler(s, m, hash)
    case Advance(k, ok) => if k < |s.handlers| then RunHandler(s, k, ok) else s
    case PeerComplete => s.(incoming := false, peerReports := s.peerReports + 1)
    case Crash => s.(live := false, incoming := false, handlers := [])
  }

  function Run(s: State, events: seq<Event>, hash: Hash): State
  {
    if events == [] then s else Next(Run(s, events[..|events| - 1], hash), events[|events| - 1], hash)
  }

  // ---------------------------------------------------------------- what may arrive

  /** A chunk message the sender made, or one whose payload was altered on the way. */
  ghost predicate SentOrCorrupted(m: ChunkMessage, src: seq<Byte>, c: nat, hash: Hash)
    requires c > 0
  {
    m.index < NumChunks(|src|, c) && m.checksum == hash(ReadChunk(src, m.index, c))
  }

  /** No other payload has the checksum of a chunk of the source. */
  ghost predicate CollisionFree(src: seq<Byte>, c: nat, hash: Hash)
    requires c > 0
  {
    forall i: nat, p: seq<Byte> ::
      i < NumChunks(|src|, c) && hash(p) == hash(ReadChunk(src, i, c)) ==> p == ReadChunk(src, i, c)
  }

  ghost predicate Arrivals(events: seq<Event>, src: seq<Byte>, c: nat, hash: Hash)
    requires c > 0
  {
    forall e :: e in events && e.Arrive? ==> SentOrCorrupted(e.m, src, c, hash)
  }

  // ---------------------------------------------------------------- every run

  /** What a handler has put into the acked set and not yet into the counter. */
  function OwedBy(h: Handler): nat
  {
    if h.Counting? then h.len else 0
  }

  function Owed(handlers: seq<Handler>): nat
  {
    if handlers == [] then 0 else Owed(handlers[..|handlers| - 1]) + OwedBy(handlers[|handlers| - 1])
  }

  lemma {:induction false} OwedAfterStep(handlers: seq<Handler>, k: nat, h: Handler)
    requires k < |handlers|
    ensures Owed(handlers[k := h]) + OwedBy(handlers[k]) == Owed(handlers) + OwedBy(h)
  {
    var n := |handlers| - 1;
    if k < n {
      assert handlers[k := h][..n] == handlers[..n][k := h];
      OwedAfterStep(handlers[..n], k, h);
    } else {
      assert handlers[k := h][..n] == handlers[..n];
    }
  }

  lemma OwedAfterStart(handlers: seq<Handler>, h: Handler)
    ensures Owed(handlers + [h]) == Owed(handlers) + OwedBy(h)
  {
    assert (handlers + [h])[..|handlers|] == handlers;
  }

  lemma {:induction false} NothingOwed(handlers: seq<Handler>)
    ensures (forall h :: h in handlers ==> OwedBy(h) == 0) <==> Owed(handlers) == 0
  {
    if handlers != [] {
      var n := |handlers| - 1;
      assert handlers == handlers[..n] + [handlers[n]];
      NothingOwed(handlers[..n]);
    }
  }

  /** The step writes a chunk of the source over whatever the file holds there. */
  predicate Writes(s: State, e: Event)
  {
    e.Advance? && e.ok && e.k < |s.handlers| && s.handlers[e.k].Writing?
  }

  /** The chunks of `stale` that no handler has written over. */
  function StillStale(s: State, events: seq<Event>, hash: Hash, stale: set<nat>): set<nat>
  {
    if events == [] then stale else
    var init, e := events[..|events| - 1], events[|events| - 1];
    var t := Run(s, init, hash);
    StillStale(s, init, hash, stale) - if Writes(t, e) then {t.handlers[e.k].i} else {}
  }

  /** What is on disk for chunk i. */
  ghost predicate OnDisk(file: seq<Byte>, i: nat, stale: set<nat>, src: seq<Byte>, c: nat)
  {
    ReadChunk(file, i, c) == if i in stale then Zeros(ChunkLen(i, |src|, c)) else ReadChunk(src, i, c)
  }

  ghost predicate HandlerOk(h: Handler, file: seq<Byte>, p: TH.Progress, stale: set<nat>, src: seq<Byte>, c: nat)
    requires c > 0
  {
    match h
    case Writing(i, payload) => i < NumChunks(|src|, c) && payload == ReadChunk(src, i, c)
    case Inserting(i, len) =>
      i < NumChunks(|src|, c) && len == ChunkLen(i, |src|, c) && i !in stale && OnDisk(file, i, stale, src, c)
    case Counting(i, len) => i in p.acked && len == ChunkLen(i, |src|, c)
    case Persisting(i) => i in p.acked
    case Checking => true
    case Done => true
    case _ => NothingPending(p)
  }

  ghost predicate HandlersOk(
    handlers: seq<Handler>, file: seq<Byte>, p: TH.Progress, stale: set<nat>, src: seq<Byte>, c: nat)
    requires c > 0
  {
    forall k :: 0 <= k < |handlers| ==> HandlerOk(handlers[k], file, p, stale, src, c)
  }

  /** The counter and what is still owed to it make up the acked bytes plus the drift the
      handle started with, as far as that fits u64. */
  ghost predicate CounterOk(s: State, drift: nat, src: seq<Byte>, c: nat)
    requires c > 0
  {
    s.live && |src| + drift < U64_LIMIT ==>
      s.progress.bytes + Owed(s.handlers) == TH.AckedTotal(s.progress.acked, |src|, c) + drift
  }

  /** What holds at every step of an acceptance that found the chunks of `stale` in the
      manifest. A handler exists only while a handle does. */
  ghost predicate Inv(s: State, stale: set<nat>, drift: nat, src: seq<Byte>, c: nat)
    requires c > 0
  {
    && |s.file| == |src| == s.progress.total && s.progress.c == c
    && stale <= s.progress.acked && s.manifest <= s.progress.acked
    && TH.InRange(s.progress.acked, |src|, c)
    && (forall i :: i in s.progress.acked ==> OnDisk(s.file, i, stale, src, c))
    && HandlersOk(s.handlers, s.file, s.progress, stale, src, c)
    && CounterOk(s, drift, src, c)
  }

  /** Whoever was told that the transfer is complete was told so with nothing pending. */
  ghost predicate ReportsOk(s: State)
  {
    s.completedRow || s.completions > 0 ==> NothingPending(s.progress)
  }

  /** With nothing pending, the destination is the source exactly when the stale chunks are
      zeros in the source as they are on disk. */
  lemma NothingPendingMeansSame(s: State, stale: set<nat>, drift: nat, src: seq<Byte>, c: nat)
    requires c > 0 && Inv(s, stale, drift, src, c) && NothingPending(s.progress)
    ensures s.file == src <==> forall j :: j in stale ==> ReadChunk(src, j, c) == Zeros(ChunkLen(j, |src|, c))
  {
    hide HandlersOk, CounterOk, Offset, ChunkLen, ReadChunk;
    TH.NothingPending(s.progress.acked, NumChunks(|src|, c));
    if forall j :: j in stale ==> ReadChunk(src, j, c) == Zeros(ChunkLen(j, |src|, c)) {
      forall i | 0 <= i < NumChunks(|src|, c) ensures ReadChunk(s.file, i, c) == ReadChunk(src, i, c) {
        assert OnDisk(s.file, i, stale, src, c);
      }
      EqualChunksEqualFiles(s.file, src, c);
    }
  }

  lemma ZerosReadAsZeros(total: nat, j: nat, c: nat)
    ensures ReadChunk(Zeros(total), j, c) == Zeros(ChunkLen(j, total, c))
  {
  }

  /** How far the counter of an acceptance starts ahead; out of reach if its start leaves u64. */
  function StartDrift(manifest: set<nat>, size: U64, c: nat): nat
    requires c > 0
  {
    if Offset(|manifest|, c) < U64_LIMIT then TH.Drift(manifest, size, c) else U64_LIMIT
  }

  lemma AcceptEstablishesInv(s: State, src: seq<Byte>, c: nat, known: bool)
    requires 0 < c <= U64_LIMIT && |src| < U64_LIMIT && s.handlers == [] && TH.InRange(s.manifest, |src|, c)
    ensures Inv(Accept(s, |src|, c, known), s.manifest, StartDrift(s.manifest, |src|, c), src, c)
  {
    var t := Accept(s, |src|, c, known);
    forall i: nat ensures ReadChunk(t.file, i, c) == Zeros(ChunkLen(i, |src|, c)) { ZerosReadAsZeros(|src|, i, c); }
    TH.ChargedIsAckedPlusDrift(s.manifest, |src|, c);
    TH.NothingAcked(NumChunks(|src|, c), |src|, c);
  }

  /** What a step may change under the other handlers: more on disk, more acked. */
  ghost predicate Carries(
    file: seq<Byte>, p: TH.Progress, stale: set<nat>, file': seq<Byte>, p': TH.Progress, stale': set<nat>,
    src: seq<Byte>, c: nat)
  {
    && p.acked <= p'.acked && stale' <= stale
    && (NothingPending(p) ==> NothingPending(p'))
    && (forall j: nat :: OnDisk(file, j, stale, src, c) ==> OnDisk(file', j, stale', src, c))
  }

  lemma HandlersCarryOn(
    handlers: seq<Handler>, k: nat, h: Handler, file: seq<Byte>, p: TH.Progress, stale: set<nat>,
    file': seq<Byte>, p': TH.Progress, stale': set<nat>, src: seq<Byte>, c: nat)
    requires c > 0 && k < |handlers| && HandlersOk(handlers, file, p, stale, src, c)
    requires Carries(file, p, stale, file', p', stale', src, c) && HandlerOk(h, file', p', stale', src, c)
    ensures HandlersOk(handlers[k := h], file', p', stale', src, c)
  {
    hide OnDisk, NothingPending, NumChunks, ChunkLen, ReadChunk;
    forall l | 0 <= l < |handlers| && l != k ensures HandlerOk(handlers[l], file', p', stale', src, c) {
      assert HandlerOk(handlers[l], file, p, stale, src, c);
    }
  }

  lemma WriteKeepsInv(s: State, k: nat, stale: set<nat>, drift: nat, src: seq<Byte>, c: nat)
    requires c > 0 && Inv(s, stale, drift, src, c) && k < |s.handlers| && s.handlers[k].Writing?
    ensures Inv(RunHandler(s, k, true), stale - {s.handlers[k].i}, drift, src, c)
  {
    var t := RunHandler(s, k, true);
    var i, payload := s.handlers[k].i, s.handlers[k].payload;
    assert HandlerOk(s.handlers[k], s.file, s.progress, stale, src, c);
    OwedAfterStep(s.handlers, k, t.handlers[k]);
    WriteOnDisk(s.file, i, payload, stale, src, c);
    hide OnDisk, ReadChunk, WriteAt, NumChunks, Offset, ChunkLen, NothingPending, TH.AckedTotal, TH.InRange, Owed;
    HandlersCarryOn(s.handlers, k, t.handlers[k], s.file, s.progress, stale, t.file, t.progress, stale - {i}, src, c);
    hide HandlersOk;
  }

  lemma WriteOnDisk(file: seq<Byte>, i: nat, payload: seq<Byte>, stale: set<nat>, src: seq<Byte>, c: nat)
    requires c > 0 && |file| == |src| && i < NumChunks(|src|, c) && payload == ReadChunk(src, i, c)
    ensures var written := WriteAt(file, Offset(i, c), payload);
            && |written| == |src| && |payload| == ChunkLen(i, |src|, c)
            && OnDisk(written, i, stale - {i}, src, c)
            && forall j: nat :: OnDisk(file, j, stale, src, c) ==> OnDisk(written, j, stale - {i}, src, c)
  {
    var written := WriteAt(file, Offset(i, c), payload);
    forall j: nat
      ensures |written| == |src|
      ensures ReadChunk(written, j, c) == if j == i then payload else ReadChunk(file, j, c)
    {
      WriteChunkReadChunk(file, i, payload, j, c);
    }
  }

  lemma AckedGrows(p: TH.Progress, p': TH.Progress)
    requires p.acked <= p'.acked && p'.total == p.total && p'.c == p.c
    ensures NothingPending(p) ==> NothingPending(p')
  {
    if p.c > 0 {
      TH.NothingPending(p.acked, NumChunks(p.total, p.c));
      TH.NothingPending(p'.acked, NumChunks(p.total, p.c));
    }
  }

  /** Inserting an index, seen from the handler that does it. */
  lemma InsertStep(s: State, k: nat, ok: bool, stale: set<nat>, drift: nat, src: seq<Byte>, c: nat)
    requires c > 0 && Inv(s, stale, drift, src, c) && k < |s.handlers| && s.handlers[k].Inserting?
    ensures var t := RunHandler(s, k, ok);
            && t == s.(progress := t.progress, handlers := s.handlers[k := t.handlers[k]])
            && s.progress.acked <= t.progress.acked <= s.progress.acked + {s.handlers[k].i}
            && t.progress == s.progress.(acked := t.progress.acked)
            && HandlerOk(t.handlers[k], t.file, t.progress, stale, src, c)
            && TH.InRange(t.progress.acked, |src|, c)
            && (forall i :: i in t.progress.acked ==> OnDisk(t.file, i, stale, src, c))
            && TH.AckedTotal(t.progress.acked, |src|, c) ==
               TH.AckedTotal(s.progress.acked, |src|, c) + OwedBy(t.handlers[k])
  {
    var i := s.handlers[k].i;
    assert HandlerOk(s.handlers[k], s.file, s.progress, stale, src, c);
    hide HandlersOk, CounterOk, OnDisk, NumChunks, ChunkLen, TH.AckedBytes;
    if i !in s.progress.acked { TH.AckedBytesOneMore(s.progress.acked, i, NumChunks(|src|, c), |src|, c); }
  }

  lemma InsertKeepsInv(s: State, k: nat, ok: bool, stale: set<nat>, drift: nat, src: seq<Byte>, c: nat)
    requires c > 0 && Inv(s, stale, drift, src, c) && k < |s.handlers| && s.handlers[k].Inserting?
    ensures Inv(RunHandler(s, k, ok), stale, drift, src, c)
  {
    hide HandlerOk, HandlersOk, OnDisk, NumChunks, ChunkLen, TH.AckedTotal, TH.InRange, NothingPending, RunHandler;
    var t := RunHandler(s, k, ok);
    InsertStep(s, k, ok, stale, drift, src, c);
    OwedAfterStep(s.handlers, k, t.handlers[k]);
    AckedGrows(s.progress, t.progress);
    HandlersCarryOn(s.handlers, k, t.handlers[k], s.file, s.progress, stale, t.file, t.progress, stale, src, c);
    hide Owed;
  }

  lemma CountKeepsInv(s: State, k: nat, ok: bool, stale: set<nat>, drift: nat, src: seq<Byte>, c: nat)
    requires c > 0 && Inv(s, stale, drift, src, c) && k < |s.handlers| && s.handlers[k].Counting?
    ensures Inv(RunHandler(s, k, ok), stale, drift, src, c)
  {
    hide OnDisk, NumChunks, ChunkLen, TH.AckedTotal, NothingPending;
    var t := RunHandler(s, k, ok);
    assert HandlerOk(s.handlers[k], s.file, s.progress, stale, src, c);
    assert HandlerOk(t.handlers[k], t.file, t.progress, stale, src, c);
    hide HandlerOk, HandlersOk;
    OwedAfterStep(s.handlers, k, t.handlers[k]);
    TH.AckedTotalAtMost(s.progress.acked, |src|, c);
    AckedGrows(s.progress, t.progress);
    hide Owed;
    HandlersCarryOn(s.handlers, k, t.handlers[k], s.file, s.progress, stale, t.file, t.progress, stale, src, c);
  }

  /** The remaining steps, seen from the handler that takes them. */
  lemma OtherStep(s: State, k: nat, ok: bool, stale: set<nat>, src: seq<Byte>, c: nat)
    requires c > 0 && k < |s.handlers| && HandlerOk(s.handlers[k], s.file, s.progress, stale, src, c)
    requires !s.handlers[k].Inserting? && !s.handlers[k].Counting? && (s.handlers[k].Writing? ==> !ok)
    ensures var t := RunHandler(s, k, ok);
            && t.file == s.file && t.progress == s.progress && t.live == s.live
            && t.handlers == s.handlers[k := t.handlers[k]] && OwedBy(t.handlers[k]) == 0
            && (t.manifest <= s.manifest + s.progress.acked)
            && HandlerOk(t.handlers[k], t.file, t.progress, stale, src, c)
  {
    hide OnDisk, NumChunks, ChunkLen, NothingPending, ReadChunk, WriteAt, Offset, TH.Insert, TH.Charge;
    if s.handlers[k].Persisting? || s.handlers[k].Checking? {
      OtherStepEarly(s, k, ok);
    } else {
      OtherStepLate(s, k, ok);
    }
    hide RunHandler;
  }

  lemma OtherStepEarly(s: State, k: nat, ok: bool)
    requires k < |s.handlers| && (s.handlers[k].Persisting? || s.handlers[k].Checking?)
    ensures var t := RunHandler(s, k, ok);
            && t == s.(manifest := t.manifest, handlers := s.handlers[k := t.handlers[k]])
            && (t.handlers[k].Checking? || t.handlers[k].Done?
                || (t.handlers[k].Removing? && NothingPending(s.progress)))
            && t.manifest <= s.manifest + (if s.handlers[k].Persisting? then {s.handlers[k].i} else {})
  {
    hide NothingPending;
  }

  lemma OtherStepLate(s: State, k: nat, ok: bool)
    requires k < |s.handlers| && (s.handlers[k].Writing? ==> !ok)
    requires s.handlers[k].Writing? || s.handlers[k].Removing? || s.handlers[k].Recording? || s.handlers[k].Emitting?
             || s.handlers[k].Done?
    ensures var t := RunHandler(s, k, ok);
            && t.file == s.file && t.progress == s.progress && t.live == s.live && t.manifest == s.manifest
            && t.handlers == s.handlers[k := t.handlers[k]]
            && (s.handlers[k].Writing? || s.handlers[k].Emitting? || s.handlers[k].Done? ==> t.handlers[k].Done?)
            && (t.handlers[k].Done? || t.handlers[k].Recording? || t.handlers[k].Emitting?)
  {
    hide NothingPending;
  }

  lemma OtherStepsKeepInv(s: State, k: nat, ok: bool, stale: set<nat>, drift: nat, src: seq<Byte>, c: nat)
    requires c > 0 && Inv(s, stale, drift, src, c) && k < |s.handlers|
    requires !s.handlers[k].Inserting? && !s.handlers[k].Counting? && (s.handlers[k].Writing? ==> !ok)
    ensures Inv(RunHandler(s, k, ok), stale, drift, src, c)
  {
    hide HandlerOk, OnDisk, NumChunks, ChunkLen, TH.AckedTotal, TH.InRange, NothingPending, RunHandler;
    var t := RunHandler(s, k, ok);
    assert HandlerOk(s.handlers[k], s.file, s.progress, stale, src, c);
    hide HandlersOk;
    OtherStep(s, k, ok, stale, src, c);
    OwedAfterStep(s.handlers, k, t.handlers[k]);
    HandlersCarryOn(s.handlers, k, t.handlers[k], s.file, s.progress, stale, t.file, t.progress, stale, src, c);
    hide Owed;
  }

  lemma OneMoreHandler(
    handlers: seq<Handler>, h: Handler, file: seq<Byte>, p: TH.Progress, stale: set<nat>, src: seq<Byte>, c: nat)
    requires c > 0 && HandlersOk(handlers, file, p, stale, src, c) && HandlerOk(h, file, p, stale, src, c)
    ensures HandlersOk(handlers + [h], file, p, stale, src, c)
  {
    hide HandlerOk;
  }

  lemma AdmittedIsGenuine(
    s: State, m: ChunkMessage, stale: set<nat>, src: seq<Byte>, c: nat, hash: Hash)
    requires c > 0 && CollisionFree(src, c, hash) && SentOrCorrupted(m, src, c, hash)
    ensures Admitted(s, m, hash) ==> HandlerOk(Writing(m.index, m.payload), s.file, s.progress, stale, src, c)
  {
    hide ReadChunk, NumChunks;
  }

  lemma StartKeepsInv(s: State, m: ChunkMessage, stale: set<nat>, drift: nat, src: seq<Byte>, c: nat, hash: Hash)
    requires c > 0 && Inv(s, stale, drift, src, c) && CollisionFree(src, c, hash) && SentOrCorrupted(m, src, c, hash)
    ensures Inv(StartHandler(s, m, hash), stale, drift, src, c)
  {
    hide OnDisk, NothingPending, TH.AckedTotal, TH.InRange, HandlersOk, HandlerOk, CollisionFree, SentOrCorrupted;
    hide Owed, Admitted;
    if Admitted(s, m, hash) {
      var h := Writing(m.index, m.payload);
      AdmittedIsGenuine(s, m, stale, src, c, hash);
      OwedAfterStart(s.handlers, h);
      OneMoreHandler(s.handlers, h, s.file, s.progress, stale, src, c);
      assert StartHandler(s, m, hash) == s.(handlers := s.handlers + [h]);
    }
  }

  lemma StartKeepsReports(s: State, m: ChunkMessage, hash: Hash)
    requires ReportsOk(s)
    ensures ReportsOk(StartHandler(s, m, hash))
  {
    hide NothingPending, Admitted;
  }

  lemma EffectReports(s: State, h: Handler, ok: bool)
    ensures var t := Effect(s, h, ok);
            && (t.completedRow ==> s.completedRow || h.Recording?)
            && (t.completions > 0 ==> s.completions > 0 || h.Emitting?)
            && s.progress.acked <= t.progress.acked
            && t.progress.total == s.progress.total && t.progress.c == s.progress.c
  {
    hide WriteAt, Offset;
  }

  lemma StepKeepsReports(s: State, k: nat, ok: bool, stale: set<nat>, src: seq<Byte>, c: nat)
    requires c > 0 && k < |s.handlers| && HandlerOk(s.handlers[k], s.file, s.progress, stale, src, c) && ReportsOk(s)
    ensures ReportsOk(RunHandler(s, k, ok))
  {
    hide NothingPending, NumChunks, OnDisk, ChunkLen, ReadChunk, Effect, NextPhase;
    EffectReports(s, s.handlers[k], ok);
    AckedGrows(s.progress, RunHandler(s, k, ok).progress);
  }

  lemma NextKeepsInv(s: State, e: Event, stale: set<nat>, drift: nat, src: seq<Byte>, c: nat, hash: Hash)
    requires c > 0 && Inv(s, stale, drift, src, c) && CollisionFree(src, c, hash)
    requires e.Arrive? ==> SentOrCorrupted(e.m, src, c, hash)
    ensures Inv(Next(s, e, hash), stale - (if Writes(s, e) then {s.handlers[e.k].i} else {}), drift, src, c)
    ensures ReportsOk(s) ==> ReportsOk(Next(s, e, hash))
  {
    hide TH.InRange, NothingPending, StartHandler, OnDisk, RunHandler;
    assert stale - {} == stale;
    match e
    case Arrive(m) =>
      StartKeepsInv(s, m, stale, drift, src, c, hash);
      if ReportsOk(s) { StartKeepsReports(s, m, hash); }
    case PeerComplete =>
    case Crash =>
    case Advance(k, ok) =>
      if k < |s.handlers| {
        assert HandlerOk(s.handlers[k], s.file, s.progress, stale, src, c);
        hide HandlerOk;
        if ReportsOk(s) { StepKeepsReports(s, k, ok, stale, src, c); }
        hide ReportsOk;
        if s.handlers[k].Writing? && ok { WriteKeepsInv(s, k, stale, drift, src, c); }
        else if s.handlers[k].Inserting? { InsertKeepsInv(s, k, ok, stale, drift, src, c); }
        else if s.handlers[k].Counting? { CountKeepsInv(s, k, ok, stale, drift, src, c); }
        else { OtherStepsKeepInv(s, k, ok, stale, drift, src, c); }
      }
  }

  lemma {:induction false} RunKeepsInv(
    s: State, events: seq<Event>, stale: set<nat>, drift: nat, src: seq<Byte>, c: nat, hash: Hash)
    requires c > 0 && Inv(s, stale, drift, src, c) && CollisionFree(src, c, hash) && Arrivals(events, src, c, hash)
    ensures Inv(Run(s, events, hash), StillStale(s, events, hash, stale), drift, src, c)
    ensures ReportsOk(s) ==> ReportsOk(Run(s, events, hash))
  {
    hide Inv, Next, ReportsOk;
    if events != [] {
      var init, e := events[..|events| - 1], events[|events| - 1];
      assert e in events && forall x :: x in init ==> x in events;
      RunKeepsInv(s, init, stale, drift, src, c, hash);
      NextKeepsInv(Run(s, init, hash), e, StillStale(s, init, hash, stale), drift, src, c, hash);
    }
  }

  lemma {:induction false} NothingGetsStale(s: State, events: seq<Event>, hash: Hash)
    ensures StillStale(s, events, hash, {}) == {}
  {
    if events != [] { NothingGetsStale(s, events[..|events| - 1], hash); }
  }

  lemma EffectKeepsRow(s: State, h: Handler, ok: bool)
    ensures var t := Effect(s, h, ok);
            && t.hasRow == s.hasRow
            && (!s.hasRow ==> t.manifest == s.manifest && t.completedRow == s.completedRow && t.rowBytes == s.rowBytes)
  {
    hide WriteAt, TH.Insert, TH.Charge, Offset;
  }

  lemma StepKeepsRow(s: State, e: Event, hash: Hash)
    ensures var t := Next(s, e, hash);
            && t.hasRow == s.hasRow
            && (!s.hasRow ==> t.manifest == s.manifest && t.completedRow == s.completedRow && t.rowBytes == s.rowBytes)
  {
    hide Effect, NextPhase, Admitted;
    if e.Advance? && e.k < |s.handlers| { EffectKeepsRow(s, s.handlers[e.k], e.ok); }
  }

  /** A run makes no row and loses none; and without one nothing is recorded, neither a chunk
      in the manifest nor a completion. */
  lemma {:induction false} RowStays(s: State, events: seq<Event>, hash: Hash)
    ensures var t := Run(s, events, hash);
            && t.hasRow == s.hasRow
            && (!s.hasRow ==> t.manifest == s.manifest && t.completedRow == s.completedRow && t.rowBytes == s.rowBytes)
  {
    hide Next;
    if events != [] {
      RowStays(s, events[..|events| - 1], hash);
      StepKeepsRow(Run(s, events[..|events| - 1], hash), events[|events| - 1], hash);
    }
  }

  /** Every run of one acceptance: any source and chunk size, chunks in any order, repeated,
      lost or corrupted, handled by any number of handlers at once, a completion message from
      the peer at any time, disk and database failures and a crash at any point, with a row or
      without. The manifest is within the acked set, every acked chunk is on disk, the file
      keeps the offered size; the counter and what the handlers between inserting and counting
      still owe it are the acked bytes, so it is exact when none is in between; and once
      nothing is pending, or the row or a handler says completed, the destination is the
      source. */
  lemma {:induction false} EveryAcceptanceIsSafe(src: seq<Byte>, c: nat, known: bool, hash: Hash, events: seq<Event>)
    requires 0 < c <= U64_LIMIT && |src| < U64_LIMIT
    requires CollisionFree(src, c, hash) && Arrivals(events, src, c, hash)
    ensures var s := Run(FirstAccept(|src|, c, known), events, hash);
            && s.manifest <= s.progress.acked
            && (forall i :: i in s.progress.acked ==>
                  i < NumChunks(|src|, c) && ReadChunk(s.file, i, c) == ReadChunk(src, i, c))
            && |s.file| == |src|
            && (s.live ==> s.progress.bytes + Owed(s.handlers) == TH.AckedTotal(s.progress.acked, |src|, c) <= |src|)
            && (NothingPending(s.progress) || s.completedRow || s.completions > 0 ==> s.file == src)
            && s.hasRow == known && (!known ==> s.manifest == {} && !s.completedRow)
  {
    var start := FirstAccept(|src|, c, known);
    var s := Run(start, events, hash);
    RunIsInv(src, c, known, hash, events);
    TH.AckedTotalAtMost(s.progress.acked, |src|, c);
    if NothingPending(s.progress) { NothingPendingMeansSame(s, {}, 0, src, c); }
    RowStays(start, events, hash);
  }

  lemma RunIsInv(src: seq<Byte>, c: nat, known: bool, hash: Hash, events: seq<Event>)
    requires 0 < c <= U64_LIMIT && |src| < U64_LIMIT
    requires CollisionFree(src, c, hash) && Arrivals(events, src, c, hash)
    ensures Inv(Run(FirstAccept(|src|, c, known), events, hash), {}, 0, src, c)
    ensures ReportsOk(Run(FirstAccept(|src|, c, known), events, hash))
  {
    var start := FirstAccept(|src|, c, known);
    TH.PendingPartitions({}, NumChunks(|src|, c));
    AcceptEstablishesInv(Unaccepted(c), src, c, known);
    RunKeepsInv(start, events, {}, 0, src, c, hash);
    NothingGetsStale(start, events, hash);
  }

  /** A completed row is recorded with all bytes but those a handler in between still owes;
      so with less than the total, exactly when there is such a handler. */
  lemma {:induction false} RecordedBytes(
    src: seq<Byte>, c: nat, hash: Hash, events: seq<Event>, k: nat)
    requires 0 < c <= U64_LIMIT && |src| < U64_LIMIT
    requires CollisionFree(src, c, hash) && Arrivals(events, src, c, hash)
    requires k < |Run(FirstAccept(|src|, c, true), events, hash).handlers|
    requires Run(FirstAccept(|src|, c, true), events, hash).handlers[k].Recording?
    ensures var s := Run(FirstAccept(|src|, c, true), events, hash);
            var t := Next(s, Advance(k, true), hash);
            && t.completedRow && t.rowBytes + Owed(s.handlers) == |src|
            && (t.rowBytes < |src| <==> exists l :: 0 <= l < |s.handlers| && s.handlers[l].Counting?)
  {
    RunIsInv(src, c, true, hash, events);
    RowStays(FirstAccept(|src|, c, true), events, hash);
    HandlersNeedHandle(FirstAccept(|src|, c, true), events, hash);
    hide Run, FirstAccept, Inv;
    RecordingStep(Run(FirstAccept(|src|, c, true), events, hash), k, {}, src, c);
  }

  lemma {:induction false} HandlersNeedHandle(s: State, events: seq<Event>, hash: Hash)
    requires s.handlers == [] && (s.incoming ==> s.live)
    ensures var t := Run(s, events, hash); (t.incoming || t.handlers != [] ==> t.live)
  {
    hide Next;
    if events != [] {
      HandlersNeedHandle(s, events[..|events| - 1], hash);
      StepNeedsHandle(Run(s, events[..|events| - 1], hash), events[|events| - 1], hash);
    }
  }

  lemma StepNeedsHandle(s: State, e: Event, hash: Hash)
    requires s.incoming || s.handlers != [] ==> s.live
    ensures Next(s, e, hash).incoming || Next(s, e, hash).handlers != [] ==> Next(s, e, hash).live
  {
    hide WriteAt, NothingPending, TH.Insert, TH.Charge, Offset;
  }

  lemma RecordingStep(s: State, k: nat, stale: set<nat>, src: seq<Byte>, c: nat)
    requires c > 0 && Inv(s, stale, 0, src, c) && s.live && s.hasRow && |src| < U64_LIMIT
    requires k < |s.handlers| && s.handlers[k].Recording?
    ensures var t := RunHandler(s, k, true);
            && t.completedRow && t.rowBytes + Owed(s.handlers) == |src|
            && (t.rowBytes < |src| <==> exists l :: 0 <= l < |s.handlers| && s.handlers[l].Counting?)
  {
    var n := NumChunks(|src|, c);
    assert HandlerOk(s.handlers[k], s.file, s.progress, stale, src, c);
    TH.NothingPending(s.progress.acked, n);
    TH.AllAckedIsTotal(s.progress.acked, n, |src|, c);
    TH.ChunksPartitionLengths(|src|, c);
    NothingOwed(s.handlers);
    forall l | 0 <= l < |s.handlers| && s.handlers[l].Counting? ensures OwedBy(s.handlers[l]) > 0 {
      assert HandlerOk(s.handlers[l], s.file, s.progress, stale, src, c);
      IndexInRange(s.handlers[l].i, |src|, c);
    }
  }

  // ---------------------------------------------------------------- the registration

  /** The step takes the transfer off the list of those chunks are accepted for. */
  predicate Unregisters(s: State, e: Event)
  {
    e.PeerComplete? || e.Crash? || (e.Advance? && e.k < |s.handlers| && s.handlers[e.k].Removing?)
  }

  lemma StepKeepsRegistration(s: State, e: Event, hash: Hash)
    ensures Next(s, e, hash).incoming <==> s.incoming && !Unregisters(s, e)
    ensures !s.incoming ==> |Next(s, e, hash).handlers| <= |s.handlers|
  {
    hide WriteAt, NothingPending, TH.Insert, TH.Charge, Offset;
  }

  predicate UnregistersAt(s: State, events: seq<Event>, hash: Hash, j: int)
  {
    0 <= j < |events| && Unregisters(Run(s, events[..j], hash), events[j])
  }

  lemma UnregistersLonger(s: State, events: seq<Event>, e: Event, hash: Hash)
    ensures forall j :: j < |events| ==>
              (UnregistersAt(s, events + [e], hash, j) <==> UnregistersAt(s, events, hash, j))
    ensures UnregistersAt(s, events + [e], hash, |events|) <==> Unregisters(Run(s, events, hash), e)
    ensures Run(s, events + [e], hash) == Next(Run(s, events, hash), e, hash)
  {
    var longer := events + [e];
    assert longer[..|events|] == events && longer[|events|] == e;
    assert Run(s, longer, hash) == Next(Run(s, events, hash), e, hash);
    hide Run, Next, Unregisters;
    forall j | 0 <= j < |events| ensures longer[..j] == events[..j] && longer[j] == events[j] {}
  }

  /** A transfer stays registered until a peer's completion message, a crash, or a handler that
      found nothing pending takes it off the list. */
  lemma {:induction false} RegisteredUntilRemoved(s: State, events: seq<Event>, hash: Hash)
    ensures Run(s, events, hash).incoming <==> s.incoming && forall j :: !UnregistersAt(s, events, hash, j)
  {
    if events != [] {
      var n := |events| - 1;
      var init := events[..n];
      assert events == init + [events[n]];
      RegisteredUntilRemoved(s, init, hash);
      UnregistersLonger(s, init, events[n], hash);
      StepKeepsRegistration(Run(s, init, hash), events[n], hash);
      hide Run, Next, Unregisters;
      assert forall j :: j > n ==> !UnregistersAt(s, events, hash, j);
      assert forall j :: UnregistersAt(s, init, hash, j) ==> j < n;
      hide UnregistersAt;
    }
  }

  /** From then on no arriving chunk is admitted: no handler is ever started again. */
  lemma {:induction false} UnregisteredAdmitsNothing(s: State, events: seq<Event>, hash: Hash, i: nat)
    requires i < |events| && UnregistersAt(s, events, hash, i)
    ensures var t := Run(s, events, hash);
            && !t.incoming && (forall m :: Next(t, Arrive(m), hash) == t)
            && |t.handlers| <= |Run(s, events[..i], hash).handlers|
  {
    var n := |events| - 1;
    StepKeepsRegistration(Run(s, events[..n], hash), events[n], hash);
    if i < n {
      assert events[..n][..i] == events[..i];
      UnregisteredAdmitsNothing(s, events[..n], hash, i);
    } else {
      UnregisteringStartsNothing(Run(s, events[..n], hash), events[n], hash);
    }
    hide Unregisters;
    assert Run(s, events, hash) == Next(Run(s, events[..n], hash), events[n], hash);
    forall m ensures Next(Run(s, events, hash), Arrive(m), hash) == Run(s, events, hash) {
      NotAdmitted(Run(s, events, hash), m, hash);
    }
  }

  lemma UnregisteringStartsNothing(s: State, e: Event, hash: Hash)
    requires Unregisters(s, e)
    ensures |Next(s, e, hash).handlers| <= |s.handlers|
  {
    hide WriteAt, NothingPending, TH.Insert, TH.Charge, Offset;
  }

  lemma NotAdmitted(s: State, m: ChunkMessage, hash: Hash)
    requires !s.incoming
    ensures Next(s, Arrive(m), hash) == s
  {
  }

  function PeerCompletions(events: seq<Event>): nat
  {
    if events == [] then 0
    else PeerCompletions(events[..|events| - 1]) + if events[|events| - 1].PeerComplete? then 1 else 0
  }

  /** Each completion message of the peer is reported, once, whatever is pending. */
  lemma {:induction false} PeerReportsAreMessages(s: State, events: seq<Event>, hash: Hash)
    ensures Run(s, events, hash).peerReports == s.peerReports + PeerCompletions(events)
  {
    if events != [] {
      hide RunHandler;
      PeerReportsAreMessages(s, events[..|events| - 1], hash);
      HandlersReportNothingForPeer(Run(s, events[..|events| - 1], hash), events[|events| - 1], hash);
    }
  }

  lemma HandlersReportNothingForPeer(s: State, e: Event, hash: Hash)
    ensures Next(s, e, hash).peerReports == s.peerReports + if e.PeerComplete? then 1 else 0
  {
    if e.Advance? && e.k < |s.handlers| { EffectReportsNothingForPeer(s, s.handlers[e.k], e.ok); }
    hide Effect, NextPhase;
  }

  lemma EffectReportsNothingForPeer(s: State, h: Handler, ok: bool)
    ensures Effect(s, h, ok).peerReports == s.peerReports
  {
    hide WriteAt, TH.Insert, TH.Charge, Offset;
  }
}
