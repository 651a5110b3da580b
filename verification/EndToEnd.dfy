/** Sender, channel and receiver together: what a run of the sender, whatever ciphertexts reach
    the receiver, and handlers called one at a time make of a file. */
module EndToEnd {
  import opened Wrappers
  import opened Bytes
  import opened TransferStates
  import opened ChunkGeometry
  import RX = Receiver
  import opened ReceiverCalls
  import opened ReAcceptance
  import SR = SenderRuns
  import NC = NoiseChannel
  import TH = TransferHandle

  /** What a plaintext decodes to: a chunk message of this transfer, or anything else. */
  type Decoder = seq<Byte> -> Option<RX.ChunkMessage>

  /** A plaintext that carries the sender's chunk i. */
  predicate Carries(decode: Decoder, plaintext: seq<Byte>, src: seq<Byte>, i: nat, c: nat, hash: RX.Hash)
    requires c > 0 && |src| < U64_LIMIT && i < NumChunks(|src|, c)
  {
    decode(plaintext) == Some(Sent(src, i, c, hash).m)
  }

  /** What the session encrypted, of this transfer: messages for chunks that were enqueued, and
      whatever else in between. */
  ghost predicate FromQueue(
    log: seq<seq<Byte>>, enqueued: set<nat>, decode: Decoder, src: seq<Byte>, c: nat, hash: RX.Hash)
    requires c > 0 && |src| < U64_LIMIT
  {
    forall p :: p in log && decode(p).Some? ==>
      exists i: nat :: i in enqueued && i < NumChunks(|src|, c) && Carries(decode, p, src, i, c, hash)
  }

  /** The calls the receiver makes of the plaintexts that opened, when nothing fails. */
  function CallsOf(opens: seq<seq<Byte>>, decode: Decoder): seq<Call>
  {
    if opens == [] then [] else
    var init, last := opens[..|opens| - 1], opens[|opens| - 1];
    CallsOf(init, decode) +
    (if decode(last).Some? then [Call(decode(last).value, Io(true, true, true))] else [])
  }

  lemma {:induction false} CallsAreDecoded(opens: seq<seq<Byte>>, decode: Decoder)
    ensures forall x :: x in CallsOf(opens, decode) <==>
                        x.io == Io(true, true, true) && exists p :: p in opens && decode(p) == Some(x.m)
  {
    if opens != [] {
      var init, last := opens[..|opens| - 1], opens[|opens| - 1];
      assert opens == init + [last];
      CallsAreDecoded(init, decode);
    }
  }

  /** Chunk i is among the plaintexts. */
  ghost predicate Opens(
    opens: seq<seq<Byte>>, decode: Decoder, src: seq<Byte>, i: nat, c: nat, hash: RX.Hash)
    requires c > 0 && |src| < U64_LIMIT && i < NumChunks(|src|, c)
  {
    exists p :: p in opens && Carries(decode, p, src, i, c, hash)
  }

  ghost predicate AllOpen(opens: seq<seq<Byte>>, decode: Decoder, src: seq<Byte>, c: nat, hash: RX.Hash)
    requires c > 0 && |src| < U64_LIMIT
  {
    forall i: nat :: i < NumChunks(|src|, c) ==> Opens(opens, decode, src, i, c, hash)
  }

  /** Every call is the sender's own message for some chunk. */
  lemma CallsAreGenuine(
    opens: seq<seq<Byte>>, enqueued: set<nat>, decode: Decoder, src: seq<Byte>, c: nat, hash: RX.Hash)
    requires c > 0 && |src| < U64_LIMIT && FromQueue(opens, enqueued, decode, src, c, hash)
    ensures forall x :: x in CallsOf(opens, decode) ==>
              RX.SentOrCorrupted(x.m, src, c, hash) && Usable(x, hash) && x.m.index in enqueued
  {
    CallsAreDecoded(opens, decode);
    forall x | x in CallsOf(opens, decode)
      ensures RX.SentOrCorrupted(x.m, src, c, hash) && Usable(x, hash) && x.m.index in enqueued
    {
      var p :| p in opens && decode(p) == Some(x.m);
      var i: nat :| i in enqueued && i < NumChunks(|src|, c) && Carries(decode, p, src, i, c, hash);
      assert x.m == Sent(src, i, c, hash).m;
    }
  }

  /** Calls arrive for exactly the chunks that opened. */
  lemma ArrivedIffOpens(
    opens: seq<seq<Byte>>, enqueued: set<nat>, decode: Decoder, src: seq<Byte>, c: nat, hash: RX.Hash, i: nat)
    requires c > 0 && |src| < U64_LIMIT && FromQueue(opens, enqueued, decode, src, c, hash) && i < NumChunks(|src|, c)
    ensures Arrived(CallsOf(opens, decode), i, hash) <==> Opens(opens, decode, src, i, c, hash)
  {
    CallsAreDecoded(opens, decode);
    var calls := CallsOf(opens, decode);
    if Arrived(calls, i, hash) {
      var x :| x in calls && x.m.index == i && Usable(x, hash);
      var p :| p in opens && decode(p) == Some(x.m);
      var j: nat :| j in enqueued && j < NumChunks(|src|, c) && Carries(decode, p, src, j, c, hash);
      assert j == i;
    }
    if Opens(opens, decode, src, i, c, hash) {
      var p :| p in opens && Carries(decode, p, src, i, c, hash);
      var x := Sent(src, i, c, hash);
      assert x == Call(x.m, Io(true, true, true)) && x in calls;
    }
  }

  /** Only the chunks that arrived are acked. */
  lemma {:induction false} AckedArrived(start: RX.State, calls: seq<Call>, hash: RX.Hash, i: nat)
    requires start.progress.acked == {} && i in HandleAll(start, calls, hash).progress.acked
    ensures Arrived(calls, i, hash)
  {
    hide WriteAt, Offset, RX.NothingPending;
    var init, last := calls[..|calls| - 1], calls[|calls| - 1];
    assert calls == init + [last];
    if i in HandleAll(start, init, hash).progress.acked {
      AckedArrived(start, init, hash, i);
    } else {
      assert last in calls && last.m.index == i && Usable(last, hash);
    }
  }

  /** The receiver's side: the transfer is reported once if and only if a message for every chunk
      opened, and then the destination is the source. */
  lemma {:induction false} DeliveredIffAllOpen(
    opens: seq<seq<Byte>>, enqueued: set<nat>, decode: Decoder,
    src: seq<Byte>, c: nat, known: bool, hash: RX.Hash)
    requires 0 < c <= U64_LIMIT && 0 < |src| < U64_LIMIT && RX.CollisionFree(src, c, hash)
    requires FromQueue(opens, enqueued, decode, src, c, hash)
    ensures var s := HandleAll(RX.FirstAccept(|src|, c, known), CallsOf(opens, decode), hash);
            && (s.completions == 1 <==> AllOpen(opens, decode, src, c, hash))
            && (s.completions == 1 ==> s.file == src) && s.completions <= 1
  {
    var n, start, calls := NumChunks(|src|, c), RX.FirstAccept(|src|, c, known), CallsOf(opens, decode);
    var s := HandleAll(start, calls, hash);
    CallsAreGenuine(opens, enqueued, decode, src, c, hash);
    CompletesExactlyOnce(start, calls, hash);
    TH.NothingPending(s.progress.acked, n);
    forall i: nat | i < n ensures Arrived(calls, i, hash) <==> Opens(opens, decode, src, i, c, hash) {
      ArrivedIffOpens(opens, enqueued, decode, src, c, hash, i);
    }
    if AllOpen(opens, decode, src, c, hash) {
      EveryChunkDelivered(src, c, known, calls, hash);
    } else if s.completions == 1 {
      forall i: nat | i < n ensures Opens(opens, decode, src, i, c, hash) {
        AckedArrived(start, calls, hash, i);
      }
    }
  }

  lemma PrefixFromQueue(
    log: seq<seq<Byte>>, m: nat, enqueued: set<nat>, decode: Decoder, src: seq<Byte>, c: nat, hash: RX.Hash)
    requires c > 0 && |src| < U64_LIMIT && m <= |log| && FromQueue(log, enqueued, decode, src, c, hash)
    ensures FromQueue(log[..m], enqueued, decode, src, c, hash)
  {
    hide Carries;
    assert forall p :: p in log[..m] ==> p in log;
  }

  /** All of it: for any run of the sender, any arrivals of its ciphertexts, reordered, lost,
      repeated or forged, the plaintexts that open are a prefix of what was encrypted; the
      transfer is reported once if and only if that prefix has a message for every chunk, then
      the destination is the source, and every chunk had been enqueued. */
  lemma {:induction false} DeliveredExactly(
    events: seq<SR.Event>, log: seq<seq<Byte>>, arrivals: seq<NC.Ciphertext>, decode: Decoder,
    src: seq<Byte>, c: nat, known: bool, hash: RX.Hash)
    requires 0 < c <= U64_LIMIT && 0 < |src| < U64_LIMIT && RX.CollisionFree(src, c, hash)
    requires FromQueue(log, SR.After(events, NumChunks(|src|, c)).enqueued, decode, src, c, hash)
    requires NC.FromSender(arrivals, log)
    ensures var m := |NC.Opened(arrivals)|;
            && m <= |log| && NC.Opened(arrivals) == log[..m]
            && var s := HandleAll(RX.FirstAccept(|src|, c, known), CallsOf(NC.Opened(arrivals), decode), hash);
               && (s.completions == 1 <==> AllOpen(log[..m], decode, src, c, hash))
               && (s.completions == 1 ==>
                     && s.file == src
                     && forall i: nat :: i < NumChunks(|src|, c) ==>
                          i in SR.After(events, NumChunks(|src|, c)).enqueued)
  {
    var n := NumChunks(|src|, c);
    var enqueued := SR.After(events, n).enqueued;
    NC.OpenedIsPrefix(log, arrivals);
    var m := |NC.Opened(arrivals)|;
    PrefixFromQueue(log, m, enqueued, decode, src, c, hash);
    DeliveredIffAllOpen(log[..m], enqueued, decode, src, c, known, hash);
    hide HandleAll, NC.Opened, CallsOf;
    if AllOpen(log[..m], decode, src, c, hash) {
      forall i: nat | i < n ensures i in enqueued { OpensWasEnqueued(log[..m], enqueued, decode, src, c, hash, i); }
    }
  }

  lemma OpensWasEnqueued(
    opens: seq<seq<Byte>>, enqueued: set<nat>, decode: Decoder, src: seq<Byte>, c: nat, hash: RX.Hash, i: nat)
    requires c > 0 && |src| < U64_LIMIT && i < NumChunks(|src|, c)
    requires FromQueue(opens, enqueued, decode, src, c, hash) && Opens(opens, decode, src, i, c, hash)
    ensures i in enqueued
  {
    ArrivedIffOpens(opens, enqueued, decode, src, c, hash, i);
    CallsAreGenuine(opens, enqueued, decode, src, c, hash);
    var x :| x in CallsOf(opens, decode) && x.m.index == i && Usable(x, hash);
  }

  /** In particular: when the sender's row says completed, everything enqueued was encrypted, and
      the ciphertexts arrive in the order of their encryption, the destination is the source and
      the transfer was reported once. */
  lemma {:induction false} CompletedInOrderIsDelivered(
    events: seq<SR.Event>, log: seq<seq<Byte>>, decode: Decoder,
    src: seq<Byte>, c: nat, known: bool, hash: RX.Hash)
    requires 0 < c <= U64_LIMIT && 0 < |src| < U64_LIMIT && RX.CollisionFree(src, c, hash)
    requires SR.After(events, NumChunks(|src|, c)).row == Completed
    requires FromQueue(log, SR.After(events, NumChunks(|src|, c)).enqueued, decode, src, c, hash)
    requires forall i: nat :: i in SR.After(events, NumChunks(|src|, c)).enqueued && i < NumChunks(|src|, c) ==>
               Opens(log, decode, src, i, c, hash)
    requires |log| <= NC.NONCE_LIMIT
    ensures var s := HandleAll(RX.FirstAccept(|src|, c, known), CallsOf(NC.Opened(NC.SealedLog(log)), decode), hash);
            s.file == src && s.completions == 1
  {
    var n := NumChunks(|src|, c);
    SR.EveryRunIsSafe(events, n);
    NC.InOrderArrivalsAllOpen(log);
    forall i: nat | i < n ensures Opens(log, decode, src, i, c, hash) {}
    DeliveredIffAllOpen(log, SR.After(events, n).enqueued, decode, src, c, known, hash);
    hide HandleAll, NC.Opened, CallsOf, NC.SealedLog;
  }
}
