/** One direction of a Noise transport session: an ideal cipher whose ciphertext number n
    opens only when the receive counter is n (section 5.1 of the Noise Protocol Framework),
    shared by every stream to the peer. */
module NoiseChannel {
  import opened Wrappers
  import opened Bytes

  /** The nonce 2^64 - 1 is reserved and never used for a message. */
  const NONCE_LIMIT: nat := U64_LIMIT - 1

  /** A Noise message is at most 65535 bytes, tag included (section 3 of the framework). */
  const MAX_MESSAGE: nat := 65535
  const TAG_SIZE: nat := 16

  /** The messages of a Noise_XX handshake. */
  const HANDSHAKE_MESSAGES: nat := 3

  /** `Forged` stands for any bytes the peer did not produce. */
  datatype Ciphertext = Sealed(nonce: nat, plaintext: seq<Byte>) | Forged

  datatype Error =
    | NotInTransportMode | HandshakeComplete | HandshakeUnfinished | BadHandshakeMessage
    | MessageTooLong | NonceExhausted | DecryptFailed

  datatype Counters = Counters(send: nat, receive: nat)

  /** The initiator writes messages 1 and 3 and reads 2, the responder the other way round. */
  predicate WritesNext(initiator: bool, done: nat)
  {
    done < HANDSHAKE_MESSAGES && (initiator <==> done % 2 == 0)
  }

  predicate ReadsNext(initiator: bool, done: nat)
  {
    done < HANDSHAKE_MESSAGES && (initiator <==> done % 2 == 1)
  }

  /** The two sides take turns, the initiator first, and after three messages neither writes or
      reads another. */
  lemma HandshakeTurns(done: nat)
    ensures WritesNext(true, 0) && WritesNext(false, 1) && WritesNext(true, 2)
    ensures forall side :: WritesNext(side, done) ==> done < 3 && !WritesNext(!side, done) && ReadsNext(!side, done)
    ensures forall side :: ReadsNext(side, done) ==> WritesNext(!side, done)
    ensures done < 3 ==> WritesNext(true, done) || WritesNext(false, done)
  {
  }

  class NoiseSession {
    const initiator: bool
    var handshakeMessages: nat
    var transport: bool
    var counters: Counters

    constructor (initiator: bool)
      ensures this.initiator == initiator && handshakeMessages == 0
      ensures !transport && counters == Counters(0, 0)
    {
      this.initiator, handshakeMessages, transport, counters := initiator, 0, false, Counters(0, 0);
    }

    method WriteHandshakeMessage() returns (r: Result<nat, Error>)
      modifies this`handshakeMessages
      ensures r.Ok? <==> !transport && WritesNext(initiator, old(handshakeMessages))
      ensures transport ==> r == Err(HandshakeComplete)
      ensures r.Ok? ==> r.value == handshakeMessages == old(handshakeMessages) + 1
      ensures r.Err? ==> handshakeMessages == old(handshakeMessages)
    {
      if transport { return Err(HandshakeComplete); }
      if !WritesNext(initiator, handshakeMessages) { return Err(BadHandshakeMessage); }
      handshakeMessages := handshakeMessages + 1;
      r := Ok(handshakeMessages);
    }

    /** `number` is which message of the handshake the bytes are; 0 for any other bytes. */
    method ReadHandshakeMessage(number: nat) returns (r: Result<nat, Error>)
      modifies this`handshakeMessages
      ensures r.Ok? <==>
              !transport && ReadsNext(initiator, old(handshakeMessages)) && number == old(handshakeMessages) + 1
      ensures transport ==> r == Err(HandshakeComplete)
      ensures r.Ok? ==> r.value == handshakeMessages == number
      ensures r.Err? ==> handshakeMessages == old(handshakeMessages)
    {
      if transport { return Err(HandshakeComplete); }
      if !ReadsNext(initiator, handshakeMessages) || number != handshakeMessages + 1 {
        return Err(BadHandshakeMessage);
      }
      handshakeMessages := number;
      r := Ok(number);
    }

    /** One-way; calling it again changes nothing. */
    method IntoTransportMode() returns (r: Result<(), Error>)
      modifies this`transport
      ensures r == if old(transport) || handshakeMessages == HANDSHAKE_MESSAGES then Ok(())
                   else Err(HandshakeUnfinished)
      ensures transport == (old(transport) || r.Ok?)
    {
      if !transport && handshakeMessages != HANDSHAKE_MESSAGES { return Err(HandshakeUnfinished); }
      transport := true;
      r := Ok(());
    }

    method Encrypt(plaintext: seq<Byte>) returns (r: Result<Ciphertext, Error>)
      modifies this`counters
      ensures r.Ok? <==>
              transport && |plaintext| + TAG_SIZE <= MAX_MESSAGE && old(counters.send) < NONCE_LIMIT
      ensures r.Ok? ==> r.value == Sealed(old(counters.send), plaintext)
      ensures counters == old(counters).(send := old(counters.send) + if r.Ok? then 1 else 0)
    {
      if !transport { return Err(NotInTransportMode); }
      if |plaintext| + TAG_SIZE > MAX_MESSAGE { return Err(MessageTooLong); }
      if counters.send >= NONCE_LIMIT { return Err(NonceExhausted); }
      r := Ok(Sealed(counters.send, plaintext));
      counters := counters.(send := counters.send + 1);
    }

    /** A ciphertext that does not open leaves the counter where it was. */
    method Decrypt(ciphertext: Ciphertext) returns (r: Result<seq<Byte>, Error>)
      modifies this`counters
      ensures r.Ok? <==> transport && Opens(old(counters.receive), ciphertext)
      ensures r.Ok? ==> r.value == ciphertext.plaintext
      ensures counters == old(counters).(receive := old(counters.receive) + if r.Ok? then 1 else 0)
    {
      if !transport { return Err(NotInTransportMode); }
      if !Opens(counters.receive, ciphertext) { return Err(DecryptFailed); }
      r := Ok(ciphertext.plaintext);
      counters := counters.(receive := counters.receive + 1);
    }
  }

  predicate Opens(receive: nat, ciphertext: Ciphertext)
  {
    receive < NONCE_LIMIT && ciphertext.Sealed? && ciphertext.nonce == receive
  }

  /** The ciphertexts of a sender that encrypted `log`, in encryption order. */
  function SealedLog(log: seq<seq<Byte>>): seq<Ciphertext>
  {
    seq(|log|, k requires 0 <= k < |log| => Sealed(k, log[k]))
  }

  /** What opens at a receiver, in order, when `arrivals` reach it in that order. */
  function Opened(arrivals: seq<Ciphertext>): seq<seq<Byte>>
  {
    if arrivals == [] then [] else
    var before := Opened(arrivals[..|arrivals| - 1]);
    var last := arrivals[|arrivals| - 1];
    if Opens(|before|, last) then before + [last.plaintext] else before
  }

  /** However many ciphertexts arrive, no more open than there are numbers: the reserved one
      opens nothing. */
  lemma {:induction false} OpensWithinNumbers(arrivals: seq<Ciphertext>)
    ensures |Opened(arrivals)| <= U64_LIMIT - 1
  {
    if arrivals != [] { OpensWithinNumbers(arrivals[..|arrivals| - 1]); }
  }

  /** `from` is where each of `xs` is found in `ys`, in order. */
  predicate FoundAt(from: seq<nat>, xs: seq<Ciphertext>, ys: seq<Ciphertext>)
  {
    && |from| == |xs|
    && (forall i :: 0 <= i < |from| ==> from[i] < |ys| && ys[from[i]] == xs[i])
    && (forall i, j :: 0 <= i < j < |from| ==> from[i] < from[j])
  }

  ghost predicate Subsequence(xs: seq<Ciphertext>, ys: seq<Ciphertext>)
  {
    exists from :: FoundAt(from, xs, ys)
  }

  /** Everything that arrives was sealed by the sender of `log`, or opens nowhere. */
  predicate FromSender(arrivals: seq<Ciphertext>, log: seq<seq<Byte>>)
  {
    forall a :: a in arrivals ==> a.Forged? || (a.nonce < |log| && a.plaintext == log[a.nonce])
  }

  /** Under any reordering, loss, repetition or injection, the plaintexts that open are, in
      order and each once, a prefix of those that were encrypted. */
  lemma {:induction false} OpenedIsPrefix(log: seq<seq<Byte>>, arrivals: seq<Ciphertext>)
    requires FromSender(arrivals, log)
    ensures |Opened(arrivals)| <= |log| && Opened(arrivals) == log[..|Opened(arrivals)|]
  {
    if arrivals != [] {
      var init, last := arrivals[..|arrivals| - 1], arrivals[|arrivals| - 1];
      assert last in arrivals && forall a :: a in init ==> a in arrivals;
      OpenedIsPrefix(log, init);
    }
  }

  lemma {:induction false} MoreArrivalsOpenMore(arrivals: seq<Ciphertext>, k: nat)
    requires k <= |arrivals|
    ensures |Opened(arrivals[..k])| <= |Opened(arrivals)|
  {
    if k == |arrivals| {
      assert arrivals[..k] == arrivals;
    } else {
      MoreArrivalsOpenMore(arrivals[..|arrivals| - 1], k);
      assert arrivals[..|arrivals| - 1][..k] == arrivals[..k];
    }
  }

  lemma {:induction false} OpenedWereInOrder(log: seq<seq<Byte>>, arrivals: seq<Ciphertext>) returns (from: seq<nat>)
    requires FromSender(arrivals, log)
    ensures |Opened(arrivals)| <= |log|
    ensures FoundAt(from, SealedLog(log)[..|Opened(arrivals)|], arrivals)
  {
    OpenedIsPrefix(log, arrivals);
    from := [];
    if arrivals != [] {
      var init, last := arrivals[..|arrivals| - 1], arrivals[|arrivals| - 1];
      assert last in arrivals && forall a :: a in init ==> a in arrivals;
      from := OpenedWereInOrder(log, init);
      if Opens(|Opened(init)|, last) { from := from + [|init|]; }
    }
  }

  lemma {:induction false} InOrderOpens(log: seq<seq<Byte>>, arrivals: seq<Ciphertext>, m: nat, from: seq<nat>)
    requires m <= |log| <= NONCE_LIMIT && FoundAt(from, SealedLog(log)[..m], arrivals)
    ensures m <= |Opened(arrivals)|
  {
    if m > 0 {
      var at := from[m - 1];
      var before := arrivals[..at];
      assert FoundAt(from[..m - 1], SealedLog(log)[..m - 1], before);
      InOrderOpens(log, before, m - 1, from[..m - 1]);
      assert arrivals[..at + 1][..at] == before;
      assert arrivals[..at + 1][at] == Sealed(m - 1, log[m - 1]);
      if |Opened(before)| >= m { MoreArrivalsOpenMore(arrivals[..at + 1], at); }
      MoreArrivalsOpenMore(arrivals, at + 1);
    }
  }

  /** Exactly how much opens: the first m plaintexts do if and only if their ciphertexts
      arrive in encryption order among whatever else arrives. */
  lemma OpenedExactly(log: seq<seq<Byte>>, arrivals: seq<Ciphertext>, m: nat)
    requires m <= |log| <= NONCE_LIMIT && FromSender(arrivals, log)
    ensures m <= |Opened(arrivals)| <==> Subsequence(SealedLog(log)[..m], arrivals)
  {
    if m <= |Opened(arrivals)| {
      var from := OpenedWereInOrder(log, arrivals);
      assert FoundAt(from[..m], SealedLog(log)[..m], arrivals);
    }
    if Subsequence(SealedLog(log)[..m], arrivals) {
      var from :| FoundAt(from, SealedLog(log)[..m], arrivals);
      InOrderOpens(log, arrivals, m, from);
    }
  }

  /** Ciphertexts that arrive in the order of their encryption all open. */
  lemma InOrderArrivalsAllOpen(log: seq<seq<Byte>>)
    requires |log| <= NONCE_LIMIT
    ensures Opened(SealedLog(log)) == log
  {
    var all := SealedLog(log);
    var from := seq(|log|, k => k);
    assert all[..|log|] == all;
    assert FoundAt(from, all[..|log|], all);
    OpenedExactly(log, all, |log|);
    OpenedIsPrefix(log, all);
  }

  lemma {:induction false} OpenedAtMost(arrivals: seq<Ciphertext>)
    ensures |Opened(arrivals)| <= |arrivals|
  {
    if arrivals != [] { OpenedAtMost(arrivals[..|arrivals| - 1]); }
  }

  /** Arrivals that all open are what was sealed, from the first on and in order. */
  lemma {:induction false} AllOpenMeansInOrder(arrivals: seq<Ciphertext>)
    ensures |Opened(arrivals)| == |arrivals| ==> arrivals == SealedLog(Opened(arrivals))
  {
    if arrivals != [] {
      var init, last := arrivals[..|arrivals| - 1], arrivals[|arrivals| - 1];
      OpenedAtMost(init);
      AllOpenMeansInOrder(init);
      if Opens(|Opened(init)|, last) {
        assert SealedLog(Opened(init) + [last.plaintext]) == SealedLog(Opened(init)) + [last];
      }
      assert arrivals == init + [last];
    }
  }

  lemma SubsequenceMembers(xs: seq<Ciphertext>, ys: seq<Ciphertext>, k: nat)
    requires k < |xs|
    ensures Subsequence(xs, ys) ==> xs[k] in ys
  {
    if Subsequence(xs, ys) {
      var from :| FoundAt(from, xs, ys);
      assert ys[from[k]] == xs[k];
    }
  }

  /** One ciphertext that never arrives silences everything encrypted after it. */
  lemma {:induction false} LostCiphertextSilencesSession(log: seq<seq<Byte>>, arrivals: seq<Ciphertext>, k: nat)
    requires k < |log| <= NONCE_LIMIT && FromSender(arrivals, log)
    requires Sealed(k, log[k]) !in arrivals
    ensures |Opened(arrivals)| <= k
  {
    OpenedExactly(log, arrivals, k + 1);
    SubsequenceMembers(SealedLog(log)[..k + 1], arrivals, k);
  }

  /** The sealed log with numbers k and k + 1 exchanged: what a session carries when two
      senders encrypt in one order and hand over their ciphertexts in the other. */
  function Exchanged(log: seq<seq<Byte>>, k: nat): seq<Ciphertext>
    requires k + 1 < |log|
  {
    SealedLog(log)[k := Sealed(k + 1, log[k + 1])][k + 1 := Sealed(k, log[k])]
  }

  /** One exchanged pair, and nothing after the first of the two ever opens. */
  lemma ExchangedPairSilencesSession(log: seq<seq<Byte>>, k: nat)
    requires k + 1 < |log| <= NONCE_LIMIT
    ensures Opened(Exchanged(log, k)) == log[..k + 1]
  {
    var arrivals := Exchanged(log, k);
    forall a | a in arrivals ensures a.Forged? || (a.nonce < |log| && a.plaintext == log[a.nonce]) {
      var i :| 0 <= i < |arrivals| && arrivals[i] == a;
    }
    var from := seq(k + 1, i => if i < k then i else k + 1);
    assert FoundAt(from, SealedLog(log)[..k + 1], arrivals);
    OpenedExactly(log, arrivals, k + 1);
    OpenedExactly(log, arrivals, k + 2);
    var longer := SealedLog(log)[..k + 2];
    forall f ensures !FoundAt(f, longer, arrivals) {
      if |f| == k + 2 && f[k] < |arrivals| && f[k + 1] < |arrivals| {
        assert arrivals[f[k]] == Sealed(k, log[k]) ==> f[k] == k + 1;
        assert arrivals[f[k + 1]] == Sealed(k + 1, log[k + 1]) ==> f[k + 1] == k;
        assert longer[k] == Sealed(k, log[k]);
        assert longer[k + 1] == Sealed(k + 1, log[k + 1]);
      }
    }
    OpenedIsPrefix(log, arrivals);
  }

  // ---------------------------------------------------------------- several streams

  datatype Arrival = Arrival(stream: nat, ciphertext: Ciphertext)

  datatype Readers = Readers(plaintexts: seq<seq<Byte>>, stopped: set<nat>)

  /** `decrypt_and_dispatch` behind several reader loops: a reader whose ciphertext does not
      open stops, and what its stream still carries is never looked at. */
  function ReadStreams(arrivals: seq<Arrival>): Readers
  {
    if arrivals == [] then Readers([], {}) else
    var r := ReadStreams(arrivals[..|arrivals| - 1]);
    var last := arrivals[|arrivals| - 1];
    if last.stream in r.stopped then r
    else if Opens(|r.plaintexts|, last.ciphertext) then r.(plaintexts := r.plaintexts + [last.ciphertext.plaintext])
    else r.(stopped := r.stopped + {last.stream})
  }

  function Ciphertexts(arrivals: seq<Arrival>): seq<Ciphertext>
  {
    seq(|arrivals|, k requires 0 <= k < |arrivals| => arrivals[k].ciphertext)
  }

  lemma {:induction false} StoppingReadersOpensLess(log: seq<seq<Byte>>, arrivals: seq<Arrival>)
    requires FromSender(Ciphertexts(arrivals), log)
    ensures |ReadStreams(arrivals).plaintexts| <= |Opened(Ciphertexts(arrivals))|
    ensures |ReadStreams(arrivals).plaintexts| <= |log|
    ensures ReadStreams(arrivals).plaintexts == log[..|ReadStreams(arrivals).plaintexts|]
  {
    if arrivals != [] {
      var init, last := arrivals[..|arrivals| - 1], arrivals[|arrivals| - 1];
      var all := Ciphertexts(arrivals);
      assert all[..|all| - 1] == Ciphertexts(init);
      assert last.ciphertext == all[|all| - 1] && last.ciphertext in all;
      assert forall a :: a in Ciphertexts(init) ==> a in all;
      StoppingReadersOpensLess(log, init);
    }
  }

  lemma {:induction false} InOrderKeepsReaders(log: seq<seq<Byte>>, arrivals: seq<Arrival>)
    requires |log| <= NONCE_LIMIT && Ciphertexts(arrivals) == SealedLog(log)
    ensures ReadStreams(arrivals) == Readers(log, {})
  {
    assert |arrivals| == |SealedLog(log)|;
    if arrivals != [] {
      var n := |arrivals| - 1;
      var init := arrivals[..n];
      forall k | 0 <= k < n ensures Ciphertexts(init)[k] == SealedLog(log[..n])[k] {
        assert Ciphertexts(arrivals)[k] == SealedLog(log)[k];
      }
      assert Ciphertexts(arrivals)[n] == SealedLog(log)[n];
      InOrderKeepsReaders(log[..n], init);
      assert log == log[..n] + [log[n]];
    }
  }

  lemma {:induction false} KeptReadersWereInOrder(arrivals: seq<Arrival>)
    requires ReadStreams(arrivals).stopped == {}
    ensures Ciphertexts(arrivals) == SealedLog(ReadStreams(arrivals).plaintexts)
  {
    if arrivals != [] {
      var n := |arrivals| - 1;
      var before := ReadStreams(arrivals[..n]);
      assert before.stopped <= ReadStreams(arrivals).stopped;
      KeptReadersWereInOrder(arrivals[..n]);
      var last := arrivals[n].ciphertext;
      assert Ciphertexts(arrivals) == Ciphertexts(arrivals[..n]) + [last];
      assert SealedLog(before.plaintexts + [last.plaintext]) == SealedLog(before.plaintexts) + [last];
    }
  }

  /** Over any number of streams, everything opens and no reader stops if and only if the
      arrival order over all of them is the encryption order. */
  lemma {:induction false} StreamsInEncryptionOrder(log: seq<seq<Byte>>, arrivals: seq<Arrival>)
    requires |log| <= NONCE_LIMIT
    ensures ReadStreams(arrivals) == Readers(log, {}) <==> Ciphertexts(arrivals) == SealedLog(log)
  {
    if Ciphertexts(arrivals) == SealedLog(log) { InOrderKeepsReaders(log, arrivals); }
    if ReadStreams(arrivals) == Readers(log, {}) { KeptReadersWereInOrder(arrivals); }
  }

  /** Two streams suffice to lose everything: if the second message overtakes the first on
      another stream, that stream's reader stops, and however much follows on it, only the
      first message ever opens. */
  lemma {:induction false} OvertakenStreamStops(log: seq<seq<Byte>>, s: nat, t: nat, rest: seq<Ciphertext>)
    requires |log| >= 2 && s != t
    ensures var follow := seq(|rest|, k requires 0 <= k < |rest| => Arrival(t, rest[k]));
            ReadStreams([Arrival(t, Sealed(1, log[1])), Arrival(s, Sealed(0, log[0]))] + follow) ==
            Readers([log[0]], {t})
  {
    var first := [Arrival(t, Sealed(1, log[1])), Arrival(s, Sealed(0, log[0]))];
    var follow := seq(|rest|, k requires 0 <= k < |rest| => Arrival(t, rest[k]));
    if rest == [] {
      assert first + follow == first;
      assert first[..1] == [first[0]] && first[..1][..0] == [];
      assert ReadStreams(first[..1]) == Readers([], {t});
    } else {
      OvertakenStreamStops(log, s, t, rest[..|rest| - 1]);
      var all := first + follow;
      assert all[..|all| - 1] ==
             first + seq(|rest| - 1, k requires 0 <= k < |rest| - 1 => Arrival(t, rest[..|rest| - 1][k]));
    }
  }

  // ---------------------------------------------------------------- the loops over a session

  /** `while let Some(msg) = rx.recv()`, encrypting each: what the forwarder of a stream or of a
      relayed transfer puts out. It stops at the first message that cannot be encrypted, and at
      no other. */
  method Forward(session: NoiseSession, messages: seq<seq<Byte>>) returns (out: seq<Ciphertext>)
    requires session.transport
    modifies session`counters
    ensures |out| <= |messages|
    ensures |out| < |messages| ==>
              |messages[|out|]| > MAX_MESSAGE - TAG_SIZE || old(session.counters.send) + |out| >= NONCE_LIMIT
    ensures forall i :: 0 <= i < |out| ==> |messages[i]| <= MAX_MESSAGE - TAG_SIZE
    ensures out != [] ==> old(session.counters.send) + |out| <= NONCE_LIMIT
    ensures forall i :: 0 <= i < |out| ==> out[i] == Sealed(old(session.counters.send) + i, messages[i])
    ensures session.counters == old(session.counters).(send := old(session.counters.send) + |out|)
    ensures old(session.counters.send) == 0 ==> out == SealedLog(messages[..|out|])
    ensures old(session.counters.send) == 0 ==>
              (out == SealedLog(messages) <==>
               (forall i :: 0 <= i < |messages| ==> |messages[i]| <= MAX_MESSAGE - TAG_SIZE)
               && |messages| <= NONCE_LIMIT)
  {
    out := [];
    while |out| < |messages|
      invariant |out| <= |messages|
      invariant forall i :: 0 <= i < |out| ==> |messages[i]| <= MAX_MESSAGE - TAG_SIZE
      invariant out != [] ==> old(session.counters.send) + |out| <= NONCE_LIMIT
      invariant forall i :: 0 <= i < |out| ==> out[i] == Sealed(old(session.counters.send) + i, messages[i])
      invariant session.counters == old(session.counters).(send := old(session.counters.send) + |out|)
    {
      var r := session.Encrypt(messages[|out|]);
      if r.Err? { break; }
      out := out + [r.value];
    }
    assert |out| == |messages| ==> messages[..|out|] == messages;
  }

  /** What a relayed session makes of the ciphertexts handed to it: one that does not open is
      ignored. */
  method OpenAll(session: NoiseSession, arrivals: seq<Ciphertext>) returns (plaintexts: seq<seq<Byte>>)
    requires session.transport && session.counters.receive == 0
    modifies session`counters
    ensures plaintexts == Opened(arrivals)
    ensures session.counters == old(session.counters).(receive := |plaintexts|)
  {
    plaintexts := [];
    for i := 0 to |arrivals|
      invariant plaintexts == Opened(arrivals[..i])
      invariant session.counters == old(session.counters).(receive := |plaintexts|)
    {
      assert arrivals[..i + 1][..i] == arrivals[..i];
      var r := session.Decrypt(arrivals[i]);
      if r.Ok? { plaintexts := plaintexts + [r.value]; }
    }
    assert arrivals[..|arrivals|] == arrivals;
  }

  /** What the reader loops of several streams make of theirs: a reader whose ciphertext does not
      open breaks out of its loop. */
  method ReadAll(session: NoiseSession, arrivals: seq<Arrival>)
    returns (plaintexts: seq<seq<Byte>>, stopped: set<nat>)
    requires session.transport && session.counters.receive == 0
    modifies session`counters
    ensures Readers(plaintexts, stopped) == ReadStreams(arrivals)
    ensures session.counters == old(session.counters).(receive := |plaintexts|)
  {
    plaintexts, stopped := [], {};
    for i := 0 to |arrivals|
      invariant Readers(plaintexts, stopped) == ReadStreams(arrivals[..i])
      invariant session.counters == old(session.counters).(receive := |plaintexts|)
    {
      assert arrivals[..i + 1][..i] == arrivals[..i];
      if arrivals[i].stream !in stopped {
        var r := session.Decrypt(arrivals[i].ciphertext);
        if r.Ok? { plaintexts := plaintexts + [r.value]; } else { stopped := stopped + {arrivals[i].stream}; }
      }
    }
    assert arrivals[..|arrivals|] == arrivals;
  }
}
