/** The Noise_XX handshake over the signaling relay: two endpoints joined by FIFO queues, the
    waiter that collects frames during the handshake, and the session that decrypts frames
    after it. A frame that finds neither waiter nor session is dropped. */
module RelayHandshake {
  import opened Wrappers
  import NC = NoiseChannel

  type Id = string
  type Key = nat

  /** Messages 2 and 3 reveal the static key of the endpoint that wrote them. */
  datatype Frame = M1 | M2(key: Key) | M3(key: Key) | App(nonce: nat)

  datatype Pc =
    | Idle
    | Spawned
    | WriteM1 | AwaitM2 | WriteM3(seen: Key)      // initiator
    | AwaitM1 | WriteM2 | AwaitM3                 // responder
    | Verify(seen: Key) | Unregister(seen: Key) | Insert(seen: Key)
    | Up
    | Failed

  datatype Session = Session(id: Id, key: Key)

  /** `peer` is the id the tracker holds for the relay session, as long as it is `tracked`;
      `waiter` the frames not yet read by the handshake task. `readLog` records what the
      handshake has read, `received` what was handed to the session to decrypt. `sent` counts
      what was encrypted, under the session's lock; a sender that has its ciphertext in hand
      gives it to the relay later, without the lock: `inHand` are the numbers not yet given,
      `handed` those given, in order. */
  datatype Endpoint = Endpoint(
    id: Id,
    key: Key,
    peer: Id,
    tracked: bool,
    pc: Pc,
    waiter: Option<seq<Frame>>,
    session: Option<Session>,
    sent: nat,
    inHand: set<nat>,
    handed: seq<nat>,
    readLog: seq<Frame>,
    received: seq<Frame>)

  /** `ab` carries frames from a to b, `ba` from b to a. */
  datatype System = System(a: Endpoint, b: Endpoint, ab: seq<Frame>, ba: seq<Frame>)

  datatype Act = RelayReady | TaskStep | Encrypt | HandOver(k: nat) | Deliver | RelayClosed

  datatype Event = Event(atA: bool, act: Act)

  /** `device_id < peer_device_id`: strings compare lexicographically. */
  predicate Less(x: Id, y: Id)
  {
    y != [] && (x == [] || x[0] < y[0] || (x[0] == y[0] && Less(x[1..], y[1..])))
  }

  predicate Initiates(e: Endpoint)
  {
    Less(e.id, e.peer)
  }

  function Fresh(id: Id, key: Key, peer: Id): Endpoint
  {
    Endpoint(id, key, peer, true, Idle, None, None, 0, {}, [], [], [])
  }

  function Start(idA: Id, keyA: Key, idB: Id, keyB: Key): System
  {
    System(Fresh(idA, keyA, idB), Fresh(idB, keyB, idA), [], [])
  }

  /** The next frame of the waiter is read by the handshake task. */
  function ReadNext(e: Endpoint, pc: Pc): Endpoint
    requires e.waiter.Some? && e.waiter.value != []
  {
    e.(pc := pc, readLog := e.readLog + [e.waiter.value[0]], waiter := Some(e.waiter.value[1..]))
  }

  /** One step of `run_relay_handshake`: the endpoint after it and what it put on the wire. */
  function StepTask(e: Endpoint, idOf: Key -> Id): (Endpoint, seq<Frame>)
  {
    var next := if e.waiter.Some? && e.waiter.value != [] then Some(e.waiter.value[0]) else None;
    match e.pc
    case Spawned => (e.(waiter := Some([]), pc := if Initiates(e) then WriteM1 else AwaitM1), [])
    case WriteM1 => (e.(pc := AwaitM2), [M1])
    case AwaitM2 =>
      if next.None? then (e, [])
      else (ReadNext(e, if next.value.M2? then WriteM3(next.value.key) else Failed), [])
    case WriteM3(seen) => (e.(pc := Verify(seen)), [M3(e.key)])
    case AwaitM1 =>
      if next.None? then (e, []) else (ReadNext(e, if next.value.M1? then WriteM2 else Failed), [])
    case WriteM2 => (e.(pc := AwaitM3), [M2(e.key)])
    case AwaitM3 =>
      if next.None? then (e, [])
      else (ReadNext(e, if next.value.M3? then Verify(next.value.key) else Failed), [])
    case Verify(seen) => (e.(pc := if idOf(seen) == e.peer then Unregister(seen) else Failed), [])
    case Unregister(seen) => (e.(waiter := None, pc := Insert(seen)), [])
    case Insert(seen) => (e.(session := Some(Session(idOf(seen), seen)), pc := Up), [])
    case _ => (e, [])
  }

  /** `handle_relay_data` */
  function OnRelayData(e: Endpoint, f: Frame): Endpoint
  {
    if e.waiter.Some? then e.(waiter := Some(e.waiter.value + [f]))
    else if e.tracked && e.session.Some? && e.session.value.id == e.peer then e.(received := e.received + [f])
    else e
  }

  /** An act at endpoint a. */
  function ActAtA(s: System, act: Act, idOf: Key -> Id): System
  {
    match act
    case RelayReady =>
      if s.a.pc.Idle? && s.a.tracked && s.a.session.None? then s.(a := s.a.(pc := Spawned)) else s
    case TaskStep => var (a, out) := StepTask(s.a, idOf); s.(a := a, ab := s.ab + out)
    case Encrypt =>
      if s.a.pc.Up? then s.(a := s.a.(sent := s.a.sent + 1, inHand := s.a.inHand + {s.a.sent})) else s
    case HandOver(k) =>
      if k in s.a.inHand
      then s.(a := s.a.(inHand := s.a.inHand - {k}, handed := s.a.handed + [k]), ab := s.ab + [App(k)]) else s
    case Deliver => if s.ba == [] then s else s.(a := OnRelayData(s.a, s.ba[0]), ba := s.ba[1..])
    case RelayClosed => s.(a := s.a.(tracked := false))
  }

  function Swap(s: System): System
  {
    System(s.b, s.a, s.ba, s.ab)
  }

  function Next(s: System, e: Event, idOf: Key -> Id): System
  {
    if e.atA then ActAtA(s, e.act, idOf) else Swap(ActAtA(Swap(s), e.act, idOf))
  }

  function Run(s: System, events: seq<Event>, idOf: Key -> Id): System
  {
    if events == [] then s else Next(Run(s, events[..|events| - 1], idOf), events[|events| - 1], idOf)
  }

  /** The order is total: of two distinct ids exactly one is less than the other. */
  lemma {:induction false} OneSideIsLess(x: Id, y: Id)
    ensures x == y ==> !Less(x, y)
    ensures x != y ==> (Less(x, y) <==> !Less(y, x))
  {
    if x != [] && y != [] && x[0] == y[0] {
      OneSideIsLess(x[1..], y[1..]);
      assert x == [x[0]] + x[1..] && y == [y[0]] + y[1..];
    }
  }

  /** It is the order of strings: at the first place where the two differ, the lesser has ended
      or has the lesser character. */
  lemma {:induction false} LessIff(x: Id, y: Id)
    ensures Less(x, y) <==>
            exists k :: 0 <= k <= |x| && k < |y| && x[..k] == y[..k] && (k == |x| || x[k] < y[k])
  {
    if x != [] && y != [] && x[0] == y[0] {
      var u, v := x[1..], y[1..];
      LessIff(u, v);
      if Less(u, v) {
        var k :| 0 <= k <= |u| && k < |v| && u[..k] == v[..k] && (k == |u| || u[k] < v[k]);
        assert x[..k + 1] == [x[0]] + u[..k] && y[..k + 1] == [y[0]] + v[..k];
      }
      if k :| 0 <= k <= |x| && k < |y| && x[..k] == y[..k] && (k == |x| || x[k] < y[k]) {
        assert k > 0 && u[..k - 1] == x[..k][1..] && v[..k - 1] == y[..k][1..];
      }
    } else if Less(x, y) {
      assert x[..0] == y[..0];
    } else if x != [] && y != [] {
      assert forall k :: 0 < k <= |x| && k < |y| ==> x[..k][0] != y[..k][0];
    }
  }

  // ---------------------------------------------------------------- every interleaving

  predicate AllApps(fs: seq<Frame>)
  {
    forall f :: f in fs ==> f.App?
  }

  /** Frames under way to an endpoint: unread in its waiter, then in the queue. */
  function UnderWay(waiter: Option<seq<Frame>>, queue: seq<Frame>): seq<Frame>
  {
    (if waiter.Some? then waiter.value else []) + queue
  }

  /** How far the initiator is: before message 1, after it, after reading 2, after sending 3. */
  function InitiatorStage(pc: Pc): nat
  {
    match pc
    case Idle => 0 case Spawned => 0 case WriteM1 => 0
    case AwaitM2 => 1
    case WriteM3(_) => 2
    case Verify(_) => 3 case Unregister(_) => 3 case Insert(_) => 3 case Up => 3 case Failed => 3
    case _ => 4
  }

  /** How far the responder is: before reading 1, after it, after sending 2, after reading 3. */
  function ResponderStage(pc: Pc): nat
  {
    match pc
    case Idle => 0 case Spawned => 0 case AwaitM1 => 0
    case WriteM2 => 1
    case AwaitM3 => 2
    case Verify(_) => 3 case Unregister(_) => 3 case Insert(_) => 3 case Up => 3 case Failed => 3
    case _ => 4
  }

  predicate KeyOk(e: Endpoint, peerKey: Key, idOf: Key -> Id)
  {
    && (e.pc.WriteM3? || e.pc.Verify? || e.pc.Unregister? || e.pc.Insert? ==> e.pc.seen == peerKey)
    && (e.pc.Unregister? || e.pc.Insert? || e.pc.Up? ==> idOf(peerKey) == e.peer)
    && (e.pc.Failed? ==> idOf(peerKey) != e.peer)
    && (e.session.Some? <==> e.pc.Up?)
    && (e.session.Some? ==> e.session.value == Session(e.peer, peerKey))
    && (e.waiter.None? <==> e.pc.Idle? || e.pc.Spawned? || e.pc.Insert? || e.pc.Up?)
    && AllApps(e.received) && (e.inHand != {} ==> e.pc.Up?)
  }

  /** What is under way, by how far the two ends are. */
  ghost predicate Wire(i: Endpoint, r: Endpoint, toI: seq<Frame>, toR: seq<Frame>)
  {
    match InitiatorStage(i.pc)
    case 0 => ResponderStage(r.pc) == 0 && toI == [] && toR == []
    case 1 =>
      || (ResponderStage(r.pc) == 0 && toI == [] && (toR == [] || toR == [M1]))
      || (ResponderStage(r.pc) == 1 && toI == [] && toR == [])
      || (ResponderStage(r.pc) == 2 && toI == [M2(r.key)] && toR == [])
    case 2 => ResponderStage(r.pc) == 2 && toI == [] && toR == []
    case 3 =>
      || (ResponderStage(r.pc) == 2 && toI == [] && toR != [] && toR[0] == M3(i.key) && AllApps(toR[1..]))
      || (ResponderStage(r.pc) == 3 && AllApps(toI) && AllApps(toR))
    case _ => false
  }

  /** Invariant with a the initiator. */
  ghost predicate InitiatorInv(s: System, idOf: Key -> Id)
  {
    && Initiates(s.a) && !Initiates(s.b)
    && KeyOk(s.a, s.b.key, idOf) && KeyOk(s.b, s.a.key, idOf)
    && Wire(s.a, s.b, UnderWay(s.a.waiter, s.ba), UnderWay(s.b.waiter, s.ab))
    && s.a.readLog == (if InitiatorStage(s.a.pc) <= 1 then [] else [M2(s.b.key)])
    && s.b.readLog == (if ResponderStage(s.b.pc) == 0 then []
                     else if ResponderStage(s.b.pc) <= 2 then [M1] else [M1, M3(s.a.key)])
  }

  ghost predicate Inv(s: System, idOf: Key -> Id)
  {
    InitiatorInv(s, idOf) || InitiatorInv(Swap(s), idOf)
  }

  /** Delivering to a waiter only moves a frame along; reading takes the first frame. */
  lemma UnderWayMoves(w: Option<seq<Frame>>, queue: seq<Frame>)
    ensures queue != [] && w.Some? ==> UnderWay(Some(w.value + [queue[0]]), queue[1..]) == UnderWay(w, queue)
    ensures queue != [] && w.None? ==>
              && UnderWay(w, queue) != [] && UnderWay(w, queue)[0] == queue[0]
              && UnderWay(w, queue[1..]) == UnderWay(w, queue)[1..]
    ensures w.Some? && w.value != [] ==>
              && UnderWay(w, queue) != []
              && UnderWay(w, queue)[0] == w.value[0]
              && UnderWay(Some(w.value[1..]), queue) == UnderWay(w, queue)[1..]
    ensures w.None? ==> UnderWay(Some([]), queue) == UnderWay(w, queue)
    ensures AllApps(UnderWay(w, queue)) ==> AllApps(UnderWay(None, queue))
    ensures UnderWay(w, queue) == [] ==> UnderWay(None, queue) == []
  {
    if queue != [] {
      assert queue == [queue[0]] + queue[1..];
    }
    if w.Some? && w.value != [] {
      assert w.value == [w.value[0]] + w.value[1..];
    }
    forall f | f in UnderWay(None, queue) ensures f in UnderWay(w, queue) {}
  }

  lemma SendingAppends(w: Option<seq<Frame>>, queue: seq<Frame>, out: seq<Frame>)
    ensures UnderWay(w, queue + out) == UnderWay(w, queue) + out
    ensures out == [] ==> UnderWay(w, queue + out) == UnderWay(w, queue)
    ensures UnderWay(w, queue) == [] ==> UnderWay(w, queue + out) == out
  {
  }

  lemma InitiatorReads(s: System, idOf: Key -> Id)
    requires InitiatorInv(s, idOf) && s.a.pc.AwaitM2?
    ensures InitiatorInv(ActAtA(s, TaskStep, idOf), idOf)
  {
    UnderWayMoves(s.a.waiter, s.ba);
    SendingAppends(s.b.waiter, s.ab, []);
    hide UnderWay, Less;
  }

  lemma InitiatorWrites(s: System, idOf: Key -> Id)
    requires InitiatorInv(s, idOf) && (s.a.pc.WriteM1? || s.a.pc.WriteM3?)
    ensures InitiatorInv(ActAtA(s, TaskStep, idOf), idOf)
  {
    SendingAppends(s.b.waiter, s.ab, StepTask(s.a, idOf).1);
    hide UnderWay, Less, ReadNext;
  }

  /** The steps that set the waiter up and take it down. */
  lemma InitiatorTurns(s: System, idOf: Key -> Id)
    requires InitiatorInv(s, idOf) && (s.a.pc.Spawned? || s.a.pc.Unregister?)
    ensures InitiatorInv(ActAtA(s, TaskStep, idOf), idOf)
  {
    UnderWayMoves(s.a.waiter, s.ba);
    SendingAppends(s.b.waiter, s.ab, []);
    hide UnderWay, Less, ReadNext;
  }

  lemma InitiatorGoesOn(s: System, idOf: Key -> Id)
    requires InitiatorInv(s, idOf) && !s.a.pc.AwaitM2? && !s.a.pc.WriteM1? && !s.a.pc.WriteM3?
    requires !s.a.pc.Spawned? && !s.a.pc.Unregister?
    ensures InitiatorInv(ActAtA(s, TaskStep, idOf), idOf)
  {
    SendingAppends(s.b.waiter, s.ab, []);
    hide UnderWay, Less, ReadNext;
    assert StepTask(s.a, idOf).1 == [];
  }

  lemma InitiatorTask(s: System, idOf: Key -> Id)
    requires InitiatorInv(s, idOf)
    ensures InitiatorInv(ActAtA(s, TaskStep, idOf), idOf)
  {
    hide InitiatorInv, ActAtA;
    if s.a.pc.AwaitM2? { InitiatorReads(s, idOf); }
    else if s.a.pc.WriteM1? || s.a.pc.WriteM3? { InitiatorWrites(s, idOf); }
    else if s.a.pc.Spawned? || s.a.pc.Unregister? { InitiatorTurns(s, idOf); }
    else { InitiatorGoesOn(s, idOf); }
  }

  lemma ResponderReadsFirst(s: System, idOf: Key -> Id)
    requires InitiatorInv(s, idOf) && s.b.pc.AwaitM1?
    ensures InitiatorInv(Swap(ActAtA(Swap(s), TaskStep, idOf)), idOf)
  {
    UnderWayMoves(s.b.waiter, s.ab);
    SendingAppends(s.a.waiter, s.ba, []);
    hide UnderWay, Less;
  }

  lemma ResponderReadsLast(s: System, idOf: Key -> Id)
    requires InitiatorInv(s, idOf) && s.b.pc.AwaitM3?
    ensures InitiatorInv(Swap(ActAtA(Swap(s), TaskStep, idOf)), idOf)
  {
    UnderWayMoves(s.b.waiter, s.ab);
    SendingAppends(s.a.waiter, s.ba, []);
    hide UnderWay, Less;
  }

  lemma ResponderSpawns(s: System, idOf: Key -> Id)
    requires InitiatorInv(s, idOf) && s.b.pc.Spawned?
    ensures InitiatorInv(Swap(ActAtA(Swap(s), TaskStep, idOf)), idOf)
  {
    UnderWayMoves(s.b.waiter, s.ab);
    SendingAppends(s.a.waiter, s.ba, []);
    hide UnderWay, Less, ReadNext;
  }

  lemma ResponderUnregisters(s: System, idOf: Key -> Id)
    requires InitiatorInv(s, idOf) && s.b.pc.Unregister?
    ensures InitiatorInv(Swap(ActAtA(Swap(s), TaskStep, idOf)), idOf)
  {
    UnderWayMoves(s.b.waiter, s.ab);
    SendingAppends(s.a.waiter, s.ba, []);
    hide UnderWay, Less, ReadNext;
  }

  lemma ResponderGoesOn(s: System, idOf: Key -> Id)
    requires InitiatorInv(s, idOf) && !s.b.pc.AwaitM1? && !s.b.pc.AwaitM3? && !s.b.pc.WriteM2?
    requires !s.b.pc.Spawned? && !s.b.pc.Unregister?
    ensures InitiatorInv(Swap(ActAtA(Swap(s), TaskStep, idOf)), idOf)
  {
    SendingAppends(s.a.waiter, s.ba, []);
    hide UnderWay, Less, ReadNext;
    assert StepTask(s.b, idOf).1 == [];
  }

  lemma ResponderWrites(s: System, idOf: Key -> Id)
    requires InitiatorInv(s, idOf) && s.b.pc.WriteM2?
    ensures InitiatorInv(Swap(ActAtA(Swap(s), TaskStep, idOf)), idOf)
  {
    SendingAppends(s.a.waiter, s.ba, [M2(s.b.key)]);
    hide UnderWay, Less, ReadNext;
  }

  lemma ResponderTask(s: System, idOf: Key -> Id)
    requires InitiatorInv(s, idOf)
    ensures InitiatorInv(Swap(ActAtA(Swap(s), TaskStep, idOf)), idOf)
  {
    hide InitiatorInv, ActAtA;
    if s.b.pc.AwaitM1? { ResponderReadsFirst(s, idOf); }
    else if s.b.pc.AwaitM3? { ResponderReadsLast(s, idOf); }
    else if s.b.pc.WriteM2? { ResponderWrites(s, idOf); }
    else if s.b.pc.Spawned? { ResponderSpawns(s, idOf); }
    else if s.b.pc.Unregister? { ResponderUnregisters(s, idOf); }
    else { ResponderGoesOn(s, idOf); }
  }

  lemma InitiatorDeliver(s: System, idOf: Key -> Id)
    requires InitiatorInv(s, idOf)
    ensures InitiatorInv(ActAtA(s, Deliver, idOf), idOf)
  {
    UnderWayMoves(s.a.waiter, s.ba);
    hide StepTask, Less, UnderWay;
  }

  lemma ResponderDeliver(s: System, idOf: Key -> Id)
    requires InitiatorInv(s, idOf)
    ensures InitiatorInv(Swap(ActAtA(Swap(s), Deliver, idOf)), idOf)
  {
    UnderWayMoves(s.b.waiter, s.ab);
    hide StepTask, Less, UnderWay;
  }

  lemma InitiatorHandsOver(s: System, k: nat, idOf: Key -> Id)
    requires InitiatorInv(s, idOf)
    ensures InitiatorInv(ActAtA(s, HandOver(k), idOf), idOf)
  {
    SendingAppends(s.b.waiter, s.ab, [App(k)]);
    hide StepTask, Less, UnderWay;
  }

  lemma ResponderHandsOver(s: System, k: nat, idOf: Key -> Id)
    requires InitiatorInv(s, idOf)
    ensures InitiatorInv(Swap(ActAtA(Swap(s), HandOver(k), idOf)), idOf)
  {
    SendingAppends(s.a.waiter, s.ba, [App(k)]);
    hide StepTask, Less, UnderWay;
  }

  /** Acts that move no frame. */
  lemma InitiatorAlone(s: System, act: Act, idOf: Key -> Id)
    requires InitiatorInv(s, idOf) && (act.RelayReady? || act.Encrypt? || act.RelayClosed?)
    ensures InitiatorInv(ActAtA(s, act, idOf), idOf)
  {
    hide Less, UnderWay;
  }

  lemma ResponderAlone(s: System, act: Act, idOf: Key -> Id)
    requires InitiatorInv(s, idOf) && (act.RelayReady? || act.Encrypt? || act.RelayClosed?)
    ensures InitiatorInv(Swap(ActAtA(Swap(s), act, idOf)), idOf)
  {
    hide Less, UnderWay;
  }

  lemma InitiatorStep(s: System, act: Act, idOf: Key -> Id)
    requires InitiatorInv(s, idOf)
    ensures InitiatorInv(ActAtA(s, act, idOf), idOf)
  {
    hide InitiatorInv, ActAtA;
    match act
    case TaskStep => InitiatorTask(s, idOf);
    case Deliver => InitiatorDeliver(s, idOf);
    case HandOver(k) => InitiatorHandsOver(s, k, idOf);
    case _ => InitiatorAlone(s, act, idOf);
  }

  lemma ResponderStep(s: System, act: Act, idOf: Key -> Id)
    requires InitiatorInv(s, idOf)
    ensures InitiatorInv(Swap(ActAtA(Swap(s), act, idOf)), idOf)
  {
    hide InitiatorInv, ActAtA;
    match act
    case TaskStep => ResponderTask(s, idOf);
    case Deliver => ResponderDeliver(s, idOf);
    case HandOver(k) => ResponderHandsOver(s, k, idOf);
    case _ => ResponderAlone(s, act, idOf);
  }

  lemma NextKeepsInv(s: System, e: Event, idOf: Key -> Id)
    requires Inv(s, idOf)
    ensures Inv(Next(s, e, idOf), idOf)
  {
    hide InitiatorInv, ActAtA;
    if InitiatorInv(s, idOf) {
      if e.atA { InitiatorStep(s, e.act, idOf); } else { ResponderStep(s, e.act, idOf); }
    } else {
      if e.atA { ResponderStep(Swap(s), e.act, idOf); } else { InitiatorStep(Swap(s), e.act, idOf); }
    }
  }

  lemma StartHasInv(idA: Id, keyA: Key, idB: Id, keyB: Key, idOf: Key -> Id)
    requires idA != idB
    ensures Inv(Start(idA, keyA, idB, keyB), idOf)
  {
    OneSideIsLess(idA, idB);
    hide Less;
  }

  /** What one endpoint has to show for itself. */
  ghost predicate EndpointSafe(e: Endpoint, peerKey: Key, idOf: Key -> Id)
  {
    && (if Initiates(e) then e.readLog <= [M2(peerKey)] else e.readLog <= [M1, M3(peerKey)])
    && (e.pc.Failed? ==> idOf(peerKey) != e.peer)
    && (e.session.Some? ==> e.session.value.id == e.peer == idOf(peerKey) && e.session.value.key == peerKey)
    && AllApps(e.received)
  }

  lemma InvMeansSafe(s: System, idOf: Key -> Id)
    requires InitiatorInv(s, idOf)
    ensures EndpointSafe(s.a, s.b.key, idOf) && EndpointSafe(s.b, s.a.key, idOf)
    ensures Initiates(s.a) && !Initiates(s.b)
  {
    hide Less;
  }

  lemma {:induction false} NamesStay(
    idA: Id, keyA: Key, idB: Id, keyB: Key, events: seq<Event>, idOf: Key -> Id)
    ensures var s := Run(Start(idA, keyA, idB, keyB), events, idOf);
            s.a.id == s.b.peer == idA && s.b.id == s.a.peer == idB
  {
    if events != [] {
      hide ActAtA;
      var init, e := events[..|events| - 1], events[|events| - 1];
      NamesStay(idA, keyA, idB, keyB, init, idOf);
      var s := Run(Start(idA, keyA, idB, keyB), init, idOf);
      ActKeepsNames(s, e.act, idOf);
      ActKeepsNames(Swap(s), e.act, idOf);
    }
  }

  lemma ActKeepsNames(s: System, act: Act, idOf: Key -> Id)
    ensures var t := ActAtA(s, act, idOf);
            t.b == s.b && t.a.id == s.a.id && t.a.peer == s.a.peer
  {
    hide Initiates;
  }

  /** Every interleaving of two endpoints with distinct ids whose trackers name each other,
      whatever is dropped for want of a waiter: the one with the lesser id initiates; a handshake
      reads the messages it expects, in order, and never an application frame; it fails only
      for a peer whose key does not hash to the id expected; a session is inserted only under
      the id its key hashes to; and the session never gets a handshake message to decrypt. */
  lemma {:induction false} EveryInterleaving(
    idA: Id, keyA: Key, idB: Id, keyB: Key, events: seq<Event>, idOf: Key -> Id)
    requires idA != idB
    ensures var s := Run(Start(idA, keyA, idB, keyB), events, idOf);
            && Inv(s, idOf)
            && (Initiates(s.a) <==> Less(idA, idB)) && (Initiates(s.b) <==> Less(idB, idA))
            && (Initiates(s.a) <==> !Initiates(s.b))
            && EndpointSafe(s.a, s.b.key, idOf) && EndpointSafe(s.b, s.a.key, idOf)
  {
    assert var s := Run(Start(idA, keyA, idB, keyB), events, idOf);
           Initiates(s.a) == Less(idA, idB) && Initiates(s.b) == Less(idB, idA) by {
      NamesStay(idA, keyA, idB, keyB, events, idOf);
    }
    hide Next, InitiatorInv, EndpointSafe, Initiates, Less;
    var start := Start(idA, keyA, idB, keyB);
    if events == [] {
      StartHasInv(idA, keyA, idB, keyB, idOf);
    } else {
      EveryInterleaving(idA, keyA, idB, keyB, events[..|events| - 1], idOf);
      NextKeepsInv(Run(start, events[..|events| - 1], idOf), events[|events| - 1], idOf);
    }
    var s := Run(start, events, idOf);
    if InitiatorInv(s, idOf) { InvMeansSafe(s, idOf); } else { InvMeansSafe(Swap(s), idOf); }
  }

  // ---------------------------------------------------------------- a closed relay

  lemma ActKeepsTracking(s: System, act: Act, idOf: Key -> Id)
    ensures var t := ActAtA(s, act, idOf);
            && t.b == s.b && (t.a.tracked <==> s.a.tracked && !act.RelayClosed?)
            && (!s.a.tracked ==> t.a.received == s.a.received)
  {
    hide Initiates;
  }

  /** An endpoint keeps the id of its relay session until the relay is closed for it. */
  lemma {:induction false} TrackedUntilClosed(s: System, events: seq<Event>, idOf: Key -> Id)
    ensures var t := Run(s, events, idOf);
            && (t.a.tracked <==> s.a.tracked && Event(true, RelayClosed) !in events)
            && (t.b.tracked <==> s.b.tracked && Event(false, RelayClosed) !in events)
  {
    if events != [] {
      hide ActAtA;
      var init, e := events[..|events| - 1], events[|events| - 1];
      assert forall x :: x in events <==> x in init || x == e;
      TrackedUntilClosed(s, init, idOf);
      ActKeepsTracking(Run(s, init, idOf), e.act, idOf);
      ActKeepsTracking(Swap(Run(s, init, idOf)), e.act, idOf);
    }
  }

  /** And from then on its session is handed nothing, whatever is under way or still sent. */
  lemma {:induction false} ClosedReceivesNothing(s: System, events: seq<Event>, idOf: Key -> Id, i: nat)
    requires i < |events| && events[i] == Event(true, RelayClosed)
    ensures Run(s, events, idOf).a.received == Run(s, events[..i], idOf).a.received
  {
    var init, e := events[..|events| - 1], events[|events| - 1];
    var t := Run(s, init, idOf);
    if i < |init| {
      assert init[..i] == events[..i] && init[i] == events[i];
      ClosedReceivesNothing(s, init, idOf, i);
      TrackedUntilClosed(s, init, idOf);
      assert events[i] in init;
      hide ActAtA;
      ActKeepsTracking(t, e.act, idOf);
      ActKeepsTracking(Swap(t), e.act, idOf);
    } else {
      assert events[..i] == init;
    }
  }

  // ---------------------------------------------------------------- the Noise session of the task

  /** How many handshake messages the task's Noise session has done. */
  function MessagesDone(pc: Pc): nat
  {
    match pc
    case Idle => 0 case Spawned => 0 case WriteM1 => 0 case AwaitM1 => 0
    case AwaitM2 => 1 case WriteM2 => 1
    case WriteM3(_) => 2 case AwaitM3 => 2
    case _ => NC.HANDSHAKE_MESSAGES
  }

  /** Which handshake message a frame is; 0 for an application frame. */
  function MessageNumber(f: Frame): nat
  {
    match f
    case M1 => 1 case M2(_) => 2 case M3(_) => 3 case App(_) => 0
  }

  /** The task is at a place of its own role. */
  predicate InRole(e: Endpoint)
  {
    && (e.pc.WriteM1? || e.pc.AwaitM2? || e.pc.WriteM3? ==> Initiates(e))
    && (e.pc.AwaitM1? || e.pc.WriteM2? || e.pc.AwaitM3? ==> !Initiates(e))
  }

  /** Every step is one the Noise session allows and makes: a write when it is this side's turn,
      of the next message; a read that succeeds exactly when the session's read does; and the
      switch to transport mode, and with it the session, only after the last message. */
  lemma {:induction false} TaskFollowsNoise(e: Endpoint, idOf: Key -> Id)
    requires InRole(e)
    ensures var (t, out) := StepTask(e, idOf);
            && InRole(t)
            && (out != [] ==>
                  && |out| == 1 && NC.WritesNext(Initiates(e), MessagesDone(e.pc))
                  && MessageNumber(out[0]) == MessagesDone(t.pc) == MessagesDone(e.pc) + 1)
            && (t.readLog != e.readLog ==>
                  var f := e.waiter.value[0];
                  && t.readLog == e.readLog + [f]
                  && NC.ReadsNext(Initiates(e), MessagesDone(e.pc))
                  && (t.pc.Failed? <==> MessageNumber(f) != MessagesDone(e.pc) + 1)
                  && (!t.pc.Failed? ==> MessagesDone(t.pc) == MessageNumber(f)))
            && (out == [] && t.readLog == e.readLog && !t.pc.Failed? ==> MessagesDone(t.pc) == MessagesDone(e.pc))
            && (t.session != e.session ==> MessagesDone(e.pc) == NC.HANDSHAKE_MESSAGES)
  {
    hide Less;
  }

  /** In every run both tasks stay in their roles. */
  lemma {:induction false} TasksStayInRole(
    idA: Id, keyA: Key, idB: Id, keyB: Key, events: seq<Event>, idOf: Key -> Id)
    ensures var s := Run(Start(idA, keyA, idB, keyB), events, idOf); InRole(s.a) && InRole(s.b)
  {
    if events != [] {
      var init, e := events[..|events| - 1], events[|events| - 1];
      TasksStayInRole(idA, keyA, idB, keyB, init, idOf);
      hide Next, InRole;
      StepStaysInRole(Run(Start(idA, keyA, idB, keyB), init, idOf), e, idOf);
    }
  }

  lemma StepStaysInRole(s: System, e: Event, idOf: Key -> Id)
    requires InRole(s.a) && InRole(s.b)
    ensures InRole(Next(s, e, idOf).a) && InRole(Next(s, e, idOf).b)
  {
    if e.atA { ActStaysInRole(s, e.act, idOf); } else { ActStaysInRole(Swap(s), e.act, idOf); }
    hide ActAtA, InRole;
  }

  lemma ActStaysInRole(s: System, act: Act, idOf: Key -> Id)
    requires InRole(s.a)
    ensures InRole(ActAtA(s, act, idOf).a) && ActAtA(s, act, idOf).b == s.b
  {
    TaskFollowsNoise(s.a, idOf);
    hide StepTask, Less;
  }

  // ---------------------------------------------------------------- a frame the waiter swallows

  /** Application frame k of endpoint b was encrypted, and is neither in a sender's hand nor on
      its way to a's session, nor has it got there. */
  ghost predicate Lost(s: System, k: nat)
  {
    && k < s.b.sent && k !in s.b.inHand
    && App(k) !in s.ba && App(k) !in s.a.received
    && (s.a.waiter.Some? ==> App(k) !in s.a.waiter.value)
  }

  lemma {:induction false} LostStaysLost(s: System, e: Event, k: nat, idOf: Key -> Id)
    requires Lost(s, k)
    ensures Lost(Next(s, e, idOf), k)
  {
    if e.atA {
      if e.act.Deliver? && s.ba != [] { assert s.ba[0] in s.ba; }
    } else {
      var out := StepTask(s.b, idOf).1;
      assert forall f :: f in out ==> !f.App?;
    }
  }

  /** The ciphertext side of the frames handed to a's session. */
  function Ciphertexts(received: seq<Frame>, plaintexts: seq<seq<NC.Bytes.Byte>>): seq<NC.Ciphertext>
  {
    seq(|received|, i requires 0 <= i < |received| =>
      if received[i].App? && received[i].nonce < |plaintexts|
      then NC.Sealed(received[i].nonce, plaintexts[received[i].nonce]) else NC.Forged)
  }

  /** Once its first frame is lost, a session opens nothing at all, however long it lives and
      whatever the peer goes on sending. */
  lemma {:induction false} LostFirstFrameSilencesSession(
    s: System, events: seq<Event>, plaintexts: seq<seq<NC.Bytes.Byte>>, idOf: Key -> Id)
    requires Lost(s, 0) && 0 < |plaintexts| <= NC.NONCE_LIMIT
    ensures Lost(Run(s, events, idOf), 0)
    ensures NC.Opened(Ciphertexts(Run(s, events, idOf).a.received, plaintexts)) == []
  {
    if events != [] {
      LostFirstFrameSilencesSession(s, events[..|events| - 1], plaintexts, idOf);
      LostStaysLost(Run(s, events[..|events| - 1], idOf), events[|events| - 1], 0, idOf);
    }
    var received := Run(s, events, idOf).a.received;
    var arrivals := Ciphertexts(received, plaintexts);
    forall c | c in arrivals
      ensures c != NC.Sealed(0, plaintexts[0])
      ensures c.Forged? || (c.nonce < |plaintexts| && c.plaintext == plaintexts[c.nonce])
    {
      var i :| 0 <= i < |arrivals| && arrivals[i] == c;
      assert received[i] in received;
    }
    NC.LostCiphertextSilencesSession(plaintexts, arrivals, 0);
  }

  lemma RunFive(s: System, es: seq<Event>, a: Event, b: Event, c: Event, d: Event, e: Event, idOf: Key -> Id)
    ensures Run(s, es + [a, b, c, d, e], idOf)
         == Next(Next(Next(Next(Next(Run(s, es, idOf), a, idOf), b, idOf), c, idOf), d, idOf), e, idOf)
  {
    hide Next;
    var e1, e2, e3, e4 := es + [a], es + [a, b], es + [a, b, c], es + [a, b, c, d];
    var e5 := es + [a, b, c, d, e];
    assert e1[..|e1| - 1] == es && e2[..|e2| - 1] == e1 && e3[..|e3| - 1] == e2 && e4[..|e4| - 1] == e3
        && e5[..|e5| - 1] == e4;
    assert Run(s, e1, idOf) == Next(Run(s, es, idOf), a, idOf);
    assert Run(s, e2, idOf) == Next(Run(s, e1, idOf), b, idOf);
    assert Run(s, e3, idOf) == Next(Run(s, e2, idOf), c, idOf);
    assert Run(s, e4, idOf) == Next(Run(s, e3, idOf), d, idOf);
  }

  function Part(i: nat): seq<Event>
    requires 1 <= i <= 5
    ensures |Part(i)| == 5
  {
    var a, b := Event(true, TaskStep), Event(false, TaskStep);
    match i
    case 1 => [Event(true, RelayReady), Event(false, RelayReady), a, b, a]
    case 2 => [Event(false, Deliver), b, b, Event(true, Deliver), a]
    case 3 => [a, Event(false, Deliver), b, b, b]
    case 4 => [b, Event(false, Encrypt), Event(false, HandOver(0)), Event(true, Deliver), a]
    case _ => [a, a, a, a, a]
  }

  /** The responder, up, with its first frame sent. */
  function Answering(a: Endpoint, b: Endpoint): Endpoint
  {
    b.(pc := Up, session := Some(Session(b.peer, a.key)), sent := 1, handed := [0], readLog := [M1, M3(a.key)])
  }

  /** The system after each part of the run. */
  function Stage(i: nat, a: Endpoint, b: Endpoint): System
  {
    if i == 0 then System(a, b, [], [])
    else if i == 1 then
      System(a.(pc := AwaitM2, waiter := Some([])), b.(pc := AwaitM1, waiter := Some([])), [M1], [])
    else if i == 2 then
      System(a.(pc := WriteM3(b.key), waiter := Some([]), readLog := [M2(b.key)]),
             b.(pc := AwaitM3, waiter := Some([]), readLog := [M1]), [], [])
    else if i == 3 then
      System(a.(pc := Verify(b.key), waiter := Some([]), readLog := [M2(b.key)]),
             b.(pc := Insert(a.key), waiter := None, readLog := [M1, M3(a.key)]), [], [])
    else if i == 4 then
      System(a.(pc := Unregister(b.key), waiter := Some([App(0)]), readLog := [M2(b.key)]), Answering(a, b), [], [])
    else
      System(a.(pc := Up, session := Some(Session(a.peer, b.key)), readLog := [M2(b.key)]), Answering(a, b), [], [])
  }

  function NextFive(s: System, es: seq<Event>, idOf: Key -> Id): System
    requires |es| == 5
  {
    Next(Next(Next(Next(Next(s, es[0], idOf), es[1], idOf), es[2], idOf), es[3], idOf), es[4], idOf)
  }

  ghost predicate HonestPair(a: Endpoint, b: Endpoint, idOf: Key -> Id)
  {
    && Initiates(a) && !Initiates(b) && idOf(a.key) == b.peer && idOf(b.key) == a.peer
    && a == Fresh(a.id, a.key, a.peer) && b == Fresh(b.id, b.key, b.peer)
  }

  lemma BothRegister(a: Endpoint, b: Endpoint, idOf: Key -> Id)
    requires HonestPair(a, b, idOf)
    ensures NextFive(Stage(0, a, b), Part(1), idOf) == Stage(1, a, b)
  {
    hide Less;
    var s0, es := Stage(0, a, b), Part(1);
    var s2 := Next(Next(s0, es[0], idOf), es[1], idOf);
    assert s2 == s0.(a := a.(pc := Spawned), b := b.(pc := Spawned));
    var s4 := Next(Next(s2, es[2], idOf), es[3], idOf);
    assert s4 == s0.(a := a.(pc := WriteM1, waiter := Some([])), b := b.(pc := AwaitM1, waiter := Some([])));
  }

  lemma MessagesOneAndTwo(a: Endpoint, b: Endpoint, idOf: Key -> Id)
    requires HonestPair(a, b, idOf)
    ensures NextFive(Stage(1, a, b), Part(2), idOf) == Stage(2, a, b)
  {
    hide Less;
    var s0, es := Stage(1, a, b), Part(2);
    var s1 := Next(s0, es[0], idOf);
    assert s0.ab[0] == M1 && s0.ab[1..] == [] && s1.ab == [] && s1.b.waiter.value == [M1];
    var s2 := Next(s1, es[1], idOf);
    assert s2.b == b.(pc := WriteM2, waiter := Some([]), readLog := [M1]);
    var s3 := Next(s2, es[2], idOf);
    assert s3 == System(s0.a, s2.b.(pc := AwaitM3), [], [M2(b.key)]);
    var s4 := Next(s3, es[3], idOf);
    assert s4 == System(s0.a.(waiter := Some([M2(b.key)])), s3.b, [], []);
  }

  lemma MessageThree(a: Endpoint, b: Endpoint, idOf: Key -> Id)
    requires HonestPair(a, b, idOf)
    ensures NextFive(Stage(2, a, b), Part(3), idOf) == Stage(3, a, b)
  {
    hide Less;
    var s0, es := Stage(2, a, b), Part(3);
    var s1 := Next(s0, es[0], idOf);
    assert s1 == System(s0.a.(pc := Verify(b.key)), s0.b, [M3(a.key)], []);
    var s2 := Next(s1, es[1], idOf);
    assert s2 == System(s1.a, s0.b.(waiter := Some([M3(a.key)])), [], []);
    var s3 := Next(s2, es[2], idOf);
    assert s3.b == s0.b.(pc := Verify(a.key), readLog := [M1, M3(a.key)]);
    var s4 := Next(s3, es[3], idOf);
    assert s4.b == s3.b.(pc := Unregister(a.key));
  }

  lemma FrameIntoWaiter(a: Endpoint, b: Endpoint, idOf: Key -> Id)
    requires HonestPair(a, b, idOf)
    ensures NextFive(Stage(3, a, b), Part(4), idOf) == Stage(4, a, b)
  {
    hide Less;
    var s0, es := Stage(3, a, b), Part(4);
    var s1 := Next(s0, es[0], idOf);
    assert s1.b == s0.b.(pc := Up, session := Some(Session(b.peer, a.key)));
    var s2 := Next(s1, es[1], idOf);
    assert s2.b == s1.b.(sent := 1, inHand := {0});
    var s3 := Next(s2, es[2], idOf);
    assert s3 == System(s0.a, s1.b.(sent := 1, handed := [0]), [], [App(0)]);
    var s4 := Next(s3, es[3], idOf);
    assert s4 == System(s0.a.(waiter := Some([App(0)])), s3.b, [], []);
  }

  lemma WaiterThrownAway(a: Endpoint, b: Endpoint, idOf: Key -> Id)
    requires HonestPair(a, b, idOf)
    ensures NextFive(Stage(4, a, b), Part(5), idOf) == Stage(5, a, b)
  {
    hide Less;
    var s0, es := Stage(4, a, b), Part(5);
    var s1 := Next(s0, es[0], idOf);
    assert s1.a == a.(pc := Insert(b.key), readLog := [M2(b.key)]);
    var s2 := Next(s1, es[1], idOf);
    assert s2 == Stage(5, a, b) && Next(s2, es[2], idOf) == s2;
  }

  /** Honest endpoints can lose their first frame: the responder finishes first and sends
      while the initiator's waiter still stands, and the waiter is thrown away with it. Both
      sessions are then in place. */
  lemma FirstFrameCanBeSwallowed(idA: Id, keyA: Key, idB: Id, keyB: Key, idOf: Key -> Id)
    requires Less(idA, idB) && idOf(keyA) == idA && idOf(keyB) == idB
    ensures var s := Run(Start(idA, keyA, idB, keyB), Part(1) + Part(2) + Part(3) + Part(4) + Part(5), idOf);
            s.a.pc.Up? && s.b.pc.Up? && Lost(s, 0)
  {
    var a, b := Fresh(idA, keyA, idB), Fresh(idB, keyB, idA);
    var start := Start(idA, keyA, idB, keyB);
    ThreePartsRun(idA, keyA, idB, keyB, idOf);
    HonestStart(idA, keyA, idB, keyB, idOf);
    hide Less, Run, Next, Stage;
    PartRuns(start, Part(1) + Part(2) + Part(3), 3, a, b, idOf);
    PartRuns(start, Part(1) + Part(2) + Part(3) + Part(4), 4, a, b, idOf);
    LastStageLost(a, b);
  }

  lemma HonestStart(idA: Id, keyA: Key, idB: Id, keyB: Key, idOf: Key -> Id)
    requires Less(idA, idB) && idOf(keyA) == idA && idOf(keyB) == idB
    ensures HonestPair(Fresh(idA, keyA, idB), Fresh(idB, keyB, idA), idOf)
  {
    OneSideIsLess(idA, idB);
    hide Less;
  }

  /** The handshake up to the responder's session. */
  lemma ThreePartsRun(idA: Id, keyA: Key, idB: Id, keyB: Key, idOf: Key -> Id)
    requires Less(idA, idB) && idOf(keyA) == idA && idOf(keyB) == idB
    ensures Run(Start(idA, keyA, idB, keyB), Part(1) + Part(2) + Part(3), idOf) ==
            Stage(3, Fresh(idA, keyA, idB), Fresh(idB, keyB, idA))
  {
    var a, b := Fresh(idA, keyA, idB), Fresh(idB, keyB, idA);
    var start := Start(idA, keyA, idB, keyB);
    HonestStart(idA, keyA, idB, keyB, idOf);
    assert Run(start, [], idOf) == Stage(0, a, b);
    hide Less, Run, Next, Stage;
    PartRuns(start, [], 0, a, b, idOf);
    assert [] + Part(1) == Part(1);
    PartRuns(start, Part(1), 1, a, b, idOf);
    PartRuns(start, Part(1) + Part(2), 2, a, b, idOf);
  }

  lemma LastStageLost(a: Endpoint, b: Endpoint)
    requires a.received == [] && a.waiter.None? && b.inHand == {}
    ensures Lost(Stage(5, a, b), 0) && Stage(5, a, b).a.pc.Up? && Stage(5, a, b).b.pc.Up?
  {
  }

  lemma PartRuns(start: System, before: seq<Event>, i: nat, a: Endpoint, b: Endpoint, idOf: Key -> Id)
    requires i < 5 && HonestPair(a, b, idOf)
    requires Run(start, before, idOf) == Stage(i, a, b)
    ensures Run(start, before + Part(i + 1), idOf) == Stage(i + 1, a, b)
  {
    hide Less, Run, Next, Stage;
    var es := Part(i + 1);
    assert es == [es[0], es[1], es[2], es[3], es[4]];
    RunFive(start, before, es[0], es[1], es[2], es[3], es[4], idOf);
    match i
    case 0 => BothRegister(a, b, idOf);
    case 1 => MessagesOneAndTwo(a, b, idOf);
    case 2 => MessageThree(a, b, idOf);
    case 3 => FrameIntoWaiter(a, b, idOf);
    case _ => WaiterThrownAway(a, b, idOf);
  }
}
