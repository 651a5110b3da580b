/** Which application frames reach a relay session, in every run of the handshake model. The
    receiving endpoint is called a; `SidesAreAlike` carries everything over to b. */
module RelayDelivery {
  import opened Wrappers
  import opened Bytes
  import opened RelayHandshake
  import NC = NoiseChannel

  const DELIVER: Event := Event(true, Deliver)

  /** The step takes an application frame off the queue to a. */
  predicate TakesApp(s: System, e: Event)
  {
    e == DELIVER && s.ba != [] && s.ba[0].App?
  }

  /** A session is in place and its id still tracked. */
  predicate Ready(e: Endpoint)
  {
    e.pc.Up? && e.tracked
  }

  lemma RunOneMore(s: System, events: seq<Event>, e: Event, idOf: Key -> Id)
    ensures Run(s, events + [e], idOf) == Next(Run(s, events, idOf), e, idOf)
  {
    assert (events + [e])[..|events|] == events;
  }

  /** A step of the handshake task sends no application frame and touches no received one. */
  lemma TaskFacts(e: Endpoint, idOf: Key -> Id)
    ensures var r := StepTask(e, idOf);
            && r.0.received == e.received && r.0.sent == e.sent && r.0.inHand == e.inHand && r.0.handed == e.handed
            && (e.pc.Up? ==> r.0.pc.Up?)
            && Apps(r.1) == [] && (forall f :: f in r.1 ==> !f.App?)
            && (r.0.waiter.Some? && e.waiter.Some? ==> forall f :: f in r.0.waiter.value ==> f in e.waiter.value)
            && (r.0.waiter.Some? && e.waiter.None? ==> r.0.waiter.value == [])
  {
    hide Initiates;
  }

  // ---------------------------------------------------------------- one frame

  /** Of all steps, only taking an application frame when ready adds to what a has received. */
  lemma StepReceives(s: System, e: Event, idOf: Key -> Id)
    requires Inv(s, idOf)
    ensures Next(s, e, idOf).a.received == s.a.received + if TakesApp(s, e) && Ready(s.a) then [s.ba[0]] else []
  {
    hide StepTask, Inv;
    if e == DELIVER && s.ba != [] { DeliverReceives(s, idOf); }
    TaskFacts(s.a, idOf);
  }

  lemma DeliverReceives(s: System, idOf: Key -> Id)
    requires Inv(s, idOf) && s.ba != []
    ensures OnRelayData(s.a, s.ba[0]).received ==
            s.a.received + if s.ba[0].App? && Ready(s.a) then [s.ba[0]] else []
  {
    hide Less, UnderWay;
    if s.a.waiter.None? && s.a.pc.Up? { HandshakeIsOver(s, idOf); }
  }

  /** Once a is up, no handshake message is under way to it. */
  lemma HandshakeIsOver(s: System, idOf: Key -> Id)
    requires Inv(s, idOf) && s.a.pc.Up?
    ensures forall f :: f in s.ba ==> f.App?
  {
    hide InitiatorInv;
    if InitiatorInv(s, idOf) { OverForInitiator(s, idOf); } else { OverForResponder(Swap(s), idOf); }
  }

  lemma WireOver(i: Endpoint, r: Endpoint, toI: seq<Frame>, toR: seq<Frame>)
    requires Wire(i, r, toI, toR)
    ensures i.pc.Up? ==> AllApps(toI)
    ensures r.pc.Up? ==> AllApps(toR)
  {
  }

  lemma OverForInitiator(s: System, idOf: Key -> Id)
    requires InitiatorInv(s, idOf) && s.a.pc.Up?
    ensures forall f :: f in s.ba ==> f.App?
  {
    hide Less, Initiates, Wire;
    assert s.a.waiter.None?;
    hide KeyOk;
    WireOver(s.a, s.b, UnderWay(s.a.waiter, s.ba), UnderWay(s.b.waiter, s.ab));
    assert UnderWay(s.a.waiter, s.ba) == s.ba;
  }

  lemma OverForResponder(s: System, idOf: Key -> Id)
    requires InitiatorInv(s, idOf) && s.b.pc.Up?
    ensures forall f :: f in s.ab ==> f.App?
  {
    hide Less, Initiates, Wire;
    assert s.b.waiter.None?;
    hide KeyOk;
    WireOver(s.a, s.b, UnderWay(s.a.waiter, s.ba), UnderWay(s.b.waiter, s.ab));
    assert UnderWay(s.b.waiter, s.ab) == s.ab;
  }

  /** App(k) was taken off the queue at a moment when a was ready. */
  ghost predicate LeftReady(start: System, events: seq<Event>, idOf: Key -> Id, k: nat)
  {
    exists j :: TakenAt(start, events, idOf, k, j) && Ready(Run(start, events[..j], idOf).a)
  }

  predicate TakenAt(start: System, events: seq<Event>, idOf: Key -> Id, k: nat, j: int)
  {
    && 0 <= j < |events| && TakesApp(Run(start, events[..j], idOf), events[j])
    && Run(start, events[..j], idOf).ba[0] == App(k)
  }

  lemma TakenBefore(start: System, events: seq<Event>, e: Event, idOf: Key -> Id, k: nat, j: int)
    ensures j < |events| ==> (TakenAt(start, events + [e], idOf, k, j) <==> TakenAt(start, events, idOf, k, j))
    ensures 0 <= j < |events| ==> (events + [e])[..j] == events[..j]
    ensures (events + [e])[..|events|] == events
  {
    hide Run, TakesApp;
    assert 0 <= j < |events| ==> (events + [e])[..j] == events[..j];
  }

  /** In every run of two endpoints with distinct ids: an application frame is received if and
      only if it leaves the queue when the session is in place and its id tracked. */
  lemma {:induction false} ReceivedIff(
    idA: Id, keyA: Key, idB: Id, keyB: Key, events: seq<Event>, idOf: Key -> Id, k: nat)
    requires idA != idB
    ensures var start := Start(idA, keyA, idB, keyB);
            App(k) in Run(start, events, idOf).a.received <==> LeftReady(start, events, idOf, k)
  {
    var start := Start(idA, keyA, idB, keyB);
    if events != [] {
      var init, e := events[..|events| - 1], events[|events| - 1];
      var s := Run(start, init, idOf);
      assert events == init + [e];
      ReceivedIff(idA, keyA, idB, keyB, init, idOf, k);
      EveryInterleaving(idA, keyA, idB, keyB, init, idOf);
      StepReceives(s, e, idOf);
      hide Run, Next, Inv, Ready;
      RunOneMore(start, init, e, idOf);
      forall j { TakenBefore(start, init, e, idOf, k, j); }
      if LeftReady(start, init, idOf, k) {
        var j :| TakenAt(start, init, idOf, k, j) && Ready(Run(start, init[..j], idOf).a);
        assert TakenAt(start, events, idOf, k, j) && events[..j] == init[..j];
      }
      assert TakenAt(start, events, idOf, k, |init|) <==> TakesApp(s, e) && s.ba[0] == App(k);
    }
  }

  // ---------------------------------------------------------------- all frames

  function Apps(fs: seq<Frame>): seq<Frame>
  {
    if fs == [] then [] else (if fs[0].App? then [fs[0]] else []) + Apps(fs[1..])
  }

  lemma {:induction false} AppsOfConcat(x: seq<Frame>, y: seq<Frame>)
    ensures Apps(x + y) == Apps(x) + Apps(y)
  {
    if x == [] {
      assert x + y == y;
    } else {
      var head := if x[0].App? then [x[0]] else [];
      assert (x + y)[1..] == x[1..] + y;
      AppsOfConcat(x[1..], y);
      assert Apps(x + y) == head + Apps(x[1..] + y) && Apps(x) == head + Apps(x[1..]);
      hide Apps;
      assert head + (Apps(x[1..]) + Apps(y)) == head + Apps(x[1..]) + Apps(y);
    }
  }

  /** The frames with the given numbers. */
  function Frames(ks: seq<nat>): (fs: seq<Frame>)
    ensures |fs| == |ks|
  {
    seq(|ks|, i requires 0 <= i < |ks| => App(ks[i]))
  }

  lemma FramesOneMore(ks: seq<nat>, k: nat)
    ensures Frames(ks + [k]) == Frames(ks) + [App(k)]
  {
  }

  /** How many application frames left the queue to a when a was not ready. */
  function CountLost(start: System, events: seq<Event>, idOf: Key -> Id): nat
  {
    if events == [] then 0 else
    var init, e := events[..|events| - 1], events[|events| - 1];
    var s := Run(start, init, idOf);
    CountLost(start, init, idOf) + if TakesApp(s, e) && !Ready(s.a) then 1 else 0
  }

  predicate HandsOver(s: System, e: Event)
  {
    !e.atA && e.act.HandOver? && e.act.k in s.b.inHand
  }

  /** What a step does to the application frames on their way to a and to those handed over. */
  lemma StepQueues(s: System, e: Event, idOf: Key -> Id)
    ensures var t := Next(s, e, idOf);
            && (if TakesApp(s, e) then Apps(s.ba) == [s.ba[0]] + Apps(t.ba)
                else Apps(t.ba) == Apps(s.ba) + if HandsOver(s, e) then [App(e.act.k)] else [])
            && t.b.handed == s.b.handed + if HandsOver(s, e) then [e.act.k] else []
  {
    if e.atA { QueuesAtA(s, e.act, idOf); } else { QueuesAtB(s, e.act, idOf); }
    hide Apps, ActAtA;
  }

  lemma QueuesAtA(s: System, act: Act, idOf: Key -> Id)
    ensures var t := ActAtA(s, act, idOf);
            && t.b == s.b
            && (if act.Deliver? && s.ba != [] && s.ba[0].App? then Apps(s.ba) == [s.ba[0]] + Apps(t.ba)
                else Apps(t.ba) == Apps(s.ba))
  {
    hide StepTask, OnRelayData;
    AppsOfFirst(s.ba);
    hide Apps;
  }

  lemma QueuesAtB(s: System, act: Act, idOf: Key -> Id)
    ensures var t, hands := Swap(ActAtA(Swap(s), act, idOf)), act.HandOver? && act.k in s.b.inHand;
            && Apps(t.ba) == Apps(s.ba) + (if hands then [App(act.k)] else [])
            && t.b.handed == s.b.handed + if hands then [act.k] else []
  {
    hide StepTask, OnRelayData, Apps;
    TaskFacts(s.b, idOf);
    match act
    case TaskStep =>
      AppsOfConcat(s.ba, StepTask(s.b, idOf).1);
      assert Apps(s.ba) + [] == Apps(s.ba);
    case HandOver(k) =>
      AppsOfConcat(s.ba, [App(k)]);
      AppsOfFirst([App(k)]);
      assert Apps(s.ba) + [] == Apps(s.ba) && [App(k)][1..] == [];
    case Deliver =>
      assert Apps(s.ba) + [] == Apps(s.ba);
      if s.ab != [] { DeliveryHandsNothing(s.b, s.ab[0]); }
    case _ =>
      assert Apps(s.ba) + [] == Apps(s.ba);
  }

  lemma DeliveryHandsNothing(e: Endpoint, f: Frame)
    ensures OnRelayData(e, f).handed == e.handed
  {
  }

  lemma AppsOfFirst(fs: seq<Frame>)
    ensures Apps([]) == []
    ensures fs != [] ==> Apps(fs) == if fs[0].App? then [fs[0]] + Apps(fs[1..]) else Apps(fs[1..])
  {
  }

  /** No frame is made up or counted twice: received, on the way and lost make up what was
      handed over, and while none is lost they are what was handed over, in that order. */
  lemma {:induction false} FramesAreConserved(
    idA: Id, keyA: Key, idB: Id, keyB: Key, events: seq<Event>, idOf: Key -> Id)
    requires idA != idB
    ensures var start := Start(idA, keyA, idB, keyB);
            var s := Run(start, events, idOf);
            && |s.a.received| + |Apps(s.ba)| + CountLost(start, events, idOf) == |s.b.handed|
            && (CountLost(start, events, idOf) == 0 ==> s.a.received + Apps(s.ba) == Frames(s.b.handed))
  {
    var start := Start(idA, keyA, idB, keyB);
    if events == [] {
      assert Apps([]) == [];
    } else {
      var init, e := events[..|events| - 1], events[|events| - 1];
      var s := Run(start, init, idOf);
      FramesAreConserved(idA, keyA, idB, keyB, init, idOf);
      EveryInterleaving(idA, keyA, idB, keyB, init, idOf);
      StepReceives(s, e, idOf);
      StepQueues(s, e, idOf);
      hide Next, Inv, Ready, Apps, TakesApp, Run, HandsOver;
      OneMoreFrame(s, e, Next(s, e, idOf));
    }
  }

  /** Received, then on the way: a step that loses nothing appends what it hands over. */
  lemma OneMoreFrame(s: System, e: Event, t: System)
    requires t.a.received == s.a.received + if TakesApp(s, e) && Ready(s.a) then [s.ba[0]] else []
    requires t.b.handed == s.b.handed + if HandsOver(s, e) then [e.act.k] else []
    requires if TakesApp(s, e) then Apps(s.ba) == [s.ba[0]] + Apps(t.ba)
             else Apps(t.ba) == Apps(s.ba) + if HandsOver(s, e) then [App(e.act.k)] else []
    ensures |t.a.received| + |Apps(t.ba)| + (if TakesApp(s, e) && !Ready(s.a) then 1 else 0) - |t.b.handed| ==
            |s.a.received| + |Apps(s.ba)| - |s.b.handed|
    ensures s.a.received + Apps(s.ba) == Frames(s.b.handed) && (TakesApp(s, e) ==> Ready(s.a)) ==>
              t.a.received + Apps(t.ba) == Frames(t.b.handed)
  {
    hide Apps, Ready;
    if HandsOver(s, e) { FramesOneMore(s.b.handed, e.act.k); }
    if TakesApp(s, e) && Ready(s.a) {
      assert t.a.received + Apps(t.ba) == s.a.received + Apps(s.ba);
    } else if !TakesApp(s, e) {
      assert t.a.received == s.a.received;
      assert t.a.received + Apps(t.ba) ==
             s.a.received + Apps(s.ba) + if HandsOver(s, e) then [App(e.act.k)] else [];
    }
  }

  /** Every application frame that left the queue to a left it when a was ready. */
  ghost predicate AllLeftReady(start: System, events: seq<Event>, idOf: Key -> Id)
  {
    forall j :: 0 <= j < |events| && TakesApp(Run(start, events[..j], idOf), events[j]) ==>
      Ready(Run(start, events[..j], idOf).a)
  }

  lemma {:induction false} NoneLostIff(start: System, events: seq<Event>, idOf: Key -> Id)
    ensures CountLost(start, events, idOf) == 0 <==> AllLeftReady(start, events, idOf)
  {
    hide Run, Ready, TakesApp;
    if events != [] {
      var n := |events| - 1;
      NoneLostIff(start, events[..n], idOf);
      forall j | 0 <= j < n ensures events[..n][..j] == events[..j] && events[..n][j] == events[j] {}
    }
  }

  /** What was handed over and has left the queue is all received, in the order in which it was
      handed over, if and only if every application frame left the queue when the session was
      in place and its id tracked. */
  lemma {:induction false} NothingLostIff(
    idA: Id, keyA: Key, idB: Id, keyB: Key, events: seq<Event>, idOf: Key -> Id)
    requires idA != idB
    ensures var start := Start(idA, keyA, idB, keyB);
            var s := Run(start, events, idOf);
            AllLeftReady(start, events, idOf) <==> s.a.received + Apps(s.ba) == Frames(s.b.handed)
  {
    var start := Start(idA, keyA, idB, keyB);
    var s := Run(start, events, idOf);
    hide Run, Apps, CountLost, AllLeftReady;
    FramesAreConserved(idA, keyA, idB, keyB, events, idOf);
    NoneLostIff(start, events, idOf);
    if s.a.received + Apps(s.ba) == Frames(s.b.handed) {
      assert |s.a.received| + |Apps(s.ba)| == |Frames(s.b.handed)|;
    }
  }

  /** The numbers from 0, in order. */
  function Ascending(n: nat): seq<nat>
  {
    seq(n, i => i)
  }

  /** All of it opens if and only if, in addition, it was handed over in the order in which it
      was encrypted. */
  lemma {:induction false} EverythingOpensIff(
    idA: Id, keyA: Key, idB: Id, keyB: Key, events: seq<Event>,
    plaintexts: seq<seq<NC.Bytes.Byte>>, idOf: Key -> Id)
    requires idA != idB
    requires Run(Start(idA, keyA, idB, keyB), events, idOf).b.sent == |plaintexts| <= NC.NONCE_LIMIT
    ensures var start := Start(idA, keyA, idB, keyB);
            var s := Run(start, events, idOf);
            && |Apps(s.ba)| <= |s.b.handed|
            && var left := s.b.handed[..|s.b.handed| - |Apps(s.ba)|];
               var opens := NC.Opened(Ciphertexts(s.a.received, plaintexts));
               && (|opens| == |left| <==> AllLeftReady(start, events, idOf) && left == Ascending(|left|))
               && (|opens| == |left| ==> |left| <= |plaintexts| && opens == plaintexts[..|left|])
  {
    var start := Start(idA, keyA, idB, keyB);
    var s := Run(start, events, idOf);
    hide Run, Apps, CountLost, AllLeftReady;
    FramesAreConserved(idA, keyA, idB, keyB, events, idOf);
    NothingLostIff(idA, keyA, idB, keyB, events, idOf);
    NoneLostIff(start, events, idOf);
    EveryNumberOnce(idA, keyA, idB, keyB, events, idOf);
    var left := s.b.handed[..|s.b.handed| - |Apps(s.ba)|];
    NC.OpenedAtMost(Ciphertexts(s.a.received, plaintexts));
    if |s.a.received| == |left| {
      assert Frames(s.b.handed)[..|left|] == Frames(left);
      assert s.a.received == (s.a.received + Apps(s.ba))[..|left|];
      forall k | k in left ensures k < |plaintexts| { assert k in s.b.handed; }
      FramesOpenIff(left, plaintexts);
    }
  }

  lemma FramesOpenIff(ks: seq<nat>, plaintexts: seq<seq<NC.Bytes.Byte>>)
    requires |plaintexts| <= NC.NONCE_LIMIT && forall k :: k in ks ==> k < |plaintexts|
    ensures var opens := NC.Opened(Ciphertexts(Frames(ks), plaintexts));
            && (|opens| == |ks| <==> ks == Ascending(|ks|))
            && (|opens| == |ks| ==> |ks| <= |plaintexts| && opens == plaintexts[..|ks|])
  {
    var arrivals := Ciphertexts(Frames(ks), plaintexts);
    assert forall i :: 0 <= i < |ks| ==> ks[i] in ks;
    assert forall i :: 0 <= i < |ks| ==> arrivals[i] == NC.Sealed(ks[i], plaintexts[ks[i]]);
    if ks == Ascending(|ks|) {
      if |ks| > 0 { assert ks[|ks| - 1] == |ks| - 1 && ks[|ks| - 1] in ks; }
      assert arrivals == NC.SealedLog(plaintexts[..|ks|]);
      NC.InOrderArrivalsAllOpen(plaintexts[..|ks|]);
    }
    NC.AllOpenMeansInOrder(arrivals);
    if |NC.Opened(arrivals)| == |ks| {
      forall i | 0 <= i < |ks| ensures ks[i] == i { assert arrivals[i] == NC.SealedLog(NC.Opened(arrivals))[i]; }
      assert ks == Ascending(|ks|);
    }
  }

  /** Every number that was encrypted is in a sender's hand or was handed over, once. */
  ghost predicate NumbersOk(e: Endpoint)
  {
    && (forall k: nat :: k < e.sent <==> k in e.inHand || k in e.handed)
    && (forall k :: k in e.inHand ==> k !in e.handed)
    && (forall i, j :: 0 <= i < j < |e.handed| ==> e.handed[i] != e.handed[j])
  }

  lemma {:induction false} EveryNumberOnce(
    idA: Id, keyA: Key, idB: Id, keyB: Key, events: seq<Event>, idOf: Key -> Id)
    ensures NumbersOk(Run(Start(idA, keyA, idB, keyB), events, idOf).b)
  {
    if events != [] {
      var init, e := events[..|events| - 1], events[|events| - 1];
      EveryNumberOnce(idA, keyA, idB, keyB, init, idOf);
      StepNumbers(Run(Start(idA, keyA, idB, keyB), init, idOf), e, idOf);
      hide NumbersOk;
    }
  }

  lemma HandOverKeepsNumbers(b: Endpoint, k: nat)
    requires NumbersOk(b) && k in b.inHand
    ensures NumbersOk(b.(inHand := b.inHand - {k}, handed := b.handed + [k]))
  {
    assert forall x: nat :: x in b.handed + [k] <==> x in b.handed || x == k;
  }

  lemma StepNumbers(s: System, e: Event, idOf: Key -> Id)
    requires NumbersOk(s.b)
    ensures NumbersOk(Next(s, e, idOf).b)
  {
    TaskFacts(s.b, idOf);
    if !e.atA && e.act.HandOver? && e.act.k in s.b.inHand { HandOverKeepsNumbers(s.b, e.act.k); }
    hide StepTask;
  }

  // ---------------------------------------------------------------- two senders race for the queue

  /** Both sessions come up, and a first sender at b encrypts. */
  const MEETING: seq<Event> :=
    [Event(false, TaskStep), Event(true, TaskStep), Event(true, TaskStep), Event(true, TaskStep), Event(false, Encrypt)]

  /** A second one encrypts and hands over before the first; a takes both. */
  const RACE: seq<Event> :=
    [Event(false, Encrypt), Event(false, HandOver(1)), Event(false, HandOver(0)), DELIVER, DELIVER]

  function UpA(a: Endpoint, b: Endpoint): Endpoint
  {
    a.(pc := Up, session := Some(Session(a.peer, b.key)), readLog := [M2(b.key)])
  }

  function UpB(a: Endpoint, b: Endpoint): Endpoint
  {
    b.(pc := Up, session := Some(Session(b.peer, a.key)), readLog := [M1, M3(a.key)])
  }

  lemma Meets(a: Endpoint, b: Endpoint, idOf: Key -> Id)
    requires HonestPair(a, b, idOf)
    ensures NextFive(Stage(3, a, b), MEETING, idOf) == System(UpA(a, b), UpB(a, b).(sent := 1, inHand := {0}), [], [])
  {
    hide Less;
    var s0, es := Stage(3, a, b), MEETING;
    var s1 := Next(s0, es[0], idOf);
    assert s1 == System(s0.a, UpB(a, b), [], []);
    var s2 := Next(s1, es[1], idOf);
    assert s2 == System(s0.a.(pc := Unregister(b.key)), s1.b, [], []);
    var s3 := Next(s2, es[2], idOf);
    assert s3.a == a.(pc := Insert(b.key), readLog := [M2(b.key)]);
    var s4 := Next(s3, es[3], idOf);
    assert s4 == System(UpA(a, b), UpB(a, b), [], []);
  }

  lemma Races(a: Endpoint, b: Endpoint, idOf: Key -> Id)
    requires HonestPair(a, b, idOf)
    ensures NextFive(System(UpA(a, b), UpB(a, b).(sent := 1, inHand := {0}), [], []), RACE, idOf) ==
            System(UpA(a, b).(received := [App(1), App(0)]), UpB(a, b).(sent := 2, handed := [1, 0]), [], [])
  {
    hide Less;
    var s0, es := System(UpA(a, b), UpB(a, b).(sent := 1, inHand := {0}), [], []), RACE;
    var s1 := Next(s0, es[0], idOf);
    assert s1 == s0.(b := s0.b.(sent := 2, inHand := {0, 1}));
    var s2 := Next(s1, es[1], idOf);
    assert s2 == System(s0.a, s0.b.(sent := 2, inHand := {0}, handed := [1]), [], [App(1)]);
    var s3 := Next(s2, es[2], idOf);
    assert s3 == System(s0.a, s0.b.(sent := 2, inHand := {}, handed := [1, 0]), [], [App(1), App(0)]);
    var s4 := Next(s3, es[3], idOf);
    assert s4 == System(s0.a.(received := [App(1)]), s3.b, [], [App(0)]);
  }

  /** Encrypting and handing over are not one step, so two senders can hand over in the other
      order: for any honest pair there is a run in which nothing is lost, every frame leaves
      the queue when the session is in place, and only the first plaintext opens. */
  lemma {:induction false} HandedOverOutOfOrder(
    idA: Id, keyA: Key, idB: Id, keyB: Key, x: seq<NC.Bytes.Byte>, y: seq<NC.Bytes.Byte>, idOf: Key -> Id)
    requires Less(idA, idB) && idOf(keyA) == idA && idOf(keyB) == idB
    ensures var start, events := Start(idA, keyA, idB, keyB), Part(1) + Part(2) + Part(3) + MEETING + RACE;
            var s := Run(start, events, idOf);
            && AllLeftReady(start, events, idOf) && s.ba == [] && s.b.sent == 2 && s.b.inHand == {}
            && s.a.received == [App(1), App(0)] && NC.Opened(Ciphertexts(s.a.received, [x, y])) == [x]
  {
    var a, b, start := Fresh(idA, keyA, idB), Fresh(idB, keyB, idA), Start(idA, keyA, idB, keyB);
    var before := Part(1) + Part(2) + Part(3);
    OneSideIsLess(idA, idB);
    HonestStart(idA, keyA, idB, keyB, idOf);
    ThreePartsRun(idA, keyA, idB, keyB, idOf);
    Meets(a, b, idOf);
    Races(a, b, idOf);
    hide Less, Run, Next, Stage, Part;
    RunFive(start, before, MEETING[0], MEETING[1], MEETING[2], MEETING[3], MEETING[4], idOf);
    assert MEETING == [MEETING[0], MEETING[1], MEETING[2], MEETING[3], MEETING[4]];
    RunFive(start, before + MEETING, RACE[0], RACE[1], RACE[2], RACE[3], RACE[4], idOf);
    assert RACE == [RACE[0], RACE[1], RACE[2], RACE[3], RACE[4]];
    var s := Run(start, before + MEETING + RACE, idOf);
    assert Apps(s.ba) == [] && s.a.received + Apps(s.ba) == Frames(s.b.handed);
    NothingLostIff(idA, keyA, idB, keyB, before + MEETING + RACE, idOf);
    SecondArrivesFirst(x, y);
  }

  lemma SecondArrivesFirst(x: seq<NC.Bytes.Byte>, y: seq<NC.Bytes.Byte>)
    ensures NC.Opened(Ciphertexts([App(1), App(0)], [x, y])) == [x]
  {
    var arrivals := Ciphertexts([App(1), App(0)], [x, y]);
    assert arrivals == [NC.Sealed(1, y), NC.Sealed(0, x)];
    assert arrivals[..1] == [NC.Sealed(1, y)] && arrivals[..1][..0] == [];
    assert NC.Opened(arrivals[..1]) == [];
  }

  // ---------------------------------------------------------------- what a sender can see

  /** Who has sent is up, and who has received from a peer, or has something from it under
      way, has a peer that sent. */
  predicate SentMeansUp(s: System)
  {
    && (s.a.sent > 0 ==> s.a.pc.Up?)
    && (AnyApp(s.b.received) || AnyApp(UnderWay(s.b.waiter, s.ab)) ==> s.a.sent > 0)
    && (forall f :: f in s.ba && f.App? ==> f.nonce in s.b.handed)
    && (s.a.inHand != {} ==> s.a.sent > 0)
  }

  predicate AnyApp(fs: seq<Frame>)
  {
    exists f :: f in fs && f.App?
  }

  lemma StepAtSender(s: System, act: Act, idOf: Key -> Id)
    requires SentMeansUp(s)
    ensures SentMeansUp(ActAtA(s, act, idOf)) && (s.a.pc.Up? ==> ActAtA(s, act, idOf).a.pc.Up?)
  {
    hide StepTask;
    TaskFacts(s.a, idOf);
    var out := if act.TaskStep? then StepTask(s.a, idOf).1
               else if act.HandOver? && act.k in s.a.inHand then [App(act.k)] else [];
    assert ActAtA(s, act, idOf).ab == s.ab + out;
    forall f ensures f in UnderWay(s.b.waiter, s.ab + out) <==> f in UnderWay(s.b.waiter, s.ab) || f in out {
      assert UnderWay(s.b.waiter, s.ab + out) == UnderWay(s.b.waiter, s.ab) + out;
    }
    hide UnderWay;
  }

  lemma StepAtReceiver(s: System, act: Act, idOf: Key -> Id)
    requires SentMeansUp(s)
    ensures SentMeansUp(Swap(ActAtA(Swap(s), act, idOf)))
  {
    hide StepTask;
    TaskFacts(s.b, idOf);
    var t := Swap(ActAtA(Swap(s), act, idOf));
    ReceiverFrames(s, act, idOf);
    hide UnderWay;
  }

  lemma ReceiverFrames(s: System, act: Act, idOf: Key -> Id)
    ensures var t := Swap(ActAtA(Swap(s), act, idOf));
            && (forall f :: f in UnderWay(t.b.waiter, t.ab) ==> f in UnderWay(s.b.waiter, s.ab))
            && (forall f :: f in t.b.received ==> f in s.b.received || f in UnderWay(s.b.waiter, s.ab))
  {
    hide StepTask;
    TaskFacts(s.b, idOf);
    var t := Swap(ActAtA(Swap(s), act, idOf));
    if act.Deliver? && s.ab != [] { assert s.ab[0] in s.ab && forall f :: f in s.ab[1..] ==> f in s.ab; }
  }

  lemma NextKeepsSent(s: System, e: Event, idOf: Key -> Id)
    requires SentMeansUp(s)
    ensures SentMeansUp(Next(s, e, idOf)) && (s.a.pc.Up? ==> Next(s, e, idOf).a.pc.Up?)
    ensures s.b.handed <= Next(s, e, idOf).b.handed
  {
    if e.atA { StepAtSender(s, e.act, idOf); } else { StepAtReceiver(s, e.act, idOf); }
    hide SentMeansUp, StepTask;
  }

  lemma {:induction false} SentMeansUpAlways(start: System, events: seq<Event>, idOf: Key -> Id, m: nat)
    requires SentMeansUp(start) && m <= |events|
    ensures SentMeansUp(Run(start, events, idOf))
    ensures Run(start, events[..m], idOf).a.pc.Up? ==> Run(start, events, idOf).a.pc.Up?
    ensures Run(start, events[..m], idOf).b.handed <= Run(start, events, idOf).b.handed
  {
    hide Next, SentMeansUp;
    if m == |events| {
      assert events[..m] == events;
      if events != [] {
        SentMeansUpAlways(start, events[..m - 1], idOf, m - 1);
        NextKeepsSent(Run(start, events[..m - 1], idOf), events[m - 1], idOf);
      }
    } else {
      var n := |events| - 1;
      SentMeansUpAlways(start, events[..n], idOf, m);
      assert events[..n][..m] == events[..m];
      NextKeepsSent(Run(start, events[..n], idOf), events[n], idOf);
    }
  }

  lemma HandedGrows(start: System, events: seq<Event>, idOf: Key -> Id, j: nat, m: nat)
    requires SentMeansUp(start) && j <= m <= |events|
    ensures Run(start, events[..j], idOf).b.handed <= Run(start, events[..m], idOf).b.handed
  {
    SentMeansUpAlways(start, events[..m], idOf, j);
    assert events[..m][..j] == events[..j];
  }

  /** A sender that has itself received an application frame of the peer need not fear the
      handshake any more: whatever it hands over from then on finds the session in place when it
      leaves the queue, and is received if and only if the id is still tracked then. */
  lemma AnsweredSenderIsHeard(
    idA: Id, keyA: Key, idB: Id, keyB: Key, events: seq<Event>, idOf: Key -> Id, m: nat, k: nat, j: nat)
    requires idA != idB && m <= |events|
    requires var s := Run(Start(idA, keyA, idB, keyB), events[..m], idOf); s.b.received != [] && k !in s.b.handed
    requires TakenAt(Start(idA, keyA, idB, keyB), events, idOf, k, j)
    ensures var s := Run(Start(idA, keyA, idB, keyB), events[..j], idOf);
            && m <= j && s.a.pc.Up?
            && (App(k) in Next(s, events[j], idOf).a.received <==> s.a.tracked || App(k) in s.a.received)
  {
    var start := Start(idA, keyA, idB, keyB);
    var s := Run(start, events[..j], idOf);
    SentMeansUpAlways(start, events[..j], idOf, 0);
    assert s.ba[0] in s.ba && k in s.b.handed;
    var earlier := Run(start, events[..m], idOf);
    EveryInterleaving(idA, keyA, idB, keyB, events[..m], idOf);
    assert earlier.b.received[0] in earlier.b.received;
    if j < m { HandedGrows(start, events, idOf, j, m); }
    SentMeansUpAlways(start, events[..m], idOf, 0);
    SentMeansUpAlways(start, events[..j], idOf, m);
    assert events[..j][..m] == events[..m];
    EveryInterleaving(idA, keyA, idB, keyB, events[..j], idOf);
    StepReceives(s, events[j], idOf);
    hide Run, Next, Inv;
  }

  // ---------------------------------------------------------------- the other endpoint

  function Flip(events: seq<Event>): seq<Event>
  {
    seq(|events|, i requires 0 <= i < |events| => Event(!events[i].atA, events[i].act))
  }

  /** Exchanging the endpoints exchanges everything: what holds of frames to a holds of frames
      to b. */
  lemma {:induction false} SidesAreAlike(s: System, events: seq<Event>, idOf: Key -> Id)
    ensures Run(Swap(s), Flip(events), idOf) == Swap(Run(s, events, idOf))
  {
    hide ActAtA;
    if events != [] {
      var n := |events| - 1;
      SidesAreAlike(s, events[..n], idOf);
      assert Flip(events)[..n] == Flip(events[..n]);
    }
  }
}
