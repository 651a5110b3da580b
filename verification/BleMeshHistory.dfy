/** What holds of every run of a BLE network with any ids whatever, however many there are and
    whether or not they fit the frame. */
module BleMeshHistory {
  import opened Wrappers
  import opened BleReassembly
  import opened BleSeenCache
  import opened BleMesh

  /** The id a receiver reads out of a frame made for `id`. */
  function WireId(id: Id): Id
  {
    TrimEnd(IdField(id))
  }

  lemma FrameIsRead(id: Id, ttl: Byte, payload: seq<Byte>)
    ensures Unframe(FrameMessage(id, ttl, payload)) == Some(Message(WireId(id), ttl, payload))
  {
    var framed := FrameMessage(id, ttl, payload);
    assert framed[..ID_SIZE] == IdField(id) && framed[ID_SIZE + 1..] == payload;
    hide TrimEnd, IdField;
  }

  /** What a frame was made of once, it is made of again: relaying does not change the id. */
  lemma WireIdStays(id: Id)
    ensures WireId(WireId(id)) == WireId(id)
  {
    var wire := WireId(id);
    TrimEndFits(IdField(id));
    assert FitsField(wire);
    FrameRoundTrips(wire, 0, []);
    FrameIsRead(wire, 0, []);
  }

  /** Position `at` of a history is a put of `id` that the node did not know then. */
  predicate UsedAt(puts: seq<Id>, at: nat, id: Id)
  {
    at < |puts| && puts[at] == id && id !in CacheOf(puts[..at], DEDUP_CACHE_MAX_SIZE)
  }

  /** Every delivery and every transmission is at a put of its own. */
  ghost predicate UsesOk(node: Node)
  {
    && |node.deliveredAt| == |node.delivered| && |node.transmittedAt| == |node.transmitted|
    && (forall i :: 0 <= i < |node.delivered| ==> UsedAt(node.puts, node.deliveredAt[i], node.delivered[i].id))
    && (forall i :: 0 <= i < |node.transmitted| ==> UsedAt(node.puts, node.transmittedAt[i], node.transmitted[i]))
    && (forall i, j :: 0 <= i < j < |node.delivered| ==> node.deliveredAt[i] < node.deliveredAt[j])
    && (forall i, j :: 0 <= i < j < |node.transmitted| ==> node.transmittedAt[i] < node.transmittedAt[j])
    && (forall i, j :: 0 <= i < |node.delivered| && 0 <= j < |node.transmitted| ==>
          node.deliveredAt[i] != node.transmittedAt[j])
  }

  /** The message as it is `hops` hops away from the node that originated it. */
  function AfterHops(e: Event, hops: nat): Message
    requires e.Originate? && 1 <= hops <= DEFAULT_TTL
  {
    Message(WireId(e.id), DEFAULT_TTL + 1 - hops, e.payload)
  }

  ghost predicate Travelled(m: Message, origin: nat, hops: nat, events: seq<Event>, size: nat)
  {
    && 1 <= hops <= DEFAULT_TTL && origin < size
    && exists e :: e in events && e.Originate? && e.n == origin && m == AfterHops(e, hops)
  }

  /** A delivered message was originated, and has come as many hops as its budget has shrunk. */
  ghost predicate Originated(m: Message, events: seq<Event>, size: nat)
  {
    exists origin: nat, hops: nat :: Travelled(m, origin, hops, events, size)
  }

  ghost predicate CopyOk(copy: Copy, events: seq<Event>, size: nat)
  {
    Unframe(copy.framed).Some? && Travelled(Unframe(copy.framed).value, copy.origin, copy.hops, events, size)
  }

  ghost predicate RelayOk(r: PendingRelay, events: seq<Event>, size: nat)
  {
    Travelled(r.message, r.origin, r.hops, events, size)
  }

  ghost predicate NodeOk(node: Node, events: seq<Event>, size: nat)
  {
    && UsesOk(node)
    && (forall m :: m in node.delivered ==> Originated(m, events, size))
    && (forall r :: r in node.relays ==> RelayOk(r, events, size))
  }

  ghost predicate NetworkOk(w: Network, events: seq<Event>)
  {
    && (forall n :: 0 <= n < |w.nodes| ==> NodeOk(w.nodes[n], events, |w.nodes|))
    && (forall copy :: copy in w.air ==> CopyOk(copy, events, |w.nodes|))
  }

  lemma UseStays(puts: seq<Id>, at: nat, id: Id, more: Id)
    requires UsedAt(puts, at, id)
    ensures UsedAt(puts + [more], at, id)
  {
    assert (puts + [more])[..at] == puts[..at];
  }

  lemma NewUse(node: Node, id: Id)
    requires !Knows(node, id)
    ensures UsedAt(node.puts + [id], |node.puts|, id)
  {
    assert (node.puts + [id])[..|node.puts|] == node.puts;
    CachedIffRecent(node.puts, id, DEDUP_CACHE_MAX_SIZE);
  }

  lemma UsesStay(node: Node, more: Id)
    requires UsesOk(node)
    ensures UsesOk(node.(puts := node.puts + [more]))
  {
    forall at: nat, id | UsedAt(node.puts, at, id) ensures UsedAt(node.puts + [more], at, id) {
      UseStays(node.puts, at, id, more);
    }
    hide UsedAt;
  }

  lemma UsesInside(node: Node)
    requires UsesOk(node)
    ensures forall i :: 0 <= i < |node.delivered| ==> node.deliveredAt[i] < |node.puts|
    ensures forall i :: 0 <= i < |node.transmitted| ==> node.transmittedAt[i] < |node.puts|
  {
  }

  lemma HeardKeepsUses(node: Node, m: Message, origin: nat, hops: nat)
    requires UsesOk(node)
    ensures UsesOk(Heard(node, m, origin, hops))
  {
    UsesStay(node, m.id);
    UsesInside(node);
    if !Knows(node, m.id) { NewUse(node, m.id); }
    hide UsedAt, Knows;
  }

  lemma TransmittedKeepsUses(node: Node, id: Id)
    requires UsesOk(node) && !Knows(node, id)
    ensures UsesOk(node.(puts := node.puts + [id], transmitted := node.transmitted + [id],
                         transmittedAt := node.transmittedAt + [|node.puts|]))
  {
    UsesStay(node, id);
    UsesInside(node);
    NewUse(node, id);
    hide UsedAt, Knows;
  }

  lemma TravelStays(m: Message, origin: nat, hops: nat, events: seq<Event>, e: Event, size: nat)
    requires Travelled(m, origin, hops, events, size)
    ensures Travelled(m, origin, hops, events + [e], size)
  {
    var o :| o in events && o.Originate? && o.n == origin && m == AfterHops(o, hops);
    assert o in events + [e];
  }

  lemma MoreEvents(w: Network, events: seq<Event>, e: Event)
    requires NetworkOk(w, events)
    ensures NetworkOk(w, events + [e])
  {
    forall m: Message, origin: nat, hops: nat | Travelled(m, origin, hops, events, |w.nodes|)
      ensures Travelled(m, origin, hops, events + [e], |w.nodes|)
    {
      TravelStays(m, origin, hops, events, e, |w.nodes|);
    }
    hide Travelled, UsesOk;
    forall n | 0 <= n < |w.nodes| ensures NodeOk(w.nodes[n], events + [e], |w.nodes|) {
      var node := w.nodes[n];
      assert NodeOk(node, events, |w.nodes|);
      forall r | r in node.relays ensures RelayOk(r, events + [e], |w.nodes|) { assert RelayOk(r, events, |w.nodes|); }
      forall m | m in node.delivered ensures Originated(m, events + [e], |w.nodes|) {
        assert Originated(m, events, |w.nodes|);
      }
    }
    forall copy | copy in w.air ensures CopyOk(copy, events + [e], |w.nodes|) {
      assert CopyOk(copy, events, |w.nodes|);
    }
  }

  /** A broadcast of a message that has travelled as its copy says, or is about to. */
  lemma BroadcastKeepsOk(w: Network, events: seq<Event>, n: nat, m: Message, origin: nat, hops: nat)
    requires NetworkOk(w, events) && n < |w.nodes|
    requires Travelled(Message(WireId(m.id), m.ttl, m.payload), origin, hops, events, |w.nodes|)
    ensures NetworkOk(OnBroadcast(w, n, m, origin, hops), events)
    ensures |OnBroadcast(w, n, m, origin, hops).nodes| == |w.nodes|
  {
    hide UsesOk, OnBroadcast, FrameMessage, Unframe;
    BroadcastTransmits(w, n, m, origin, hops);
    FrameIsRead(m.id, m.ttl, m.payload);
    assert NodeOk(w.nodes[n], events, |w.nodes|);
    if !Knows(w.nodes[n], m.id) { TransmittedKeepsUses(w.nodes[n], m.id); }
    assert CopyOk(Copy(FrameMessage(m.id, m.ttl, m.payload), origin, hops), events, |w.nodes|);
    hide CopyOk, Knows, Originated, RelayOk;
  }

  lemma OriginateKeepsOk(w: Network, events: seq<Event>, e: Event)
    requires NetworkOk(w, events) && e in events && e.Originate? && e.n < |w.nodes|
    ensures NetworkOk(OnOriginate(w, e.n, e.id, e.payload), events)
    ensures |OnOriginate(w, e.n, e.id, e.payload).nodes| == |w.nodes|
  {
    assert AfterHops(e, 1) == Message(WireId(e.id), DEFAULT_TTL, e.payload);
    BroadcastKeepsOk(w, events, e.n, Message(e.id, DEFAULT_TTL, e.payload), e.n, 1);
    hide NetworkOk;
  }

  lemma HearKeepsOk(w: Network, events: seq<Event>, n: nat, copy: Copy)
    requires NetworkOk(w, events) && n < |w.nodes| && copy in w.air
    ensures NetworkOk(OnHear(w, n, copy), events) && |OnHear(w, n, copy).nodes| == |w.nodes|
  {
    hide UsesOk, OnHear, Unframe;
    assert CopyOk(copy, events, |w.nodes|);
    var m := Unframe(copy.framed).value;
    HearDelivers(w, n, copy, m);
    assert NodeOk(w.nodes[n], events, |w.nodes|) && Originated(m, events, |w.nodes|);
    HeardKeepsUses(w.nodes[n], m, copy.origin, copy.hops + 1);
    RelayTravelsOn(m, copy.origin, copy.hops, events, |w.nodes|);
    hide CopyOk, Originated, Knows, Travelled;
    assert NodeOk(Heard(w.nodes[n], m, copy.origin, copy.hops + 1), events, |w.nodes|);
  }

  /** With a hop left, one hop further on the message is what the relay makes of it. */
  lemma RelayTravelsOn(m: Message, origin: nat, hops: nat, events: seq<Event>, size: nat)
    requires Travelled(m, origin, hops, events, size)
    ensures m.ttl > 1 ==> RelayOk(PendingRelay(m.(ttl := m.ttl - 1), origin, hops + 1), events, size)
  {
    var e :| e in events && e.Originate? && e.n == origin && m == AfterHops(e, hops);
    assert m.ttl > 1 ==> m.(ttl := m.ttl - 1) == AfterHops(e, hops + 1);
  }

  lemma GoOnKeepsOk(w: Network, events: seq<Event>, n: nat, k: nat)
    requires NetworkOk(w, events) && n < |w.nodes| && k < |w.nodes[n].relays|
    ensures NetworkOk(OnGoOn(w, n, k), events) && |OnGoOn(w, n, k).nodes| == |w.nodes|
  {
    var node, r := w.nodes[n], w.nodes[n].relays[k];
    assert NodeOk(node, events, |w.nodes|) && r in node.relays && RelayOk(r, events, |w.nodes|);
    RelayKeepsId(r, events, |w.nodes|);
    WithoutRelayIsOk(node, k, events, |w.nodes|);
    hide UsesOk, CopyOk, Originated, RelayOk, Travelled, OnBroadcast;
    var w' := w.(nodes := w.nodes[n := WithoutRelay(node, k)]);
    hide WithoutRelay;
    assert NetworkOk(w', events);
    BroadcastKeepsOk(w', events, n, r.message, r.origin, r.hops);
  }

  lemma RelayKeepsId(r: PendingRelay, events: seq<Event>, size: nat)
    requires RelayOk(r, events, size)
    ensures Message(WireId(r.message.id), r.message.ttl, r.message.payload) == r.message
  {
    var e :| e in events && e.Originate? && e.n == r.origin && r.message == AfterHops(e, r.hops);
    WireIdStays(e.id);
  }

  lemma WithoutRelayIsOk(node: Node, k: nat, events: seq<Event>, size: nat)
    requires NodeOk(node, events, size) && k < |node.relays|
    ensures NodeOk(WithoutRelay(node, k), events, size)
  {
    hide Originated, RelayOk, UsedAt;
  }

  lemma {:induction false} RunIsOk(size: nat, events: seq<Event>)
    ensures NetworkOk(Run(size, events), events) && |Run(size, events).nodes| == size
  {
    if events != [] {
      hide NetworkOk, OnHear, OnOriginate, OnGoOn;
      var init, e := events[..|events| - 1], events[|events| - 1];
      assert events == init + [e];
      RunIsOk(size, init);
      var w := Run(size, init);
      MoreEvents(w, init, e);
      match e
      case Originate(n, id, payload) => if n < size { OriginateKeepsOk(w, events, e); }
      case Hear(n, k) => if n < size && k < |w.air| { HearKeepsOk(w, events, n, w.air[k]); }
      case GoOn(n, k) => if n < size && k < |w.nodes[n].relays| { GoOnKeepsOk(w, events, n, k); }
    }
  }

  /** The positions of a node's deliveries and transmissions. */
  function Uses(node: Node): seq<nat> { node.deliveredAt + node.transmittedAt }

  /** Two uses of one id at a node are separated by puts of at least 500 other distinct ids. */
  predicate FarApart(puts: seq<Id>, p: nat, q: nat)
  {
    p < q < |puts| && puts[p] == puts[q] ==> |Elements(puts[p + 1..q]) - {puts[q]}| >= DEDUP_CACHE_MAX_SIZE
  }

  lemma UsesAreFarApart(puts: seq<Id>, p: nat, q: nat, id: Id)
    requires p < q && p < |puts| && puts[p] == id && UsedAt(puts, q, id)
    ensures FarApart(puts, p, q)
  {
    assert puts[..q][p + 1..] == puts[p + 1..q];
    ForgottenOnlyAfterMany(puts[..q], p, DEDUP_CACHE_MAX_SIZE);
  }

  /** In every run of any network, with any ids, and whatever nodes put between recording a
      message and relaying it: two deliveries of one id at a node, two transmissions, or a
      delivery and a transmission, have at least 500 distinct other ids between them in what
      the node put in its cache; and what is delivered or in the air was originated at the node
      it names, unchanged but for the hops it has travelled, never more than DEFAULT_TTL. */
  lemma {:induction false} EveryRunWithAnyIds(size: nat, events: seq<Event>, n: nat)
    requires n < size
    ensures |Run(size, events).nodes| == size
    ensures var node := Run(size, events).nodes[n];
            && UsesOk(node)
            && (forall p, q :: p in Uses(node) && q in Uses(node) ==> FarApart(node.puts, p, q))
            && (forall m :: m in node.delivered ==> Originated(m, events, size))
    ensures forall copy :: copy in Run(size, events).air ==> CopyOk(copy, events, size) && copy.hops <= DEFAULT_TTL
  {
    RunIsOk(size, events);
    var node := Run(size, events).nodes[n];
    assert NodeOk(node, events, size);
    forall p, q | p in Uses(node) && q in Uses(node) ensures FarApart(node.puts, p, q) {
      UsesInside(node);
      UseIsUsed(node, q);
      if p < q && node.puts[p] == node.puts[q] { UsesAreFarApart(node.puts, p, q, node.puts[q]); }
    }
    hide Run, UsesOk, Originated, FarApart;
  }

  lemma UseIsUsed(node: Node, q: nat)
    requires UsesOk(node) && q in Uses(node)
    ensures q < |node.puts| && UsedAt(node.puts, q, node.puts[q])
  {
    if q in node.deliveredAt {
      var i :| 0 <= i < |node.deliveredAt| && node.deliveredAt[i] == q;
      assert UsedAt(node.puts, node.deliveredAt[i], node.delivered[i].id);
    } else {
      var i :| 0 <= i < |node.transmittedAt| && node.transmittedAt[i] == q;
      assert UsedAt(node.puts, node.transmittedAt[i], node.transmitted[i]);
    }
  }

  /** In particular, two deliveries of one id. */
  lemma {:induction false} TwoDeliveriesAreFarApart(size: nat, events: seq<Event>, n: nat, i: nat, j: nat)
    requires n < size
    ensures |Run(size, events).nodes| == size
    ensures var node := Run(size, events).nodes[n];
            i < j < |node.delivered| && node.delivered[i].id == node.delivered[j].id ==>
              && |node.deliveredAt| == |node.delivered| && node.deliveredAt[i] < node.deliveredAt[j] < |node.puts|
              && node.puts[node.deliveredAt[i]] == node.puts[node.deliveredAt[j]] == node.delivered[i].id
              && |Elements(node.puts[node.deliveredAt[i] + 1..node.deliveredAt[j]]) - {node.delivered[i].id}|
                 >= DEDUP_CACHE_MAX_SIZE
  {
    EveryRunWithAnyIds(size, events, n);
    var node := Run(size, events).nodes[n];
    if i < j < |node.delivered| && node.delivered[i].id == node.delivered[j].id {
      var p, q := node.deliveredAt[i], node.deliveredAt[j];
      assert p in Uses(node) && q in Uses(node);
      assert UsedAt(node.puts, p, node.delivered[i].id) && UsedAt(node.puts, q, node.delivered[j].id);
      assert FarApart(node.puts, p, q);
    }
  }
}
