/** Framing, sending and delivering BLE mesh messages, at one node and over a whole network
    of nodes that hear each other's transmissions in any order, repeatedly or never. */
module BleMesh {
  import opened Wrappers
  import opened BleReassembly
  import opened BleSeenCache

  const DEFAULT_TTL: Byte := 4
  const ID_SIZE: nat := 16

  // ---------------------------------------------------------------- framing

  /** `copyOf(16)`: cut off or padded with zeros. */
  function IdField(id: Id): (field: seq<Byte>)
    ensures |field| == ID_SIZE
  {
    if |id| >= ID_SIZE then id[..ID_SIZE] else id + seq(ID_SIZE - |id|, _ => 0)
  }

  /** `trimEnd('\u0000')` */
  function TrimEnd(s: seq<Byte>): seq<Byte>
  {
    if s != [] && s[|s| - 1] == 0 then TrimEnd(s[..|s| - 1]) else s
  }

  function FrameMessage(id: Id, ttl: Byte, payload: seq<Byte>): seq<Byte>
  {
    IdField(id) + [ttl] + payload
  }

  datatype Message = Message(id: Id, ttl: Byte, payload: seq<Byte>)

  function Unframe(framed: seq<Byte>): Option<Message>
  {
    if |framed| < ID_SIZE + 1 then None
    else Some(Message(TrimEnd(framed[..ID_SIZE]), framed[ID_SIZE], framed[ID_SIZE + 1..]))
  }

  /** Ids that survive the 16-byte field. */
  predicate FitsField(id: Id)
  {
    |id| <= ID_SIZE && (id != [] ==> id[|id| - 1] != 0)
  }

  lemma {:induction false} TrimEndOfPadded(id: Id, n: nat)
    ensures TrimEnd(id + seq(n, _ => 0)) == TrimEnd(id)
  {
    var padded := id + seq(n, _ => 0);
    if n == 0 {
      assert padded == id;
    } else {
      assert padded[..|padded| - 1] == id + seq(n - 1, _ => 0);
      TrimEndOfPadded(id, n - 1);
    }
  }

  lemma {:induction false} TrimEndFits(s: seq<Byte>)
    ensures |TrimEnd(s)| <= |s| && (TrimEnd(s) != [] ==> TrimEnd(s)[|TrimEnd(s)| - 1] != 0)
    ensures TrimEnd(s) == s <==> (s != [] ==> s[|s| - 1] != 0)
  {
    if s != [] && s[|s| - 1] == 0 { TrimEndFits(s[..|s| - 1]); }
  }

  /** A framed message is read back with its ttl and payload always, and with its id exactly
      when the id is at most 16 bytes and does not end in a zero. */
  lemma FrameRoundTrips(id: Id, ttl: Byte, payload: seq<Byte>)
    ensures var m := Unframe(FrameMessage(id, ttl, payload));
            && m.Some? && m.value.ttl == ttl && m.value.payload == payload
            && (m.value.id == id <==> FitsField(id))
  {
    var framed := FrameMessage(id, ttl, payload);
    assert framed[..ID_SIZE] == IdField(id) && framed[ID_SIZE + 1..] == payload;
    TrimEndFits(IdField(id));
    TrimEndFits(id);
    if |id| <= ID_SIZE {
      TrimEndOfPadded(id, ID_SIZE - |id|);
      assert IdField(id) == id + seq(ID_SIZE - |id|, _ => 0);
    }
  }

  /** The frame, byte by byte: 16 for the id, cut off or filled up with zeros, then the ttl, then
      the payload. */
  lemma FrameBytes(id: Id, ttl: Byte, payload: seq<Byte>)
    ensures var framed := FrameMessage(id, ttl, payload);
            && |framed| == 17 + |payload|
            && (forall k :: 0 <= k < 16 ==> framed[k] == if k < |id| then id[k] else 0)
            && framed[16] == ttl && framed[17..] == payload
  {
    assert FrameMessage(id, ttl, payload)[17..] == payload;
  }

  // ---------------------------------------------------------------- one node

  /** `broadcastMessage`: the cache after it, and the frame written to every connection. */
  function Broadcast(order: seq<Id>, id: Id, payload: seq<Byte>, ttl: Byte): (seq<Id>, Option<seq<Byte>>)
  {
    if ttl <= 0 || id in order then (order, None)
    else (AfterPut(order, id, DEDUP_CACHE_MAX_SIZE), Some(FrameMessage(id, ttl, payload)))
  }

  datatype Taken = Taken(order: seq<Id>, delivered: Option<Message>, relay: Option<Message>)

  /** `handleReassembledMessage` up to its callback: the id is recorded, and if it was new the
      message is delivered and, with hops left, is to be relayed. */
  function Take(order: seq<Id>, framed: seq<Byte>): Taken
  {
    match Unframe(framed)
    case None => Taken(order, None, None)
    case Some(m) =>
      var seen := AfterPut(order, m.id, DEDUP_CACHE_MAX_SIZE);
      if m.id in order then Taken(seen, None, None)
      else Taken(seen, Some(m), if m.ttl > 1 then Some(m.(ttl := m.ttl - 1)) else None)
  }

  datatype Handled = Handled(order: seq<Id>, delivered: Option<Message>, relayed: Option<seq<Byte>>)

  /** The whole of it, when nothing else is put between recording and relaying. */
  function Handle(order: seq<Id>, framed: seq<Byte>): Handled
  {
    var taken := Take(order, framed);
    match taken.relay
    case None => Handled(taken.order, taken.delivered, None)
    case Some(m) =>
      var relay := Broadcast(taken.order, m.id, m.payload, m.ttl);
      Handled(relay.0, taken.delivered, relay.1)
  }

  class BleNode {
    const seenMessageIds: SeenMessageIds

    constructor ()
      ensures fresh(seenMessageIds) && seenMessageIds.order == []
    {
      seenMessageIds := new SeenMessageIds();
    }

    method BroadcastMessage(id: Id, payload: seq<Byte>, ttl: Byte) returns (written: Option<seq<Byte>>)
      modifies seenMessageIds
      ensures (seenMessageIds.order, written) == Broadcast(old(seenMessageIds.order), id, payload, ttl)
    {
      if ttl <= 0 { return None; }
      var seen := seenMessageIds.ContainsKey(id);
      if seen { return None; }
      seenMessageIds.Put(id);
      written := Some(FrameMessage(id, ttl, payload));
    }

    method TakeMessage(framed: seq<Byte>) returns (delivered: Option<Message>, relay: Option<Message>)
      modifies seenMessageIds
      ensures Taken(seenMessageIds.order, delivered, relay) == Take(old(seenMessageIds.order), framed)
    {
      delivered, relay := None, None;
      if |framed| < ID_SIZE + 1 { return; }
      var id, ttl, payload := TrimEnd(framed[..ID_SIZE]), framed[ID_SIZE], framed[ID_SIZE + 1..];
      var alreadySeen := seenMessageIds.ContainsKey(id);
      seenMessageIds.Put(id);
      if alreadySeen { return; }
      delivered := Some(Message(id, ttl, payload));
      if ttl > 1 { relay := Some(Message(id, ttl - 1, payload)); }
    }

    method HandleReassembledMessage(framed: seq<Byte>) returns (delivered: Option<Message>, relayed: Option<seq<Byte>>)
      modifies seenMessageIds
      ensures Handled(seenMessageIds.order, delivered, relayed) == Handle(old(seenMessageIds.order), framed)
    {
      var relay;
      delivered, relay := TakeMessage(framed);
      relayed := None;
      if relay.Some? { relayed := BroadcastMessage(relay.value.id, relay.value.payload, relay.value.ttl); }
    }
  }

  /** The id of a received message is put before the relay asks for it, so with nothing put in
      between the relay writes nothing; the message itself is delivered as it was framed, if and
      only if its id was not in the cache. */
  lemma ReceivedIsNeverRelayed(order: seq<Id>, framed: seq<Byte>)
    ensures Handle(order, framed).relayed == None
    ensures Handle(order, framed).delivered ==
            if Unframe(framed).Some? && Unframe(framed).value.id !in order then Unframe(framed) else None
    ensures Unframe(framed).Some? ==>
              Handle(order, framed).order == AfterPut(order, Unframe(framed).value.id, DEDUP_CACHE_MAX_SIZE)
  {
    if Unframe(framed).Some? {
      var id := Unframe(framed).value.id;
      var moved := Without(order, id) + [id];
      assert moved[|moved| - 1] == id;
      assert |moved| > 1 ==> moved[1..][|moved| - 2] == id;
      assert id in AfterPut(order, id, DEDUP_CACHE_MAX_SIZE);
    }
  }

  lemma {:induction false} PutSinceSuffix(puts: seq<Id>, id: Id, between: seq<Id>)
    ensures id in puts + [id] + between
    ensures PutSince(puts + [id] + between, id) <= Elements(between) - {id}
    ensures id !in between ==> PutSince(puts + [id] + between, id) == Elements(between)
  {
    var all := puts + [id] + between;
    assert all[|puts|] == id;
    if between == [] {
      assert all[|all| - 1] == id;
    } else {
      var init, last := between[..|between| - 1], between[|between| - 1];
      assert all[..|all| - 1] == puts + [id] + init && between == init + [last];
      PutSinceSuffix(puts, id, init);
    }
  }

  /** Exactly when the relay of a received message does write: when, since its id was last put,
      at least as many distinct other ids were put as the cache holds. Those can only have been
      put between recording and relaying. */
  lemma {:induction false} RelayWritesIff(puts: seq<Id>, m: Message, between: seq<Id>)
    requires m.ttl > 0
    ensures var history := puts + [m.id] + between;
            && PutSince(history, m.id) <= Elements(between) - {m.id}
            && (m.id !in between ==> PutSince(history, m.id) == Elements(between))
            && (Broadcast(CacheOf(history, DEDUP_CACHE_MAX_SIZE), m.id, m.payload, m.ttl).1.Some? <==>
                |PutSince(history, m.id)| >= DEDUP_CACHE_MAX_SIZE)
  {
    PutSinceSuffix(puts, m.id, between);
    CachedIffRecent(puts + [m.id] + between, m.id, DEDUP_CACHE_MAX_SIZE);
  }

  // ---------------------------------------------------------------- a network of nodes

  /** A relay that a node has yet to broadcast: the message with its hops left, where it comes
      from, and how many hops away its copy will be. */
  datatype PendingRelay = PendingRelay(message: Message, origin: nat, hops: nat)

  /** `puts` is every id the node has put in its cache; `deliveredAt` and `transmittedAt` are
      the positions in it of the puts that went with each delivery and transmission. */
  datatype Node = Node(puts: seq<Id>, delivered: seq<Message>, deliveredAt: seq<nat>,
                       transmitted: seq<Id>, transmittedAt: seq<nat>, relays: seq<PendingRelay>)

  /** A transmission: who originated the message, and how many hops it is away from there. */
  datatype Copy = Copy(framed: seq<Byte>, origin: nat, hops: nat)

  datatype Network = Network(nodes: seq<Node>, air: seq<Copy>)

  /** A node goes on to relay at any later moment: its callback runs in between, and whatever
      else it hears and originates. */
  datatype Event =
    | Originate(n: nat, id: Id, payload: seq<Byte>)
    | Hear(n: nat, copy: nat)
    | GoOn(n: nat, relay: nat)

  function Cache(node: Node): seq<Id>
  {
    CacheOf(node.puts, DEDUP_CACHE_MAX_SIZE)
  }

  /** A node broadcasts, and its copy is in the air. */
  function OnBroadcast(w: Network, n: nat, m: Message, origin: nat, hops: nat): Network
    requires n < |w.nodes|
  {
    var node := w.nodes[n];
    var r := Broadcast(Cache(node), m.id, m.payload, m.ttl);
    if r.1.None? then w else
    Network(w.nodes[n := node.(puts := node.puts + [m.id], transmitted := node.transmitted + [m.id],
                               transmittedAt := node.transmittedAt + [|node.puts|])],
            w.air + [Copy(r.1.value, origin, hops)])
  }

  function OnOriginate(w: Network, n: nat, id: Id, payload: seq<Byte>): Network
    requires n < |w.nodes|
  {
    OnBroadcast(w, n, Message(id, DEFAULT_TTL, payload), n, 1)
  }

  /** A node after taking the message m, and making of it what `taken` says. */
  function AfterTake(node: Node, m: Message, taken: Taken, origin: nat, hops: nat): Node
  {
    node.(
      puts := node.puts + [m.id],
      delivered := if taken.delivered.Some? then node.delivered + [taken.delivered.value] else node.delivered,
      deliveredAt := if taken.delivered.Some? then node.deliveredAt + [|node.puts|] else node.deliveredAt,
      relays := if taken.relay.Some? then node.relays + [PendingRelay(taken.relay.value, origin, hops)]
                else node.relays)
  }

  function OnHear(w: Network, n: nat, copy: Copy): Network
    requires n < |w.nodes|
  {
    match Unframe(copy.framed)
    case None => w
    case Some(m) =>
      var node := w.nodes[n];
      var taken := Take(Cache(node), copy.framed);
      w.(nodes := w.nodes[n := AfterTake(node, m, taken, copy.origin, copy.hops + 1)])
  }

  function WithoutRelay(node: Node, k: nat): Node
    requires k < |node.relays|
  {
    node.(relays := node.relays[..k] + node.relays[k + 1..])
  }

  function OnGoOn(w: Network, n: nat, k: nat): Network
    requires n < |w.nodes| && k < |w.nodes[n].relays|
  {
    var r := w.nodes[n].relays[k];
    OnBroadcast(w.(nodes := w.nodes[n := WithoutRelay(w.nodes[n], k)]), n, r.message, r.origin, r.hops)
  }

  function Next(w: Network, e: Event): Network
  {
    match e
    case Originate(n, id, payload) => if n < |w.nodes| then OnOriginate(w, n, id, payload) else w
    case Hear(n, k) => if n < |w.nodes| && k < |w.air| then OnHear(w, n, w.air[k]) else w
    case GoOn(n, k) => if n < |w.nodes| && k < |w.nodes[n].relays| then OnGoOn(w, n, k) else w
  }

  function Run(size: nat, events: seq<Event>): Network
  {
    if events == [] then Network(seq(size, _ => Node([], [], [], [], [], [])), [])
    else Next(Run(size, events[..|events| - 1]), events[|events| - 1])
  }

  /** Every message is originated with an id from `ids` that fits the frame. */
  ghost predicate OriginatesFrom(events: seq<Event>, ids: set<Id>)
  {
    forall e :: e in events && e.Originate? ==> e.id in ids && FitsField(e.id)
  }

  predicate DistinctIds(ms: seq<Message>)
  {
    forall i, j :: 0 <= i < j < |ms| ==> ms[i].id != ms[j].id
  }

  /** The message was originated, with the whole hop budget, at a node other than `n`. */
  ghost predicate CameFromElsewhere(m: Message, n: nat, events: seq<Event>)
  {
    m.ttl == DEFAULT_TTL
    && exists e :: e in events && e.Originate? && e.n != n && e.id == m.id && e.payload == m.payload
  }

  ghost predicate NodeInv(node: Node, n: nat, events: seq<Event>, ids: set<Id>)
  {
    && Elements(node.puts) <= ids
    && DistinctIds(node.delivered) && NoDuplicates(node.transmitted)
    && (forall m :: m in node.delivered ==>
          m.id in node.puts && m.id !in node.transmitted && CameFromElsewhere(m, n, events))
    && (forall id :: id in node.transmitted ==> id in node.puts)
    && (forall r :: r in node.relays ==> r.message.id in node.puts)
  }

  /** What is in the air was originated there, by the node it names, one hop away. */
  ghost predicate CopyInv(copy: Copy, events: seq<Event>, w: Network)
  {
    && copy.hops == 1 && copy.origin < |w.nodes|
    && exists e :: e in events && e.Originate? && e.n == copy.origin && FitsField(e.id)
                && copy.framed == FrameMessage(e.id, DEFAULT_TTL, e.payload) && e.id in w.nodes[copy.origin].transmitted
  }

  ghost predicate Inv(w: Network, events: seq<Event>, ids: set<Id>)
  {
    && (forall n :: 0 <= n < |w.nodes| ==> NodeInv(w.nodes[n], n, events, ids))
    && (forall copy :: copy in w.air ==> CopyInv(copy, events, w))
  }

  /** The cache a node is left with by a call is again the cache of its history. */
  lemma CacheFollowsHistory(puts: seq<Id>, id: Id)
    ensures CacheOf(puts + [id], DEDUP_CACHE_MAX_SIZE) ==
            AfterPut(CacheOf(puts, DEDUP_CACHE_MAX_SIZE), id, DEDUP_CACHE_MAX_SIZE)
  {
    assert (puts + [id])[..|puts|] == puts;
  }

  lemma {:induction false} StepsFollowCaches(
    w: Network, n: nat, m: Message, origin: nat, hops: nat, copy: Copy)
    requires n < |w.nodes|
    ensures Cache(OnBroadcast(w, n, m, origin, hops).nodes[n]) == Broadcast(Cache(w.nodes[n]), m.id, m.payload, m.ttl).0
    ensures Cache(OnHear(w, n, copy).nodes[n]) == Take(Cache(w.nodes[n]), copy.framed).order
  {
    CacheFollowsHistory(w.nodes[n].puts, m.id);
    if Unframe(copy.framed).Some? { CacheFollowsHistory(w.nodes[n].puts, Unframe(copy.framed).value.id); }
  }

  lemma PutKeepsWithin(puts: seq<Id>, id: Id, ids: set<Id>)
    requires Elements(puts) <= ids && id in ids
    ensures Elements(puts + [id]) <= ids
  {
    forall x | x in puts + [id] ensures x in ids { assert x in puts ==> x in Elements(puts); }
  }

  /** More events, and more transmissions at the nodes, leave what was true of a copy true. */
  lemma CopyStays(copy: Copy, events: seq<Event>, e: Event, w: Network, w': Network)
    requires CopyInv(copy, events, w) && |w'.nodes| == |w.nodes|
    requires forall n, id :: 0 <= n < |w.nodes| && id in w.nodes[n].transmitted ==> id in w'.nodes[n].transmitted
    ensures CopyInv(copy, events + [e], w')
  {
  }

  lemma NodeStays(node: Node, n: nat, events: seq<Event>, e: Event, ids: set<Id>)
    requires NodeInv(node, n, events, ids)
    ensures NodeInv(node, n, events + [e], ids)
  {
    forall m | m in node.delivered ensures CameFromElsewhere(m, n, events + [e]) {
      assert CameFromElsewhere(m, n, events);
    }
  }

  lemma OriginateKeepsInv(w: Network, events: seq<Event>, ids: set<Id>, e: Event)
    requires Inv(w, events, ids) && |ids| <= DEDUP_CACHE_MAX_SIZE
    requires e.Originate? && e.n < |w.nodes| && e.id in ids && FitsField(e.id)
    ensures Inv(OnOriginate(w, e.n, e.id, e.payload), events + [e], ids)
  {
    var w', node := OnOriginate(w, e.n, e.id, e.payload), w.nodes[e.n];
    BroadcastTransmits(w, e.n, Message(e.id, DEFAULT_TTL, e.payload), e.n, 1);
    KnowsPuts(node, ids, e.id);
    PutKeepsWithin(node.puts, e.id, ids);
    forall n | 0 <= n < |w'.nodes| ensures NodeInv(w'.nodes[n], n, events + [e], ids) {
      NodeStays(w.nodes[n], n, events, e, ids);
    }
    forall copy | copy in w'.air ensures CopyInv(copy, events + [e], w') {
      if copy in w.air { CopyStays(copy, events, e, w, w'); }
      else { assert e in events + [e]; }
    }
  }

  /** What a node hears is a message originated at the node the copy names. */
  lemma HeardWasOriginated(w: Network, events: seq<Event>, copy: Copy) returns (e: Event)
    requires CopyInv(copy, events, w)
    ensures e in events && e.Originate? && e.n == copy.origin && e.id in w.nodes[copy.origin].transmitted
    ensures Unframe(copy.framed) == Some(Message(e.id, DEFAULT_TTL, e.payload))
  {
    e :| e in events && e.Originate? && e.n == copy.origin && FitsField(e.id)
         && copy.framed == FrameMessage(e.id, DEFAULT_TTL, e.payload) && e.id in w.nodes[copy.origin].transmitted;
    FrameRoundTrips(e.id, DEFAULT_TTL, e.payload);
  }

  /** Ids a node still knows: put, and followed by fewer distinct others than its cache holds. */
  predicate Knows(node: Node, id: Id)
  {
    id in node.puts && |PutSince(node.puts, id)| < DEDUP_CACHE_MAX_SIZE
  }

  /** A node after hearing a message: it records the id, and delivers the message and is to
      relay it unless it still knew it. */
  function Heard(node: Node, m: Message, origin: nat, hops: nat): Node
  {
    var seen := node.(puts := node.puts + [m.id]);
    if Knows(node, m.id) then seen
    else seen.(delivered := node.delivered + [m], deliveredAt := node.deliveredAt + [|node.puts|],
               relays := if m.ttl > 1 then node.relays + [PendingRelay(m.(ttl := m.ttl - 1), origin, hops)]
                         else node.relays)
  }

  lemma TakeDelivers(node: Node, framed: seq<Byte>, m: Message)
    requires Unframe(framed) == Some(m)
    ensures var taken := Take(Cache(node), framed);
            && taken.delivered == (if Knows(node, m.id) then None else Some(m))
            && taken.relay == if Knows(node, m.id) || m.ttl <= 1 then None else Some(m.(ttl := m.ttl - 1))
  {
    CachedIffRecent(node.puts, m.id, DEDUP_CACHE_MAX_SIZE);
    hide Unframe, CacheOf, AfterPut, PutSince;
  }

  lemma TakenIsHeard(node: Node, framed: seq<Byte>, m: Message, origin: nat, hops: nat)
    requires Unframe(framed) == Some(m)
    ensures AfterTake(node, m, Take(Cache(node), framed), origin, hops) == Heard(node, m, origin, hops)
  {
    TakeDelivers(node, framed, m);
    hide Unframe, Take, Knows, Cache;
  }

  /** Whatever its history: a node delivers what it hears exactly when it does not know the id. */
  lemma HearDelivers(w: Network, n: nat, copy: Copy, m: Message)
    requires n < |w.nodes| && Unframe(copy.framed) == Some(m)
    ensures OnHear(w, n, copy) == w.(nodes := w.nodes[n := Heard(w.nodes[n], m, copy.origin, copy.hops + 1)])
  {
    hide Unframe, Take, Heard, AfterTake, Cache;
    TakenIsHeard(w.nodes[n], copy.framed, m, copy.origin, copy.hops + 1);
  }

  /** Whatever its history: a node transmits what it originates, or goes on to relay, exactly
      when it does not know the id and hops are left. */
  lemma BroadcastTransmits(w: Network, n: nat, m: Message, origin: nat, hops: nat)
    requires n < |w.nodes|
    ensures var node := w.nodes[n];
            OnBroadcast(w, n, m, origin, hops) ==
            if m.ttl <= 0 || Knows(node, m.id) then w
            else Network(w.nodes[n := node.(puts := node.puts + [m.id], transmitted := node.transmitted + [m.id],
                                            transmittedAt := node.transmittedAt + [|node.puts|])],
                         w.air + [Copy(FrameMessage(m.id, m.ttl, m.payload), origin, hops)])
  {
    CachedIffRecent(w.nodes[n].puts, m.id, DEDUP_CACHE_MAX_SIZE);
  }

  /** The three events of a network, whatever the nodes' histories. Hearing a frame of the air is
      for that node to hear the message in it. */
  lemma HearEvent(w: Network, n: nat, k: nat, m: Message)
    requires n < |w.nodes| && k < |w.air| && Unframe(w.air[k].framed) == Some(m)
    ensures Next(w, Hear(n, k)) ==
            w.(nodes := w.nodes[n := Heard(w.nodes[n], m, w.air[k].origin, w.air[k].hops + 1)])
  {
    hide Heard, OnHear;
    HearDelivers(w, n, w.air[k], m);
  }

  /** A node that does not know an id originates with the whole hop budget, to be heard one hop
      away; one that knows it does nothing. */
  lemma OriginateEvent(w: Network, n: nat, id: Id, payload: seq<Byte>)
    requires n < |w.nodes|
    ensures var node, w' := w.nodes[n], Next(w, Originate(n, id, payload));
            && (Knows(node, id) ==> w' == w)
            && (!Knows(node, id) ==>
                  && w'.air == w.air + [Copy(FrameMessage(id, 4, payload), n, 1)]
                  && w'.nodes == w.nodes[n := node.(puts := node.puts + [id], transmitted := node.transmitted + [id],
                                                    transmittedAt := node.transmittedAt + [|node.puts|])])
  {
    hide Knows, OnBroadcast;
    BroadcastTransmits(w, n, Message(id, DEFAULT_TTL, payload), n, 1);
  }

  /** A relay is gone on with once: it is then pending no more, and its copy is in the air, with
      the hops left to it, if and only if the node has forgotten the id. */
  lemma GoOnEvent(w: Network, n: nat, k: nat)
    requires n < |w.nodes| && k < |w.nodes[n].relays|
    ensures var node, r, w' := w.nodes[n], w.nodes[n].relays[k], Next(w, GoOn(n, k));
            && |w'.nodes| == |w.nodes|
            && multiset(w'.nodes[n].relays) == multiset(node.relays) - multiset{r}
            && w'.nodes[n].delivered == node.delivered
            && w'.air == (if r.message.ttl <= 0 || Knows(node, r.message.id) then w.air else
                          w.air + [Copy(FrameMessage(r.message.id, r.message.ttl, r.message.payload),
                                        r.origin, r.hops)])
  {
    var node, r := w.nodes[n], w.nodes[n].relays[k];
    var without := WithoutRelay(node, k);
    assert node.relays == node.relays[..k] + [r] + node.relays[k + 1..];
    hide OnBroadcast, FrameMessage, PutSince;
    BroadcastTransmits(w.(nodes := w.nodes[n := without]), n, r.message, r.origin, r.hops);
  }

  /** With few ids, to know an id is to have put it. */
  lemma KnowsPuts(node: Node, ids: set<Id>, id: Id)
    requires Elements(node.puts) <= ids && |ids| <= DEDUP_CACHE_MAX_SIZE
    ensures Knows(node, id) <==> id in node.puts
  {
    FewIdsAreRemembered(node.puts, ids, id, DEDUP_CACHE_MAX_SIZE);
    CachedIffRecent(node.puts, id, DEDUP_CACHE_MAX_SIZE);
  }

  lemma DeliveryKeepsNode(
    node: Node, n: nat, events: seq<Event>, ids: set<Id>, m: Message, origin: nat, hops: nat)
    requires NodeInv(node, n, events, ids) && m.id in ids && |ids| <= DEDUP_CACHE_MAX_SIZE
    requires m.id !in node.transmitted && m.id !in node.puts ==> CameFromElsewhere(m, n, events)
    ensures NodeInv(Heard(node, m, origin, hops), n, events, ids)
  {
    KnowsPuts(node, ids, m.id);
    PutKeepsWithin(node.puts, m.id, ids);
    hide CameFromElsewhere, Knows;
  }

  lemma HearKeepsNode(w: Network, events: seq<Event>, ids: set<Id>, n: nat, copy: Copy)
    requires Inv(w, events, ids) && |ids| <= DEDUP_CACHE_MAX_SIZE && n < |w.nodes| && CopyInv(copy, events, w)
    ensures |OnHear(w, n, copy).nodes| == |w.nodes|
    ensures OnHear(w, n, copy) == w.(nodes := w.nodes[n := OnHear(w, n, copy).nodes[n]])
    ensures NodeInv(OnHear(w, n, copy).nodes[n], n, events, ids)
    ensures OnHear(w, n, copy).nodes[n].transmitted == w.nodes[n].transmitted
  {
    hide OnHear, Unframe, FrameMessage;
    var e := HeardWasOriginated(w, events, copy);
    var m := Message(e.id, DEFAULT_TTL, e.payload);
    assert NodeInv(w.nodes[copy.origin], copy.origin, events, ids);
    assert e.id in Elements(w.nodes[copy.origin].puts);
    HearDelivers(w, n, copy, m);
    DeliveryKeepsNode(w.nodes[n], n, events, ids, m, copy.origin, copy.hops + 1);
  }

  /** Another node, with what it has transmitted, in place of node n. */
  lemma NodeChangeKeepsInv(w: Network, events: seq<Event>, ids: set<Id>, n: nat, node: Node, e: Event)
    requires Inv(w, events, ids) && n < |w.nodes| && NodeInv(node, n, events, ids)
    requires node.transmitted == w.nodes[n].transmitted
    ensures Inv(w.(nodes := w.nodes[n := node]), events + [e], ids)
  {
    var w' := w.(nodes := w.nodes[n := node]);
    forall i | 0 <= i < |w'.nodes| ensures NodeInv(w'.nodes[i], i, events + [e], ids) {
      NodeStays(w'.nodes[i], i, events, e, ids);
    }
    forall c | c in w'.air ensures CopyInv(c, events + [e], w') { CopyStays(c, events, e, w, w'); }
  }

  lemma HearKeepsInv(w: Network, events: seq<Event>, ids: set<Id>, n: nat, copy: Copy, e: Event)
    requires Inv(w, events, ids) && |ids| <= DEDUP_CACHE_MAX_SIZE && n < |w.nodes| && copy in w.air
    ensures Inv(OnHear(w, n, copy), events + [e], ids)
  {
    HearKeepsNode(w, events, ids, n, copy);
    NodeChangeKeepsInv(w, events, ids, n, OnHear(w, n, copy).nodes[n], e);
    hide Inv, OnHear;
  }

  /** With few ids a node still knows what it is to relay, so going on writes nothing. */
  lemma GoingOnWritesNothing(w: Network, events: seq<Event>, ids: set<Id>, n: nat, k: nat)
    requires Inv(w, events, ids) && |ids| <= DEDUP_CACHE_MAX_SIZE && n < |w.nodes| && k < |w.nodes[n].relays|
    ensures OnGoOn(w, n, k) == w.(nodes := w.nodes[n := WithoutRelay(w.nodes[n], k)])
    ensures NodeInv(WithoutRelay(w.nodes[n], k), n, events, ids)
  {
    hide OnBroadcast;
    var node, r := w.nodes[n], w.nodes[n].relays[k];
    assert NodeInv(node, n, events, ids) && r in node.relays;
    var without := WithoutRelay(node, k);
    KnowsPuts(without, ids, r.message.id);
    BroadcastTransmits(w.(nodes := w.nodes[n := without]), n, r.message, r.origin, r.hops);
    hide Knows, CameFromElsewhere;
  }

  lemma GoOnKeepsInv(w: Network, events: seq<Event>, ids: set<Id>, n: nat, k: nat, e: Event)
    requires Inv(w, events, ids) && |ids| <= DEDUP_CACHE_MAX_SIZE && n < |w.nodes| && k < |w.nodes[n].relays|
    ensures Inv(OnGoOn(w, n, k), events + [e], ids) && |OnGoOn(w, n, k).nodes| == |w.nodes|
  {
    GoingOnWritesNothing(w, events, ids, n, k);
    NodeChangeKeepsInv(w, events, ids, n, WithoutRelay(w.nodes[n], k), e);
    hide Inv, OnGoOn;
  }

  lemma IgnoredKeepsInv(w: Network, events: seq<Event>, ids: set<Id>, e: Event)
    requires Inv(w, events, ids)
    ensures Inv(w, events + [e], ids)
  {
    forall i | 0 <= i < |w.nodes| ensures NodeInv(w.nodes[i], i, events + [e], ids) {
      NodeStays(w.nodes[i], i, events, e, ids);
    }
    forall c | c in w.air ensures CopyInv(c, events + [e], w) { CopyStays(c, events, e, w, w); }
  }

  lemma {:induction false} RunKeepsInv(size: nat, events: seq<Event>, ids: set<Id>)
    requires |ids| <= DEDUP_CACHE_MAX_SIZE && OriginatesFrom(events, ids)
    ensures Inv(Run(size, events), events, ids) && |Run(size, events).nodes| == size
  {
    if events != [] {
      var init, e := events[..|events| - 1], events[|events| - 1];
      assert events == init + [e];
      RunKeepsInv(size, init, ids);
      var w := Run(size, init);
      match e
      case Originate(n, id, payload) =>
        if n < size { OriginateKeepsInv(w, init, ids, e); } else { IgnoredKeepsInv(w, init, ids, e); }
      case Hear(n, k) =>
        if n < size && k < |w.air| { HearKeepsInv(w, init, ids, n, w.air[k], e); }
        else { IgnoredKeepsInv(w, init, ids, e); }
      case GoOn(n, k) =>
        if n < size && k < |w.nodes[n].relays| { GoOnKeepsInv(w, init, ids, n, k, e); }
        else { IgnoredKeepsInv(w, init, ids, e); }
    }
  }

  /** In every run of a network whose nodes hear whatever is in the air in any order, any number
      of times or never, go on to relay whenever they like, and that uses at most as many ids
      as the caches hold: a node delivers an id at most once and transmits an id at most once;
      what it delivers was originated, unchanged, by another node, and is nothing it has
      transmitted; and every copy in the air is one hop from its origin. */
  lemma {:induction false} EveryNetworkRun(size: nat, events: seq<Event>, ids: set<Id>, n: nat)
    requires |ids| <= DEDUP_CACHE_MAX_SIZE && OriginatesFrom(events, ids) && n < size
    ensures |Run(size, events).nodes| == size
    ensures var node := Run(size, events).nodes[n];
            && DistinctIds(node.delivered) && NoDuplicates(node.transmitted)
            && (forall m :: m in node.delivered ==> m.id !in node.transmitted && CameFromElsewhere(m, n, events))
    ensures forall copy :: copy in Run(size, events).air ==> copy.hops == 1 <= DEFAULT_TTL && copy.origin < size
  {
    RunKeepsInv(size, events, ids);
    assert NodeInv(Run(size, events).nodes[n], n, events, ids);
  }

  // ---------------------------------------------------------------- reaching everyone

  /** Every node below `last` but n hears copy k. */
  function OthersHear(n: nat, k: nat, last: nat): seq<Event>
  {
    if last == 0 then []
    else OthersHear(n, k, last - 1) + if last - 1 == n then [] else [Hear(last - 1, k)]
  }

  lemma {:induction false} OthersHeard(size: nat, events: seq<Event>, n: nat, k: nat, m: Message, last: nat)
    requires var w := Run(size, events);
             |w.nodes| == size && last <= size && k < |w.air| && Unframe(w.air[k].framed) == Some(m)
    ensures var w, w' := Run(size, events), Run(size, events + OthersHear(n, k, last));
            && w'.air == w.air && |w'.nodes| == size
            && forall i :: 0 <= i < size ==>
                 w'.nodes[i] == if i == n || i >= last then w.nodes[i]
                                else Heard(w.nodes[i], m, w.air[k].origin, w.air[k].hops + 1)
  {
    hide Heard, Next, Unframe;
    if last == 0 || last - 1 == n {
      assert last == 0 ==> events + OthersHear(n, k, last) == events;
      if last > 0 {
        assert OthersHear(n, k, last) == OthersHear(n, k, last - 1);
        OthersHeard(size, events, n, k, m, last - 1);
      }
    } else {
      var before, e := events + OthersHear(n, k, last - 1), Hear(last - 1, k);
      var all := events + OthersHear(n, k, last);
      assert all == before + [e] && all[..|before|] == before;
      OthersHeard(size, events, n, k, m, last - 1);
      HearEvent(Run(size, before), last - 1, k, m);
    }
  }

  lemma {:induction false} RunKeepsSize(size: nat, events: seq<Event>)
    ensures |Run(size, events).nodes| == size
  {
    if events != [] {
      hide Take, Broadcast, Unframe, Cache, AfterTake, WithoutRelay;
      RunKeepsSize(size, events[..|events| - 1]);
    }
  }

  /** After any run, with any ids: a node that does not know an id puts a message in the air
      which every other node can hear and, unless it knows the id, delivers exactly as it was
      originated. */
  lemma {:induction false} MessageReachesEveryone(size: nat, events: seq<Event>, n: nat, id: Id, payload: seq<Byte>)
    requires n < |Run(size, events).nodes| && FitsField(id) && !Knows(Run(size, events).nodes[n], id)
    ensures var w := Run(size, events);
            var w' := Run(size, events + [Originate(n, id, payload)] + OthersHear(n, |w.air|, |w.nodes|));
            && |w'.nodes| == |w.nodes| == size && w'.nodes[n].transmitted == w.nodes[n].transmitted + [id]
            && forall i :: 0 <= i < size && i != n ==>
                 w'.nodes[i].delivered ==
                 w.nodes[i].delivered + if Knows(w.nodes[i], id) then [] else [Message(id, 4, payload)]
  {
    RunKeepsSize(size, events);
    var w, e := Run(size, events), Originate(n, id, payload);
    assert (events + [e])[..|events|] == events;
    OriginateEvent(w, n, id, payload);
    FrameRoundTrips(id, 4, payload);
    hide Knows, FrameMessage, Unframe, Next;
    var w1 := Run(size, events + [e]);
    assert w1 == Next(w, e);
    assert w1.air[|w.air|].framed == FrameMessage(id, 4, payload);
    var m := Message(id, 4, payload);
    assert Unframe(FrameMessage(id, 4, payload)) == Some(m);
    OthersHeard(size, events + [e], n, |w.air|, m, size);
  }

  /** From the start, in a network of any size: the message is delivered by every other node, and
      by each of them once. */
  lemma {:induction false} FirstMessageReachesEveryone(size: nat, n: nat, id: Id, payload: seq<Byte>)
    requires n < size && FitsField(id)
    ensures var w' := Run(size, [Originate(n, id, payload)] + OthersHear(n, 0, size));
            && |w'.nodes| == size
            && forall i :: 0 <= i < size && i != n ==> w'.nodes[i].delivered == [Message(id, 4, payload)]
  {
    RunKeepsSize(size, []);
    MessageReachesEveryone(size, [], n, id, payload);
    assert [] + [Originate(n, id, payload)] == [Originate(n, id, payload)];
    hide Next, FrameMessage, Unframe;
  }
}
