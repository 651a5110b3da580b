/** Cutting a BLE message into fragments and putting fragments back together. A fragment is
    `[index][count][chunk]` with index and count as single signed bytes; fragments are
    collected per source address and count. */
module BleReassembly {
  import opened Wrappers

  /** A Kotlin `Byte`. */
  type Byte = b: int | -128 <= b < 128

  const CHUNK: nat := 500 - 2
  const MAX_FRAGMENTS: nat := 255

  /** `Int.toByte()`: the low eight bits, signed. */
  function ToByte(i: int): Byte { (i + 128) % 256 - 128 }

  /** `byte.toInt() and 0xFF` */
  function Unsigned(b: Byte): nat { b % 256 }

  lemma ByteHoldsCount(i: nat)
    ensures Unsigned(ToByte(i)) == i <==> i <= MAX_FRAGMENTS
  {
  }

  /** `(size + 497) / 498`, at least 1 */
  function Total(data: seq<Byte>): (n: nat)
    ensures n >= 1
  {
    var n := (|data| + CHUNK - 1) / CHUNK;
    if n < 1 then 1 else n
  }

  function ChunkEnd(data: seq<Byte>, i: nat): nat
  {
    if i * CHUNK + CHUNK < |data| then i * CHUNK + CHUNK else |data|
  }

  function ChunkOf(data: seq<Byte>, i: nat): seq<Byte>
    requires i < Total(data)
  {
    data[i * CHUNK..ChunkEnd(data, i)]
  }

  function Fragments(data: seq<Byte>): (fs: seq<seq<Byte>>)
    ensures |fs| == if Total(data) > MAX_FRAGMENTS then 0 else Total(data)
  {
    if Total(data) > MAX_FRAGMENTS then [] else
    seq(Total(data), i requires 0 <= i < Total(data) => [ToByte(i), ToByte(Total(data))] + ChunkOf(data, i))
  }

  /** `fragmentData`; a message that would need more than 255 fragments is dropped. */
  method FragmentData(data: seq<Byte>) returns (fragments: seq<seq<Byte>>)
    ensures fragments == Fragments(data)
  {
    var totalFragments := (|data| + CHUNK - 1) / CHUNK;
    if totalFragments < 1 { totalFragments := 1; }
    fragments := [];
    if totalFragments > 255 { return; }
    for i := 0 to totalFragments
      invariant fragments == Fragments(data)[..i]
    {
      var start := i * CHUNK;
      var end := if start + CHUNK < |data| then start + CHUNK else |data|;
      fragments := fragments + [[ToByte(i), ToByte(totalFragments)] + data[start..end]];
    }
  }

  // ---------------------------------------------------------------- receiving fragments

  datatype Frag = Frag(index: nat, total: nat, chunk: seq<Byte>)

  /** A fragment of at least two bytes, read by its header. */
  function Parse(fragment: seq<Byte>): Option<Frag>
  {
    if |fragment| < 2 then None
    else Some(Frag(Unsigned(fragment[0]), Unsigned(fragment[1]), fragment[2..]))
  }

  type Buffer = seq<Option<seq<Byte>>>

  function Empty(total: nat): (b: Buffer)
    ensures |b| == total
  {
    seq(total, _ => None)
  }

  predicate Full(b: Buffer) { forall i :: 0 <= i < |b| ==> b[i].Some? }

  /** The held chunks one after another. */
  function Join(b: Buffer): seq<Byte>
  {
    if b == [] then [] else
    Join(b[..|b| - 1]) + match b[|b| - 1] case Some(chunk) => chunk case None => []
  }

  function CountHeld(b: Buffer): (n: nat)
    ensures n <= |b| && (n == |b| <==> Full(b))
  {
    if b == [] then 0 else
    assert Full(b) <==> Full(b[..|b| - 1]) && b[|b| - 1].Some?;
    CountHeld(b[..|b| - 1]) + if b[|b| - 1].Some? then 1 else 0
  }

  /** The buffer of one key after a fragment, and the message completed by it, if any. */
  function Collect(buffer: Option<Buffer>, f: Frag): (Option<Buffer>, Option<seq<Byte>>)
  {
    var b := if buffer.Some? then buffer.value else Empty(f.total);
    if f.index >= |b| || b[f.index].Some? then (Some(b), None) else
    var b' := b[f.index := Some(f.chunk)];
    if Full(b') then (None, Some(Join(b'))) else (Some(b'), None)
  }

  /** `"$sourceAddress:$total"` */
  datatype Key = Key(source: string, total: nat)

  function Lookup(buffers: map<Key, Buffer>, key: Key): Option<Buffer>
  {
    if key in buffers then Some(buffers[key]) else None
  }

  function Store(buffers: map<Key, Buffer>, key: Key, b: Option<Buffer>): map<Key, Buffer>
  {
    if b.Some? then buffers[key := b.value] else buffers - {key}
  }

  /** `handleIncomingFragment` up to the completed message. */
  function Receive(buffers: map<Key, Buffer>, source: string, fragment: seq<Byte>)
    : (map<Key, Buffer>, Option<seq<Byte>>)
  {
    match Parse(fragment)
    case None => (buffers, None)
    case Some(f) =>
      var key := Key(source, f.total);
      var r := Collect(Lookup(buffers, key), f);
      (Store(buffers, key, r.0), r.1)
  }

  class FragmentBuffer {
    const fragments: array<Option<seq<Byte>>>
    var received: nat
    ghost var Contents: Buffer

    ghost predicate Valid()
      reads this, fragments
    {
      Contents == fragments[..] && received == CountHeld(Contents)
    }

    constructor (totalFragments: nat)
      ensures Valid() && fresh(fragments) && Contents == Empty(totalFragments)
    {
      fragments := new Option<seq<Byte>>[totalFragments](_ => None);
      received := 0;
      Contents := Empty(totalFragments);
      new;
      NothingHeld(totalFragments);
    }

    /** Hold a chunk at an index that holds none. */
    method Hold(index: nat, chunk: seq<Byte>)
      requires Valid() && index < |Contents| && Contents[index].None?
      modifies this, fragments
      ensures Valid() && Contents == old(Contents)[index := Some(chunk)]
    {
      HoldingOneMore(Contents, index, chunk);
      fragments[index] := Some(chunk);
      received := received + 1;
      Contents := Contents[index := Some(chunk)];
    }
  }

  lemma {:induction false} NothingHeld(total: nat)
    ensures CountHeld(Empty(total)) == 0
  {
    if total > 0 {
      NothingHeld(total - 1);
      assert Empty(total)[..total - 1] == Empty(total - 1);
    }
  }

  lemma {:induction false} HoldingOneMore(b: Buffer, i: nat, chunk: seq<Byte>)
    requires i < |b| && b[i].None?
    ensures CountHeld(b[i := Some(chunk)]) == CountHeld(b) + 1
  {
    var last := |b| - 1;
    if i < last {
      HoldingOneMore(b[..last], i, chunk);
      assert b[i := Some(chunk)][..last] == b[..last][i := Some(chunk)];
    } else {
      assert b[i := Some(chunk)][..last] == b[..last];
    }
  }

  class Reassembler {
    var reassemblyBuffers: map<Key, FragmentBuffer>
    ghost var Held: map<Key, Buffer>
    ghost var Repr: set<object>

    ghost predicate BufferOk(k: Key)
      reads this, Repr
      requires k in reassemblyBuffers && k in Held
    {
      var b := reassemblyBuffers[k];
      b in Repr && b.fragments in Repr && b.Valid() && b.Contents == Held[k] && |Held[k]| == k.total
    }

    /** Each key has a buffer of its own, with an array of its own. */
    ghost predicate Valid()
      reads this, Repr
    {
      && this !in Repr
      && Held.Keys == reassemblyBuffers.Keys
      && (forall k :: k in reassemblyBuffers ==> BufferOk(k))
      && (forall k, l :: k in reassemblyBuffers && l in reassemblyBuffers && k != l ==>
            && reassemblyBuffers[k] != reassemblyBuffers[l]
            && reassemblyBuffers[k].fragments != reassemblyBuffers[l].fragments)
    }

    constructor ()
      ensures Valid() && Held == map[] && Repr == {}
    {
      reassemblyBuffers, Held, Repr := map[], map[], {};
    }

    method NewBuffer(key: Key) returns (buffer: FragmentBuffer)
      requires Valid() && key !in reassemblyBuffers
      modifies this
      ensures Valid() && fresh(Repr - old(Repr))
      ensures key in reassemblyBuffers && reassemblyBuffers[key] == buffer
      ensures Held == old(Held)[key := Empty(key.total)]
    {
      hide CountHeld, Empty, FragmentBuffer.Valid;
      buffer := new FragmentBuffer(key.total);
      reassemblyBuffers := reassemblyBuffers[key := buffer];
      Held := Held[key := Empty(key.total)];
      Repr := Repr + {buffer, buffer.fragments};
      forall k | k in reassemblyBuffers ensures BufferOk(k) {
        assert k != key ==> old(BufferOk(k));
      }
    }

    /** `getOrPut` */
    method BufferFor(key: Key) returns (buffer: FragmentBuffer)
      requires Valid()
      modifies this
      ensures Valid() && fresh(Repr - old(Repr))
      ensures key in reassemblyBuffers && reassemblyBuffers[key] == buffer && key in Held
      ensures buffer in Repr && buffer.fragments in Repr && buffer.Valid()
      ensures buffer.Contents == Held[key] && |Held[key]| == key.total
      ensures Held == if key in old(Held) then old(Held) else old(Held)[key := Empty(key.total)]
    {
      hide CountHeld, Empty;
      if key in reassemblyBuffers { buffer := reassemblyBuffers[key]; } else { buffer := NewBuffer(key); }
      assert BufferOk(key);
    }

    /** Hold a chunk in a buffer at an index that holds none. */
    method HoldIn(key: Key, index: nat, chunk: seq<Byte>) returns (received: nat)
      requires Valid() && key in Held && index < |Held[key]| && Held[key][index].None?
      modifies this`Held, reassemblyBuffers[key], reassemblyBuffers[key].fragments
      ensures Valid() && Held == old(Held)[key := old(Held)[key][index := Some(chunk)]]
      ensures received == CountHeld(Held[key])
    {
      hide CountHeld;
      var buffer := reassemblyBuffers[key];
      assert BufferOk(key);
      buffer.Hold(index, chunk);
      Held := Held[key := buffer.Contents];
      received := buffer.received;
      forall k | k in reassemblyBuffers ensures BufferOk(k) {
        assert k != key ==> old(BufferOk(k));
      }
    }

    /** Take a buffer out and join what it holds. */
    method Complete(key: Key) returns (message: seq<Byte>)
      requires Valid() && key in Held
      modifies this`Held, this`reassemblyBuffers
      ensures Valid() && Held == old(Held) - {key} && message == Join(old(Held)[key])
    {
      hide CountHeld, Join;
      assert BufferOk(key);
      message := Join(reassemblyBuffers[key].fragments[..]);
      reassemblyBuffers := reassemblyBuffers - {key};
      Held := Held - {key};
      forall k | k in reassemblyBuffers ensures BufferOk(k) {
        assert old(BufferOk(k));
      }
    }

    /** The completed message goes on to `handleReassembledMessage`. */
    method HandleIncomingFragment(source: string, fragment: seq<Byte>) returns (message: Option<seq<Byte>>)
      requires Valid()
      modifies this, Repr
      ensures Valid() && fresh(Repr - old(Repr))
      ensures Held == Receive(old(Held), source, fragment).0 && message == Receive(old(Held), source, fragment).1
    {
      hide CountHeld, Empty, Join, Full, Valid, Unsigned;
      message := None;
      if |fragment| < 2 { return; }
      var index := Unsigned(fragment[0]);
      var total := Unsigned(fragment[1]);
      var chunk := fragment[2..];
      var key := Key(source, total);
      var buffer := BufferFor(key);
      ghost var before := Held;
      assert before[key := before[key]] == before;
      if index >= buffer.fragments.Length || buffer.fragments[index].Some? { return; }
      var received := HoldIn(key, index, chunk);
      if received == total {
        var joined := Complete(key);
        message := Some(joined);
        assert Held == old(Held) - {key};
      }
    }
  }

  // ---------------------------------------------------------------- one key

  /** The fragments of one key, collected in order: the buffer left and the messages made. */
  function RunKey(fs: seq<Frag>): (Option<Buffer>, seq<seq<Byte>>)
  {
    if fs == [] then (None, []) else
    var before := RunKey(fs[..|fs| - 1]);
    var r := Collect(before.0, fs[|fs| - 1]);
    (r.0, before.1 + if r.1.Some? then [r.1.value] else [])
  }

  /** The chunk of the first fragment with index i. */
  function FirstHeld(fs: seq<Frag>, i: nat): Option<seq<Byte>>
  {
    if fs == [] then None
    else if fs[0].index == i then Some(fs[0].chunk)
    else FirstHeld(fs[1..], i)
  }

  function FirstChunks(fs: seq<Frag>, total: nat): (b: Buffer)
    ensures |b| == total
  {
    seq(total, i requires 0 <= i < total => FirstHeld(fs, i))
  }

  predicate Covers(fs: seq<Frag>, total: nat)
  {
    Full(FirstChunks(fs, total))
  }

  /** The last fragment is the one that makes the indices complete. */
  predicate CompletedByLast(fs: seq<Frag>, total: nat)
  {
    fs != [] && Covers(fs, total) && !Covers(fs[..|fs| - 1], total)
  }

  lemma {:induction false} FirstHeldInConcat(a: seq<Frag>, b: seq<Frag>, i: nat)
    ensures FirstHeld(a + b, i) == if FirstHeld(a, i).Some? then FirstHeld(a, i) else FirstHeld(b, i)
  {
    if a == [] {
      assert a + b == b;
    } else {
      FirstHeldInConcat(a[1..], b, i);
      assert (a + b)[1..] == a[1..] + b;
    }
  }

  lemma OneMoreFragment(fs: seq<Frag>, f: Frag, total: nat)
    ensures f.index < total && FirstHeld(fs, f.index).None? ==>
              FirstChunks(fs + [f], total) == FirstChunks(fs, total)[f.index := Some(f.chunk)]
    ensures f.index >= total || FirstHeld(fs, f.index).Some? ==>
              FirstChunks(fs + [f], total) == FirstChunks(fs, total)
  {
    forall i: nat | i < total
      ensures FirstHeld(fs + [f], i) ==
              if FirstHeld(fs, i).None? && i == f.index then Some(f.chunk) else FirstHeld(fs, i)
    {
      FirstHeldInConcat(fs, [f], i);
    }
  }

  lemma CoversGrows(fs: seq<Frag>, f: Frag, total: nat)
    ensures Covers(fs, total) ==> Covers(fs + [f], total)
  {
    OneMoreFragment(fs, f, total);
  }

  /** A buffer holding the first chunks so far takes one more fragment. */
  lemma CollectNext(fs: seq<Frag>, f: Frag, total: nat)
    requires f.total == total && !Covers(fs, total)
    ensures var b := FirstChunks(fs + [f], total);
            Collect(Some(FirstChunks(fs, total)), f) == if Full(b) then (None, Some(Join(b))) else (Some(b), None)
  {
    OneMoreFragment(fs, f, total);
    assert f.index < total ==> FirstChunks(fs, total)[f.index] == FirstHeld(fs, f.index);
    hide FirstChunks, FirstHeld, Join;
  }

  lemma FirstFragment(f: Frag)
    ensures Collect(None, f) == Collect(Some(FirstChunks([], f.total)), f)
  {
    assert Empty(f.total) == FirstChunks([], f.total);
  }

  /** Until the indices are complete, the buffer holds the first chunk that came for each
      index; the fragment that completes them turns exactly those chunks into one message
      and leaves no buffer. This is so for any fragments of one count. */
  lemma {:induction false} CollectsFirstChunks(fs: seq<Frag>, total: nat)
    requires total > 0 && forall f :: f in fs ==> f.total == total
    requires fs != [] ==> !Covers(fs[..|fs| - 1], total)
    ensures RunKey(fs) == if fs == [] then (None, [])
                          else if Covers(fs, total) then (None, [Join(FirstChunks(fs, total))])
                          else (Some(FirstChunks(fs, total)), [])
  {
    if fs != [] {
      var init, last := fs[..|fs| - 1], fs[|fs| - 1];
      assert fs == init + [last] && last in fs;
      forall f | f in init ensures f in fs {}
      if init == [] {
        FirstFragment(last);
      } else {
        assert init == init[..|init| - 1] + [init[|init| - 1]];
        CoversGrows(init[..|init| - 1], init[|init| - 1], total);
      }
      CollectsFirstChunks(init, total);
      assert !Covers(init, total);
      CollectNext(init, last, total);
      hide FirstChunks, Join, Collect;
      assert RunKey(init).1 == [];
      assert RunKey(fs).0 == Collect(RunKey(init).0, last).0;
      assert RunKey(fs).1 == if Covers(fs, total) then [Join(FirstChunks(fs, total))] else [];
    }
  }

  /** After a completion the next fragments start afresh. */
  lemma {:induction false} RestartsAfterCompletion(a: seq<Frag>, b: seq<Frag>)
    requires RunKey(a).0 == None
    ensures RunKey(a + b) == (RunKey(b).0, RunKey(a).1 + RunKey(b).1)
  {
    if b == [] {
      assert a + b == a && RunKey(a).1 + [] == RunKey(a).1;
    } else {
      RestartsAfterCompletion(a, b[..|b| - 1]);
      assert (a + b)[..|a + b| - 1] == a + b[..|b| - 1];
      var r := Collect(RunKey(b[..|b| - 1]).0, b[|b| - 1]);
      assert RunKey(a + b).1 == RunKey(a).1 + RunKey(b).1;
    }
  }

  // ---------------------------------------------------------------- fragments of one message

  function FragOf(data: seq<Byte>, i: nat): Frag
    requires i < Total(data)
  {
    Frag(i, Total(data), ChunkOf(data, i))
  }

  /** What is sent for index i is read back as that index, count and chunk. */
  lemma FragmentParses(data: seq<Byte>, i: nat)
    requires Total(data) <= MAX_FRAGMENTS && i < Total(data)
    ensures Parse(Fragments(data)[i]) == Some(FragOf(data, i))
  {
    ByteHoldsCount(i);
    ByteHoldsCount(Total(data));
    hide ToByte, Unsigned, Total, ChunkEnd;
    var header := [ToByte(i), ToByte(Total(data))];
    assert (header + ChunkOf(data, i))[2..] == ChunkOf(data, i);
  }

  /** Fragment i, byte by byte: index, count, and the up to 498 bytes of the message from 498 i on;
      only the one fragment of the empty message is empty. */
  lemma {:induction false} FragmentBytes(data: seq<Byte>, i: nat)
    requires i < |Fragments(data)|
    ensures var f := Fragments(data)[i];
            && 2 <= |f| <= 500 && f[0] as int % 256 == i && f[1] as int % 256 == |Fragments(data)|
            && (i + 1 < |Fragments(data)| ==> |f| == 500)
            && (i + 1 == |Fragments(data)| ==> |data| == 498 * i + |f| - 2)
            && (data != [] ==> |f| > 2)
            && 498 * i + |f| - 2 <= |data| && f[2..] == data[498 * i..498 * i + |f| - 2]
  {
    ByteHoldsCount(i);
    ByteHoldsCount(Total(data));
  }

  ghost predicate FragmentsOf(fs: seq<Frag>, data: seq<Byte>)
  {
    forall f :: f in fs ==> f.index < Total(data) && f == FragOf(data, f.index)
  }

  function AllChunks(data: seq<Byte>): (b: Buffer)
    ensures |b| == Total(data) && Full(b)
  {
    seq(Total(data), i requires 0 <= i < Total(data) => Some(ChunkOf(data, i)))
  }

  lemma {:induction false} JoinOfChunks(data: seq<Byte>, k: nat)
    requires k <= Total(data)
    ensures Join(AllChunks(data)[..k]) == data[..if k * CHUNK < |data| then k * CHUNK else |data|]
  {
    if k > 0 {
      JoinOfChunks(data, k - 1);
      assert AllChunks(data)[..k][..k - 1] == AllChunks(data)[..k - 1];
    }
  }

  lemma {:induction false} FirstHeldOfMessage(fs: seq<Frag>, data: seq<Byte>, i: nat)
    requires FragmentsOf(fs, data) && i < Total(data)
    ensures FirstHeld(fs, i).Some? ==> FirstHeld(fs, i).value == ChunkOf(data, i)
  {
    if fs != [] {
      assert fs[0] in fs;
      forall f | f in fs[1..] ensures f in fs {}
      FirstHeldOfMessage(fs[1..], data, i);
    }
  }

  lemma CoveredMessage(fs: seq<Frag>, data: seq<Byte>)
    requires FragmentsOf(fs, data) && Covers(fs, Total(data))
    ensures FirstChunks(fs, Total(data)) == AllChunks(data) && Join(FirstChunks(fs, Total(data))) == data
  {
    forall i: nat | i < Total(data) ensures FirstChunks(fs, Total(data))[i] == AllChunks(data)[i] {
      FirstHeldOfMessage(fs, data, i);
    }
    assert FirstChunks(fs, Total(data)) == AllChunks(data);
    JoinOfChunks(data, Total(data));
    assert AllChunks(data)[..Total(data)] == AllChunks(data);
    assert data[..|data|] == data;
  }

  // ---------------------------------------------------------------- all traffic

  datatype Delivery = Delivery(source: string, fragment: seq<Byte>)

  datatype Output = Output(key: Key, message: seq<Byte>)

  function KeyOf(d: Delivery): Option<Key>
  {
    match Parse(d.fragment)
    case None => None
    case Some(f) => Some(Key(d.source, f.total))
  }

  /** Everything a device receives, from all sources: its buffers and its messages. */
  function RunAll(ds: seq<Delivery>): (map<Key, Buffer>, seq<Output>)
  {
    if ds == [] then (map[], []) else
    var before := RunAll(ds[..|ds| - 1]);
    var d := ds[|ds| - 1];
    var r := Receive(before.0, d.source, d.fragment);
    (r.0, before.1 + if r.1.Some? then [Output(KeyOf(d).value, r.1.value)] else [])
  }

  function OnKey(ds: seq<Delivery>, key: Key): seq<Frag>
  {
    if ds == [] then [] else
    var d := ds[|ds| - 1];
    OnKey(ds[..|ds| - 1], key) + if KeyOf(d) == Some(key) then [Parse(d.fragment).value] else []
  }

  function MessagesOf(outputs: seq<Output>, key: Key): seq<seq<Byte>>
  {
    if outputs == [] then [] else
    var o := outputs[|outputs| - 1];
    MessagesOf(outputs[..|outputs| - 1], key) + if o.key == key then [o.message] else []
  }

  lemma OneMoreOutput(outputs: seq<Output>, o: Output, key: Key)
    ensures MessagesOf(outputs + [o], key) == MessagesOf(outputs, key) + if o.key == key then [o.message] else []
  {
    assert (outputs + [o])[..|outputs|] == outputs;
  }

  lemma OneMoreOnKey(fs: seq<Frag>, f: Frag)
    ensures RunKey(fs + [f]) == (
      Collect(RunKey(fs).0, f).0,
      RunKey(fs).1 + if Collect(RunKey(fs).0, f).1.Some? then [Collect(RunKey(fs).0, f).1.value] else [])
  {
    assert (fs + [f])[..|fs|] == fs;
  }

  /** A delivery acts on the buffer of its own key and on no other. */
  lemma OneDelivery(buffers: map<Key, Buffer>, d: Delivery, key: Key)
    ensures var r := Receive(buffers, d.source, d.fragment);
            if KeyOf(d) == Some(key) then
              (Lookup(r.0, key), r.1) == Collect(Lookup(buffers, key), Parse(d.fragment).value)
            else
              Lookup(r.0, key) == Lookup(buffers, key) && (KeyOf(d) == None ==> r.1 == None)
  {
    hide Collect;
  }

  /** Traffic under one key is untouched by traffic under all others. */
  lemma {:induction false} KeysAreIndependent(ds: seq<Delivery>, key: Key)
    ensures Lookup(RunAll(ds).0, key) == RunKey(OnKey(ds, key)).0
    ensures MessagesOf(RunAll(ds).1, key) == RunKey(OnKey(ds, key)).1
  {
    if ds != [] {
      var init, d := ds[..|ds| - 1], ds[|ds| - 1];
      KeysAreIndependent(init, key);
      var before := RunAll(init);
      var r := Receive(before.0, d.source, d.fragment);
      OneDelivery(before.0, d, key);
      if r.1.Some? { OneMoreOutput(before.1, Output(KeyOf(d).value, r.1.value), key); }
      assert RunAll(ds) == (r.0, before.1 + if r.1.Some? then [Output(KeyOf(d).value, r.1.value)] else []);
      hide RunAll, Receive, Collect, Lookup, MessagesOf, RunKey;
      if KeyOf(d) == Some(key) {
        OneMoreOnKey(OnKey(init, key), Parse(d.fragment).value);
        assert OnKey(ds, key) == OnKey(init, key) + [Parse(d.fragment).value];
      } else {
        assert OnKey(ds, key) == OnKey(init, key);
      }
      if r.1.None? {
        assert before.1 + [] == before.1;
        assert RunKey(OnKey(init, key)).1 + [] == RunKey(OnKey(init, key)).1;
      }
    }
  }

  lemma {:induction false} OnKeyHasKey(ds: seq<Delivery>, key: Key)
    ensures forall f :: f in OnKey(ds, key) ==> f.total == key.total
  {
    if ds != [] { OnKeyHasKey(ds[..|ds| - 1], key); }
  }

  /** Whatever arrives under the message's key is one of the fragments sent for it. */
  ghost predicate OnlyFragmentsOf(ds: seq<Delivery>, source: string, data: seq<Byte>)
  {
    forall d :: d in ds && KeyOf(d) == Some(Key(source, Total(data))) ==> d.fragment in Fragments(data)
  }

  lemma {:induction false} DeliveredFragments(ds: seq<Delivery>, source: string, data: seq<Byte>)
    requires Total(data) <= MAX_FRAGMENTS && OnlyFragmentsOf(ds, source, data)
    ensures FragmentsOf(OnKey(ds, Key(source, Total(data))), data)
  {
    if ds != [] {
      var init, d := ds[..|ds| - 1], ds[|ds| - 1];
      assert d in ds && forall x :: x in init ==> x in ds;
      DeliveredFragments(init, source, data);
      if KeyOf(d) == Some(Key(source, Total(data))) {
        var i :| 0 <= i < |Fragments(data)| && Fragments(data)[i] == d.fragment;
        FragmentParses(data, i);
      }
    }
  }

  /** The fragments of one message, in any order, with repeats of fragments already held,
      amid any traffic under other keys: the fragment that completes them yields the message,
      exactly once, and leaves no buffer behind. */
  lemma MessageIsReassembled(ds: seq<Delivery>, source: string, data: seq<Byte>)
    requires Total(data) <= MAX_FRAGMENTS && OnlyFragmentsOf(ds, source, data)
    requires CompletedByLast(OnKey(ds, Key(source, Total(data))), Total(data))
    ensures var key := Key(source, Total(data));
            MessagesOf(RunAll(ds).1, key) == [data] && Lookup(RunAll(ds).0, key) == None
  {
    var key := Key(source, Total(data));
    var fs := OnKey(ds, key);
    DeliveredFragments(ds, source, data);
    KeysAreIndependent(ds, key);
    OnKeyHasKey(ds, key);
    CollectsFirstChunks(fs, Total(data));
    CoveredMessage(fs, data);
  }

  /** Each fragment once, in any order whatever. */
  ghost predicate Permutation(fs: seq<Frag>, data: seq<Byte>)
  {
    && |fs| == Total(data) && FragmentsOf(fs, data)
    && forall j, k :: 0 <= j < k < |fs| ==> fs[j].index != fs[k].index
  }

  lemma {:induction false} HeldIsDelivered(fs: seq<Frag>, total: nat)
    requires forall j, k :: 0 <= j < k < |fs| ==> fs[j].index != fs[k].index
    requires forall f :: f in fs ==> f.index < total
    ensures CountHeld(FirstChunks(fs, total)) == |fs|
  {
    if fs == [] {
      assert FirstChunks(fs, total) == Empty(total);
      NothingHeld(total);
    } else {
      var init, last := fs[..|fs| - 1], fs[|fs| - 1];
      assert fs == init + [last] && last in fs;
      forall f | f in init ensures f in fs {}
      HeldIsDelivered(init, total);
      NotHeldBefore(init, last.index);
      OneMoreFragment(init, last, total);
      HoldingOneMore(FirstChunks(init, total), last.index, last.chunk);
    }
  }

  lemma {:induction false} NotHeldBefore(fs: seq<Frag>, i: nat)
    requires forall k :: 0 <= k < |fs| ==> fs[k].index != i
    ensures FirstHeld(fs, i).None?
  {
    if fs != [] { NotHeldBefore(fs[1..], i); }
  }

  /** Every permutation of the fragments is completed by its last one. */
  lemma PermutationCompletes(fs: seq<Frag>, data: seq<Byte>)
    requires Permutation(fs, data)
    ensures CompletedByLast(fs, Total(data))
    ensures RunKey(fs) == (None, [data])
  {
    var init := fs[..|fs| - 1];
    HeldIsDelivered(fs, Total(data));
    forall f | f in init ensures f in fs {}
    HeldIsDelivered(init, Total(data));
    CollectsFirstChunks(fs, Total(data));
    CoveredMessage(fs, data);
  }

  // ---------------------------------------------------------------- stale fragments

  predicate AllWhole(b: Buffer)
  {
    forall i :: 0 <= i < |b| ==> b[i].Some? && |b[i].value| == CHUNK
  }

  lemma {:induction false} WholeLength(b: Buffer)
    requires AllWhole(b)
    ensures |Join(b)| == |b| * CHUNK
  {
    if b != [] { WholeLength(b[..|b| - 1]); }
  }

  lemma ConcatsDiffer(x: seq<Byte>, y: seq<Byte>, u: seq<Byte>, v: seq<Byte>)
    requires |x| == |y| && x + u == y + v
    ensures x == y && u == v
  {
    assert x == (x + u)[..|x|] && y == (y + v)[..|y|];
    assert u == (x + u)[|x|..] && v == (y + v)[|y|..];
  }

  /** Full buffers with whole chunks up to the last are told apart by what they join to. */
  lemma {:induction false} JoinIsInjective(a: Buffer, b: Buffer)
    requires |a| == |b| > 0 && Full(a) && Full(b) && AllWhole(a[..|a| - 1]) && AllWhole(b[..|b| - 1])
    requires Join(a) == Join(b)
    ensures a == b
  {
    var n := |a| - 1;
    WholeLength(a[..n]);
    WholeLength(b[..n]);
    ConcatsDiffer(Join(a[..n]), Join(b[..n]), a[n].value, b[n].value);
    if n > 0 {
      var p, q := a[..n], b[..n];
      assert p[..n - 1] == a[..n - 1] && q[..n - 1] == b[..n - 1];
      JoinIsInjective(p, q);
    }
    assert a == a[..n] + [a[n]] && b == b[..n] + [b[n]];
  }

  /** Fragments left over from other messages: each of them, unless last, is whole. */
  predicate LeftOver(stale: seq<Frag>, total: nat)
  {
    forall f :: f in stale ==> f.total == total && (f.index < total - 1 ==> |f.chunk| == CHUNK)
  }

  lemma {:induction false} LeftOverHeld(stale: seq<Frag>, total: nat, i: nat)
    requires LeftOver(stale, total) && i < total - 1
    ensures FirstHeld(stale, i).Some? ==> |FirstHeld(stale, i).value| == CHUNK
  {
    if stale != [] {
      assert stale[0] in stale;
      forall f | f in stale[1..] ensures f in stale {}
      LeftOverHeld(stale[1..], total, i);
    }
  }

  lemma JoinsToMessageIff(held: Buffer, data: seq<Byte>)
    requires |held| == Total(data) && Full(held) && AllWhole(held[..|held| - 1])
    ensures Join(held) == data <==> held == AllChunks(data)
  {
    JoinOfChunks(data, Total(data));
    assert AllChunks(data)[..Total(data)] == AllChunks(data) && data[..|data|] == data;
    if Join(held) == data { JoinIsInjective(held, AllChunks(data)); }
  }

  /** What is held at the end: left-over chunks where there are any, else the message's. */
  lemma LeftOverStays(stale: seq<Frag>, fs: seq<Frag>, data: seq<Byte>)
    requires LeftOver(stale, Total(data)) && FragmentsOf(fs, data) && Covers(stale + fs, Total(data))
    ensures var held := FirstChunks(stale + fs, Total(data));
            && (forall i: nat :: i < Total(data) ==>
                  held[i] == if FirstHeld(stale, i).Some? then FirstHeld(stale, i) else Some(ChunkOf(data, i)))
            && AllWhole(held[..|held| - 1])
  {
    var n := Total(data);
    var held := FirstChunks(stale + fs, n);
    forall i: nat | i < n
      ensures held[i] == if FirstHeld(stale, i).Some? then FirstHeld(stale, i) else Some(ChunkOf(data, i))
      ensures i < n - 1 ==> held[i].Some? && |held[i].value| == CHUNK
    {
      FirstHeldInConcat(stale, fs, i);
      FirstHeldOfMessage(fs, data, i);
      if i < n - 1 { LeftOverHeld(stale, n, i); }
    }
  }

  /** A message whose fragments arrive at a buffer that already holds left-over ones comes
      out right if and only if every chunk held there is the message's own. */
  lemma StaleFragmentsCorruptIff(stale: seq<Frag>, fs: seq<Frag>, data: seq<Byte>)
    requires LeftOver(stale, Total(data)) && FragmentsOf(fs, data)
    requires CompletedByLast(stale + fs, Total(data))
    ensures |RunKey(stale + fs).1| == 1
    ensures RunKey(stale + fs).1 == [data]
       <==> forall i: nat :: i < Total(data) && FirstHeld(stale, i).Some? ==>
              FirstHeld(stale, i).value == ChunkOf(data, i)
  {
    var n := Total(data);
    var held := FirstChunks(stale + fs, n);
    LeftOverStays(stale, fs, data);
    JoinsToMessageIff(held, data);
    CollectsFirstChunks(stale + fs, n);
    hide Join, ChunkOf, FirstHeld, RunKey, Total;
    if forall i: nat :: i < n && FirstHeld(stale, i).Some? ==> FirstHeld(stale, i).value == ChunkOf(data, i) {
      assert held == AllChunks(data);
    } else {
      var i: nat :| i < n && FirstHeld(stale, i).Some? && FirstHeld(stale, i).value != ChunkOf(data, i);
      assert held[i] != AllChunks(data)[i];
    }
  }

  /** One repeat that comes late, after its message was complete, spoils the next message of
      two fragments from that source: its first chunk is the old message's. */
  lemma LateRepeatSpoilsNextMessage(earlier: seq<Byte>, data: seq<Byte>)
    requires Total(earlier) == Total(data) == 2
    ensures var fs := [FragOf(earlier, 0), FragOf(earlier, 1), FragOf(earlier, 0), FragOf(data, 0), FragOf(data, 1)];
            RunKey(fs) == (None, [earlier, earlier[..CHUNK] + data[CHUNK..]])
  {
    var first := [FragOf(earlier, 0), FragOf(earlier, 1)];
    var second := [FragOf(earlier, 0), FragOf(data, 0), FragOf(data, 1)];
    var all := [FragOf(earlier, 0), FragOf(earlier, 1), FragOf(earlier, 0), FragOf(data, 0), FragOf(data, 1)];
    assert first + second == all;
    PermutationCompletes(first, earlier);
    MixedPair(earlier, data);
    RestartsAfterCompletion(first, second);
    var mixed := earlier[..CHUNK] + data[CHUNK..];
    hide RunKey;
    assert RunKey(first) == (None, [earlier]) && RunKey(second) == (None, [mixed]);
    assert RunKey(all) == (None, [earlier] + [mixed]);
    assert [earlier] + [mixed] == [earlier, mixed];
  }

  lemma MixedPair(earlier: seq<Byte>, data: seq<Byte>)
    requires Total(earlier) == Total(data) == 2
    ensures RunKey([FragOf(earlier, 0), FragOf(data, 0), FragOf(data, 1)]) == (None, [earlier[..CHUNK] + data[CHUNK..]])
  {
    var fs := [FragOf(earlier, 0), FragOf(data, 0), FragOf(data, 1)];
    assert ChunkOf(earlier, 0) == earlier[..CHUNK] && ChunkOf(data, 1) == data[CHUNK..];
    assert fs[..2] == [FragOf(earlier, 0), FragOf(data, 0)];
    assert FirstHeld(fs, 0) == Some(earlier[..CHUNK]);
    assert fs[1..][1..] == [FragOf(data, 1)];
    assert FirstHeld(fs, 1) == FirstHeld(fs[1..], 1) == FirstHeld(fs[1..][1..], 1) == Some(data[CHUNK..]);
    assert fs[..2][1..] == [FragOf(data, 0)] && fs[..2][1..][1..] == [];
    assert FirstHeld(fs[..2], 1) == FirstHeld(fs[..2][1..], 1) == FirstHeld(fs[..2][1..][1..], 1) == None;
    assert FirstChunks(fs[..2], 2)[1].None?;
    CollectsFirstChunks(fs, 2);
    var held := FirstChunks(fs, 2);
    assert held[..1] == [held[0]] && held[..1][..0] == Empty(0);
    assert Join(held[..1]) == Join(held[..1][..0]) + earlier[..CHUNK];
    assert Join(held) == earlier[..CHUNK] + data[CHUNK..];
  }
}
