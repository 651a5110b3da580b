/** The cache of message ids a BLE node has seen: a map in access order that drops its eldest
    entry when it outgrows its capacity. `put` makes an id the youngest; `containsKey` does
    not touch the order. */
module BleSeenCache {
  import opened BleReassembly

  const DEDUP_CACHE_MAX_SIZE: nat := 500

  /** A message id, as its UTF-8 bytes. */
  type Id = seq<Byte>

  function Without(order: seq<Id>, id: Id): (r: seq<Id>)
    ensures forall x :: x in r <==> x in order && x != id
  {
    if order == [] then []
    else if order[0] == id then Without(order[1..], id)
    else [order[0]] + Without(order[1..], id)
  }

  /** A put, eldest first. */
  function AfterPut(order: seq<Id>, id: Id, cap: nat): seq<Id>
  {
    var moved := Without(order, id) + [id];
    if |moved| > cap then moved[1..] else moved
  }

  class SeenMessageIds {
    var order: seq<Id>

    constructor ()
      ensures order == []
    {
      order := [];
    }

    method ContainsKey(id: Id) returns (seen: bool)
      ensures seen <==> id in order
    {
      seen := id in order;
    }

    method Put(id: Id)
      modifies this
      ensures order == AfterPut(old(order), id, DEDUP_CACHE_MAX_SIZE)
    {
      order := Without(order, id) + [id];
      if |order| > DEDUP_CACHE_MAX_SIZE { order := order[1..]; }
    }
  }

  function CacheOf(puts: seq<Id>, cap: nat): seq<Id>
  {
    if puts == [] then [] else AfterPut(CacheOf(puts[..|puts| - 1], cap), puts[|puts| - 1], cap)
  }

  /** The distinct ids of a history, by when they were last put, oldest first. */
  function ByLastPut(puts: seq<Id>): seq<Id>
  {
    if puts == [] then [] else Without(ByLastPut(puts[..|puts| - 1]), puts[|puts| - 1]) + [puts[|puts| - 1]]
  }

  function Elements(s: seq<Id>): set<Id> { set x | x in s }

  predicate NoDuplicates(s: seq<Id>)
  {
    forall i, j :: 0 <= i < j < |s| ==> s[i] != s[j]
  }

  /** The last `k` elements, or all of them. */
  function Youngest(s: seq<Id>, k: nat): seq<Id>
  {
    if |s| <= k then s else s[|s| - k..]
  }

  lemma {:induction false} WithoutKeeps(order: seq<Id>, id: Id)
    requires NoDuplicates(order)
    ensures NoDuplicates(Without(order, id))
    ensures |Without(order, id)| == |order| - if id in order then 1 else 0
    ensures id !in order ==> Without(order, id) == order
  {
    if order != [] {
      assert order == [order[0]] + order[1..];
      WithoutKeeps(order[1..], id);
      assert order[0] !in order[1..];
      var rest := Without(order[1..], id);
      assert order[0] !in rest;
      assert forall j :: 0 <= j < |rest| ==> rest[j] in rest;
    }
  }

  lemma {:induction false} WithoutConcat(a: seq<Id>, b: seq<Id>, id: Id)
    ensures Without(a + b, id) == Without(a, id) + Without(b, id)
  {
    if a == [] {
      assert a + b == b;
    } else {
      assert (a + b)[1..] == a[1..] + b;
      WithoutConcat(a[1..], b, id);
    }
  }

  lemma {:induction false} ByLastPutIsDistinct(puts: seq<Id>)
    ensures NoDuplicates(ByLastPut(puts)) && Elements(ByLastPut(puts)) == Elements(puts)
  {
    if puts != [] {
      var init, last := puts[..|puts| - 1], puts[|puts| - 1];
      ByLastPutIsDistinct(init);
      WithoutKeeps(ByLastPut(init), last);
      assert puts == init + [last];
      var without := Without(ByLastPut(init), last);
      assert forall j :: 0 <= j < |without| ==> without[j] in without;
      forall x ensures x in ByLastPut(puts) <==> x in puts {
        assert x in ByLastPut(init) <==> x in Elements(ByLastPut(init));
        assert x in init <==> x in Elements(init);
      }
    }
  }

  lemma YoungestOfConcat(a: seq<Id>, b: seq<Id>, k: nat)
    ensures |b| == k ==> Youngest(a + b, k) == b
    ensures |b| == k + 1 ==> Youngest(a + b, k) == b[1..]
  {
  }

  lemma PutOnOverfull(evicted: seq<Id>, young: seq<Id>, id: Id)
    requires NoDuplicates(evicted + young)
    ensures AfterPut(young, id, |young|) == Youngest(Without(evicted + young, id) + [id], |young|)
  {
    var a, b := Without(evicted, id), Without(young, id);
    assert forall i :: 0 <= i < |evicted| ==> (evicted + young)[i] == evicted[i];
    assert forall i :: 0 <= i < |young| ==> (evicted + young)[|evicted| + i] == young[i];
    assert NoDuplicates(young);
    WithoutConcat(evicted, young, id);
    WithoutKeeps(young, id);
    YoungestOfConcat(a, b + [id], |young|);
    assert a + b + [id] == a + (b + [id]);
  }

  /** Evicting along the way leaves what cutting the whole history at the end would. */
  lemma PutOnYoungest(order: seq<Id>, id: Id, cap: nat)
    requires NoDuplicates(order) && cap > 0
    ensures AfterPut(Youngest(order, cap), id, cap) == Youngest(Without(order, id) + [id], cap)
  {
    if |order| <= cap {
      WithoutKeeps(order, id);
    } else {
      var evicted, young := order[..|order| - cap], order[|order| - cap..];
      assert order == evicted + young;
      PutOnOverfull(evicted, young, id);
    }
  }

  /** The cache is the youngest part of the history, at every moment. */
  lemma {:induction false} CacheIsYoungest(puts: seq<Id>, cap: nat)
    requires cap > 0
    ensures CacheOf(puts, cap) == Youngest(ByLastPut(puts), cap)
  {
    if puts != [] {
      var init, last := puts[..|puts| - 1], puts[|puts| - 1];
      CacheIsYoungest(init, cap);
      ByLastPutIsDistinct(init);
      PutOnYoungest(ByLastPut(init), last, cap);
    }
  }

  // ---------------------------------------------------------------- membership by history

  /** The distinct ids put after the last put of `x`. */
  function PutSince(puts: seq<Id>, x: Id): set<Id>
  {
    if puts == [] || puts[|puts| - 1] == x then {}
    else PutSince(puts[..|puts| - 1], x) + {puts[|puts| - 1]}
  }

  /** The part of a list behind the last `x`. */
  function Behind(order: seq<Id>, x: Id): seq<Id>
  {
    if order == [] || order[|order| - 1] == x then []
    else Behind(order[..|order| - 1], x) + [order[|order| - 1]]
  }

  lemma {:induction false} BehindConcat(a: seq<Id>, b: seq<Id>, x: Id)
    ensures Behind(a + b, x) == if x in b then Behind(b, x) else Behind(a, x) + b
  {
    if b == [] {
      assert a + b == a;
    } else {
      var n := |b| - 1;
      assert (a + b)[..|a + b| - 1] == a + b[..n];
      assert b == b[..n] + [b[n]];
      BehindConcat(a, b[..n], x);
      if b[n] != x && x !in b {
        assert Behind(a, x) + b[..n] + [b[n]] == Behind(a, x) + b;
      }
    }
  }

  lemma {:induction false} BehindElements(order: seq<Id>, x: Id)
    ensures forall y :: y in Behind(order, x) ==> y in order && y != x
  {
    if order != [] { BehindElements(order[..|order| - 1], x); }
  }

  lemma {:induction false} WithoutBehind(order: seq<Id>, x: Id, y: Id)
    requires x != y
    ensures Behind(Without(order, y), x) == Without(Behind(order, x), y)
  {
    if order != [] {
      var init, last := order[..|order| - 1], order[|order| - 1];
      assert order == init + [last];
      WithoutBehind(init, x, y);
      WithoutConcat(init, [last], y);
      WithoutConcat(Behind(init, x), [last], y);
      BehindConcat(Without(init, y), Without([last], y), x);
    }
  }

  /** What is behind an id in the order is what was put since its last put. */
  lemma {:induction false} BehindIsPutSince(puts: seq<Id>, x: Id)
    requires x in puts
    ensures Elements(Behind(ByLastPut(puts), x)) == PutSince(puts, x)
  {
    var init, last := puts[..|puts| - 1], puts[|puts| - 1];
    assert puts == init + [last];
    var without := Without(ByLastPut(init), last);
    BehindConcat(without, [last], x);
    if last != x {
      BehindIsPutSince(init, x);
      WithoutBehind(ByLastPut(init), x, last);
      forall y ensures y in Behind(ByLastPut(puts), x) <==> y in PutSince(puts, x) {
        assert y in Behind(ByLastPut(init), x) <==> y in Elements(Behind(ByLastPut(init), x));
      }
    }
  }

  lemma {:induction false} DistinctCount(s: seq<Id>)
    requires NoDuplicates(s)
    ensures |Elements(s)| == |s|
  {
    if s != [] {
      var init, last := s[..|s| - 1], s[|s| - 1];
      DistinctCount(init);
      assert Elements(s) == Elements(init) + {last};
    }
  }

  lemma {:induction false} BehindAt(order: seq<Id>, i: nat)
    requires NoDuplicates(order) && i < |order|
    ensures Behind(order, order[i]) == order[i + 1..]
  {
    var n := |order| - 1;
    if i < n {
      BehindAt(order[..n], i);
      assert order[i + 1..] == order[..n][i + 1..] + [order[n]];
    }
  }

  lemma InYoungestAt(order: seq<Id>, i: nat, k: nat)
    requires NoDuplicates(order) && i < |order|
    ensures order[i] in Youngest(order, k) <==> |order| - i <= k
  {
    if |order| - i <= k < |order| {
      assert order[|order| - k..][i - (|order| - k)] == order[i];
    }
  }

  lemma YoungestHasIffFewBehind(order: seq<Id>, x: Id, k: nat)
    requires NoDuplicates(order) && x in order
    ensures x in Youngest(order, k) <==> |Behind(order, x)| < k
    ensures NoDuplicates(Behind(order, x))
  {
    var i :| 0 <= i < |order| && order[i] == x;
    BehindAt(order, i);
    InYoungestAt(order, i, k);
  }

  /** An id is in the cache exactly when it was put and fewer than `cap` distinct other ids
      have been put since: the cache holds the `cap` most recently put distinct ids. */
  lemma CachedIffRecent(puts: seq<Id>, x: Id, cap: nat)
    requires cap > 0
    ensures x in CacheOf(puts, cap) <==> x in puts && |PutSince(puts, x)| < cap
  {
    CacheIsYoungest(puts, cap);
    ByLastPutIsDistinct(puts);
    var order := ByLastPut(puts);
    assert x in order <==> x in Elements(order);
    assert x in puts <==> x in Elements(puts);
    if x in puts {
      YoungestHasIffFewBehind(order, x, cap);
      BehindIsPutSince(puts, x);
      DistinctCount(Behind(order, x));
    }
  }

  lemma {:induction false} PutSinceAtMost(puts: seq<Id>, x: Id)
    ensures PutSince(puts, x) <= Elements(puts) - {x}
  {
    if puts != [] {
      PutSinceAtMost(puts[..|puts| - 1], x);
      assert puts == puts[..|puts| - 1] + [puts[|puts| - 1]];
    }
  }

  lemma SubsetCount(a: set<Id>, b: set<Id>)
    requires a <= b
    ensures |a| <= |b|
  {
    assert b == a + (b - a);
  }

  /** With no more distinct ids than the capacity, nothing is ever forgotten. */
  lemma FewIdsAreRemembered(puts: seq<Id>, ids: set<Id>, x: Id, cap: nat)
    requires 0 < cap && |ids| <= cap && Elements(puts) <= ids
    ensures x in CacheOf(puts, cap) <==> x in puts
  {
    CachedIffRecent(puts, x, cap);
    if x in puts {
      PutSinceAtMost(puts, x);
      assert x in Elements(puts);
      SubsetCount(PutSince(puts, x), ids - {x});
    }
  }

  lemma {:induction false} PutSinceWithin(puts: seq<Id>, j: nat, x: Id)
    requires j < |puts| && puts[j] == x
    ensures PutSince(puts, x) <= Elements(puts[j + 1..]) - {x}
  {
    var n := |puts| - 1;
    if j < n && puts[n] != x {
      PutSinceWithin(puts[..n], j, x);
      assert puts[j + 1..] == puts[..n][j + 1..] + [puts[n]];
    }
  }

  /** A node that no longer knows an id it once put has put at least `cap` distinct other ids
      after it: two deliveries of one id are that far apart. */
  lemma ForgottenOnlyAfterMany(puts: seq<Id>, j: nat, cap: nat)
    requires 0 < cap && j < |puts| && puts[j] !in CacheOf(puts, cap)
    ensures |Elements(puts[j + 1..]) - {puts[j]}| >= cap
  {
    CachedIffRecent(puts, puts[j], cap);
    PutSinceWithin(puts, j, puts[j]);
    SubsetCount(PutSince(puts, puts[j]), Elements(puts[j + 1..]) - {puts[j]});
  }
}
