/** Runs of the sender that end where they should not: what a rejection and an overlap of
    passes and cancelled runs leave possible. */
module SenderTraces {
  import opened Wrappers
  import opened TransferStates
  import opened TransferHandle
  import opened SenderRuns

  /** Events played from a state, first one first. */
  function Play(s: State, events: seq<Event>, n: nat): State
    decreases |events|
  {
    if events == [] then s else Play(Next(s, events[0], n), events[1..], n)
  }

  lemma {:induction false} PlayExtendsAfter(before: seq<Event>, events: seq<Event>, n: nat)
    ensures After(before + events, n) == Play(After(before, n), events, n)
    decreases |events|
  {
    hide Next;
    if events == [] {
      assert before + events == before;
    } else {
      var first := before + [events[0]];
      assert first[..|first| - 1] == before && first[|first| - 1] == events[0];
      PlayExtendsAfter(first, events[1..], n);
      assert first + events[1..] == before + events;
    }
  }

  lemma {:induction false} PlaySplits(s: State, a: seq<Event>, b: seq<Event>, n: nat)
    ensures Play(s, a + b, n) == Play(Play(s, a, n), b, n)
    decreases |a|
  {
    hide Next;
    if a == [] {
      assert a + b == b;
    } else {
      PlaySplits(Next(s, a[0], n), a[1..], b, n);
      assert (a + b)[1..] == a[1..] + b;
    }
  }

  lemma PlayOne(s: State, e: Event, n: nat)
    ensures Play(s, [e], n) == Next(s, e, n)
  {
    hide Next;
    assert [e][1..] == [] && Play(Next(s, e, n), [], n) == Next(s, e, n);
  }

  lemma PlayTwo(s: State, a: Event, b: Event, n: nat)
    ensures Play(s, [a, b], n) == Next(Next(s, a, n), b, n)
  {
    hide Next, Play;
    PlaySplits(s, [a], [b], n);
    assert [a] + [b] == [a, b];
    PlayOne(s, a, n);
    PlayOne(Next(s, a, n), b, n);
  }

  lemma PlayFour(s: State, a: Event, b: Event, c: Event, d: Event, n: nat)
    ensures Play(s, [a, b, c, d], n) == Next(Next(Next(Next(s, a, n), b, n), c, n), d, n)
  {
    hide Next, Play;
    PlaySplits(s, [a, b], [c, d], n);
    assert [a, b] + [c, d] == [a, b, c, d];
    PlayTwo(s, a, b, n);
    PlayTwo(Next(Next(s, a, n), b, n), c, d, n);
  }

  // ---------------------------------------------------------------- sending every chunk

  /** Spawning the next chunk and seeing its task through. */
  function SendChunk(k: nat, i: nat): seq<Event>
  {
    [OnRun(k, Spawn(true)), Work(k, i, true), Work(k, i, true), Work(k, i, true)]
  }

  function SendChunks(k: nat, m: nat): seq<Event>
  {
    if m == 0 then [] else SendChunks(k, m - 1) + SendChunk(k, m - 1)
  }

  function WindUp(k: nat): seq<Event>
  {
    [OnRun(k, LeaveLoop), OnRun(k, Join), OnRun(k, RemoveEntry), OnRun(k, Decide)] + [OnRun(k, Record(true))]
  }

  /** A whole run of n chunks without trouble. */
  function SendAll(k: nat, n: nat): seq<Event>
  {
    [OnRun(k, Start(true))] + SendChunks(k, n) + WindUp(k)
  }

  const FRESH_RUN: Run := Run(Starting, [], map[], {}, false)

  function First(m: nat): (s: set<nat>)
    ensures forall i: nat :: i in s <==> i < m
  {
    if m == 0 then {} else First(m - 1) + {m - 1}
  }

  /** The run that has sent its first m chunks of n. */
  function Halfway(m: nat, n: nat): Run
    requires m <= n
  {
    Run(Looping, seq(n - m, i requires 0 <= i < n - m => m + i), map i | i in First(m) :: Persisted, First(m), false)
  }

  lemma {:induction false} AllPending(n: nat)
    ensures Pending({}, n) == seq(n, i requires 0 <= i < n => i)
  {
    if n > 0 { AllPending(n - 1); }
  }

  /** A chunk's four steps, seen by the run alone. */
  lemma ChunkAdvances(m: nat, n: nat)
    requires m < n
    ensures var r0 := Halfway(m, n);
            var r1 := Advance(r0, Spawn(true), n);
            && m in r1.tasks && r1.tasks[m] == Reading
            && var r2 := WorkOn(r1, m, true);
               && m in r2.tasks && r2.tasks[m] == Enqueued
               && var r3 := WorkOn(r2, m, true);
                  m in r3.tasks && r3.tasks[m] == Marked && WorkOn(r3, m, true) == Halfway(m + 1, n)
  {
    var r0 := Halfway(m, n);
    var r1 := Advance(r0, Spawn(true), n);
    assert r0.todo[0] == m && r0.todo[1..] == Halfway(m + 1, n).todo;
    var r4 := WorkOn(WorkOn(WorkOn(r1, m, true), m, true), m, true);
    assert r4.tasks == Halfway(m + 1, n).tasks;
    assert r4.acked == First(m + 1);
  }

  lemma ChunkIsSent(s: State, k: nat, m: nat, n: nat)
    requires k < |s.runs| && m < n && s.runs[k] == Halfway(m, n)
    ensures Play(s, SendChunk(k, m), n) ==
            SetRun(s, k, Halfway(m + 1, n)).(manifest := s.manifest + {m}, enqueued := s.enqueued + {m})
  {
    hide Play;
    var spawn, work := OnRun(k, Spawn(true)), Work(k, m, true);
    PlayFour(s, spawn, work, work, work, n);
    ChunkAdvances(m, n);
    hide Halfway, WorkOn, Advance;
    var r1 := Advance(s.runs[k], Spawn(true), n);
    var r2 := WorkOn(r1, m, true);
    var r3 := WorkOn(r2, m, true);
    var s1 := Next(s, spawn, n);
    assert s1 == SetRun(s, k, r1);
    var s2 := Next(s1, work, n);
    assert s2 == SetRun(s, k, r2).(enqueued := s.enqueued + {m});
    var s3 := Next(s2, work, n);
    assert s3 == SetRun(s2, k, r3);
  }

  lemma {:induction false} ChunksAreSent(s: State, k: nat, m: nat, n: nat)
    requires k < |s.runs| && m <= n && s.runs[k] == Halfway(0, n)
    ensures Play(s, SendChunks(k, m), n) ==
            SetRun(s, k, Halfway(m, n)).(manifest := s.manifest + First(m), enqueued := s.enqueued + First(m))
  {
    hide Halfway, SendChunk;
    if m == 0 {
      assert s.manifest + First(0) == s.manifest && s.enqueued + First(0) == s.enqueued;
      assert s.runs[k := s.runs[k]] == s.runs;
    } else {
      var before, chunk := SendChunks(k, m - 1), SendChunk(k, m - 1);
      assert SendChunks(k, m) == before + chunk;
      hide Play, SendChunks, First;
      ChunksAreSent(s, k, m - 1, n);
      PlaySplits(s, before, chunk, n);
      var t := SetRun(s, k, Halfway(m - 1, n)).(
        manifest := s.manifest + First(m - 1), enqueued := s.enqueued + First(m - 1));
      ChunkIsSent(t, k, m - 1, n);
      FirstGrows(s.manifest, m);
      FirstGrows(s.enqueued, m);
      assert s.runs[k := Halfway(m - 1, n)][k := Halfway(m, n)] == s.runs[k := Halfway(m, n)];
    }
  }

  lemma FirstGrows(s: set<nat>, m: nat)
    requires m > 0
    ensures s + First(m - 1) + {m - 1} == s + First(m)
  {
  }

  /** Leaving the loop, whether for want of chunks or because of a cancel. */
  lemma RunWindsUp(s: State, k: nat, n: nat)
    requires k < |s.runs| && s.runs[k].phase.Looping? && AllPersisted(s.runs[k].tasks)
    requires s.runs[k].todo == [] || s.runs[k].cancelled
    ensures var t := Play(s, WindUp(k), n);
            && t.row == (if s.runs[k].cancelled then Cancelled else Completed)
            && t == SetRun(s, k, s.runs[k].(phase := Finished)).(row := t.row, entry := None, acceptTx := false)
  {
    var r := s.runs[k];
    var final := if r.cancelled then Cancelled else Completed;
    var four := [OnRun(k, LeaveLoop), OnRun(k, Join), OnRun(k, RemoveEntry), OnRun(k, Decide)];
    WindUpAdvances(r, n);
    hide Play, AllPersisted, Advance;
    PlaySplits(s, four, [OnRun(k, Record(true))], n);
    PlayFour(s, four[0], four[1], four[2], four[3], n);
    var s1 := Next(s, four[0], n);
    assert s1 == SetRun(s, k, r.(phase := Joining));
    var s2 := Next(s1, four[1], n);
    assert s2 == SetRun(s, k, r.(phase := Removing));
    var s3 := Next(s2, four[2], n);
    assert s3 == Deregister(SetRun(s, k, r.(phase := Deciding)));
    var s4 := Next(s3, four[3], n);
    assert s4 == Deregister(SetRun(s, k, r.(phase := Recording(final))));
    PlayOne(s4, OnRun(k, Record(true)), n);
  }

  /** The same, seen by the run alone. */
  lemma WindUpAdvances(r: Run, n: nat)
    requires r.phase.Looping? && AllPersisted(r.tasks) && (r.todo == [] || r.cancelled)
    ensures Advance(r, LeaveLoop, n) == r.(phase := Joining)
    ensures Advance(r.(phase := Joining), Join, n) == r.(phase := Removing)
    ensures Advance(r.(phase := Removing), RemoveEntry, n) == r.(phase := Deciding)
    ensures var final := if r.cancelled then Cancelled else Completed;
            && Advance(r.(phase := Deciding), Decide, n) == r.(phase := Recording(final))
            && Advance(r.(phase := Recording(final)), Record(true), n) == r.(phase := Finished)
  {
    NoneErrored(r.tasks);
    hide AnyErrored;
  }

  lemma NoneErrored(tasks: map<nat, Task>)
    requires AllPersisted(tasks)
    ensures !AnyErrored(tasks)
  {
  }

  lemma AllIsSent(s: State, k: nat, n: nat)
    requires k < |s.runs| && s.runs[k] == FRESH_RUN
    ensures var t := Play(s, SendAll(k, n), n);
            && t.row == Completed && t.enqueued == s.enqueued + First(n) && t.manifest == s.manifest + First(n)
            && t.replies == s.replies
  {
    hide Play;
    var started := Play(s, [OnRun(k, Start(true))], n);
    PlaySplits(s, [OnRun(k, Start(true))] + SendChunks(k, n), WindUp(k), n);
    PlaySplits(s, [OnRun(k, Start(true))], SendChunks(k, n), n);
    PlayOne(s, OnRun(k, Start(true)), n);
    AllPending(n);
    assert Advance(FRESH_RUN, Start(true), n) == Halfway(0, n);
    assert started == SetRun(s, k, Halfway(0, n));
    ChunksAreSent(started, k, n, n);
    RunWindsUp(Play(started, SendChunks(k, n), n), k, n);
  }

  // ---------------------------------------------------------------- a pass

  function WholePass(p: nat): seq<Event>
  {
    [PassLists, PassChecks(p), PassLoads(p), PassStarts(p)]
  }

  /** A pass that lists the row, finds nothing registered, and starts its run. */
  lemma PassStartsRun(s: State, n: nat)
    requires Open(s.row) && s.entry.None?
    ensures var t := Play(s, WholePass(|s.passes|), n);
            && t.runs == s.runs + [Run(Starting, [], map[], s.manifest, false)] && t.manifest == s.manifest
            && t.replies == s.replies && t.enqueued == s.enqueued && t.entry == Some(|s.runs|) && t.resumed
  {
    hide Play;
    var p := |s.passes|;
    PlayFour(s, PassLists, PassChecks(p), PassLoads(p), PassStarts(p), n);
    var s1 := Next(s, PassLists, n);
    assert s1 == s.(passes := s.passes + [Listed]);
    ListedPassStartsRun(s1, p, n);
  }

  lemma ListedPassStartsRun(s: State, p: nat, n: nat)
    requires p < |s.passes| && s.passes[p].Listed? && s.entry.None?
    ensures var t := Next(Next(Next(s, PassChecks(p), n), PassLoads(p), n), PassStarts(p), n);
            && t.runs == s.runs + [Run(Starting, [], map[], s.manifest, false)] && t.manifest == s.manifest
            && t.replies == s.replies && t.enqueued == s.enqueued && t.entry == Some(|s.runs|) && t.resumed
  {
    var s1 := Next(s, PassChecks(p), n);
    assert s1 == s.(passes := s.passes[p := Checked]);
    var s2 := Next(s1, PassLoads(p), n);
    assert s2 == s.(passes := s1.passes[p := Loaded(s.manifest)]);
  }

  // ---------------------------------------------------------------- offers that were not accepted

  /** An offer whose first reply, if any, was no accept, and that no pass has resumed. */
  predicate Unaccepted(s: State)
  {
    !FirstReplyAccepts(s) && !s.resumed
  }

  /** Nothing has happened to it but waiting. */
  ghost predicate OnlyWaited(s: State)
  {
    && s.row == Queued && s.enqueued == {} && s.manifest == {} && |s.runs| <= 1
    && (|s.runs| == 1 ==> s.runs[0].phase in {Awaiting, Declined, Finished} && s.runs[0].tasks == map[])
    && (s.runs == [] || s.runs[0].phase.Finished? ==> s.entry.None?)
  }

  lemma NextKeepsWaiting(s: State, e: Event, n: nat)
    requires NegotiationInv(s) && (Unaccepted(s) ==> OnlyWaited(s)) && Unaccepted(Next(s, e, n))
    ensures OnlyWaited(Next(s, e, n))
  {
    StaysUnaccepted(s, e, n);
    hide FirstReplyAccepts;
    match e
    case OnRun(k, step) => if k < |s.runs| { IdleRunStays(s, k, step, n); }
    case _ =>
  }

  lemma StaysUnaccepted(s: State, e: Event, n: nat)
    requires Unaccepted(Next(s, e, n))
    ensures Unaccepted(s)
    ensures s.replies != [] ==> Next(s, e, n).replies != [] && Next(s, e, n).replies[0] == s.replies[0]
  {
    match e
    case Reply(accept) => assert s.replies != [] ==> (s.replies + [accept])[0] == s.replies[0];
    case _ =>
  }

  lemma IdleRunStays(s: State, k: nat, step: RunStep, n: nat)
    requires k < |s.runs| && s.runs[k].phase in {Awaiting, Declined, Finished}
    ensures OnRunStep(s, k, step, n) == s
  {
    assert SetRun(s, k, s.runs[k]) == s;
  }

  /** As long as no accept has come first and no pass has resumed it, an offer's row is still
      queued, so every auto-resume pass lists it; nothing has been enqueued. */
  lemma {:induction false} UnacceptedStaysQueued(events: seq<Event>, n: nat)
    requires Unaccepted(After(events, n))
    ensures OnlyWaited(After(events, n))
    ensures After(events + [PassLists], n) == After(events, n).(passes := After(events, n).passes + [Listed])
  {
    hide Next, NegotiationInv, OnlyWaited;
    if events == [] {
      assert OnlyWaited(Offered()) by { OfferedWaits(); }
    } else {
      var init, e := events[..|events| - 1], events[|events| - 1];
      FirstReplyDecides(init, n);
      StaysUnaccepted(After(init, n), e, n);
      UnacceptedStaysQueued(init, n);
      NextKeepsWaiting(After(init, n), e, n);
    }
    assert (events + [PassLists])[..|events|] == events;
    ListingWaiting(After(events, n), n);
  }

  lemma OfferedWaits()
    ensures OnlyWaited(Offered())
  {
  }

  lemma ListingWaiting(s: State, n: nat)
    requires OnlyWaited(s)
    ensures Next(s, PassLists, n) == s.(passes := s.passes + [Listed])
  {
  }

  /** The waiting task gives up and removes the entry, if it has not yet. */
  lemma WaitingGivesUp(s: State, n: nat)
    requires OnlyWaited(s) && s.reply != Some(true)
    ensures var t := Play(s, [WaitOver, DeclineRemoves], n);
            && t.entry.None? && t.row == Queued && t.enqueued == {} && t.manifest == {} && t.passes == s.passes
            && t.replies == s.replies
  {
    hide Play;
    PlayTwo(s, WaitOver, DeclineRemoves, n);
    var s1 := Next(s, WaitOver, n);
    assert s1.runs != [] ==> s1.runs[0].phase in {Declined, Finished};
  }

  /** So from every state of an offer that was not accepted, rejected ones among them, and for
      every number of chunks, the run can go on to enqueue all chunks and to record the
      transfer as completed, without another reply. */
  lemma {:induction false} RejectedTransferIsResumed(events: seq<Event>, n: nat) returns (more: seq<Event>)
    requires Unaccepted(After(events, n))
    ensures var t := After(events + more, n);
            t.row == Completed && t.enqueued == First(n) && t.replies == After(events, n).replies
  {
    var s := After(events, n);
    UnacceptedStaysQueued(events, n);
    FirstReplyDecides(events, n);
    hide After, Play;
    assert s.reply != Some(true);
    WaitingGivesUp(s, n);
    var waited := [WaitOver, DeclineRemoves];
    var s1 := Play(s, waited, n);
    PassStartsRun(s1, n);
    var pass := WholePass(|s.passes|);
    var s2 := Play(s1, pass, n);
    var k := |s1.runs|;
    AllIsSent(s2, k, n);
    more := waited + pass + SendAll(k, n);
    PlayExtendsAfter(events, more, n);
    PlaySplits(s, waited + pass, SendAll(k, n), n);
    PlaySplits(s, waited, pass, n);
    assert {} + First(n) == First(n);
  }

  // ---------------------------------------------------------------- offers without a row

  /** The step needs the row: a pass lists it, a chunk is recorded in its manifest, or its state
      is written. */
  predicate NeedsRow(s: State, e: Event)
  {
    || e == PassLists
    || (e.OnRun? && e.step == Record(true))
    || (e.Work? && e.ok && e.k < |s.runs| && e.i in s.runs[e.k].tasks && s.runs[e.k].tasks[e.i].Marked?)
  }

  /** A run of an offer whose row could not be created, as of the files of a folder. */
  ghost predicate Rowless(events: seq<Event>, n: nat)
  {
    forall j :: 0 <= j < |events| ==> !NeedsRow(After(events[..j], n), events[j])
  }

  ghost predicate NothingStored(s: State)
  {
    s.passes == [] && !s.resumed && s.manifest == {} && s.row == Queued
  }

  lemma StepStoresNothing(s: State, e: Event, n: nat)
    requires NothingStored(s) && !NeedsRow(s, e)
    ensures NothingStored(Next(s, e, n))
  {
    hide Advance, WorkOn;
  }

  /** It is never resumed, whatever crashes and reconnects, and nothing is ever recorded for it;
      so not one chunk is enqueued unless the first reply was an accept. */
  lemma {:induction false} RowlessIsNeverResumed(events: seq<Event>, n: nat)
    requires Rowless(events, n)
    ensures var s := After(events, n);
            NothingStored(s) && (s.enqueued != {} ==> FirstReplyAccepts(s))
  {
    if events != [] {
      var m := |events| - 1;
      forall j | 0 <= j < m ensures !NeedsRow(After(events[..m][..j], n), events[..m][j]) {
        assert events[..m][..j] == events[..j];
      }
      RowlessIsNeverResumed(events[..m], n);
      StepStoresNothing(After(events[..m], n), events[m], n);
      hide NothingStored, Next;
    }
    FirstReplyDecides(events, n);
  }

  // ---------------------------------------------------------------- a pass that listed too early

  /** Accepted, listed by a pass, started and cancelled: the run winds up and the row says so. */
  function CancelledRun(): seq<Event>
  {
    [Reply(true), WaitOver, PassLists] + [OnRun(0, Start(true)), Cancel] + WindUp(0)
  }

  lemma RunIsCancelled(n: nat)
    ensures var t := After(CancelledRun(), n);
            && t.row == Cancelled && t.passes == [Listed] && t.entry.None? && |t.runs| == 1
            && t.manifest == {} && t.enqueued == {}
  {
    hide After, Play;
    var a, b := [Reply(true), WaitOver, PassLists], [OnRun(0, Start(true)), Cancel];
    assert CancelledRun() == [] + (a + b + WindUp(0));
    PlayExtendsAfter([], a + b + WindUp(0), n);
    assert After([], n) == Offered() by { NoEvents(n); }
    PlaySplits(Offered(), a + b, WindUp(0), n);
    PlaySplits(Offered(), a, b, n);
    PlaySplits(Offered(), [Reply(true), WaitOver], [PassLists], n);
    assert [Reply(true), WaitOver] + [PassLists] == a;
    PlayTwo(Offered(), Reply(true), WaitOver, n);
    var s1 := Next(Next(Offered(), Reply(true), n), WaitOver, n);
    PlayOne(s1, PassLists, n);
    var s2 := Next(s1, PassLists, n);
    assert s2.runs == [FRESH_RUN] && s2.entry == Some(0) && s2.passes == [Listed];
    PlayTwo(s2, OnRun(0, Start(true)), Cancel, n);
    var s3 := Next(Next(s2, OnRun(0, Start(true)), n), Cancel, n);
    assert s3.runs == [Run(Looping, Pending({}, n), map[], {}, true)];
    RunWindsUp(s3, 0, n);
  }

  lemma NoEvents(n: nat)
    ensures After([], n) == Offered()
  {
  }

  /** A pass that listed the row while a run was at work still resumes it after that run was
      cancelled: for any number of chunks, the cancelled row ends up completed. */
  lemma StalePassResumesCancelledRow(n: nat)
    ensures var pass := [PassChecks(0), PassLoads(0), PassStarts(0)];
            && After(CancelledRun(), n).row == Cancelled
            && After(CancelledRun() + pass + SendAll(1, n), n).row == Completed
  {
    hide After, Play, Next;
    RunIsCancelled(n);
    var s, pass := After(CancelledRun(), n), [PassChecks(0), PassLoads(0), PassStarts(0)];
    ListedPassStartsRun(s, 0, n);
    PlayExtendsAfter(CancelledRun(), pass, n);
    PlayExtendsAfter(CancelledRun() + pass, SendAll(1, n), n);
    PlaySplits(s, [PassChecks(0), PassLoads(0)], [PassStarts(0)], n);
    assert [PassChecks(0), PassLoads(0)] + [PassStarts(0)] == pass;
    PlayTwo(s, PassChecks(0), PassLoads(0), n);
    PlayOne(Next(Next(s, PassChecks(0), n), PassLoads(0), n), PassStarts(0), n);
    AllIsSent(Play(s, pass, n), 1, n);
  }
}
