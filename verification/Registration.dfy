/** The map of outgoing transfers as the runs of the sender leave it: which run is registered,
    what a check of an auto-resume pass finds there, and which run a cancel reaches. */
module Registration {
  import opened Wrappers
  import opened TransferStates
  import opened SenderRuns
  import opened ResumePasses
  import opened SenderTraces

  /** The step takes the entry out of the map, whoever's it is. */
  predicate Unregisters(s: State, e: Event)
  {
    || e.Crash?
    || (e.RejectRemoves? && s.rejects > 0)
    || (e.DeclineRemoves? && InPhase(s, 0, Declined))
    || (e.OnRun? && e.step.RemoveEntry? && InPhase(s, e.k, Phase.Removing))
  }

  predicate ChangesAt(events: seq<Event>, n: nat, i: int)
  {
    StartsAt(events, n, i) || (0 <= i < |events| && Unregisters(After(events[..i], n), events[i]))
  }

  /** Run k was the last to be put into the map, by the offer itself or by the start of a pass,
      and nothing has taken it out since. */
  ghost predicate RegisteredBy(events: seq<Event>, n: nat, k: nat)
  {
    || (k == 0 && forall i :: 0 <= i < |events| ==> !ChangesAt(events, n, i))
    || (exists j :: StartsAt(events, n, j) && |After(events[..j], n).runs| == k
                    && forall i :: j < i < |events| ==> !ChangesAt(events, n, i))
  }

  lemma StepEntry(s: State, e: Event, n: nat)
    ensures Next(s, e, n).entry ==
            if Starts(s, e) then Some(|s.runs|) else if Unregisters(s, e) then None else s.entry
    ensures !(Starts(s, e) && Unregisters(s, e))
  {
    hide Advance, WorkOn;
  }

  lemma ChangesLonger(events: seq<Event>, e: Event, n: nat)
    ensures forall i :: i < |events| ==> (ChangesAt(events + [e], n, i) <==> ChangesAt(events, n, i))
    ensures forall j :: j < |events| ==> (StartsAt(events + [e], n, j) <==> StartsAt(events, n, j))
    ensures StartsAt(events + [e], n, |events|) <==> Starts(After(events, n), e)
    ensures ChangesAt(events + [e], n, |events|) <==> Starts(After(events, n), e) || Unregisters(After(events, n), e)
  {
    hide After, Starts, Unregisters;
    var longer := events + [e];
    assert forall i :: 0 <= i <= |events| ==> longer[..i] == events[..i];
    assert longer[..|events|] == events;
  }

  lemma StepRegisteredBy(events: seq<Event>, e: Event, n: nat, k: nat)
    ensures RegisteredBy(events + [e], n, k) <==>
            if Starts(After(events, n), e) then |After(events, n).runs| == k
            else RegisteredBy(events, n, k) && !Unregisters(After(events, n), e)
  {
    var longer, m := events + [e], |events|;
    ChangesLonger(events, e, n);
    assert longer[..m] == events;
    assert forall j :: 0 <= j < m ==> longer[..j] == events[..j];
    hide After, Starts, Unregisters, ChangesAt, StartsAt;
    var s := After(events, n);
    if Starts(s, e) {
      assert StartsAt(longer, n, m) && ChangesAt(longer, n, m);
    } else if RegisteredBy(events, n, k) && !Unregisters(s, e) {
      if j: int :| StartsAt(events, n, j) && |After(events[..j], n).runs| == k
                   && forall i :: j < i < m ==> !ChangesAt(events, n, i) {
        StartInRange(events, n, j);
        assert StartsAt(longer, n, j) && longer[..j] == events[..j];
      }
    }
  }

  lemma StartInRange(events: seq<Event>, n: nat, j: int)
    requires StartsAt(events, n, j)
    ensures 0 <= j < |events|
  {
  }

  /** In every run of the system, whatever overlaps: the map holds run k if and only if k was
      the last to be registered, by the offer or by the start of its pass, and neither a reject,
      nor a timeout, nor the end of a run, nor a crash has removed the entry since. */
  lemma {:induction false} RegisteredIff(events: seq<Event>, n: nat, k: nat)
    ensures After(events, n).entry == Some(k) <==> RegisteredBy(events, n, k)
  {
    if events != [] {
      var m := |events| - 1;
      var init, e := events[..m], events[m];
      assert events == init + [e];
      RegisteredIff(init, n, k);
      StepRegisteredBy(init, e, n, k);
      StepEntry(After(init, n), e, n);
      hide Next, Starts, Unregisters, RegisteredBy;
      assert After(events, n) == Next(After(init, n), e, n);
    }
  }

  /** So a pass that checks while a run is registered, its own pass's or another's, never starts
      a second one, whatever follows. */
  lemma CheckWhileRegistered(events: seq<Event>, n: nat, p: nat, i: nat, k: nat)
    requires i < |events| && events[i] == PassChecks(p) && Crash !in events[i..]
    requires PassExists(After(events[..i], n), p) && After(events[..i], n).passes[p].Listed?
    requires RegisteredBy(events[..i], n, k)
    ensures !PassAt(After(events, n), PassStarts(p)) && |After(events, n).passes| > p
    ensures After(events, n).passes[p].Over?
  {
    hide RegisteredBy;
    RegisteredIff(events[..i], n, k);
    RegisteredIsNotResumed(events, n, p, i);
  }

  // ---------------------------------------------------------------- cancelling

  /** A registered run exists and has not decided yet how it ends. */
  predicate EntryOk(s: State)
  {
    s.entry.Some? ==>
      && s.entry.value < |s.runs|
      && !s.runs[s.entry.value].phase.Deciding? && !s.runs[s.entry.value].phase.Recording?
      && !s.runs[s.entry.value].phase.Finished?
  }

  lemma StepKeepsEntryOk(s: State, e: Event, n: nat)
    requires EntryOk(s)
    ensures EntryOk(Next(s, e, n))
  {
    match e
    case Work(k, i, ok) => if k < |s.runs| && i in s.runs[k].tasks { WorkKeepsPhase(s.runs[k], i, ok); }
    case _ =>
    hide WorkOn;
  }

  lemma WorkKeepsPhase(r: Run, i: nat, ok: bool)
    requires i in r.tasks
    ensures WorkOn(r, i, ok).phase == r.phase && WorkOn(r, i, ok).cancelled == r.cancelled
  {
  }

  lemma {:induction false} EntryIsUndecided(events: seq<Event>, n: nat)
    ensures EntryOk(After(events, n))
  {
    if events != [] {
      hide Next, EntryOk;
      EntryIsUndecided(events[..|events| - 1], n);
      StepKeepsEntryOk(After(events[..|events| - 1], n), events[|events| - 1], n);
    } else {
      assert After(events, n) == Offered();
    }
  }

  /** Run k has been cancelled, and will say so. */
  predicate Doomed(s: State, k: nat)
  {
    && k < |s.runs| && s.runs[k].cancelled
    && (s.runs[k].phase.Recording? ==> s.runs[k].phase.final.Cancelled?)
  }

  lemma StepKeepsDoomed(s: State, e: Event, n: nat, k: nat)
    requires Doomed(s, k) && !e.Crash?
    ensures Doomed(Next(s, e, n), k)
  {
    match e
    case Work(l, i, ok) => if l < |s.runs| && i in s.runs[l].tasks { WorkKeepsPhase(s.runs[l], i, ok); }
    case _ =>
    hide WorkOn;
  }

  /** A cancel sets the flag of the registered run and of no other. */
  lemma CancelReachesRegistered(events: seq<Event>, n: nat, l: nat)
    requires l < |After(events, n).runs|
    ensures var t := After(events + [Cancel], n);
            && |t.runs| == |After(events, n).runs|
            && (t.runs[l].cancelled <==> After(events, n).runs[l].cancelled || RegisteredBy(events, n, l))
  {
    hide RegisteredBy;
    RegisteredIff(events, n, l);
    SameBefore(events, Cancel, n);
    EntryIsUndecided(events, n);
  }

  lemma CancelDooms(events: seq<Event>, n: nat, k: nat)
    requires RegisteredBy(events, n, k)
    ensures Doomed(Next(After(events, n), Cancel, n), k)
  {
    hide RegisteredBy;
    RegisteredIff(events, n, k);
    EntryIsUndecided(events, n);
  }

  lemma {:induction false} DoomedStays(events: seq<Event>, n: nat, i: nat, k: nat)
    requires i < |events| && events[i] == Cancel && Crash !in events[i..]
    requires RegisteredBy(events[..i], n, k)
    ensures Doomed(After(events, n), k)
  {
    hide Next, RegisteredBy, Doomed;
    var m := |events| - 1;
    var init, e := events[..m], events[m];
    assert After(events, n) == Next(After(init, n), e, n);
    if i < m {
      assert init[..i] == events[..i] && init[i..] == events[i..][..m - i];
      assert forall x :: x in init[i..] ==> x in events[i..];
      assert e == events[i..][m - i] && e in events[i..];
      DoomedStays(init, n, i, k);
      StepKeepsDoomed(After(init, n), e, n, k);
    } else {
      assert events[..i] == init;
      CancelDooms(init, n, k);
    }
  }

  /** And that run, whatever overlaps it from then on, ends as cancelled: its flag stays, and
      the final state it comes to write, if any, is Cancelled. */
  lemma {:induction false} CancelledWhileRegistered(events: seq<Event>, n: nat, i: nat, k: nat)
    requires i < |events| && events[i] == Cancel && Crash !in events[i..]
    requires RegisteredBy(events[..i], n, k)
    ensures k < |After(events, n).runs| && After(events, n).runs[k].cancelled
    ensures forall r :: i < r && RecordsAt(events, n, r) && events[r].k == k ==>
              After(events[..r + 1], n).row == Cancelled
  {
    DoomedStays(events, n, i, k);
    forall r | i < r && RecordsAt(events, n, r) && events[r].k == k
      ensures After(events[..r + 1], n).row == Cancelled
    {
      var before := events[..r];
      assert events[..r + 1] == before + [events[r]];
      assert before[..i] == events[..i] && before[i] == events[i];
      assert before[i..] == events[i..][..r - i];
      DoomedStays(before, n, i, k);
      SameBefore(before, events[r], n);
      hide RegisteredBy, After;
      EveryRunIsSafe(before, n);
      StepRow(After(before, n), events[r], n);
    }
  }

  // ---------------------------------------------------------------- rejecting

  /** How many rejects have come in, and how many of their handlers have gone on to remove. */
  function Rejects(events: seq<Event>): nat
  {
    if events == [] then 0
    else Rejects(events[..|events| - 1]) + if events[|events| - 1] == Reply(false) then 1 else 0
  }

  function Removals(events: seq<Event>, n: nat): nat
  {
    if events == [] then 0 else
    var init, e := events[..|events| - 1], events[|events| - 1];
    Removals(init, n) + if e.RejectRemoves? && After(init, n).rejects > 0 then 1 else 0
  }

  lemma StepRejects(s: State, e: Event, n: nat)
    requires !e.Crash?
    ensures Next(s, e, n).rejects ==
            s.rejects + (if e == Reply(false) then 1 else 0)
            - (if e.RejectRemoves? && s.rejects > 0 then 1 else 0)
  {
    hide Advance, WorkOn;
  }

  /** Every reject's handler removes the entry once, and an accept's never does. */
  lemma {:induction false} EveryRejectRemovesOnce(events: seq<Event>, n: nat)
    requires Crash !in events
    ensures After(events, n).rejects + Removals(events, n) == Rejects(events)
  {
    if events != [] {
      var init, e := events[..|events| - 1], events[|events| - 1];
      assert e in events && forall x :: x in init ==> x in events;
      EveryRejectRemovesOnce(init, n);
      StepRejects(After(init, n), e, n);
    }
  }

  /** After any run: once a reject's handler is through, nothing is registered, so that a cancel
      reaches no run and the next check of a pass finds the transfer free. Without a reject there
      is no such handler. */
  lemma RejectUnregisters(events: seq<Event>, n: nat)
    ensures After(events + [Reply(false)] + [RejectRemoves], n).entry == None
    ensures Crash !in events && Reply(false) !in events ==> After(events + [RejectRemoves], n) == After(events, n)
  {
    var replied := events + [Reply(false)];
    SameBefore(events, Reply(false), n);
    SameBefore(replied, RejectRemoves, n);
    SameBefore(events, RejectRemoves, n);
    if Crash !in events && Reply(false) !in events {
      EveryRejectRemovesOnce(events, n);
      NoRejects(events);
    }
  }

  lemma {:induction false} NoRejects(events: seq<Event>)
    requires Reply(false) !in events
    ensures Rejects(events) == 0
  {
    if events != [] {
      assert events[|events| - 1] in events && forall x :: x in events[..|events| - 1] ==> x in events;
      NoRejects(events[..|events| - 1]);
    }
  }

  /** The waiting task that gives up removes the entry, and does so once: a resume that comes
      later is safe from it. */
  lemma TimeoutRemovesOnce(events: seq<Event>, n: nat)
    ensures var t := After(events + [DeclineRemoves], n);
            && (InPhase(After(events, n), 0, Declined) ==> t.entry == None && InPhase(t, 0, Finished))
            && (!InPhase(After(events, n), 0, Declined) ==> t == After(events, n))
            && After(events + [DeclineRemoves] + [DeclineRemoves], n) == t
  {
    SameBefore(events, DeclineRemoves, n);
    SameBefore(events + [DeclineRemoves], DeclineRemoves, n);
  }

  // ---------------------------------------------------------------- interrupted runs

  /** A peer that is gone at the start, a stream that cannot be opened, and a chunk task that
      failed each end the run with an error, which touches neither the row nor the map. */
  lemma InterruptionAborts(events: seq<Event>, n: nat, k: nat, step: RunStep)
    requires k < |After(events, n).runs|
    requires var r := After(events, n).runs[k];
             || (step == Start(false) && r.phase.Starting?)
             || (step == Spawn(false) && r.phase.Looping? && r.todo != [])
             || (step == Join && r.phase.Joining? && AnyErrored(r.tasks))
    ensures var s, t := After(events, n), After(events + [OnRun(k, step)], n);
            InPhase(t, k, Aborted) && t.entry == s.entry && t.row == s.row && t.manifest == s.manifest
            && t.passes == s.passes && |t.runs| == |s.runs|
  {
    SameBefore(events, OnRun(k, step), n);
    hide AnyErrored, AllPersisted;
  }

  /** The passes of m reconnects, one after the other; the first has number p. */
  function Reconnects(p: nat, m: nat): seq<Event>
  {
    if m == 0 then [] else Reconnects(p, m - 1) + WholePass(p + m - 1)
  }

  /** A pass over a registered transfer with an open row ends at its check. */
  lemma PassEndsAtCheck(s: State, n: nat)
    requires Open(s.row) && s.entry.Some?
    ensures Play(s, WholePass(|s.passes|), n) == s.(passes := s.passes + [Over])
  {
    hide Play;
    var p := |s.passes|;
    PlayFour(s, PassLists, PassChecks(p), PassLoads(p), PassStarts(p), n);
    var s1 := Next(s, PassLists, n);
    assert s1 == s.(passes := s.passes + [Listed]);
    var s2 := Next(s1, PassChecks(p), n);
    assert s2.passes == s.passes + [Over];
  }

  lemma {:induction false} PassesEndAtCheck(events: seq<Event>, n: nat, p: nat, m: nat)
    requires Open(After(events, n).row) && After(events, n).entry.Some? && |After(events, n).passes| == p
    ensures var s, t := After(events, n), After(events + Reconnects(p, m), n);
            t == s.(passes := t.passes) && |t.passes| == p + m
  {
    hide After, Play, WholePass;
    if m == 0 {
      assert events + Reconnects(p, 0) == events;
    } else {
      var before, pass := events + Reconnects(p, m - 1), WholePass(p + m - 1);
      assert events + Reconnects(p, m) == before + pass;
      PassesEndAtCheck(events, n, p, m - 1);
      PlayExtendsAfter(before, pass, n);
      PassEndsAtCheck(After(before, n), n);
    }
  }

  /** A run that was interrupted stays in the map, so however often the peer reconnects, no pass
      resumes the transfer: row, manifest and runs stay as they are. */
  lemma ReconnectsDoNotResume(events: seq<Event>, n: nat, k: nat, p: nat, m: nat)
    requires RegisteredBy(events, n, k) && Open(After(events, n).row) && |After(events, n).passes| == p
    ensures var s, t := After(events, n), After(events + Reconnects(p, m), n);
            t == s.(passes := t.passes) && |t.passes| == p + m
  {
    hide RegisteredBy;
    RegisteredIff(events, n, k);
    PassesEndAtCheck(events, n, p, m);
  }

  /** For every number of chunks: an accepted transfer whose peer is gone when its run starts is
      still queued after any number of reconnects, and only after a restart does the next one
      send it. */
  lemma InterruptedUntilRestart(n: nat, m: nat)
    ensures var interrupted := [Reply(true), WaitOver] + [OnRun(0, Start(false))];
            var reconnected := interrupted + Reconnects(0, m);
            && InPhase(After(interrupted, n), 0, Aborted)
            && After(reconnected, n).row == Queued && |After(reconnected, n).runs| == 1
            && After(reconnected, n).enqueued == {}
            && After(reconnected + [Crash] + WholePass(0) + SendAll(0, n), n).row == Completed
  {
    hide Play, SendAll, Reconnects;
    var accepted := [Reply(true), WaitOver];
    var interrupted := accepted + [OnRun(0, Start(false))];
    var reconnected := interrupted + Reconnects(0, m);
    PlayExtendsAfter([], accepted, n);
    assert [] + accepted == accepted && After([], n) == Offered();
    PlayTwo(Offered(), Reply(true), WaitOver, n);
    var s := After(accepted, n);
    assert s.runs == [FRESH_RUN] && s.entry == Some(0) && s.row == Queued && s.passes == [];
    InterruptionAborts(accepted, n, 0, Start(false));
    var t := After(interrupted, n);
    RegisteredIff(interrupted, n, 0);
    ReconnectsDoNotResume(interrupted, n, 0, 0, m);
    InterruptedSentNothing(accepted, n);
    hide WholePass;
    RestartSends(reconnected, n);
  }

  lemma InterruptedSentNothing(events: seq<Event>, n: nat)
    ensures var s, t := After(events, n), After(events + [OnRun(0, Start(false))], n);
            t.enqueued == s.enqueued && t.manifest == s.manifest
  {
    SameBefore(events, OnRun(0, Start(false)), n);
    hide Advance;
  }

  lemma RestartSends(events: seq<Event>, n: nat)
    requires Open(After(events, n).row) && After(events, n).manifest == {}
    ensures After(events + [Crash] + WholePass(0) + SendAll(0, n), n).row == Completed
  {
    hide Play, SendAll;
    var crashed := events + [Crash];
    SameBefore(events, Crash, n);
    var s := After(crashed, n);
    assert s.passes == [] && s.runs == [] && s.entry == None;
    PassStartsRun(s, n);
    PlayExtendsAfter(crashed, WholePass(0), n);
    hide WholePass;
    var t := After(crashed + WholePass(0), n);
    PlayExtendsAfter(crashed + WholePass(0), SendAll(0, n), n);
    AllIsSent(t, 0, n);
  }

  // ---------------------------------------------------------------- restarts

  /** A state without its record of what has happened. */
  function Forget(s: State): State
  {
    s.(enqueued := {}, replies := [], resumed := false)
  }

  lemma RunStepReadsNoRecord(s: State, k: nat, step: RunStep, n: nat)
    requires k < |s.runs|
    ensures Forget(OnRunStep(s, k, step, n)) == Forget(OnRunStep(Forget(s), k, step, n))
  {
    hide Advance;
  }

  lemma WorkReadsNoRecord(s: State, k: nat, i: nat, ok: bool)
    requires k < |s.runs| && i in s.runs[k].tasks
    ensures Forget(OnWork(s, k, i, ok)) == Forget(OnWork(Forget(s), k, i, ok))
  {
    hide WorkOn;
  }

  lemma PassReadsNoRecord(s: State, e: Event)
    requires e.PassChecks? || e.PassLoads? || e.PassStarts?
    ensures PassAt(s, e) == PassAt(Forget(s), e)
    ensures PassAt(s, e) ==> Forget(OnPass(s, e.p)) == Forget(OnPass(Forget(s), e.p))
  {
  }

  lemma StepReadsNoRecord(s: State, e: Event, n: nat)
    ensures Forget(Next(s, e, n)) == Forget(Next(Forget(s), e, n))
  {
    hide OnRunStep, OnWork, OnPass, PassAt;
    match e
    case OnRun(k, step) => if k < |s.runs| { RunStepReadsNoRecord(s, k, step, n); }
    case Work(k, i, ok) => if k < |s.runs| && i in s.runs[k].tasks { WorkReadsNoRecord(s, k, i, ok); }
    case PassChecks(_) => PassReadsNoRecord(s, e);
    case PassLoads(_) => PassReadsNoRecord(s, e);
    case PassStarts(_) => PassReadsNoRecord(s, e);
    case _ =>
  }

  lemma CrashKeepsDisk(one: seq<Event>, other: seq<Event>, n: nat)
    requires After(one, n).row == After(other, n).row && After(one, n).manifest == After(other, n).manifest
    ensures Forget(After(one + [Crash], n)) == Forget(After(other + [Crash], n))
  {
    SameBefore(one, Crash, n);
    SameBefore(other, Crash, n);
  }

  lemma SameStep(one: seq<Event>, other: seq<Event>, e: Event, n: nat)
    requires Forget(After(one, n)) == Forget(After(other, n))
    ensures Forget(After(one + [e], n)) == Forget(After(other + [e], n))
  {
    SameBefore(one, e, n);
    SameBefore(other, e, n);
    hide *;
    StepReadsNoRecord(After(one, n), e, n);
    StepReadsNoRecord(After(other, n), e, n);
  }

  /** A restart sees only what is on disk: two histories that leave the same row and manifest
      go on in the same way after it, whatever comes. */
  lemma {:induction false} RestartSeesOnlyDisk(one: seq<Event>, other: seq<Event>, more: seq<Event>, n: nat)
    requires After(one, n).row == After(other, n).row && After(one, n).manifest == After(other, n).manifest
    ensures Forget(After(one + [Crash] + more, n)) == Forget(After(other + [Crash] + more, n))
  {
    hide *;
    if more == [] {
      assert one + [Crash] + [] == one + [Crash] && other + [Crash] + [] == other + [Crash];
      CrashKeepsDisk(one, other, n);
    } else {
      var init, e := more[..|more| - 1], more[|more| - 1];
      RestartSeesOnlyDisk(one, other, init, n);
      assert one + [Crash] + more == (one + [Crash] + init) + [e];
      assert other + [Crash] + more == (other + [Crash] + init) + [e];
      SameStep(one + [Crash] + init, other + [Crash] + init, e, n);
    }
  }
}
