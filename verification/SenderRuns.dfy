/** The sending side of one transfer over its whole life: the offer and its replies, the
    sending runs with their chunk tasks, auto-resume passes, and crashes. Steps of different
    runs, tasks, passes and replies interleave freely; nothing forbids two runs at once. */
module SenderRuns {
  import opened Wrappers
  import opened TransferHandle
  import opened TransferStates

  /** A chunk task: reading and enqueueing, marking the handle, marking the manifest. */
  datatype Task = Reading | Enqueued | Marked | Persisted | Errored

  datatype Phase =
    | Awaiting            // send_file's task waits for the reply
    | Declined            // rejected or timed out, entry not yet removed
    | Starting
    | Looping
    | Joining
    | Removing
    | Deciding
    | Recording(final: TransferState)
    | Finished
    | Aborted              // returned an error; its entry stays and its tasks run on

  datatype Run = Run(phase: Phase, todo: seq<nat>, tasks: map<nat, Task>, acked: set<nat>, cancelled: bool)

  /** An auto-resume pass that has this transfer in its list. */
  datatype Pass = Listed | Checked | Loaded(acked: set<nat>) | Over

  /** `row` and `manifest` are on disk. `entry` is the run registered in the outgoing map,
      `acceptTx` whether that entry still holds the reply sender, `reply` what was sent on
      it, `rejects` the reject handlers that have yet to remove the entry. `enqueued`,
      `replies` and `resumed` record what has happened. */
  datatype State = State(
    row: TransferState,
    manifest: set<nat>,
    runs: seq<Run>,
    entry: Option<nat>,
    acceptTx: bool,
    reply: Option<bool>,
    rejects: nat,
    passes: seq<Pass>,
    enqueued: set<nat>,
    replies: seq<bool>,
    resumed: bool)

  /** The statements of `run_outgoing_transfer`, as far as others can see them. */
  datatype RunStep =
    | Start(connected: bool)
    | Spawn(streamOk: bool)
    | LeaveLoop
    | Join
    | RemoveEntry
    | Decide
    | Record(ok: bool)

  datatype Event =
    | Reply(accept: bool)
    | RejectRemoves
    | WaitOver
    | DeclineRemoves
    | OnRun(k: nat, step: RunStep)
    | Work(k: nat, i: nat, ok: bool)
    | Cancel
    | PassLists
    | PassChecks(p: nat)
    | PassLoads(p: nat)
    | PassStarts(p: nat)
    | Crash

  /** Right after `send_file` has sent the offer. */
  function Offered(): State
  {
    State(Queued, {}, [Run(Awaiting, [], map[], {}, false)], Some(0), true, None, 0, [], {}, [], false)
  }

  function SetRun(s: State, k: nat, r: Run): State
    requires k < |s.runs|
  {
    s.(runs := s.runs[k := r])
  }

  predicate InPhase(s: State, k: nat, phase: Phase)
  {
    k < |s.runs| && s.runs[k].phase == phase
  }

  /** A reply takes the sender out of the entry, if there is one to take. */
  function OnReply(s: State, accept: bool): State
  {
    var taken := s.acceptTx && s.entry.Some?;
    s.(replies := s.replies + [accept],
       acceptTx := false,
       reply := if taken && InPhase(s, 0, Awaiting) then Some(accept) else s.reply,
       rejects := if accept then s.rejects else s.rejects + 1)
  }

  /** The waiting task goes on: with the reply if one was sent, else because time ran out. */
  function OnWaitOver(s: State): State
  {
    if !InPhase(s, 0, Awaiting) then s
    else SetRun(s, 0, s.runs[0].(phase := if s.reply == Some(true) then Starting else Declined))
  }

  function Deregister(s: State): State
  {
    s.(entry := None, acceptTx := false)
  }

  /** One step of the task for chunk i. */
  function WorkOn(r: Run, i: nat, ok: bool): Run
    requires i in r.tasks
  {
    match r.tasks[i]
    case Reading => r.(tasks := r.tasks[i := if ok then Enqueued else Errored])
    case Enqueued => r.(tasks := r.tasks[i := Marked], acked := r.acked + {i})
    case Marked => r.(tasks := r.tasks[i := Persisted])
    case _ => r
  }

  /** A failed manifest write is only logged. */
  function OnWork(s: State, k: nat, i: nat, ok: bool): State
    requires k < |s.runs| && i in s.runs[k].tasks
  {
    var task := s.runs[k].tasks[i];
    SetRun(s, k, WorkOn(s.runs[k], i, ok)).(
      enqueued := if task.Reading? && ok then s.enqueued + {i} else s.enqueued,
      manifest := if task.Marked? && ok then s.manifest + {i} else s.manifest)
  }

  predicate AllPersisted(tasks: map<nat, Task>)
  {
    forall i :: i in tasks ==> tasks[i].Persisted?
  }

  predicate AnyErrored(tasks: map<nat, Task>)
  {
    exists i :: i in tasks && tasks[i].Errored?
  }

  function Advance(r: Run, step: RunStep, n: nat): Run
  {
    match step
    case Start(connected) =>
      if !r.phase.Starting? then r
      else if connected then r.(phase := Looping, todo := Pending(r.acked, n))
      else r.(phase := Aborted)
    case Spawn(streamOk) =>
      if !r.phase.Looping? || r.todo == [] then r
      else if streamOk then r.(tasks := r.tasks[r.todo[0] := Reading], todo := r.todo[1..])
      else r.(phase := Aborted)
    case LeaveLoop =>
      if r.phase.Looping? && (r.todo == [] || r.cancelled) then r.(phase := Joining) else r
    case Join =>
      if !r.phase.Joining? then r
      else if AnyErrored(r.tasks) then r.(phase := Aborted)
      else if AllPersisted(r.tasks) then r.(phase := Removing)
      else r
    case RemoveEntry => if r.phase.Removing? then r.(phase := Deciding) else r
    case Decide =>
      if r.phase.Deciding? then r.(phase := Recording(if r.cancelled then Cancelled else Completed)) else r
    case Record(_) => if r.phase.Recording? then r.(phase := Finished) else r
  }

  /** A statement of a run, with what it does outside the run. */
  function OnRunStep(s: State, k: nat, step: RunStep, n: nat): State
    requires k < |s.runs|
  {
    var r := s.runs[k];
    var t := SetRun(s, k, Advance(r, step, n));
    match step
    case RemoveEntry => if r.phase.Removing? then Deregister(t) else t
    case Record(ok) => if r.phase.Recording? && ok then t.(row := r.phase.final) else t
    case _ => t
  }

  function OnPass(s: State, p: nat): State
    requires p < |s.passes|
  {
    match s.passes[p]
    case Listed => s.(passes := s.passes[p := if s.entry.None? then Checked else Over])
    case Checked => s.(passes := s.passes[p := Loaded(s.manifest)])
    case Loaded(acked) =>
      s.(passes := s.passes[p := Over],
         runs := s.runs + [Run(Starting, [], map[], acked, false)],
         entry := Some(|s.runs|), acceptTx := false, resumed := true)
    case Over => s
  }

  predicate PassAt(s: State, e: Event)
    requires e.PassChecks? || e.PassLoads? || e.PassStarts?
  {
    e.p < |s.passes| &&
    match e
    case PassChecks(p) => s.passes[p].Listed?
    case PassLoads(p) => s.passes[p].Checked?
    case PassStarts(p) => s.passes[p].Loaded?
  }

  /** A step of the system; an event that is not enabled changes nothing. */
  function Next(s: State, e: Event, n: nat): State
  {
    match e
    case Reply(accept) => OnReply(s, accept)
    case RejectRemoves => if s.rejects == 0 then s else Deregister(s).(rejects := s.rejects - 1)
    case WaitOver => OnWaitOver(s)
    case DeclineRemoves =>
      if InPhase(s, 0, Declined) then Deregister(SetRun(s, 0, s.runs[0].(phase := Finished))) else s
    case OnRun(k, step) => if k < |s.runs| then OnRunStep(s, k, step, n) else s
    case Work(k, i, ok) =>
      if k < |s.runs| && i in s.runs[k].tasks then OnWork(s, k, i, ok) else s
    case Cancel =>
      if s.entry.Some? && s.entry.value < |s.runs|
      then SetRun(s, s.entry.value, s.runs[s.entry.value].(cancelled := true)) else s
    case PassLists => if Open(s.row) then s.(passes := s.passes + [Listed]) else s
    case PassChecks(_) => if PassAt(s, e) then OnPass(s, e.p) else s
    case PassLoads(_) => if PassAt(s, e) then OnPass(s, e.p) else s
    case PassStarts(_) => if PassAt(s, e) then OnPass(s, e.p) else s
    case Crash => s.(runs := [], entry := None, acceptTx := false, reply := None, rejects := 0, passes := [])
  }

  function After(events: seq<Event>, n: nat): State
  {
    if events == [] then Offered() else Next(After(events[..|events| - 1], n), events[|events| - 1], n)
  }

  // ---------------------------------------------------------------- every run

  ghost predicate Covered(r: Run, n: nat)
  {
    forall i: nat :: i < n ==> i in r.acked || i in r.todo || i in r.tasks
  }

  ghost predicate RunOk(r: Run, enqueued: set<nat>, n: nat)
  {
    && r.acked <= enqueued
    && (forall i :: i in r.todo ==> i < n)
    && (forall i :: i in r.tasks ==>
          && i < n
          && (r.tasks[i] in {Enqueued, Marked, Persisted} ==> i in enqueued)
          && (r.tasks[i] in {Marked, Persisted} ==> i in r.acked))
    && (r.phase in {Awaiting, Declined, Starting} ==> r.tasks == map[])
    && (r.phase in {Looping, Joining, Removing, Deciding} || r.phase.Recording? ==> Covered(r, n))
    && (r.phase in {Joining, Removing, Deciding} ==> r.todo == [] || r.cancelled)
    && (r.phase in {Removing, Deciding, Finished} || r.phase.Recording? ==> AllPersisted(r.tasks))
    && (r.phase == Recording(Completed) ==> r.todo == [])
    && (r.phase.Recording? ==> !Open(r.phase.final))
  }

  ghost predicate Inv(s: State, n: nat)
  {
    && s.manifest <= s.enqueued
    && (forall i :: i in s.enqueued ==> i < n)
    && (forall k :: 0 <= k < |s.runs| ==> RunOk(s.runs[k], s.enqueued, n))
    && (forall p :: 0 <= p < |s.passes| && s.passes[p].Loaded? ==> s.passes[p].acked <= s.manifest)
    && (s.row.Completed? ==> forall i: nat :: i < n ==> i in s.enqueued)
  }

  lemma SetRunKeepsInv(s: State, k: nat, r: Run, n: nat)
    requires Inv(s, n) && k < |s.runs| && RunOk(r, s.enqueued, n)
    ensures Inv(SetRun(s, k, r), n)
  {
  }

  lemma MoreEnqueued(r: Run, enqueued: set<nat>, more: set<nat>, n: nat)
    requires RunOk(r, enqueued, n) && enqueued <= more
    ensures RunOk(r, more, n)
  {
  }

  lemma WorkOnKeepsRunOk(r: Run, i: nat, ok: bool, enqueued: set<nat>, n: nat)
    requires RunOk(r, enqueued, n) && i in r.tasks
    requires r.tasks[i].Reading? && ok ==> i in enqueued
    ensures RunOk(WorkOn(r, i, ok), enqueued, n)
  {
  }

  lemma TaskInRange(r: Run, i: nat, enqueued: set<nat>, n: nat)
    requires RunOk(r, enqueued, n) && i in r.tasks
    ensures i < n && (r.tasks[i].Marked? ==> i in enqueued)
  {
  }

  lemma WorkKeepsInv(s: State, k: nat, i: nat, ok: bool, n: nat)
    requires Inv(s, n) && k < |s.runs| && i in s.runs[k].tasks
    ensures Inv(OnWork(s, k, i, ok), n)
  {
    hide RunOk, WorkOn;
    var t := OnWork(s, k, i, ok);
    assert RunOk(s.runs[k], s.enqueued, n);
    TaskInRange(s.runs[k], i, s.enqueued, n);
    forall l | 0 <= l < |t.runs| ensures RunOk(t.runs[l], t.enqueued, n) {
      MoreEnqueued(s.runs[l], s.enqueued, t.enqueued, n);
      if l == k { WorkOnKeepsRunOk(s.runs[k], i, ok, t.enqueued, n); }
    }
  }

  lemma AdvanceKeepsRunOk(r: Run, step: RunStep, enqueued: set<nat>, n: nat)
    requires RunOk(r, enqueued, n)
    ensures RunOk(Advance(r, step, n), enqueued, n)
  {
    match step
    case Spawn(_) =>
      if r.todo != [] {
        assert r.todo[0] in r.todo && r.todo == [r.todo[0]] + r.todo[1..];
        forall i | i in r.todo[1..] ensures i in r.todo {}
      }
    case _ =>
  }

  lemma CompletedRunEnqueuedAll(r: Run, enqueued: set<nat>, n: nat)
    requires RunOk(r, enqueued, n) && r.phase == Recording(Completed)
    ensures forall i: nat :: i < n ==> i in enqueued
  {
  }

  lemma RunStepKeepsInv(s: State, k: nat, step: RunStep, n: nat)
    requires Inv(s, n) && k < |s.runs|
    ensures Inv(OnRunStep(s, k, step, n), n)
  {
    hide RunOk, Advance;
    AdvanceKeepsRunOk(s.runs[k], step, s.enqueued, n);
    SetRunKeepsInv(s, k, Advance(s.runs[k], step, n), n);
    if s.runs[k].phase == Recording(Completed) { CompletedRunEnqueuedAll(s.runs[k], s.enqueued, n); }
  }

  lemma WaitKeepsInv(s: State, n: nat)
    requires Inv(s, n)
    ensures Inv(OnWaitOver(s), n)
    ensures InPhase(s, 0, Declined) ==> Inv(SetRun(s, 0, s.runs[0].(phase := Finished)), n)
  {
    if |s.runs| > 0 { assert RunOk(s.runs[0], s.enqueued, n); }
  }

  lemma CancelKeepsInv(s: State, k: nat, n: nat)
    requires Inv(s, n) && k < |s.runs|
    ensures Inv(SetRun(s, k, s.runs[k].(cancelled := true)), n)
  {
    assert RunOk(s.runs[k], s.enqueued, n);
  }

  lemma PassKeepsInv(s: State, p: nat, n: nat)
    requires Inv(s, n) && p < |s.passes|
    ensures Inv(OnPass(s, p), n)
  {
    if s.passes[p].Loaded? { assert RunOk(Run(Starting, [], map[], s.passes[p].acked, false), s.enqueued, n); }
  }

  lemma NextKeepsInv(s: State, e: Event, n: nat)
    requires Inv(s, n)
    ensures Inv(Next(s, e, n), n)
  {
    hide RunOk, OnWork, OnRunStep, OnPass, OnWaitOver;
    match e
    case Work(k, i, ok) => if k < |s.runs| && i in s.runs[k].tasks { WorkKeepsInv(s, k, i, ok, n); }
    case WaitOver => WaitKeepsInv(s, n);
    case DeclineRemoves => WaitKeepsInv(s, n);
    case Cancel => if s.entry.Some? && s.entry.value < |s.runs| { CancelKeepsInv(s, s.entry.value, n); }
    case OnRun(k, step) => if k < |s.runs| { RunStepKeepsInv(s, k, step, n); }
    case PassChecks(p) => if p < |s.passes| { PassKeepsInv(s, p, n); }
    case PassLoads(p) => if p < |s.passes| { PassKeepsInv(s, p, n); }
    case PassStarts(p) => if p < |s.passes| { PassKeepsInv(s, p, n); }
    case _ =>
  }

  /** Every run, whatever interleaves and however many sending runs overlap: what the
      manifest or any handle counts as sent has been enqueued, and the row says completed
      only when every chunk has been. */
  lemma {:induction false} EveryRunIsSafe(events: seq<Event>, n: nat)
    ensures var s := After(events, n);
            && Inv(s, n)
            && s.manifest <= s.enqueued
            && (forall k :: 0 <= k < |s.runs| ==> s.runs[k].acked <= s.enqueued)
            && (s.row.Completed? ==> forall i: nat :: i < n ==> i in s.enqueued)
  {
    hide Next;
    if events != [] {
      EveryRunIsSafe(events[..|events| - 1], n);
      NextKeepsInv(After(events[..|events| - 1], n), events[|events| - 1], n);
    }
  }

  // ---------------------------------------------------------------- negotiation

  predicate FirstReplyAccepts(s: State)
  {
    s.replies != [] && s.replies[0]
  }

  /** A run that may still come to enqueue chunks. */
  predicate Engaged(r: Run)
  {
    r.phase !in {Awaiting, Declined, Finished}
  }

  ghost predicate NegotiationInv(s: State)
  {
    && (s.acceptTx ==> s.replies == [])
    && (s.reply.Some? ==> s.replies != [] && s.reply.value == s.replies[0])
    && (!s.resumed ==>
          && |s.runs| <= 1
          && (forall k :: 0 <= k < |s.runs| && Engaged(s.runs[k]) ==> FirstReplyAccepts(s))
          && (s.enqueued != {} ==> FirstReplyAccepts(s)))
  }

  lemma WorkKeepsNegotiation(s: State, k: nat, i: nat, ok: bool, n: nat)
    requires Inv(s, n) && NegotiationInv(s) && k < |s.runs| && i in s.runs[k].tasks
    ensures NegotiationInv(OnWork(s, k, i, ok))
  {
    hide RunOk;
    IdleHasNothingToSend(s.runs[k], i, s.enqueued, n);
  }

  lemma RunStepKeepsNegotiation(s: State, k: nat, step: RunStep, n: nat)
    requires NegotiationInv(s) && k < |s.runs|
    ensures NegotiationInv(OnRunStep(s, k, step, n))
  {
    assert Engaged(Advance(s.runs[k], step, n)) ==> Engaged(s.runs[k]);
    hide Advance;
  }

  lemma NextKeepsNegotiation(s: State, e: Event, n: nat)
    requires Inv(s, n) && NegotiationInv(s)
    ensures NegotiationInv(Next(s, e, n))
  {
    hide Inv, OnWork, OnRunStep;
    match e
    case Work(k, i, ok) => if k < |s.runs| && i in s.runs[k].tasks { WorkKeepsNegotiation(s, k, i, ok, n); }
    case OnRun(k, step) => if k < |s.runs| { RunStepKeepsNegotiation(s, k, step, n); }
    case Reply(accept) => assert s.replies != [] ==> (s.replies + [accept])[0] == s.replies[0];
    case _ =>
  }

  lemma IdleHasNothingToSend(r: Run, i: nat, enqueued: set<nat>, n: nat)
    requires RunOk(r, enqueued, n) && i in r.tasks
    ensures r.tasks[i].Reading? ==> Engaged(r)
  {
  }

  /** On the `send_file` path the first reply decides, whatever replies, timeouts and
      crashes follow, and no chunk is enqueued unless that reply was an accept. */
  lemma {:induction false} FirstReplyDecides(events: seq<Event>, n: nat)
    ensures var s := After(events, n);
            && NegotiationInv(s)
            && (s.reply.Some? ==> s.reply.value == s.replies[0])
            && (!s.resumed && s.enqueued != {} ==> s.replies != [] && s.replies[0])
  {
    hide Next;
    if events != [] {
      var init := events[..|events| - 1];
      FirstReplyDecides(init, n);
      EveryRunIsSafe(init, n);
      NextKeepsNegotiation(After(init, n), events[|events| - 1], n);
    }
  }

  // ---------------------------------------------------------------- one run or pass at a time

  predicate InFlight(tasks: map<nat, Task>)
  {
    exists i :: i in tasks && tasks[i] in {Reading, Enqueued, Marked}
  }

  /** A run that can still change the row, the manifest or the channel. */
  predicate Busy(r: Run)
  {
    r.phase !in {Declined, Finished, Aborted} || InFlight(r.tasks)
  }

  /** At most one busy run or unfinished pass: runs and passes do not overlap. */
  ghost predicate Exclusive(s: State)
  {
    && (forall k, l :: 0 <= k < |s.runs| && 0 <= l < |s.runs| && Busy(s.runs[k]) && Busy(s.runs[l]) ==> k == l)
    && (forall p, q :: 0 <= p < |s.passes| && 0 <= q < |s.passes| && !s.passes[p].Over? && !s.passes[q].Over? ==>
          p == q)
    && (forall k, p :: 0 <= k < |s.runs| && 0 <= p < |s.passes| && Busy(s.runs[k]) ==> s.passes[p].Over?)
  }

  ghost predicate ExclusiveInv(s: State)
  {
    && (forall k :: 0 <= k < |s.runs| && Busy(s.runs[k]) ==> s.manifest <= s.runs[k].acked)
    && (forall p :: 0 <= p < |s.passes| && s.passes[p].Loaded? ==> s.passes[p].acked == s.manifest)
    && (forall p :: 0 <= p < |s.passes| && !s.passes[p].Over? ==> Open(s.row))
  }

  lemma MarkedIsBusy(r: Run, i: nat, ok: bool, enqueued: set<nat>, n: nat)
    requires RunOk(r, enqueued, n) && i in r.tasks
    ensures r.tasks[i].Marked? ==> Busy(r) && i in r.acked
    ensures Busy(WorkOn(r, i, ok)) ==> Busy(r)
    ensures r.acked <= WorkOn(r, i, ok).acked
  {
    var q := WorkOn(r, i, ok);
    if r.tasks[i] in {Reading, Enqueued, Marked} { assert InFlight(r.tasks); }
  }

  lemma AdvanceNeedsBusy(r: Run, step: RunStep, enqueued: set<nat>, n: nat)
    requires RunOk(r, enqueued, n)
    ensures Busy(Advance(r, step, n)) ==> Busy(r)
    ensures Advance(r, step, n).acked == r.acked
    ensures r.phase.Recording? ==> Busy(r)
  {
    var q := Advance(r, step, n);
    if q.phase.Aborted? && r.phase.Aborted? {
    } else if q.phase.Finished? && r.phase.Recording? {
    }
  }

  lemma WorkKeepsExclusive(s: State, k: nat, i: nat, ok: bool, n: nat)
    requires Inv(s, n) && Exclusive(s) && ExclusiveInv(s) && k < |s.runs| && i in s.runs[k].tasks
    ensures ExclusiveInv(OnWork(s, k, i, ok))
  {
    hide RunOk, Busy, WorkOn;
    var t := OnWork(s, k, i, ok);
    MarkedIsBusy(s.runs[k], i, ok, s.enqueued, n);
    assert |t.runs| == |s.runs|;
    forall l | 0 <= l < |t.runs| && Busy(t.runs[l]) ensures t.manifest <= t.runs[l].acked {
      assert Busy(s.runs[l]);
      if s.runs[k].tasks[i].Marked? { assert l == k; }
    }
  }

  /** Runs that only wind down, with disk and passes as they were. */
  lemma WindDownKeepsExclusive(s: State, t: State)
    requires ExclusiveInv(s)
    requires t.manifest == s.manifest && t.row == s.row && t.passes == s.passes && |t.runs| == |s.runs|
    requires forall l :: 0 <= l < |t.runs| ==>
               t.runs[l].acked == s.runs[l].acked && (Busy(t.runs[l]) ==> Busy(s.runs[l]))
    ensures ExclusiveInv(t)
  {
    hide Busy;
  }

  lemma RunStepKeepsExclusive(s: State, k: nat, step: RunStep, n: nat)
    requires Inv(s, n) && Exclusive(s) && ExclusiveInv(s) && k < |s.runs|
    ensures ExclusiveInv(OnRunStep(s, k, step, n))
  {
    hide Busy, Advance, RunOk;
    var t := OnRunStep(s, k, step, n);
    AdvanceNeedsBusy(s.runs[k], step, s.enqueued, n);
    WindDownKeepsExclusive(s, t.(row := s.row));
    if t.row != s.row { assert Busy(s.runs[k]); }
  }

  lemma PassKeepsExclusive(s: State, p: nat)
    requires Exclusive(s) && ExclusiveInv(s) && p < |s.passes|
    ensures ExclusiveInv(OnPass(s, p))
  {
    hide Busy;
    var t := OnPass(s, p);
    forall l | 0 <= l < |t.runs| && Busy(t.runs[l]) ensures t.manifest <= t.runs[l].acked {
      assert l < |s.runs| ==> t.runs[l] == s.runs[l];
    }
  }

  lemma NextKeepsExclusive(s: State, e: Event, n: nat)
    requires Inv(s, n) && Exclusive(s) && ExclusiveInv(s)
    ensures ExclusiveInv(Next(s, e, n))
  {
    hide RunOk, Advance, WorkOn, ExclusiveInv, Exclusive, Inv;
    var t := Next(s, e, n);
    match e
    case Work(k, i, ok) => if k < |s.runs| && i in s.runs[k].tasks { WorkKeepsExclusive(s, k, i, ok, n); }
    case OnRun(k, step) => if k < |s.runs| { RunStepKeepsExclusive(s, k, step, n); }
    case PassLists => ListingKeepsExclusive(s);
    case PassChecks(p) => if PassAt(s, e) { PassKeepsExclusive(s, p); }
    case PassLoads(p) => if PassAt(s, e) { PassKeepsExclusive(s, p); }
    case PassStarts(p) => if PassAt(s, e) { PassKeepsExclusive(s, p); }
    case Crash => CrashKeepsExclusive(s, t);
    case DeclineRemoves =>
      if InPhase(s, 0, Declined) { DeclinedIsIdle(s, n); }
      WindDownKeepsExclusive(s, t);
    case _ => WindDownKeepsExclusive(s, t);
  }

  lemma DeclinedIsIdle(s: State, n: nat)
    requires Inv(s, n) && InPhase(s, 0, Declined)
    ensures !InFlight(s.runs[0].tasks)
  {
    assert RunOk(s.runs[0], s.enqueued, n);
  }

  lemma ListingKeepsExclusive(s: State)
    requires ExclusiveInv(s)
    ensures Open(s.row) ==> ExclusiveInv(s.(passes := s.passes + [Listed]))
  {
    hide Busy;
  }

  lemma CrashKeepsExclusive(s: State, t: State)
    requires t.runs == [] && t.passes == []
    ensures ExclusiveInv(t)
  {
  }

  /** When sending runs and auto-resume passes never overlap: the manifest is within the
      handle of the run at work, and a pass that comes to start a run finds the row still
      open and starts from the whole manifest. So a completed or cancelled row is never
      resumed. */
  lemma {:induction false} ExclusivePassesResumeOpenRows(events: seq<Event>, n: nat)
    requires forall j :: 0 <= j <= |events| ==> Exclusive(After(events[..j], n))
    ensures var s := After(events, n);
            && ExclusiveInv(s)
            && (forall k :: 0 <= k < |s.runs| && Busy(s.runs[k]) ==> s.manifest <= s.runs[k].acked)
            && (forall p: nat :: PassAt(s, PassStarts(p)) ==> Open(s.row) && s.passes[p].acked == s.manifest)
  {
    hide Next, Exclusive;
    if events != [] {
      var init := events[..|events| - 1];
      forall j | 0 <= j <= |init| ensures Exclusive(After(init[..j], n)) {
        assert init[..j] == events[..j];
      }
      ExclusivePassesResumeOpenRows(init, n);
      EveryRunIsSafe(init, n);
      assert Exclusive(After(events[..|init|], n));
      NextKeepsExclusive(After(init, n), events[|events| - 1], n);
    }
  }

  /** A run that records completed has nothing left pending. */
  lemma CompletedMeansNothingPending(events: seq<Event>, n: nat, k: nat)
    requires InPhase(After(events, n), k, Recording(Completed))
    ensures Pending(After(events, n).runs[k].acked, n) == []
  {
    hide After, Covered;
    EveryRunIsSafe(events, n);
    var r := After(events, n).runs[k];
    assert RunOk(r, After(events, n).enqueued, n);
    NothingPending(r.acked, n);
    EveryIndexAcked(r, n);
  }

  lemma EveryIndexAcked(r: Run, n: nat)
    requires Covered(r, n) && r.todo == [] && AllPersisted(r.tasks)
    requires forall i :: i in r.tasks && r.tasks[i].Persisted? ==> i in r.acked
    ensures forall i: nat :: i < n ==> i in r.acked
  {
  }
}
