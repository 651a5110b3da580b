/** The chunk-sending loop under any schedule: the loop itself, its tasks and whoever
    pauses, resumes or cancels take steps in any order. Two loops share the shape and differ
    in what a cancel during a pause does: `run_outgoing_transfer` goes on to spawn one more
    task, `run_sender_workers` returns an error. */
module SenderLoop {
  const DEFAULT_PARALLELISM: nat := 6

  datatype LoopKind = OutgoingTransfer | SenderWorkers

  /** Where the loop is, with the position in the pending list it is working on. */
  datatype Pc =
    | Top(j: nat)
    | PauseTest(j: nat)
    | Slept(j: nat)
    | Acquire(j: nat)
    | Open(j: nat)        // permit held, stream not yet opened
    | Joining
    | Done
    | Failed

  datatype TaskState = Running | Sent | Errored

  /** `tasks[j]` is the task for the j-th pending index: the loop spawns them in order.
      `spawnedAfterCancel` counts the spawns that came after the cancel flag was set. */
  datatype State = State(
    pc: Pc,
    permits: nat,
    tasks: seq<TaskState>,
    paused: bool,
    cancelled: bool,
    spawnedAfterCancel: nat)

  datatype Event =
    | LoopStep(streamOk: bool)
    | TaskEnds(j: nat, ok: bool)
    | SetPaused(on: bool)
    | Cancel

  function Initial(): State
  {
    State(Top(0), DEFAULT_PARALLELISM, [], false, false, 0)
  }

  function Spawn(s: State, j: nat): State
  {
    s.(pc := Top(j + 1), tasks := s.tasks + [Running],
       spawnedAfterCancel := s.spawnedAfterCancel + if s.cancelled then 1 else 0)
  }

  /** One step of the loop over `n` pending indices; waiting leaves the state as it is. */
  function StepLoop(s: State, n: nat, kind: LoopKind, streamOk: bool): State
  {
    match s.pc
    case Top(j) =>
      if j >= n then s.(pc := Joining)
      else if s.cancelled then s.(pc := if kind == OutgoingTransfer then Joining else Failed)
      else s.(pc := PauseTest(j))
    case PauseTest(j) => s.(pc := if s.paused then Slept(j) else Acquire(j))
    case Slept(j) =>
      if !s.cancelled then s.(pc := PauseTest(j))
      else s.(pc := if kind == OutgoingTransfer then Acquire(j) else Failed)
    case Acquire(j) => if s.permits == 0 then s else s.(permits := s.permits - 1, pc := Open(j))
    case Open(j) =>
      // the worker loop opens no stream of its own here
      if streamOk || kind == SenderWorkers then Spawn(s, j)
      else s.(permits := s.permits + 1, pc := Failed)
    case Joining =>
      if exists j :: 0 <= j < |s.tasks| && s.tasks[j].Errored? then s.(pc := Failed)
      else if forall j :: 0 <= j < |s.tasks| ==> s.tasks[j].Sent? then s.(pc := Done)
      else s
    case Done => s
    case Failed => s
  }

  function Next(s: State, e: Event, n: nat, kind: LoopKind): State
  {
    match e
    case LoopStep(streamOk) => StepLoop(s, n, kind, streamOk)
    case TaskEnds(j, ok) =>
      if j < |s.tasks| && s.tasks[j].Running?
      then s.(tasks := s.tasks[j := if ok then Sent else Errored], permits := s.permits + 1) else s
    case SetPaused(on) => s.(paused := on)
    case Cancel => s.(cancelled := true)
  }

  function Run(s: State, events: seq<Event>, n: nat, kind: LoopKind): State
  {
    if events == [] then s
    else Next(Run(s, events[..|events| - 1], n, kind), events[|events| - 1], n, kind)
  }

  /** Tasks still running: each holds a permit. */
  function RunningTasks(tasks: seq<TaskState>): nat
  {
    if tasks == [] then 0
    else RunningTasks(tasks[..|tasks| - 1]) + if tasks[|tasks| - 1].Running? then 1 else 0
  }

  lemma {:induction false} EndingOneTask(tasks: seq<TaskState>, j: nat, end: TaskState)
    requires j < |tasks| && tasks[j].Running? && !end.Running?
    ensures RunningTasks(tasks[j := end]) + 1 == RunningTasks(tasks)
  {
    var last := |tasks| - 1;
    if j < last {
      EndingOneTask(tasks[..last], j, end);
      assert tasks[j := end][..last] == tasks[..last][j := end];
    } else {
      assert tasks[j := end][..last] == tasks[..last];
    }
  }

  lemma SpawningOneTask(tasks: seq<TaskState>)
    ensures RunningTasks(tasks + [Running]) == RunningTasks(tasks) + 1
  {
    assert (tasks + [Running])[..|tasks|] == tasks;
  }

  /** The position the loop has reached, which is also how many tasks it has spawned. */
  predicate AtPosition(s: State, n: nat)
  {
    match s.pc
    case Top(j) => j == |s.tasks| <= n
    case PauseTest(j) => j == |s.tasks| < n
    case Slept(j) => j == |s.tasks| < n
    case Acquire(j) => j == |s.tasks| < n
    case Open(j) => j == |s.tasks| < n
    case _ => |s.tasks| <= n
  }

  ghost predicate Inv(s: State, n: nat)
  {
    && AtPosition(s, n)
    && s.permits + RunningTasks(s.tasks) + (if s.pc.Open? then 1 else 0) == DEFAULT_PARALLELISM
    && s.spawnedAfterCancel <= (if s.cancelled then 1 else 0)
    && (s.spawnedAfterCancel == 1 ==> s.pc.Top? || s.pc.Joining? || s.pc.Done? || s.pc.Failed?)
    && (s.pc.Joining? || s.pc.Done? ==> s.cancelled || |s.tasks| == n)
    && (s.pc.Done? ==> forall j :: 0 <= j < |s.tasks| ==> s.tasks[j].Sent?)
  }

  lemma TaskEndKeepsInv(s: State, j: nat, end: TaskState, n: nat)
    requires Inv(s, n) && j < |s.tasks| && s.tasks[j].Running? && !end.Running?
    ensures Inv(s.(tasks := s.tasks[j := end], permits := s.permits + 1), n)
  {
    hide RunningTasks;
    EndingOneTask(s.tasks, j, end);
  }

  lemma SpawnKeepsInv(s: State, n: nat)
    requires Inv(s, n) && s.pc.Open?
    ensures Inv(Spawn(s, s.pc.j), n)
  {
    hide RunningTasks;
    SpawningOneTask(s.tasks);
  }

  lemma StepKeepsInv(s: State, n: nat, kind: LoopKind, streamOk: bool)
    requires Inv(s, n)
    ensures Inv(StepLoop(s, n, kind, streamOk), n)
  {
    hide RunningTasks, Spawn;
    if s.pc.Open? { SpawnKeepsInv(s, n); }
  }

  lemma NextKeepsInv(s: State, e: Event, n: nat, kind: LoopKind)
    requires Inv(s, n)
    ensures Inv(Next(s, e, n, kind), n)
  {
    match e
    case TaskEnds(j, ok) =>
      if j < |s.tasks| && s.tasks[j].Running? { TaskEndKeepsInv(s, j, if ok then Sent else Errored, n); }
    case LoopStep(streamOk) =>
      hide Inv;
      StepKeepsInv(s, n, kind, streamOk);
    case _ =>
  }

  /** Under every schedule and for either loop: tasks holding a permit, the loop's own
      included, never exceed DEFAULT_PARALLELISM; at most one task is spawned after a cancel;
      and finishing uncancelled means that every pending chunk was sent. */
  lemma {:induction false} EverySchedule(events: seq<Event>, n: nat, kind: LoopKind)
    ensures var s := Run(Initial(), events, n, kind);
            && Inv(s, n)
            && RunningTasks(s.tasks) + (if s.pc.Open? then 1 else 0) <= DEFAULT_PARALLELISM
            && s.spawnedAfterCancel <= 1
            && (s.pc.Done? && !s.cancelled ==> |s.tasks| == n && forall j :: 0 <= j < n ==> s.tasks[j].Sent?)
  {
    if events != [] {
      EverySchedule(events[..|events| - 1], n, kind);
      NextKeepsInv(Run(Initial(), events[..|events| - 1], n, kind), events[|events| - 1], n, kind);
    }
  }

  /** What a cancel that finds the loop asleep in its pause still lets through, however the
      schedule goes on: nothing from the worker loop, at most one task from the other. */
  ghost predicate CancelledAsleep(s: State, spawned: nat, kind: LoopKind)
  {
    && s.cancelled
    && (kind == SenderWorkers ==> |s.tasks| == spawned && (s.pc.Slept? || s.pc.Failed?))
    && (kind == OutgoingTransfer ==>
          || (|s.tasks| == spawned && (s.pc.Slept? || s.pc.Acquire? || s.pc.Open? || s.pc.Failed?))
          || (|s.tasks| == spawned + 1 && (s.pc.Top? || s.pc.Joining? || s.pc.Done? || s.pc.Failed?)))
  }

  lemma {:induction false} CancelWhilePaused(s: State, events: seq<Event>, n: nat, kind: LoopKind)
    requires Inv(s, n) && s.pc.Slept? && s.cancelled
    ensures var t := Run(s, events, n, kind);
            && CancelledAsleep(t, |s.tasks|, kind)
            && |s.tasks| <= |t.tasks| <= |s.tasks| + if kind == SenderWorkers then 0 else 1
  {
    if events != [] {
      CancelWhilePaused(s, events[..|events| - 1], n, kind);
    }
  }

  /** The bound of one is met: with a free permit and a stream that opens, the outgoing loop
      does spawn a task after being cancelled in its pause. */
  lemma OneTaskSlipsThrough(s: State, n: nat)
    requires Inv(s, n) && s.pc.Slept? && s.cancelled && s.permits > 0
    ensures var go := LoopStep(true);
            Run(s, [go, go, go], n, OutgoingTransfer).spawnedAfterCancel == 1
  {
    var go := LoopStep(true);
    assert [go, go, go][..2] == [go, go] && [go, go][..1] == [go] && [go][..0] == [];
    assert Run(s, [go], n, OutgoingTransfer) == Next(s, go, n, OutgoingTransfer);
    assert Run(s, [go, go], n, OutgoingTransfer)
        == Next(Run(s, [go], n, OutgoingTransfer), go, n, OutgoingTransfer);
  }

  // ---------------------------------------------------------------- what the two flags do

  /** A pause holds the loop back: until it is lifted or the transfer cancelled, nothing is
      spawned but the one task that was already past the pause test. */
  lemma {:induction false} PauseHoldsLoop(s: State, events: seq<Event>, n: nat, kind: LoopKind)
    requires Inv(s, n) && s.paused && !s.cancelled && SetPaused(false) !in events && Cancel !in events
    ensures var t := Run(s, events, n, kind);
            && t.paused && !t.cancelled
            && |t.tasks| + (if t.pc.Acquire? || t.pc.Open? then 1 else 0) <=
               |s.tasks| + if s.pc.Acquire? || s.pc.Open? then 1 else 0
  {
    if events != [] {
      var init, e := events[..|events| - 1], events[|events| - 1];
      assert e in events && forall x :: x in init ==> x in events;
      PauseHoldsLoop(s, init, n, kind);
      PauseHoldsStep(Run(s, init, n, kind), e, n, kind);
      hide Next, Inv;
    }
  }

  lemma PauseHoldsStep(s: State, e: Event, n: nat, kind: LoopKind)
    requires s.paused && !s.cancelled && e != SetPaused(false) && e != Cancel
    ensures var t := Next(s, e, n, kind);
            && t.paused && !t.cancelled
            && |t.tasks| + (if t.pc.Acquire? || t.pc.Open? then 1 else 0) <=
               |s.tasks| + if s.pc.Acquire? || s.pc.Open? then 1 else 0
  {
  }

  /** A cancel is for good: no event lifts it, and at most one more task is ever spawned. */
  lemma {:induction false} CancelIsFinal(s: State, events: seq<Event>, n: nat, kind: LoopKind)
    requires Inv(s, n) && s.cancelled
    ensures var t := Run(s, events, n, kind); t.cancelled && |s.tasks| <= |t.tasks| <= |s.tasks| + 1
  {
    SpawnsAreCounted(s, events, n, kind);
  }

  lemma {:induction false} SpawnsAreCounted(s: State, events: seq<Event>, n: nat, kind: LoopKind)
    requires Inv(s, n) && s.cancelled
    ensures var t := Run(s, events, n, kind);
            Inv(t, n) && t.cancelled && |t.tasks| + s.spawnedAfterCancel == |s.tasks| + t.spawnedAfterCancel
            && t.spawnedAfterCancel >= s.spawnedAfterCancel
  {
    if events != [] {
      var init, e := events[..|events| - 1], events[|events| - 1];
      hide Inv, Next;
      SpawnsAreCounted(s, init, n, kind);
      NextKeepsInv(Run(s, init, n, kind), e, n, kind);
      SpawnIsCounted(Run(s, init, n, kind), e, n, kind);
    }
  }

  lemma SpawnIsCounted(s: State, e: Event, n: nat, kind: LoopKind)
    requires s.cancelled
    ensures var t := Next(s, e, n, kind);
            && t.cancelled && t.spawnedAfterCancel >= s.spawnedAfterCancel
            && |t.tasks| + s.spawnedAfterCancel == |s.tasks| + t.spawnedAfterCancel
  {
  }

  // ---------------------------------------------------------------- how a schedule can end

  predicate AnyErrored(tasks: seq<TaskState>)
  {
    exists j :: 0 <= j < |tasks| && tasks[j].Errored?
  }

  /** The loop can still return without an error: no task has failed, and if it was cancelled,
      the outgoing loop may stop early while the worker loop must have reached its last index
      past the tests. */
  predicate CanFinish(s: State, n: nat, kind: LoopKind)
  {
    !AnyErrored(s.tasks) &&
    match s.pc
    case Failed => false
    case Joining => true
    case Done => true
    case Top(j) => kind == OutgoingTransfer || !s.cancelled || j == n
    case Slept(_) => kind == OutgoingTransfer || !s.cancelled
    case PauseTest(j) => kind == OutgoingTransfer || !s.cancelled || j + 1 == n
    case Acquire(j) => kind == OutgoingTransfer || !s.cancelled || j + 1 == n
    case Open(j) => kind == OutgoingTransfer || !s.cancelled || j + 1 == n
  }

  lemma {:induction false} RunSplits(s: State, a: seq<Event>, b: seq<Event>, n: nat, kind: LoopKind)
    ensures Run(s, a + b, n, kind) == Run(Run(s, a, n, kind), b, n, kind)
  {
    if b == [] {
      assert a + b == a;
    } else {
      assert (a + b)[..|a + b| - 1] == a + b[..|b| - 1];
      RunSplits(s, a, b[..|b| - 1], n, kind);
    }
  }

  lemma RunOne(s: State, e: Event, n: nat, kind: LoopKind)
    ensures Run(s, [e], n, kind) == Next(s, e, n, kind)
  {
    assert [e][..0] == [];
  }

  lemma {:induction false} NoneRunning(tasks: seq<TaskState>)
    ensures RunningTasks(tasks) == 0 <==> forall j :: 0 <= j < |tasks| ==> !tasks[j].Running?
  {
    if tasks != [] {
      var m := |tasks| - 1;
      NoneRunning(tasks[..m]);
      assert forall j :: 0 <= j < m ==> tasks[..m][j] == tasks[j];
    }
  }

  /** How far the loop is from the end of its current round. */
  function Rank(pc: Pc): nat
  {
    match pc
    case Top(_) => 6
    case Slept(_) => 5
    case PauseTest(_) => 4
    case Acquire(_) => 3
    case Open(_) => 2
    case Joining => 1
    case _ => 0
  }

  /** With no task running and no pause, a step takes the loop on and decides nothing. */
  lemma StepGoesOn(s: State, n: nat, kind: LoopKind)
    requires Inv(s, n) && !s.paused && RunningTasks(s.tasks) == 0 && !s.pc.Done? && !s.pc.Failed?
    ensures var t := StepLoop(s, n, kind, true);
            && CanFinish(t, n, kind) == CanFinish(s, n, kind) && !t.paused && t.cancelled == s.cancelled
            && (|t.tasks| > |s.tasks| || (t.tasks == s.tasks && Rank(t.pc) < Rank(s.pc)))
  {
    NoneRunning(s.tasks);
    hide RunningTasks;
    if s.pc.Open? {
      var t := Spawn(s, s.pc.j);
      assert forall j :: 0 <= j < |s.tasks| ==> t.tasks[j] == s.tasks[j];
      assert AnyErrored(t.tasks) <==> AnyErrored(s.tasks);
    }
  }

  lemma TaskEndDecidesNothing(s: State, j: nat, n: nat, kind: LoopKind)
    requires j < |s.tasks| && s.tasks[j].Running?
    ensures CanFinish(Next(s, TaskEnds(j, true), n, kind), n, kind) == CanFinish(s, n, kind)
  {
    var tasks := s.tasks[j := Sent];
    assert forall k :: 0 <= k < |tasks| ==> (tasks[k].Errored? <==> s.tasks[k].Errored?);
  }

  /** From wherever a schedule has got to, it can be gone on with, without another cancel, to
      where the loop returns: with success if it still can, else with an error. */
  lemma {:induction false} EveryScheduleEnds(s: State, n: nat, kind: LoopKind) returns (more: seq<Event>)
    requires Inv(s, n)
    ensures Cancel !in more && Inv(Run(s, more, n, kind), n)
    ensures var t := Run(s, more, n, kind);
            t.pc == (if CanFinish(s, n, kind) then Done else Failed) && t.cancelled == s.cancelled
    decreases n - |s.tasks|, Rank(s.pc), RunningTasks(s.tasks), s.paused
  {
    if s.pc.Done? || s.pc.Failed? {
      more := [];
    } else {
      var e: Event;
      var ending := exists j :: 0 <= j < |s.tasks| && s.tasks[j].Running?;
      if ending {
        var j :| 0 <= j < |s.tasks| && s.tasks[j].Running?;
        e := TaskEnds(j, true);
        EndingOneTask(s.tasks, j, Sent);
        TaskEndDecidesNothing(s, j, n, kind);
      } else if s.paused {
        e := SetPaused(false);
      } else {
        e := LoopStep(true);
        NoneRunning(s.tasks);
        StepGoesOn(s, n, kind);
      }
      NextKeepsInv(s, e, n, kind);
      var t := Next(s, e, n, kind);
      assert AtPosition(t, n);
      hide CanFinish, Inv, StepLoop;
      var rest := EveryScheduleEnds(t, n, kind);
      more := [e] + rest;
      RunSplits(s, [e], rest, n, kind);
      RunOne(s, e, n, kind);
    }
  }

  lemma CannotFinishStays(s: State, e: Event, n: nat, kind: LoopKind)
    requires Inv(s, n) && !CanFinish(s, n, kind)
    ensures !CanFinish(Next(s, e, n, kind), n, kind)
  {
    var t := Next(s, e, n, kind);
    if AnyErrored(s.tasks) {
      var j :| 0 <= j < |s.tasks| && s.tasks[j].Errored?;
      assert t.tasks[j].Errored?;
    }
  }

  /** And that is exact: a schedule that can no longer succeed never does, whatever follows. */
  lemma {:induction false} FinishesOnlyIfItCan(s: State, events: seq<Event>, n: nat, kind: LoopKind)
    requires Inv(s, n) && !CanFinish(s, n, kind)
    ensures var t := Run(s, events, n, kind); Inv(t, n) && !CanFinish(t, n, kind) && !t.pc.Done?
  {
    if events != [] {
      var init, e := events[..|events| - 1], events[|events| - 1];
      FinishesOnlyIfItCan(s, init, n, kind);
      NextKeepsInv(Run(s, init, n, kind), e, n, kind);
      CannotFinishStays(Run(s, init, n, kind), e, n, kind);
      hide CanFinish, Next;
    }
    assert Run(s, events, n, kind).pc.Done? ==> !AnyErrored(Run(s, events, n, kind).tasks);
  }

  predicate SomeTaskFails(events: seq<Event>)
  {
    exists e :: e in events && e.TaskEnds? && !e.ok
  }

  /** What the loop's flags, its sleep, its error and its success say about the schedule. */
  ghost predicate Caused(s: State, events: seq<Event>, n: nat, kind: LoopKind)
  {
    && (s.cancelled <==> Cancel in events)
    && (s.paused || s.pc.Slept? ==> SetPaused(true) in events)
    && (AnyErrored(s.tasks) ==> SomeTaskFails(events))
    && (s.pc.Failed? ==>
          || SomeTaskFails(events)
          || (kind == OutgoingTransfer && LoopStep(false) in events)
          || (kind == SenderWorkers && Cancel in events))
    && (s.pc.Joining? || s.pc.Done? ==> |s.tasks| == n || (kind == OutgoingTransfer && Cancel in events))
  }

  lemma NextIsCaused(s: State, events: seq<Event>, e: Event, n: nat, kind: LoopKind)
    requires Caused(s, events, n, kind) && AtPosition(s, n)
    ensures Caused(Next(s, e, n, kind), events + [e], n, kind)
  {
    var t := Next(s, e, n, kind);
    assert forall x :: x in events + [e] <==> x in events || x == e;
    if SomeTaskFails(events) {
      var x :| x in events && x.TaskEnds? && !x.ok;
      assert x in events + [e];
    }
    if AnyErrored(t.tasks) && !AnyErrored(s.tasks) {
      assert e.TaskEnds? && !e.ok;
      assert e in events + [e];
    }
  }

  /** In every schedule of either loop: it sleeps only after a pause; it fails only for a stream that did not open (the
      outgoing loop), a chunk task that failed, or a cancel (the worker loop); and it returns
      without error only when every pending chunk was sent, unless the outgoing loop was
      cancelled. */
  lemma {:induction false} FailureHasCause(events: seq<Event>, n: nat, kind: LoopKind)
    ensures Caused(Run(Initial(), events, n, kind), events, n, kind)
  {
    if events != [] {
      var init, e := events[..|events| - 1], events[|events| - 1];
      FailureHasCause(init, n, kind);
      EverySchedule(init, n, kind);
      NextIsCaused(Run(Initial(), init, n, kind), init, e, n, kind);
      assert init + [e] == events;
    } else {
      assert !AnyErrored([]);
    }
  }

  /** So a schedule of either loop with no cancel, no failed task and no stream that stayed
      closed can, however far it has got and whether or not it is paused, be gone on with until
      every pending chunk is sent. */
  lemma {:induction false} EveryChunkCanBeSent(events: seq<Event>, n: nat, kind: LoopKind) returns (more: seq<Event>)
    requires Cancel !in events && !SomeTaskFails(events) && LoopStep(false) !in events
    ensures Cancel !in more
    ensures var t := Run(Initial(), events + more, n, kind);
            t.pc.Done? && |t.tasks| == n && forall j :: 0 <= j < n ==> t.tasks[j].Sent?
  {
    var s := Run(Initial(), events, n, kind);
    FailureHasCause(events, n, kind);
    EverySchedule(events, n, kind);
    assert CanFinish(s, n, kind);
    more := EveryScheduleEnds(s, n, kind);
    RunSplits(Initial(), events, more, n, kind);
    EverySchedule(events + more, n, kind);
  }

  /** Paused before its first chunk, the loop sleeps; with the pause lifted it can still send
      everything. */
  lemma PausedLoopGoesOn(n: nat, kind: LoopKind) returns (more: seq<Event>)
    requires n > 0
    ensures var pause := [SetPaused(true), LoopStep(true), LoopStep(true)];
            && Run(Initial(), pause, n, kind).pc == Slept(0)
            && var t := Run(Initial(), pause + [SetPaused(false)] + more, n, kind);
               t.pc.Done? && |t.tasks| == n && forall j :: 0 <= j < n ==> t.tasks[j].Sent?
  {
    var pause := [SetPaused(true), LoopStep(true), LoopStep(true)];
    RunSplits(Initial(), [SetPaused(true), LoopStep(true)], [LoopStep(true)], n, kind);
    RunSplits(Initial(), [SetPaused(true)], [LoopStep(true)], n, kind);
    assert [SetPaused(true)] + [LoopStep(true)] == [SetPaused(true), LoopStep(true)];
    assert [SetPaused(true), LoopStep(true)] + [LoopStep(true)] == pause;
    var s1 := Next(Initial(), SetPaused(true), n, kind);
    RunOne(Initial(), SetPaused(true), n, kind);
    RunOne(s1, LoopStep(true), n, kind);
    RunOne(Next(s1, LoopStep(true), n, kind), LoopStep(true), n, kind);
    more := EveryChunkCanBeSent(pause + [SetPaused(false)], n, kind);
  }
}
