/** How often a transfer is reported complete when chunk handlers overlap. */
module CompletionRaces {
  import opened Bytes
  import opened ChunkGeometry
  import opened Receiver
  import opened ReceiverCalls
  import opened ReAcceptance
  import TH = TransferHandle

  /** A handler that has found nothing pending and has yet to report it. */
  predicate Reporting(h: Handler)
  {
    h.Removing? || h.Recording? || h.Emitting?
  }

  function CountReporting(handlers: seq<Handler>): nat
  {
    if handlers == [] then 0
    else CountReporting(handlers[..|handlers| - 1]) + if Reporting(handlers[|handlers| - 1]) then 1 else 0
  }

  function CountUnfinished(handlers: seq<Handler>): nat
  {
    if handlers == [] then 0
    else CountUnfinished(handlers[..|handlers| - 1]) + if handlers[|handlers| - 1].Done? then 0 else 1
  }

  lemma {:induction false} CountsAfterStep(handlers: seq<Handler>, k: nat, h: Handler)
    requires k < |handlers|
    ensures CountReporting(handlers[k := h]) + (if Reporting(handlers[k]) then 1 else 0) ==
            CountReporting(handlers) + if Reporting(h) then 1 else 0
    ensures CountUnfinished(handlers[k := h]) + (if handlers[k].Done? then 0 else 1) ==
            CountUnfinished(handlers) + if h.Done? then 0 else 1
  {
    var n := |handlers| - 1;
    if k < n {
      assert handlers[k := h][..n] == handlers[..n][k := h];
      CountsAfterStep(handlers[..n], k, h);
    } else {
      assert handlers[k := h][..n] == handlers[..n];
    }
  }

  lemma CountsAfterStart(handlers: seq<Handler>, h: Handler)
    ensures CountReporting(handlers + [h]) == CountReporting(handlers) + if Reporting(h) then 1 else 0
    ensures CountUnfinished(handlers + [h]) == CountUnfinished(handlers) + if h.Done? then 0 else 1
  {
    assert (handlers + [h])[..|handlers|] == handlers;
  }

  // ---------------------------------------------------------------- successful checks

  /** The step is a check that finds nothing pending. */
  predicate Passes(s: State, e: Event)
  {
    e.Advance? && e.k < |s.handlers| && s.handlers[e.k].Checking? && NothingPending(s.progress)
  }

  function CountPasses(s: State, events: seq<Event>, hash: Hash): nat
  {
    if events == [] then 0 else
    var init := events[..|events| - 1];
    CountPasses(s, init, hash) + if Passes(Run(s, init, hash), events[|events| - 1]) then 1 else 0
  }

  /** A handler that has yet to make its check. */
  predicate BeforeCheck(h: Handler)
  {
    h.Writing? || h.Inserting? || h.Counting? || h.Persisting? || h.Checking?
  }

  /** Steps left to a handler. */
  function StepsLeft(h: Handler): nat
  {
    match h
    case Writing(_, _) => 8
    case Inserting(_, _) => 7
    case Counting(_, _) => 6
    case Persisting(_) => 5
    case Checking => 4
    case Removing => 3
    case Recording => 2
    case Emitting => 1
    case Done => 0
  }

  /** What a step of handler k, from s to t, is to its reports. */
  ghost predicate Advances(s: State, t: State, k: nat, ok: bool)
    requires k < |s.handlers|
  {
    && |t.handlers| == |s.handlers| && t.handlers == s.handlers[k := t.handlers[k]]
    && (t.incoming ==> s.incoming)
    && var before, after := s.handlers[k], t.handlers[k];
       && t.completions == s.completions + (if before.Emitting? then 1 else 0)
       && (Reporting(after) <==>
           before.Removing? || before.Recording? || (before.Checking? && NothingPending(s.progress)))
       && (before.Emitting? || before.Done? ==> after.Done?)
       && (after.Done? && ok && NothingPending(s.progress) ==> before.Emitting? || before.Done?)
       && (before.Checking? ==> !BeforeCheck(after))
       && (StepsLeft(after) < StepsLeft(before) || (before.Done? && after.Done?))
  }

  lemma StepBeforeCheck(s: State, k: nat, ok: bool)
    requires k < |s.handlers| && BeforeCheck(s.handlers[k])
    ensures Advances(s, RunHandler(s, k, ok), k, ok)
  {
    hide WriteAt, NothingPending, TH.Insert, TH.Charge, Offset;
  }

  lemma StepAfterCheck(s: State, k: nat, ok: bool)
    requires k < |s.handlers| && !BeforeCheck(s.handlers[k])
    ensures Advances(s, RunHandler(s, k, ok), k, ok)
  {
    hide WriteAt, NothingPending, TH.Insert, TH.Charge, Offset;
  }

  lemma HandlerStep(s: State, k: nat, ok: bool)
    requires k < |s.handlers|
    ensures Advances(s, RunHandler(s, k, ok), k, ok)
  {
    hide Advances, RunHandler;
    if BeforeCheck(s.handlers[k]) { StepBeforeCheck(s, k, ok); } else { StepAfterCheck(s, k, ok); }
  }

  lemma NothingPendingStays(s: State, k: nat, ok: bool)
    requires k < |s.handlers| && NothingPending(s.progress)
    ensures NothingPending(RunHandler(s, k, ok).progress)
  {
    hide WriteAt, NextPhase, NothingPending;
    AckedGrows(s.progress, RunHandler(s, k, ok).progress);
  }

  lemma StepCounts(s: State, e: Event, hash: Hash)
    requires !e.Crash?
    ensures var t := Next(s, e, hash);
            t.completions + CountReporting(t.handlers) ==
            s.completions + CountReporting(s.handlers) + if Passes(s, e) then 1 else 0
  {
    if e.Advance? && e.k < |s.handlers| {
      hide RunHandler, NothingPending;
      HandlerStep(s, e.k, e.ok);
      CountsAfterStep(s.handlers, e.k, RunHandler(s, e.k, e.ok).handlers[e.k]);
      hide CountReporting;
    }
    if e.Arrive? { CountsAfterStart(s.handlers, Writing(e.m.index, e.m.payload)); }
  }

  /** Without a crash, reports made and reports on their way are the successful checks; a crash
      can only lose some. */
  lemma {:induction false} ReportsArePasses(s: State, events: seq<Event>, hash: Hash)
    requires s.completions == 0 && s.handlers == []
    ensures var t := Run(s, events, hash);
            && t.completions + CountReporting(t.handlers) <= CountPasses(s, events, hash)
            && (Crash !in events ==> t.completions + CountReporting(t.handlers) == CountPasses(s, events, hash))
  {
    hide Next;
    if events != [] {
      var init, e := events[..|events| - 1], events[|events| - 1];
      assert e in events && forall x :: x in init ==> x in events;
      ReportsArePasses(s, init, hash);
      if e.Crash? { CrashReports(Run(s, init, hash), hash); } else { StepCounts(Run(s, init, hash), e, hash); }
    }
  }

  lemma CrashReports(s: State, hash: Hash)
    ensures var t := Next(s, Crash, hash);
            t.completions == s.completions && t.handlers == [] && CountReporting(t.handlers) == 0
  {
  }

  // ---------------------------------------------------------------- when there is a second one

  lemma StepForward(s: State, e: Event, hash: Hash)
    requires !e.Crash?
    ensures var t := Next(s, e, hash);
            && |s.handlers| <= |t.handlers| <= |s.handlers| + 1
            && (forall k :: 0 <= k < |s.handlers| ==> StepsLeft(t.handlers[k]) <= StepsLeft(s.handlers[k]))
            && (e.Advance? && e.k < |s.handlers| && s.handlers[e.k].Checking? ==> !BeforeCheck(t.handlers[e.k]))
            && (|t.handlers| > |s.handlers| ==> e.Arrive? && Admitted(s, e.m, hash))
            && (t.incoming ==> s.incoming)
  {
    hide NothingPending, RunHandler;
    if e.Advance? && e.k < |s.handlers| { HandlerStep(s, e.k, e.ok); }
  }

  /** From one position of a run to a later one, handlers only move forward. */
  lemma {:induction false} HandlersMoveForward(s: State, events: seq<Event>, hash: Hash, j: nat)
    requires Crash !in events && j <= |events|
    ensures var a, b := Run(s, events[..j], hash), Run(s, events, hash);
            && |a.handlers| <= |b.handlers| && (b.incoming ==> a.incoming)
            && forall k :: 0 <= k < |a.handlers| ==> StepsLeft(b.handlers[k]) <= StepsLeft(a.handlers[k])
  {
    hide Next, StepsLeft;
    var n := |events| - 1;
    if j <= n {
      assert events[n] in events && forall x :: x in events[..n] ==> x in events;
      HandlersMoveForward(s, events[..n], hash, j);
      assert events[..n][..j] == events[..j];
      StepForward(Run(s, events[..n], hash), events[n], hash);
    } else {
      assert events[..j] == events;
    }
  }

  /** A handler that is there now and was not at position j was admitted in between. */
  lemma {:induction false} AdmittedSince(s: State, events: seq<Event>, hash: Hash, j: nat, k: nat) returns (a: nat)
    requires Crash !in events && j <= |events|
    requires |Run(s, events[..j], hash).handlers| <= k < |Run(s, events, hash).handlers|
    ensures j <= a < |events| && events[a].Arrive?
    ensures var t := Run(s, events[..a], hash); |t.handlers| == k && Admitted(t, events[a].m, hash)
  {
    hide Next, StepsLeft, Admitted;
    var n := |events| - 1;
    assert events[..|events|] == events;
    assert events[n] in events && forall x :: x in events[..n] ==> x in events;
    var before := Run(s, events[..n], hash);
    StepForward(before, events[n], hash);
    if k < |before.handlers| {
      assert events[..n][..j] == events[..j];
      a := AdmittedSince(s, events[..n], hash, j, k);
      assert events[..n][..a] == events[..a];
    } else {
      a := n;
    }
  }

  predicate PassAt(s: State, events: seq<Event>, hash: Hash, j: int)
  {
    0 <= j < |events| && Passes(Run(s, events[..j], hash), events[j])
  }

  lemma {:induction false} SomePass(s: State, events: seq<Event>, hash: Hash) returns (j: nat)
    requires CountPasses(s, events, hash) > 0
    ensures PassAt(s, events, hash, j) && CountPasses(s, events[..j], hash) == 0
  {
    hide Run, Passes;
    var n := |events| - 1;
    if CountPasses(s, events[..n], hash) > 0 {
      j := SomePass(s, events[..n], hash);
      assert events[..n][..j] == events[..j];
    } else {
      j := n;
    }
  }

  lemma {:induction false} LaterPass(s: State, events: seq<Event>, hash: Hash, j: nat) returns (i: nat)
    requires PassAt(s, events, hash, j) && CountPasses(s, events[..j], hash) == 0 && CountPasses(s, events, hash) > 1
    ensures j < i && PassAt(s, events, hash, i)
  {
    hide Run, Passes;
    var n := |events| - 1;
    if Passes(Run(s, events[..n], hash), events[n]) && n != j {
      i := n;
    } else {
      assert n != j ==> events[..n][..j] == events[..j];
      i := LaterPass(s, events[..n], hash, j);
      assert events[..n][..i] == events[..i];
    }
  }

  lemma {:induction false} PassesCount(s: State, events: seq<Event>, hash: Hash, j: nat)
    requires PassAt(s, events, hash, j)
    ensures CountPasses(s, events, hash) > CountPasses(s, events[..j], hash)
  {
    hide Run, Passes;
    var n := |events| - 1;
    if j < n {
      assert events[..n][..j] == events[..j];
      PassesCount(s, events[..n], hash, j);
    }
  }

  /** The second check races with the first, at j, when the handler that makes it was there
      at j and before its own check, or was admitted after j, while the transfer was still on
      the list. */
  ghost predicate Races(s: State, events: seq<Event>, hash: Hash, j: nat, i: nat)
    requires j < i < |events| && events[j].Advance? && events[i].Advance?
  {
    var k, first := events[i].k, Run(s, events[..j], hash);
    if k < |first.handlers| then k != events[j].k && BeforeCheck(first.handlers[k])
    else exists a :: j < a < i && events[a].Arrive? && |Run(s, events[..a], hash).handlers| == k
                     && Admitted(Run(s, events[..a], hash), events[a].m, hash)
  }

  /** Between two successful checks: the handler of the second was not past its check at the
      first, nor is it the one that made it. */
  lemma BetweenPasses(s: State, events: seq<Event>, hash: Hash, j: nat, i: nat)
    requires Crash !in events && j < i && PassAt(s, events, hash, j) && PassAt(s, events, hash, i)
    ensures events[j].Advance? && events[i].Advance?
    ensures var k, first := events[i].k, Run(s, events[..j], hash);
            k < |first.handlers| ==> k != events[j].k && BeforeCheck(first.handlers[k])
    ensures events[i].k < |Run(s, events[..i], hash).handlers|
  {
    hide Run, Next, NothingPending, Admitted;
    var first, after := Run(s, events[..j], hash), Run(s, events[..j + 1], hash);
    forall x | x in events[..i] ensures x in events {}
    assert events[..i][..j] == events[..j] && events[..i][..j + 1] == events[..j + 1];
    RunOneMore(s, events[..j], events[j], hash);
    assert events[..j] + [events[j]] == events[..j + 1] && events[j] in events;
    StepForward(first, events[j], hash);
    HandlersMoveForward(s, events[..i], hash, j);
    HandlersMoveForward(s, events[..i], hash, j + 1);
  }

  lemma PassesRace(s: State, events: seq<Event>, hash: Hash, j: nat, i: nat)
    requires Crash !in events && j < i && PassAt(s, events, hash, j) && PassAt(s, events, hash, i)
    ensures events[j].Advance? && events[i].Advance? && Races(s, events, hash, j, i)
  {
    hide Run, Passes;
    BetweenPasses(s, events, hash, j, i);
    forall x | x in events[..i] ensures x in events {}
    assert events[..i][..j] == events[..j];
    if events[i].k >= |Run(s, events[..j], hash).handlers| {
      var a := AdmittedSince(s, events[..i], hash, j, events[i].k);
      assert events[..i][..a] == events[..a];
      assert a != j;
    }
  }

  /** Event i is a check, whatever it finds. */
  predicate CheckAt(s: State, events: seq<Event>, hash: Hash, i: int)
  {
    && 0 <= i < |events| && events[i].Advance?
    && var t := Run(s, events[..i], hash); events[i].k < |t.handlers| && t.handlers[events[i].k].Checking?
  }

  /** Once nothing is pending, nothing is pending again until a new acceptance. */
  lemma {:induction false} NothingPendingLasts(s: State, events: seq<Event>, hash: Hash, j: nat)
    requires j <= |events| && NothingPending(Run(s, events[..j], hash).progress)
    ensures NothingPending(Run(s, events, hash).progress)
  {
    hide NothingPending, Next;
    if j == |events| {
      assert events[..j] == events;
    } else {
      var n := |events| - 1;
      assert events[..n][..j] == events[..j];
      NothingPendingLasts(s, events[..n], hash, j);
      StepKeepsNothingPending(Run(s, events[..n], hash), events[n], hash);
    }
  }

  lemma StepKeepsNothingPending(s: State, e: Event, hash: Hash)
    requires NothingPending(s.progress)
    ensures NothingPending(Next(s, e, hash).progress)
  {
    if e.Advance? && e.k < |s.handlers| { NothingPendingStays(s, e.k, e.ok); }
    hide RunHandler, NothingPending;
  }

  /** Exactly when a transfer is reported, or about to be reported, more than once: some handler
      makes its check after the first check that found nothing pending. */
  lemma {:induction false} ReportedTwiceIff(s: State, events: seq<Event>, hash: Hash)
    requires s.completions == 0 && s.handlers == [] && Crash !in events
    ensures var t := Run(s, events, hash);
            t.completions + CountReporting(t.handlers) > 1 <==>
            exists j: nat, i: nat :: j < i && PassAt(s, events, hash, j) && CheckAt(s, events, hash, i)
  {
    ReportsArePasses(s, events, hash);
    if CountPasses(s, events, hash) > 1 {
      var j := SomePass(s, events, hash);
      var i := LaterPass(s, events, hash, j);
      assert CheckAt(s, events, hash, i);
    }
    hide Run, CountPasses, CountReporting, Passes, CheckAt;
    forall j: nat, i: nat | j < i && PassAt(s, events, hash, j) && CheckAt(s, events, hash, i)
      ensures CountPasses(s, events, hash) > 1
    {
      LaterCheckPasses(s, events, hash, j, i);
      PassesCount(s, events, hash, i);
      assert events[..i][..j] == events[..j];
      PassesCount(s, events[..i], hash, j);
    }
  }

  lemma LaterCheckPasses(s: State, events: seq<Event>, hash: Hash, j: nat, i: nat)
    requires j < i && PassAt(s, events, hash, j) && CheckAt(s, events, hash, i)
    ensures PassAt(s, events, hash, i) && PassAt(s, events[..i], hash, j)
  {
    hide Run, NothingPending;
    assert events[..i][..j] == events[..j] && events[..i][j] == events[j];
    NothingPendingLasts(s, events[..i], hash, j);
  }

  /** And the handler of the later check raced with the first: it was there and before its own
      check when the first succeeded, or was admitted afterwards, while the transfer was still
      on the list. */
  lemma {:induction false} LaterCheckRaces(s: State, events: seq<Event>, hash: Hash, j: nat, i: nat)
    requires Crash !in events && j < i && PassAt(s, events, hash, j) && CheckAt(s, events, hash, i)
    ensures events[j].Advance? && Races(s, events, hash, j, i)
  {
    LaterCheckPasses(s, events, hash, j, i);
    PassesRace(s, events, hash, j, i);
  }

  // ---------------------------------------------------------------- what can still be reported

  /** Once off the list, a transfer is reported at most as often as it has been and handlers
      are unfinished. */
  lemma {:induction false} ReportsBounded(s: State, events: seq<Event>, hash: Hash)
    requires !s.incoming
    ensures var t := Run(s, events, hash);
            !t.incoming && t.completions + CountUnfinished(t.handlers) <= s.completions + CountUnfinished(s.handlers)
  {
    hide Next;
    if events != [] {
      ReportsBounded(s, events[..|events| - 1], hash);
      StepBounded(Run(s, events[..|events| - 1], hash), events[|events| - 1], hash);
    }
  }

  lemma StepBounded(s: State, e: Event, hash: Hash)
    requires !s.incoming
    ensures var t := Next(s, e, hash);
            !t.incoming && t.completions + CountUnfinished(t.handlers) <= s.completions + CountUnfinished(s.handlers)
  {
    if e.Advance? && e.k < |s.handlers| {
      hide RunHandler, NothingPending;
      HandlerStep(s, e.k, e.ok);
      CountsAfterStep(s.handlers, e.k, RunHandler(s, e.k, e.ok).handlers[e.k]);
      hide CountUnfinished;
    }
  }

  /** With nothing pending, a step that succeeds brings its handler closer to its report. */
  lemma StepTowardsReport(s: State, k: nat, hash: Hash)
    requires k < |s.handlers| && NothingPending(s.progress) && !s.handlers[k].Done?
    ensures var t := Next(s, Advance(k, true), hash);
            && NothingPending(t.progress) && t.handlers == s.handlers[k := t.handlers[k]]
            && StepsLeft(t.handlers[k]) < StepsLeft(s.handlers[k])
            && t.completions + CountUnfinished(t.handlers) == s.completions + CountUnfinished(s.handlers)
  {
    NothingPendingStays(s, k, true);
    hide RunHandler, NothingPending;
    HandlerStep(s, k, true);
    CountsAfterStep(s.handlers, k, RunHandler(s, k, true).handlers[k]);
    hide CountUnfinished;
  }

  lemma {:induction false} HandlerFinishes(s: State, k: nat, hash: Hash) returns (events: seq<Event>)
    requires k < |s.handlers| && NothingPending(s.progress)
    ensures var t := Run(s, events, hash);
            && NothingPending(t.progress) && t.handlers == s.handlers[k := Done]
            && t.completions + CountUnfinished(t.handlers) == s.completions + CountUnfinished(s.handlers)
    ensures forall e :: e in events ==> e.Advance?
    decreases StepsLeft(s.handlers[k])
  {
    events := [];
    if !s.handlers[k].Done? {
      StepTowardsReport(s, k, hash);
      var t := Next(s, Advance(k, true), hash);
      var more := HandlerFinishes(t, k, hash);
      events := [Advance(k, true)] + more;
      RunSplits(s, [Advance(k, true)], more, hash);
      RunOneMore(s, [], Advance(k, true), hash);
      assert [] + [Advance(k, true)] == [Advance(k, true)];
      assert t.handlers[k := Done] == s.handlers[k := Done];
    }
  }

  lemma {:induction false} FirstFinish(s: State, m: nat, hash: Hash) returns (events: seq<Event>)
    requires m <= |s.handlers| && NothingPending(s.progress)
    ensures var t := Run(s, events, hash);
            && NothingPending(t.progress) && |t.handlers| == |s.handlers|
            && (forall k :: 0 <= k < m ==> t.handlers[k].Done?)
            && t.completions + CountUnfinished(t.handlers) == s.completions + CountUnfinished(s.handlers)
    ensures forall e :: e in events ==> e.Advance?
  {
    events := [];
    if m > 0 {
      var before := FirstFinish(s, m - 1, hash);
      var last := HandlerFinishes(Run(s, before, hash), m - 1, hash);
      events := before + last;
      RunSplits(s, before, last, hash);
    }
  }

  lemma {:induction false} AllDone(handlers: seq<Handler>)
    requires forall k :: 0 <= k < |handlers| ==> handlers[k].Done?
    ensures CountUnfinished(handlers) == 0
  {
    if handlers != [] { AllDone(handlers[..|handlers| - 1]); }
  }

  /** And with nothing pending it can be reported that often, without another message. */
  lemma AllCanReport(s: State, hash: Hash) returns (events: seq<Event>)
    requires NothingPending(s.progress)
    ensures Run(s, events, hash).completions == s.completions + CountUnfinished(s.handlers)
    ensures forall e :: e in events ==> e.Advance?
  {
    events := FirstFinish(s, |s.handlers|, hash);
    AllDone(Run(s, events, hash).handlers);
  }

  /** So, once the transfer is off the list, a second report is possible if and only if what
      has been reported and the handlers not yet finished make two. */
  lemma {:induction false} SecondReportPossibleIff(s: State, hash: Hash)
    requires !s.incoming && NothingPending(s.progress)
    ensures (exists events :: Run(s, events, hash).completions > 1) <==>
            s.completions + CountUnfinished(s.handlers) > 1
  {
    var finish := AllCanReport(s, hash);
    forall events ensures Run(s, events, hash).completions <= s.completions + CountUnfinished(s.handlers) {
      ReportsBounded(s, events, hash);
    }
  }

  // ---------------------------------------------------------------- it happens to every file

  predicate SelfConsistent(m: ChunkMessage, hash: Hash)
  {
    hash(m.payload) == m.checksum
  }

  function Arriving(ms: seq<ChunkMessage>): seq<Event>
  {
    seq(|ms|, i requires 0 <= i < |ms| => Arrive(ms[i]))
  }

  function WritingAll(ms: seq<ChunkMessage>): seq<Handler>
  {
    seq(|ms|, i requires 0 <= i < |ms| => Writing(ms[i].index, ms[i].payload))
  }

  lemma {:induction false} ArriveAll(s: State, ms: seq<ChunkMessage>, hash: Hash)
    requires s.incoming && forall m :: m in ms ==> SelfConsistent(m, hash)
    ensures Run(s, Arriving(ms), hash) == s.(handlers := s.handlers + WritingAll(ms))
  {
    if ms == [] {
      assert Arriving(ms) == [] && s.handlers + WritingAll(ms) == s.handlers;
    } else {
      var n := |ms| - 1;
      assert ms[n] in ms && forall m :: m in ms[..n] ==> m in ms;
      ArriveAll(s, ms[..n], hash);
      RunOneMore(s, Arriving(ms[..n]), Arrive(ms[n]), hash);
      assert Arriving(ms) == Arriving(ms[..n]) + [Arrive(ms[n])];
      assert WritingAll(ms) == WritingAll(ms[..n]) + [Writing(ms[n].index, ms[n].payload)];
    }
  }

  lemma WriteAndInsert(s: State, k: nat, hash: Hash)
    requires k < |s.handlers| && s.handlers[k].Writing?
    ensures var t := Run(s, Steps(k, [true, true]), hash);
            && |t.handlers| == |s.handlers|
            && t.handlers == s.handlers[k := t.handlers[k]]
            && (if s.handlers[k].i in s.progress.acked then t.handlers[k].Persisting? else t.handlers[k].Counting?)
            && t.progress.bytes == s.progress.bytes && t.hasRow == s.hasRow
            && t.progress.acked == s.progress.acked + {s.handlers[k].i}
            && t.progress.total == s.progress.total && t.progress.c == s.progress.c && t.completions == s.completions
  {
    hide WriteAt, Offset;
    assert Steps(k, []) == [] && Run(s, [], hash) == s;
    StepsOneMore(s, k, [], true, hash);
    StepsOneMore(s, k, [true], true, hash);
    assert [] + [true] == [true] && [true] + [true] == [true, true];
    hide Run, Steps;
  }

  lemma AllAdvance(k: nat, oks: seq<bool>)
    ensures forall e :: e in Steps(k, oks) ==> e.Advance?
  {
  }

  /** The first m handlers write and insert; the others stay where they are. */
  lemma {:induction false} InsertAll(s: State, m: nat, hash: Hash) returns (events: seq<Event>)
    requires m <= |s.handlers| && forall h :: h in s.handlers ==> h.Writing?
    ensures var t := Run(s, events, hash);
            && |t.handlers| == |s.handlers| && t.completions == s.completions
            && t.progress.total == s.progress.total && t.progress.c == s.progress.c
            && t.progress.bytes == s.progress.bytes && t.hasRow == s.hasRow
            && (m > 0 && (exists k :: 0 <= k < m - 1 && s.handlers[k].i == s.handlers[m - 1].i) ==>
                  t.handlers[m - 1].Persisting?)
            && (forall k :: 0 <= k < m ==> !t.handlers[k].Done? && s.handlers[k].i in t.progress.acked)
            && (forall k :: m <= k < |s.handlers| ==> t.handlers[k] == s.handlers[k])
    ensures forall e :: e in events ==> e.Advance?
  {
    events := [];
    assert Run(s, [], hash) == s;
    hide Run, Steps;
    if m > 0 {
      var before := InsertAll(s, m - 1, hash);
      var t := Run(s, before, hash);
      assert t.handlers[m - 1] == s.handlers[m - 1] && s.handlers[m - 1] in s.handlers;
      WriteAndInsert(t, m - 1, hash);
      RunSplits(s, before, Steps(m - 1, [true, true]), hash);
      events := before + Steps(m - 1, [true, true]);
      forall e | e in Steps(m - 1, [true, true]) ensures e.Advance? { AllAdvance(m - 1, [true, true]); }
    }
  }

  lemma {:induction false} NoneDone(handlers: seq<Handler>)
    requires forall k :: 0 <= k < |handlers| ==> !handlers[k].Done?
    ensures CountUnfinished(handlers) == |handlers|
  {
    if handlers != [] { NoneDone(handlers[..|handlers| - 1]); }
  }

  ghost function RepeatAt(src: seq<Byte>, i: nat, c: nat, hash: Hash): (m: ChunkMessage)
    requires c > 0 && 0 < |src| < U64_LIMIT && i <= NumChunks(|src|, c)
    ensures i < NumChunks(|src|, c) ==> m.index == i
    ensures SelfConsistent(m, hash) && SentOrCorrupted(m, src, c, hash)
  {
    Sent(src, if i < NumChunks(|src|, c) then i else 0, c, hash).m
  }

  /** Every chunk of the file once, and the first once more. */
  ghost function WithRepeat(src: seq<Byte>, c: nat, hash: Hash): (ms: seq<ChunkMessage>)
    requires c > 0 && 0 < |src| < U64_LIMIT
    ensures |ms| == NumChunks(|src|, c) + 1
    ensures forall i :: 0 <= i < NumChunks(|src|, c) ==> ms[i].index == i
    ensures forall m :: m in ms ==> SelfConsistent(m, hash) && SentOrCorrupted(m, src, c, hash)
  {
    seq(NumChunks(|src|, c) + 1, i requires 0 <= i <= NumChunks(|src|, c) => RepeatAt(src, i, c, hash))
  }

  /** When the handlers of all chunks write and insert before any of them checks, all report. */
  lemma AllReport(s: State, n: nat, hash: Hash) returns (events: seq<Event>)
    requires s.progress.c > 0 && NumChunks(s.progress.total, s.progress.c) == n <= |s.handlers|
    requires (forall h :: h in s.handlers ==> h.Writing?) && forall i :: 0 <= i < n ==> s.handlers[i].i == i
    ensures forall e :: e in events ==> e.Advance?
    ensures Run(s, events, hash).completions == s.completions + |s.handlers|
  {
    var insert := InsertAll(s, |s.handlers|, hash);
    var t := Run(s, insert, hash);
    forall i: nat | i < n ensures i in t.progress.acked { assert s.handlers[i].i in t.progress.acked; }
    TH.NothingPending(t.progress.acked, n);
    var finish := AllCanReport(t, hash);
    NoneDone(t.handlers);
    RunSplits(s, insert, finish, hash);
    events := insert + finish;
  }

  /** After the messages have arrived, and before any handler has taken a step. */
  lemma AllWriting(src: seq<Byte>, c: nat, known: bool, hash: Hash) returns (s: State)
    requires c > 0 && 0 < |src| < U64_LIMIT
    ensures s == Run(FirstAccept(|src|, c, known), Arriving(WithRepeat(src, c, hash)), hash)
    ensures s.completions == 0 && s.progress == TH.FreshProgress(|src|, c) && s.hasRow == known
    ensures 0 < NumChunks(|src|, c) && |s.handlers| == NumChunks(|src|, c) + 1
    ensures forall h :: h in s.handlers ==> h.Writing?
    ensures forall i :: 0 <= i <= NumChunks(|src|, c) ==> s.handlers[i].i == if i < NumChunks(|src|, c) then i else 0
  {
    var n, start, ms := NumChunks(|src|, c), FirstAccept(|src|, c, known), WithRepeat(src, c, hash);
    assert ms[n] == RepeatAt(src, n, c, hash) && ms[n].index == 0;
    hide WithRepeat, Run, SentOrCorrupted, RepeatAt;
    ArriveAll(start, ms, hash);
    var handlers := start.handlers + WritingAll(ms);
    assert handlers == WritingAll(ms);
    s := start.(handlers := handlers);
    forall i | 0 <= i <= n ensures s.handlers[i].i == if i < n then i else 0 {
      assert handlers[i] == Writing(ms[i].index, ms[i].payload);
    }
  }

  /** For any non-empty file there is a run of genuine messages, with no crash and no failure,
      in which one repeated chunk and the overlap of the handlers have the transfer reported
      once for every chunk and once more. */
  lemma {:induction false} OverlappingHandlersCompleteTwice(src: seq<Byte>, c: nat, known: bool, hash: Hash)
    returns (events: seq<Event>)
    requires c > 0 && 0 < |src| < U64_LIMIT
    ensures Arrivals(events, src, c, hash) && Crash !in events
    ensures Run(FirstAccept(|src|, c, known), events, hash).completions == NumChunks(|src|, c) + 1 > 1
  {
    var start, ms := FirstAccept(|src|, c, known), WithRepeat(src, c, hash);
    var s := AllWriting(src, c, known, hash);
    var rest := AllReport(s, NumChunks(|src|, c), hash);
    RunSplits(start, Arriving(ms), rest, hash);
    events := Arriving(ms) + rest;
    hide SentOrCorrupted, Run;
    forall e | e in events && e.Arrive? ensures SentOrCorrupted(e.m, src, c, hash) {
      assert e in Arriving(ms);
    }
  }

  lemma RecordAfterPersist(s: State, k: nat, hash: Hash)
    requires k < |s.handlers| && s.handlers[k].Persisting? && NothingPending(s.progress) && s.hasRow
    ensures var t := Run(s, Steps(k, [true, true, true, true]), hash);
            t.completedRow && t.rowBytes == s.progress.bytes
  {
    hide NothingPending;
    ThreeSteps(s, k, true, true, true, hash);
    StepsOneMore(s, k, [true, true, true], true, hash);
    assert [true, true, true] + [true] == [true, true, true, true];
    hide Run, Steps;
    PersistStep(s, k, true, hash);
    var s1 := Next(s, Advance(k, true), hash);
    CheckStep(s1, k, hash);
    var s2 := Next(s1, Advance(k, true), hash);
    RemoveStep(s2, k, hash);
    RecordStep(Next(s2, Advance(k, true), hash), k, true, hash);
    hide Next;
  }

  lemma RepeatRecordsEarly(s: State, n: nat, hash: Hash) returns (events: seq<Event>)
    requires s.progress.c > 0 && 0 < NumChunks(s.progress.total, s.progress.c) == n && |s.handlers| == n + 1
    requires (forall h :: h in s.handlers ==> h.Writing?) && forall i :: 0 <= i < n ==> s.handlers[i].i == i
    requires s.handlers[n].i == 0 && s.hasRow
    ensures forall e :: e in events ==> e.Advance?
    ensures Run(s, events, hash).completedRow && Run(s, events, hash).rowBytes == s.progress.bytes
  {
    hide Run;
    var insert := InsertAll(s, n + 1, hash);
    var t := Run(s, insert, hash);
    assert s.handlers[0].i == s.handlers[n].i;
    forall i: nat | i < n ensures i in t.progress.acked { assert s.handlers[i].i in t.progress.acked; }
    TH.NothingPending(t.progress.acked, n);
    RecordAfterPersist(t, n, hash);
    var last := Steps(n, [true, true, true, true]);
    RunSplits(s, insert, last, hash);
    events := insert + last;
  }

  /** The counter lags behind the acked set as long as a handler is between the two: for any
      non-empty file there is a run whose completed row is recorded with no bytes at all. */
  lemma {:induction false} CompletedRowCanFallShort(src: seq<Byte>, c: nat, hash: Hash) returns (events: seq<Event>)
    requires c > 0 && 0 < |src| < U64_LIMIT
    ensures Arrivals(events, src, c, hash) && Crash !in events
    ensures var s := Run(FirstAccept(|src|, c, true), events, hash); s.completedRow && s.rowBytes == 0 < |src|
  {
    var start, ms := FirstAccept(|src|, c, true), WithRepeat(src, c, hash);
    var s := AllWriting(src, c, true, hash);
    var rest := RepeatRecordsEarly(s, NumChunks(|src|, c), hash);
    RunSplits(start, Arriving(ms), rest, hash);
    events := Arriving(ms) + rest;
    hide SentOrCorrupted, Run;
    forall e | e in events && e.Arrive? ensures SentOrCorrupted(e.m, src, c, hash) {
      assert e in Arriving(ms);
    }
  }
}
