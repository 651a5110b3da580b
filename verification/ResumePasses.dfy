/** What an auto-resume pass finds when it comes to start its run: passes may overlap sending
    runs in any way. */
module ResumePasses {
  import opened Wrappers
  import opened TransferStates
  import opened TransferHandle
  import opened SenderRuns

  predicate PassExists(s: State, p: nat) { p < |s.passes| }

  /** Event l put the transfer on the list of pass p, which no crash has ended since. */
  ghost predicate ListedAt(events: seq<Event>, n: nat, p: nat, l: int)
  {
    && 0 <= l < |events| && events[l] == PassLists && Crash !in events[l..]
    && Open(After(events[..l], n).row) && |After(events[..l], n).passes| == p
  }

  /** Event i is the check by which pass p found the transfer unregistered. */
  ghost predicate CheckedAt(events: seq<Event>, n: nat, p: nat, i: int)
  {
    && 0 <= i < |events| && events[i] == PassChecks(p) && PassExists(After(events[..i], n), p)
    && After(events[..i], n).passes[p].Listed? && After(events[..i], n).entry.None?
  }

  /** Event d is where pass p loaded its acked set: all that the manifest then held. */
  ghost predicate LoadedAt(events: seq<Event>, n: nat, p: nat, d: int, acked: set<nat>)
  {
    && 0 <= d < |events| && events[d] == PassLoads(p) && After(events[..d], n).manifest == acked
  }

  /** The step writes a final state to the row. */
  predicate Records(s: State, e: Event)
  {
    e.OnRun? && e.step == Record(true) && e.k < |s.runs| && s.runs[e.k].phase.Recording?
  }

  predicate RecordsAt(events: seq<Event>, n: nat, r: int)
  {
    0 <= r < |events| && Records(After(events[..r], n), events[r])
  }

  lemma StepRow(s: State, e: Event, n: nat)
    requires Inv(s, n)
    ensures Next(s, e, n).row == if Records(s, e) then s.runs[e.k].phase.final else s.row
    ensures Records(s, e) ==> !Open(Next(s, e, n).row)
  {
    hide Advance, OnWork;
    if Records(s, e) { assert RunOk(s.runs[e.k], s.enqueued, n); }
    assert e.Work? && e.k < |s.runs| && e.i in s.runs[e.k].tasks ==> OnWork(s, e.k, e.i, e.ok).row == s.row by {
      if e.Work? && e.k < |s.runs| && e.i in s.runs[e.k].tasks { WorkLeavesRow(s, e.k, e.i, e.ok); }
    }
    hide Inv;
  }

  lemma WorkLeavesRow(s: State, k: nat, i: nat, ok: bool)
    requires k < |s.runs| && i in s.runs[k].tasks
    ensures OnWork(s, k, i, ok).row == s.row && OnWork(s, k, i, ok).passes == s.passes
  {
  }

  lemma SameBefore(events: seq<Event>, e: Event, n: nat)
    ensures After(events + [e], n) == Next(After(events, n), e, n)
    ensures forall j :: 0 <= j <= |events| ==> (events + [e])[..j] == events[..j]
    ensures forall j :: 0 <= j < |events| ==> (events + [e])[j] == events[j]
  {
    assert (events + [e])[..|events|] == events;
  }

  /** A row that was open at some moment is terminal later if and only if a final state was
      written in between: nothing ever opens it again. */
  lemma {:induction false} TerminalIffRecorded(events: seq<Event>, n: nat, l: nat)
    requires l <= |events| && Open(After(events[..l], n).row)
    ensures !Open(After(events, n).row) <==> exists r :: l <= r && RecordsAt(events, n, r)
  {
    assert events[..|events|] == events;
    if l < |events| {
      var init, e := events[..|events| - 1], events[|events| - 1];
      assert events == init + [e];
      SameBefore(init, e, n);
      assert init[..l] == events[..l];
      TerminalIffRecorded(init, n, l);
      EveryRunIsSafe(init, n);
      StepRow(After(init, n), e, n);
      hide After, Next, Inv, Records;
      forall r | l <= r
        ensures RecordsAt(events, n, r) <==> RecordsAt(init, n, r) || (r == |init| && Records(After(init, n), e))
      {
        assert r < |init| ==> events[..r] == init[..r] && events[r] == init[r];
        assert r == |init| ==> events[..r] == init && events[r] == e;
      }
      if Records(After(init, n), e) { assert RecordsAt(events, n, |init|); }
      if r :| l <= r && RecordsAt(init, n, r) { assert RecordsAt(events, n, r); }
    }
  }

  // ---------------------------------------------------------------- how a pass comes to its start

  /** Where a pass stands only changes by its own steps, which go one way. */
  lemma StepPass(s: State, e: Event, p: nat, n: nat)
    requires p < |Next(s, e, n).passes|
    ensures !e.Crash?
    ensures p < |s.passes| || (p == |s.passes| && e.PassLists? && Open(s.row) && Next(s, e, n).passes[p].Listed?)
    ensures p < |s.passes| ==>
              var before, after := s.passes[p], Next(s, e, n).passes[p];
              && (after != before ==>
                    || (e == PassChecks(p) && before.Listed? && (if s.entry.None? then after.Checked? else after.Over?))
                    || (e == PassLoads(p) && before.Checked? && after == Loaded(s.manifest))
                    || (e == PassStarts(p) && before.Loaded? && after.Over?))
              && (e == PassStarts(p) && before.Loaded? ==> after.Over?)
  {
    hide Advance, WorkOn;
  }

  lemma ListedLonger(events: seq<Event>, e: Event, n: nat, p: nat, l: int)
    requires ListedAt(events, n, p, l) && !e.Crash?
    ensures ListedAt(events + [e], n, p, l)
  {
    assert (events + [e])[..l] == events[..l] && (events + [e])[l..] == events[l..] + [e];
  }

  /** Every pass was listed when the row was open; one that is past its check made it when
      nothing was registered, and starts from all the manifest held when it loaded. */
  lemma {:induction false} PassHistory(events: seq<Event>, n: nat, p: nat) returns (l: nat, i: nat, d: nat)
    requires PassExists(After(events, n), p)
    ensures ListedAt(events, n, p, l)
    ensures var pass := After(events, n).passes[p];
            && (pass.Checked? || pass.Loaded? ==> l < i && CheckedAt(events, n, p, i))
            && (pass.Loaded? ==> i < d && LoadedAt(events, n, p, d, pass.acked))
  {
    assert events != [] by { NothingListed(n); }
    var init, e := events[..|events| - 1], events[|events| - 1];
    var s := After(init, n);
    assert events == init + [e];
    SameBefore(init, e, n);
    StepPass(s, e, p, n);
    l, i, d := |init|, |init|, |init|;
    if p < |s.passes| {
      l, i, d := PassHistory(init, n, p);
      ListedLonger(init, e, n, p, l);
      hide After, Next, ListedAt, Inv;
      var before, after := s.passes[p], Next(s, e, n).passes[p];
      if before.Checked? || before.Loaded? { assert events[..i] == init[..i]; }
      if before.Loaded? { assert events[..d] == init[..d]; }
      assert events[..|init|] == init;
      if after != before && after.Checked? { i := |init|; }
      if after != before && after.Loaded? { d := |init|; }
    } else {
      assert events[l..] == [e];
    }
  }

  lemma NothingListed(n: nat)
    ensures After([], n).passes == []
  {
  }

  /** In every run, however passes, sending runs and crashes overlap: a pass that comes to
      start its run was listed when the row was open, and found nothing registered when it
      checked. The row it resumes is terminal if and only if a final state was written
      between its listing and its start. */
  lemma StartedPass(events: seq<Event>, n: nat, p: nat) returns (l: nat, i: nat, d: nat)
    requires PassAt(After(events, n), PassStarts(p))
    ensures l < i < d < |events| && ListedAt(events, n, p, l) && CheckedAt(events, n, p, i)
    ensures LoadedAt(events, n, p, d, After(events, n).passes[p].acked)
    ensures !Open(After(events, n).row) <==> exists r :: l <= r && RecordsAt(events, n, r)
  {
    l, i, d := PassHistory(events, n, p);
    TerminalIffRecorded(events, n, l);
  }

  // ---------------------------------------------------------------- what the registration is for

  /** A pass that checks while the transfer is registered never starts, whatever follows. */
  lemma {:induction false} RegisteredIsNotResumed(events: seq<Event>, n: nat, p: nat, i: nat)
    requires i < |events| && events[i] == PassChecks(p) && Crash !in events[i..]
    requires var s := After(events[..i], n); PassExists(s, p) && s.passes[p].Listed? && s.entry.Some?
    ensures PassExists(After(events, n), p) && After(events, n).passes[p].Over?
    ensures !PassAt(After(events, n), PassStarts(p))
  {
    var init, e := events[..|events| - 1], events[|events| - 1];
    var s := After(init, n);
    assert events == init + [e];
    SameBefore(init, e, n);
    if i < |init| {
      assert init[..i] == events[..i] && init[i..] == events[i..][..|init| - i];
      assert forall x :: x in init[i..] ==> x in events[i..];
      assert e == events[i..][|init| - i] && e in events[i..];
      RegisteredIsNotResumed(init, n, p, i);
      PassesStay(s, e, n);
      StepPass(s, e, p, n);
    } else {
      assert events[..i] == init;
    }
  }

  lemma PassesStay(s: State, e: Event, n: nat)
    requires !e.Crash?
    ensures |s.passes| <= |Next(s, e, n).passes|
  {
    hide Advance, WorkOn;
  }

  // ---------------------------------------------------------------- who can have closed the row

  /** Runs that were not busy do not get busy; only the start of a pass adds one. */
  lemma StepBusy(s: State, e: Event, n: nat)
    requires Inv(s, n) && !e.Crash?
    ensures |s.runs| <= |Next(s, e, n).runs|
    ensures |Next(s, e, n).runs| > |s.runs| ==> Starts(s, e)
    ensures forall k :: 0 <= k < |s.runs| && Busy(Next(s, e, n).runs[k]) ==> Busy(s.runs[k])
  {
    hide Advance, WorkOn, RunOk, InFlight;
    match e
    case Work(k, i, ok) =>
      if k < |s.runs| && i in s.runs[k].tasks { MarkedIsBusy(s.runs[k], i, ok, s.enqueued, n); hide Busy; }
    case OnRun(k, step) =>
      if k < |s.runs| { AdvanceNeedsBusy(s.runs[k], step, s.enqueued, n); hide Busy; }
    case DeclineRemoves => if InPhase(s, 0, Declined) { DeclinedIsIdle(s, n); }
    case _ =>
  }

  /** The step is the start of some pass. */
  predicate Starts(s: State, e: Event)
  {
    e.PassStarts? && PassAt(s, e)
  }

  predicate StartsAt(events: seq<Event>, n: nat, j: int)
  {
    0 <= j < |events| && Starts(After(events[..j], n), events[j])
  }

  /** Since some moment without a crash: every run that is busy now was there and busy then, or
      was started by a pass in between. */
  lemma {:induction false} NoNewBusyRun(events: seq<Event>, n: nat, l: nat)
    requires l <= |events| && Crash !in events[l..]
    ensures var s, earlier := After(events, n), After(events[..l], n);
            && |earlier.runs| <= |s.runs|
            && (forall k :: 0 <= k < |earlier.runs| && Busy(s.runs[k]) ==> Busy(earlier.runs[k]))
            && (|s.runs| > |earlier.runs| ==> exists j :: l <= j && StartsAt(events, n, j))
  {
    hide After, Next, Busy, Inv, Starts;
    assert events[..|events|] == events;
    if l < |events| {
      var m := |events| - 1;
      var init, e := events[..m], events[m];
      assert events == init + [e] && init[..l] == events[..l];
      assert init[l..] == events[l..][..m - l] && events[l..][m - l] == e;
      SameBefore(init, e, n);
      EveryRunIsSafe(init, n);
      NoNewBusyRun(init, n, l);
      StepBusy(After(init, n), e, n);
      if |After(events, n).runs| > |After(init, n).runs| { assert StartsAt(events, n, m); }
      if j: int :| l <= j && StartsAt(init, n, j) {
        assert init[..j] == events[..j];
        assert StartsAt(events, n, j);
      }
    }
  }

  lemma RecorderIsBusy(s: State, e: Event)
    requires Records(s, e)
    ensures Busy(s.runs[e.k])
  {
  }

  lemma ListedLasts(events: seq<Event>, n: nat, p: nat, l: nat, r: nat)
    requires ListedAt(events, n, p, l) && l <= r <= |events|
    ensures Crash !in events[..r][l..] && events[..r][..l] == events[..l]
  {
    hide After;
    assert events[..r][l..] == events[l..][..r - l];
  }

  /** With any overlap of passes and runs: a terminal row that a pass resumes was written by a
      run that was busy when the pass was listed, or that another pass started in between. So
      if no run was busy at the listing, and no pass started since, the row is open. */
  lemma {:induction false} QuietListingResumesOpenRow(events: seq<Event>, n: nat, p: nat, l: nat)
    requires ListedAt(events, n, p, l) && PassAt(After(events, n), PassStarts(p))
    ensures var listed := After(events[..l], n);
            && (!Open(After(events, n).row) ==>
                  exists r :: l <= r && RecordsAt(events, n, r)
                              && (events[r].k < |listed.runs| ==> Busy(listed.runs[events[r].k]))
                              && (events[r].k >= |listed.runs| ==> exists j :: l <= j < r && StartsAt(events, n, j)))
            && ((forall k :: 0 <= k < |listed.runs| ==> !Busy(listed.runs[k]))
                && (forall j :: l <= j ==> !StartsAt(events, n, j)) ==>
                  Open(After(events, n).row))
  {
    TerminalIffRecorded(events, n, l);
    if !Open(After(events, n).row) {
      var r: int :| l <= r && RecordsAt(events, n, r);
      RecorderWasBusy(events, n, p, l, r);
    }
    hide After, Busy, ListedAt, RecordsAt, StartsAt;
  }

  lemma RecorderWasBusy(events: seq<Event>, n: nat, p: nat, l: nat, r: nat)
    requires ListedAt(events, n, p, l) && l <= r && RecordsAt(events, n, r)
    ensures var listed := After(events[..l], n);
            && (events[r].k < |listed.runs| ==> Busy(listed.runs[events[r].k]))
            && (events[r].k >= |listed.runs| ==> exists j :: l <= j < r && StartsAt(events, n, j))
  {
    hide After, Busy, Starts;
    ListedLasts(events, n, p, l, r);
    RecorderIsBusy(After(events[..r], n), events[r]);
    NoNewBusyRun(events[..r], n, l);
    if j: int :| l <= j && StartsAt(events[..r], n, j) {
      assert events[..r][..j] == events[..j];
      assert StartsAt(events, n, j);
    }
  }

  // ---------------------------------------------------------------- what a handle can miss

  /** The step records chunk i in the manifest, for run l. */
  predicate Persists(s: State, e: Event, l: nat, i: nat)
  {
    e == Work(l, i, true) && l < |s.runs| && i in s.runs[l].tasks && s.runs[l].tasks[i].Marked?
  }

  /** Event r records chunk i for run l of a process that still runs. */
  ghost predicate PersistsAt(events: seq<Event>, n: nat, r: int, l: nat, i: nat)
  {
    0 <= r < |events| && Persists(After(events[..r], n), events[r], l, i) && Crash !in events[r..]
  }

  /** Another run than k of the same process recorded chunk i. */
  ghost predicate PersistedBeside(events: seq<Event>, n: nat, k: nat, i: nat)
  {
    exists r: int, l: nat :: PersistsAt(events, n, r, l, i) && l != k
  }

  /** Whatever the manifest holds beyond a handle, another run recorded beside it; and beyond
      what a pass has loaded, some run there is. */
  ghost predicate HandlesMissOnly(events: seq<Event>, n: nat)
  {
    var s := After(events, n);
    && (forall k, i :: 0 <= k < |s.runs| && i in s.manifest && i !in s.runs[k].acked ==>
          PersistedBeside(events, n, k, i))
    && (forall p, k: nat, i :: (0 <= p < |s.passes| && s.passes[p].Loaded? && i in s.manifest
                                && i !in s.passes[p].acked && k >= |s.runs|) ==>
          PersistedBeside(events, n, k, i))
  }

  lemma PersistedLonger(events: seq<Event>, e: Event, n: nat, k: nat, i: nat)
    requires PersistedBeside(events, n, k, i) && !e.Crash?
    ensures PersistedBeside(events + [e], n, k, i)
  {
    var r: int, l: nat :| PersistsAt(events, n, r, l, i) && l != k;
    assert (events + [e])[..r] == events[..r] && (events + [e])[r..] == events[r..] + [e];
    assert PersistsAt(events + [e], n, r, l, i);
  }

  lemma PersistedNow(events: seq<Event>, e: Event, n: nat, k: nat, l: nat, i: nat)
    requires Persists(After(events, n), e, l, i) && l != k
    ensures PersistedBeside(events + [e], n, k, i)
  {
    assert (events + [e])[..|events|] == events && (events + [e])[|events|..] == [e];
    assert PersistsAt(events + [e], n, |events|, l, i);
  }

  /** How the sets of a step from s to t are made: acked sets only grow, what a run records it
      has acked, and new runs and loaded passes start from what is there. */
  ghost predicate SetsFollow(s: State, e: Event, t: State)
  {
    && |s.runs| <= |t.runs| && |s.passes| <= |t.passes|
    && (forall k :: 0 <= k < |s.runs| ==> s.runs[k].acked <= t.runs[k].acked)
    && (forall i :: i in t.manifest && i !in s.manifest ==>
          e.Work? && e.k < |s.runs| && Persists(s, e, e.k, i) && i in s.runs[e.k].acked)
    && (|t.runs| > |s.runs| ==>
          Starts(s, e) && |t.runs| == |s.runs| + 1 && t.runs[|s.runs|].acked == s.passes[e.p].acked)
    && (forall p :: 0 <= p < |t.passes| && t.passes[p].Loaded? ==>
          t.passes[p].acked == s.manifest || (p < |s.passes| && t.passes[p] == s.passes[p]))
  }

  lemma WorkSets(s: State, e: Event, n: nat)
    requires Inv(s, n) && e.Work?
    ensures SetsFollow(s, e, Next(s, e, n))
  {
    if e.k < |s.runs| && e.i in s.runs[e.k].tasks { MarkedIsBusy(s.runs[e.k], e.i, e.ok, s.enqueued, n); }
    hide WorkOn, RunOk, Busy, Starts;
  }

  lemma RunStepSets(s: State, e: Event, n: nat)
    requires Inv(s, n) && e.OnRun?
    ensures SetsFollow(s, e, Next(s, e, n))
  {
    if e.k < |s.runs| { AdvanceNeedsBusy(s.runs[e.k], e.step, s.enqueued, n); }
    hide Advance, RunOk, Busy, Starts, Persists;
  }

  lemma OtherSets(s: State, e: Event, n: nat)
    requires !e.Work? && !e.OnRun? && !e.Crash?
    ensures SetsFollow(s, e, Next(s, e, n))
  {
    hide Advance, WorkOn, RunOk, Persists;
  }

  lemma StepSets(s: State, e: Event, n: nat)
    requires Inv(s, n) && !e.Crash?
    ensures SetsFollow(s, e, Next(s, e, n))
  {
    hide SetsFollow, Next, Inv;
    if e.Work? { WorkSets(s, e, n); } else if e.OnRun? { RunStepSets(s, e, n); } else { OtherSets(s, e, n); }
  }

  /** In every run of the system: an index the manifest holds and a run's handle does not was
      recorded by another run of the same process. So a run that has the transfer to itself
      acks whatever the manifest holds, and a pass beside which nothing is recorded starts from
      the whole of it. */
  lemma {:induction false} HandlesMissOnlyOthers(events: seq<Event>, n: nat)
    ensures HandlesMissOnly(events, n)
  {
    if events != [] {
      hide Next, Inv, PersistedBeside;
      var init, e := events[..|events| - 1], events[|events| - 1];
      assert events == init + [e];
      HandlesMissOnlyOthers(init, n);
      SameBefore(init, e, n);
      EveryRunIsSafe(init, n);
      if e.Crash? {
        CrashForgets(After(init, n), n);
      } else {
        StepMissesOnly(init, e, n);
      }
    }
  }

  lemma CrashForgets(s: State, n: nat)
    ensures Next(s, Crash, n).runs == [] && Next(s, Crash, n).passes == []
  {
  }

  lemma StepMissesOnly(events: seq<Event>, e: Event, n: nat)
    requires HandlesMissOnly(events, n) && !e.Crash? && Inv(After(events, n), n)
    ensures HandlesMissOnly(events + [e], n)
  {
    SameBefore(events, e, n);
    var s, t := After(events, n), After(events + [e], n);
    StepSets(s, e, n);
    hide After, Next, Inv, Starts;
    forall k: nat, i: nat | i in t.manifest && i !in s.manifest && k != e.k
      ensures PersistedBeside(events + [e], n, k, i)
    {
      PersistedNow(events, e, n, k, e.k, i);
    }
    hide Persists;
    forall k: nat, i: nat | PersistedBeside(events, n, k, i) ensures PersistedBeside(events + [e], n, k, i) {
      PersistedLonger(events, e, n, k, i);
    }
    hide PersistedBeside;
  }
}
