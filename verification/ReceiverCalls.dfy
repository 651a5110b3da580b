/** Whole calls of the receiving side, one at a time: what a call does, how it is made of its
    micro-steps, what sequences of calls bring about, and the code itself. */
module ReceiverCalls {
  import opened Bytes
  import opened Framing
  import opened ChunkGeometry
  import opened Receiver
  import TH = TransferHandle

  /** Which of a handler's disk and database operations succeed. */
  datatype Io = Io(write: bool, ack: bool, row: bool)

  /** A whole call of `handle_incoming_chunk` with no other call running beside it. */
  function Handle(s: State, m: ChunkMessage, io: Io, hash: Hash): State
  {
    if !Admitted(s, m, hash) || !io.write then s else
    var acked := TH.MarkAcked(s.progress, m.index, |m.payload|);
    var t := s.(file := WriteAt(s.file, Offset(m.index, s.progress.c), m.payload),
                progress := acked,
                manifest := if io.ack && s.hasRow then s.manifest + {m.index} else s.manifest);
    if !NothingPending(acked) then t
    else t.(incoming := false, completedRow := t.completedRow || (io.row && s.hasRow),
            rowBytes := if io.row && s.hasRow then acked.bytes else t.rowBytes, completions := t.completions + 1)
  }

  datatype Call = Call(m: ChunkMessage, io: Io)

  function HandleAll(s: State, calls: seq<Call>, hash: Hash): State
  {
    if calls == [] then s
    else Handle(HandleAll(s, calls[..|calls| - 1], hash), calls[|calls| - 1].m, calls[|calls| - 1].io, hash)
  }

  // ---------------------------------------------------------------- micro-steps

  lemma {:induction false} RunSplits(s: State, before: seq<Event>, after: seq<Event>, hash: Hash)
    ensures Run(s, before + after, hash) == Run(Run(s, before, hash), after, hash)
  {
    if after == [] {
      assert before + after == before;
    } else {
      var init, e := after[..|after| - 1], after[|after| - 1];
      RunSplits(s, before, init, hash);
      assert (before + after)[..|before + after| - 1] == before + init;
    }
  }

  lemma RunOneMore(s: State, events: seq<Event>, e: Event, hash: Hash)
    ensures Run(s, events + [e], hash) == Next(Run(s, events, hash), e, hash)
  {
    assert (events + [e])[..|events|] == events;
  }

  /** Steps of handler k, one for each flag. */
  function Steps(k: nat, oks: seq<bool>): seq<Event>
  {
    seq(|oks|, j requires 0 <= j < |oks| => Advance(k, oks[j]))
  }

  lemma StepsOneMore(s: State, k: nat, oks: seq<bool>, ok: bool, hash: Hash)
    ensures Run(s, Steps(k, oks + [ok]), hash) == Next(Run(s, Steps(k, oks), hash), Advance(k, ok), hash)
  {
    assert Steps(k, oks + [ok]) == Steps(k, oks) + [Advance(k, ok)];
    RunOneMore(s, Steps(k, oks), Advance(k, ok), hash);
  }

  /** From the write to the check; a repeated chunk has nothing to count. */
  function FrontFlags(s: State, call: Call): seq<bool>
  {
    [call.io.write, true] + (if call.m.index in s.progress.acked then [] else [true]) + [call.io.ack, true]
  }

  /** The events of one whole call, whose handler will be number k. */
  function CallEvents(s: State, call: Call): seq<Event>
  {
    var k := |s.handlers|;
    [Arrive(call.m)] + Steps(k, FrontFlags(s, call)) + Steps(k, [true, call.io.row, true])
  }

  /** What a handler leaves behind in the list of handlers. */
  function Finished(s: State, m: ChunkMessage, hash: Hash): seq<Handler>
  {
    if Admitted(s, m, hash) then s.handlers + [Done] else s.handlers
  }

  /** The call is its micro-steps run to the end with no other step between, whatever other
      handlers are in the middle of. */
  lemma HandleIsItsMicroSteps(s: State, call: Call, hash: Hash)
    ensures Run(s, CallEvents(s, call), hash) ==
            Handle(s, call.m, call.io, hash).(handlers := Finished(s, call.m, hash))
  {
    hide Steps, Run, NothingPending, TH.MarkAcked, StartHandler, Handle, Finished;
    var k := |s.handlers|;
    var front, last := FrontFlags(s, call), [true, call.io.row, true];
    var started := StartHandler(s, call.m, hash);
    RunSplits(s, [Arrive(call.m)] + Steps(k, front), Steps(k, last), hash);
    RunSplits(s, [Arrive(call.m)], Steps(k, front), hash);
    RunArrive(s, call.m, hash);
    if !Admitted(s, call.m, hash) { CallRefused(s, call, hash); }
    else if !call.io.write { CallCannotWrite(s, call, hash); }
    else { CallWrites(s, call, hash); }
  }

  lemma CallRefused(s: State, call: Call, hash: Hash)
    requires !Admitted(s, call.m, hash)
    ensures var k, started := |s.handlers|, StartHandler(s, call.m, hash);
            Run(Run(started, Steps(k, FrontFlags(s, call)), hash), Steps(k, [true, call.io.row, true]), hash) ==
            Handle(s, call.m, call.io, hash).(handlers := Finished(s, call.m, hash))
  {
    hide Steps, Run, NothingPending, TH.MarkAcked;
    IdleSteps(s, |s.handlers|, FrontFlags(s, call), hash);
    IdleSteps(s, |s.handlers|, [true, call.io.row, true], hash);
  }

  lemma CallCannotWrite(s: State, call: Call, hash: Hash)
    requires Admitted(s, call.m, hash) && !call.io.write
    ensures var k, started := |s.handlers|, StartHandler(s, call.m, hash);
            Run(Run(started, Steps(k, FrontFlags(s, call)), hash), Steps(k, [true, call.io.row, true]), hash) ==
            Handle(s, call.m, call.io, hash).(handlers := Finished(s, call.m, hash))
  {
    hide Steps, Run, NothingPending, TH.MarkAcked;
    var k, started, front := |s.handlers|, StartHandler(s, call.m, hash), FrontFlags(s, call);
    FailedWrite(started, k, front[1..], hash);
    assert front == [false] + front[1..];
    assert started.handlers[k := Done] == s.handlers + [Done];
    IdleSteps(s.(handlers := s.handlers + [Done]), k, [true, call.io.row, true], hash);
  }

  lemma CallWrites(s: State, call: Call, hash: Hash)
    requires Admitted(s, call.m, hash) && call.io.write
    ensures var k, started := |s.handlers|, StartHandler(s, call.m, hash);
            Run(Run(started, Steps(k, FrontFlags(s, call)), hash), Steps(k, [true, call.io.row, true]), hash) ==
            Handle(s, call.m, call.io, hash).(handlers := Finished(s, call.m, hash))
  {
    hide Steps, Run, WriteAt, Offset, NothingPending, TH.MarkAcked;
    var k, started := |s.handlers|, StartHandler(s, call.m, hash);
    FirstSteps(started, k, call.io.ack, hash);
    LastSteps(Run(started, Steps(k, FrontFlags(s, call)), hash), k, call.io.row, hash);
    SetTwice(started.handlers, k, Removing, Done);
    assert started.handlers[k := Done] == s.handlers + [Done];
  }

  lemma RunArrive(s: State, m: ChunkMessage, hash: Hash)
    ensures Run(s, [Arrive(m)], hash) == StartHandler(s, m, hash)
  {
    RunOneMore(s, [], Arrive(m), hash);
    assert [] + [Arrive(m)] == [Arrive(m)];
  }

  /** Steps of a handler that does not exist or is done change nothing. */
  lemma {:induction false} IdleSteps(s: State, k: nat, oks: seq<bool>, hash: Hash)
    requires k < |s.handlers| ==> s.handlers[k].Done?
    ensures Run(s, Steps(k, oks), hash) == s
  {
    if oks == [] {
      assert Steps(k, oks) == [];
    } else {
      hide Next, Steps, Run;
      var init, last := oks[..|oks| - 1], oks[|oks| - 1];
      assert oks == init + [last];
      IdleSteps(s, k, init, hash);
      StepsOneMore(s, k, init, last, hash);
      IdleStep(s, k, last, hash);
    }
  }

  lemma IdleStep(s: State, k: nat, ok: bool, hash: Hash)
    requires k < |s.handlers| ==> s.handlers[k].Done?
    ensures Next(s, Advance(k, ok), hash) == s
  {
  }

  lemma FailedWrite(s: State, k: nat, oks: seq<bool>, hash: Hash)
    requires k < |s.handlers| && s.handlers[k].Writing?
    ensures Run(s, Steps(k, [false] + oks), hash) == s.(handlers := s.handlers[k := Done])
  {
    var failed := s.(handlers := s.handlers[k := Done]);
    assert Steps(k, [false] + oks) == [Advance(k, false)] + Steps(k, oks);
    RunSplits(s, [Advance(k, false)], Steps(k, oks), hash);
    RunOneMore(s, [], Advance(k, false), hash);
    assert [] + [Advance(k, false)] == [Advance(k, false)];
    IdleSteps(failed, k, oks, hash);
  }

  lemma FirstSteps(s: State, k: nat, ack: bool, hash: Hash)
    requires k < |s.handlers| && s.handlers[k].Writing?
    ensures var i, payload := s.handlers[k].i, s.handlers[k].payload;
            var count := if i in s.progress.acked then [] else [true];
            var acked := TH.MarkAcked(s.progress, i, |payload|);
            Run(s, Steps(k, [true, true] + count + [ack, true]), hash) ==
            s.(file := WriteAt(s.file, Offset(i, s.progress.c), payload), progress := acked,
               manifest := if ack && s.hasRow then s.manifest + {i} else s.manifest,
               handlers := s.handlers[k := if NothingPending(acked) then Removing else Done])
  {
    var i, payload := s.handlers[k].i, s.handlers[k].payload;
    var count := if i in s.progress.acked then [] else [true];
    var marked := [true, true] + count;
    hide WriteAt, Offset, NothingPending, TH.MarkAcked, Run, Steps, Next;
    MarkingSteps(s, k, hash);
    var s1 := Run(s, Steps(k, marked), hash);
    TwoMoreSteps(s, k, marked, ack, true, hash);
    MarkedToChecked(s1, k, ack, hash);
    assert s1.handlers[k].i == i;
    SetTwice(s.handlers, k, Persisting(i), if NothingPending(s1.progress) then Removing else Done);
  }

  lemma TwoMoreSteps(s: State, k: nat, oks: seq<bool>, a: bool, b: bool, hash: Hash)
    ensures Run(s, Steps(k, oks + [a, b]), hash) ==
            Next(Next(Run(s, Steps(k, oks), hash), Advance(k, a), hash), Advance(k, b), hash)
  {
    hide Run, Steps, Next;
    StepsOneMore(s, k, oks, a, hash);
    StepsOneMore(s, k, oks + [a], b, hash);
    assert oks + [a] + [b] == oks + [a, b];
  }

  lemma SetTwice(handlers: seq<Handler>, k: nat, a: Handler, b: Handler)
    requires k < |handlers|
    ensures handlers[k := a][k := b] == handlers[k := b]
  {
  }

  lemma MarkedToChecked(s: State, k: nat, ack: bool, hash: Hash)
    requires k < |s.handlers| && s.handlers[k].Persisting?
    ensures Next(Next(s, Advance(k, ack), hash), Advance(k, true), hash) ==
            s.(manifest := if ack && s.hasRow then s.manifest + {s.handlers[k].i} else s.manifest,
               handlers := s.handlers[k := if NothingPending(s.progress) then Removing else Done])
  {
    hide Next, NothingPending;
    PersistStep(s, k, ack, hash);
    CheckStep(Next(s, Advance(k, ack), hash), k, hash);
  }

  lemma PersistStep(s: State, k: nat, ack: bool, hash: Hash)
    requires k < |s.handlers| && s.handlers[k].Persisting?
    ensures Next(s, Advance(k, ack), hash) ==
            s.(manifest := if ack && s.hasRow then s.manifest + {s.handlers[k].i} else s.manifest,
               handlers := s.handlers[k := Checking])
  {
  }

  lemma CheckStep(s: State, k: nat, hash: Hash)
    requires k < |s.handlers| && s.handlers[k].Checking?
    ensures Next(s, Advance(k, true), hash) ==
            s.(handlers := s.handlers[k := if NothingPending(s.progress) then Removing else Done])
  {
  }

  lemma MarkingSteps(s: State, k: nat, hash: Hash)
    requires k < |s.handlers| && s.handlers[k].Writing?
    ensures var i, payload := s.handlers[k].i, s.handlers[k].payload;
            var count := if i in s.progress.acked then [] else [true];
            Run(s, Steps(k, [true, true] + count), hash) ==
            s.(file := WriteAt(s.file, Offset(i, s.progress.c), payload),
               progress := TH.MarkAcked(s.progress, i, |payload|), handlers := s.handlers[k := Persisting(i)])
  {
    var i, len := s.handlers[k].i, |s.handlers[k].payload|;
    TwoSteps(s, k, true, true, hash);
    WriteStep(s, k, hash);
    hide Run, Steps, Next, WriteAt, Offset;
    var s1 := Next(s, Advance(k, true), hash);
    InsertStep(s1, k, hash);
    var s2 := Next(s1, Advance(k, true), hash);
    SetTwice(s.handlers, k, Inserting(i, len), s2.handlers[k]);
    if i in s.progress.acked {
      assert [true, true] + [] == [true, true];
    } else {
      StepsOneMore(s, k, [true, true], true, hash);
      CountStep(s2, k, hash);
      SetTwice(s.handlers, k, Counting(i, len), Persisting(i));
    }
  }

  lemma TwoSteps(s: State, k: nat, a: bool, b: bool, hash: Hash)
    ensures Run(s, Steps(k, [a, b]), hash) == Next(Next(s, Advance(k, a), hash), Advance(k, b), hash)
  {
    hide Next;
    assert Steps(k, []) == [] && Run(s, [], hash) == s;
    StepsOneMore(s, k, [], a, hash);
    StepsOneMore(s, k, [a], b, hash);
    assert [] + [a] == [a] && [a] + [b] == [a, b];
  }

  lemma WriteStep(s: State, k: nat, hash: Hash)
    requires k < |s.handlers| && s.handlers[k].Writing?
    ensures var i, payload := s.handlers[k].i, s.handlers[k].payload;
            Next(s, Advance(k, true), hash) ==
            s.(file := WriteAt(s.file, Offset(i, s.progress.c), payload),
               handlers := s.handlers[k := Inserting(i, |payload|)])
  {
    hide WriteAt, Offset;
  }

  lemma InsertStep(s: State, k: nat, hash: Hash)
    requires k < |s.handlers| && s.handlers[k].Inserting?
    ensures var i, len := s.handlers[k].i, s.handlers[k].len;
            Next(s, Advance(k, true), hash) ==
            if i in s.progress.acked then s.(handlers := s.handlers[k := Persisting(i)])
            else s.(progress := TH.Insert(s.progress, i), handlers := s.handlers[k := Counting(i, len)])
  {
  }

  lemma CountStep(s: State, k: nat, hash: Hash)
    requires k < |s.handlers| && s.handlers[k].Counting?
    ensures Next(s, Advance(k, true), hash) ==
            s.(progress := TH.Charge(s.progress, s.handlers[k].len),
               handlers := s.handlers[k := Persisting(s.handlers[k].i)])
  {
  }

  /** From a successful check to the report. */
  lemma LastSteps(s: State, k: nat, row: bool, hash: Hash)
    requires k < |s.handlers| && (s.handlers[k].Removing? || s.handlers[k].Done?)
    ensures Run(s, Steps(k, [true, row, true]), hash) ==
            if s.handlers[k].Done? then s else
            s.(incoming := false, completedRow := s.completedRow || (row && s.hasRow),
               rowBytes := if row && s.hasRow then s.progress.bytes else s.rowBytes,
               completions := s.completions + 1, handlers := s.handlers[k := Done])
  {
    hide Run, Steps, Next;
    if s.handlers[k].Done? {
      IdleSteps(s, k, [true, row, true], hash);
    } else {
      ThreeSteps(s, k, true, row, true, hash);
      RemoveStep(s, k, hash);
      var s1 := Next(s, Advance(k, true), hash);
      RecordStep(s1, k, row, hash);
      EmitStep(Next(s1, Advance(k, row), hash), k, hash);
      assert s1.handlers[k := Emitting][k := Done] == s.handlers[k := Done];
    }
  }

  lemma ThreeSteps(s: State, k: nat, a: bool, b: bool, d: bool, hash: Hash)
    ensures Run(s, Steps(k, [a, b, d]), hash) ==
            Next(Next(Next(s, Advance(k, a), hash), Advance(k, b), hash), Advance(k, d), hash)
  {
    hide Next;
    assert Steps(k, []) == [] && Run(s, [], hash) == s;
    StepsOneMore(s, k, [], a, hash);
    StepsOneMore(s, k, [a], b, hash);
    StepsOneMore(s, k, [a, b], d, hash);
    assert [] + [a] == [a] && [a] + [b] == [a, b] && [a, b] + [d] == [a, b, d];
  }

  lemma RemoveStep(s: State, k: nat, hash: Hash)
    requires k < |s.handlers| && s.handlers[k].Removing?
    ensures Next(s, Advance(k, true), hash) == s.(incoming := false, handlers := s.handlers[k := Recording])
  {
  }

  lemma EmitStep(s: State, k: nat, hash: Hash)
    requires k < |s.handlers| && s.handlers[k].Emitting?
    ensures Next(s, Advance(k, true), hash) == s.(completions := s.completions + 1, handlers := s.handlers[k := Done])
  {
  }

  lemma RecordStep(s: State, k: nat, row: bool, hash: Hash)
    requires k < |s.handlers| && s.handlers[k].Recording?
    ensures Next(s, Advance(k, row), hash) ==
            s.(completedRow := s.completedRow || (row && s.hasRow),
               rowBytes := if row && s.hasRow then s.progress.bytes else s.rowBytes,
               handlers := s.handlers[k := Emitting])
  {
  }

  /** Calls one after another are a run: one in which no two handlers overlap. */
  lemma {:induction false} CallsAreARun(s: State, calls: seq<Call>, hash: Hash) returns (events: seq<Event>)
    ensures Run(s, events, hash).(handlers := s.handlers) == HandleAll(s, calls, hash)
    ensures forall e :: e in events && e.Arrive? ==> exists x :: x in calls && x.m == e.m
    ensures Crash !in events
  {
    events := [];
    if calls != [] {
      var init, last := calls[..|calls| - 1], calls[|calls| - 1];
      assert calls == init + [last];
      var before := CallsAreARun(s, init, hash);
      var t := Run(s, before, hash);
      HandleIsItsMicroSteps(t, last, hash);
      RunSplits(s, before, CallEvents(t, last), hash);
      events := before + CallEvents(t, last);
      HandlersAreKept(HandleAll(s, init, hash), last, hash);
      OtherHandlersDoNotMatter(t, s.handlers, last, hash);
    }
  }

  lemma OtherHandlersDoNotMatter(s: State, handlers: seq<Handler>, call: Call, hash: Hash)
    ensures Handle(s.(handlers := handlers), call.m, call.io, hash) ==
            Handle(s, call.m, call.io, hash).(handlers := handlers)
  {
    hide WriteAt, Offset, NothingPending, TH.MarkAcked;
  }

  lemma HandlersAreKept(s: State, call: Call, hash: Hash)
    ensures Handle(s, call.m, call.io, hash).handlers == s.handlers
  {
    hide WriteAt, Offset, NothingPending, TH.MarkAcked;
  }

  // ---------------------------------------------------------------- what calls bring about

  /** An intact chunk that could be written. */
  predicate Usable(call: Call, hash: Hash)
  {
    hash(call.m.payload) == call.m.checksum && call.io.write
  }

  predicate AnyUsable(calls: seq<Call>, hash: Hash)
  {
    exists x :: x in calls && Usable(x, hash)
  }

  /** Some usable chunk of index i arrives. */
  predicate Arrived(calls: seq<Call>, i: nat, hash: Hash)
  {
    exists x :: x in calls && x.m.index == i && Usable(x, hash)
  }

  /** With calls one at a time, and on any messages whatever, genuine or not: completion is
      reported once, exactly when some usable chunk has arrived and nothing is pending any
      more, and the transfer is taken off the list with it. */
  lemma {:induction false} CompletesExactlyOnce(start: State, calls: seq<Call>, hash: Hash)
    requires start.incoming
    ensures var s := HandleAll(start, calls, hash);
            && s.progress.total == start.progress.total && s.progress.c == start.progress.c
            && start.progress.acked <= s.progress.acked
            && s.completions ==
               start.completions + (if AnyUsable(calls, hash) && NothingPending(s.progress) then 1 else 0)
            && (s.incoming <==> s.completions == start.completions)
  {
    if calls != [] {
      var init, last := calls[..|calls| - 1], calls[|calls| - 1];
      assert calls == init + [last] && last in calls;
      CompletesExactlyOnce(start, init, hash);
      var before := HandleAll(start, init, hash);
      AckedGrows(before.progress, Handle(before, last.m, last.io, hash).progress);
      hide NothingPending, WriteAt, Offset;
      assert AnyUsable(calls, hash) <==> AnyUsable(init, hash) || Usable(last, hash);
    }
  }

  /** For an empty file nothing is ever pending, so it is any self-consistent chunk, of
      whatever index, that completes it. */
  lemma {:induction false} EmptyFileCompletesIff(c: nat, known: bool, calls: seq<Call>, hash: Hash)
    requires c > 0
    ensures HandleAll(FirstAccept(0, c, known), calls, hash).completions == (if AnyUsable(calls, hash) then 1 else 0)
  {
    var start := FirstAccept(0, c, known);
    CompletesExactlyOnce(start, calls, hash);
    var s := HandleAll(start, calls, hash);
    TH.NothingPending(s.progress.acked, NumChunks(0, c));
  }

  /** A sender makes no chunk of an empty file, so with genuine messages alone it is never
      reported; one stray chunk reports it. */
  lemma {:induction false} EmptyFileNeedsStrayChunk(
    c: nat, known: bool, calls: seq<Call>, hash: Hash, i: U64, payload: seq<Byte>)
    requires c > 0 && forall x :: x in calls ==> SentOrCorrupted(x.m, [], c, hash)
    ensures HandleAll(FirstAccept(0, c, known), calls, hash).completions == 0
    ensures var stray := Call(ChunkMessage(i, payload, hash(payload)), Io(true, true, true));
            HandleAll(FirstAccept(0, c, known), calls + [stray], hash).completions == 1
  {
    var stray := Call(ChunkMessage(i, payload, hash(payload)), Io(true, true, true));
    EmptyFileCompletesIff(c, known, calls, hash);
    EmptyFileCompletesIff(c, known, calls + [stray], hash);
    assert stray in calls + [stray] && Usable(stray, hash);
  }

  lemma {:induction false} ArrivedIsAcked(start: State, calls: seq<Call>, hash: Hash, i: nat)
    requires start.incoming && start.progress.c > 0 && i < NumChunks(start.progress.total, start.progress.c)
    requires Arrived(calls, i, hash)
    ensures i in HandleAll(start, calls, hash).progress.acked
  {
    hide WriteAt, Offset, NumChunks;
    var init, last := calls[..|calls| - 1], calls[|calls| - 1];
    assert calls == init + [last];
    var before := HandleAll(start, init, hash);
    CompletesExactlyOnce(start, init, hash);
    if Arrived(init, i, hash) {
      ArrivedIsAcked(start, init, hash, i);
    } else if !before.incoming {
      TH.NothingPending(before.progress.acked, NumChunks(start.progress.total, start.progress.c));
    }
  }

  /** When every chunk of a non-empty file arrives intact and is written at least once, in any
      order and amid any repeats, corrupted copies and failed database writes, the destination
      is the source and completion was reported once. */
  lemma EveryChunkDelivered(src: seq<Byte>, c: nat, known: bool, calls: seq<Call>, hash: Hash)
    requires 0 < c <= U64_LIMIT && 0 < |src| < U64_LIMIT && CollisionFree(src, c, hash)
    requires forall x :: x in calls ==> SentOrCorrupted(x.m, src, c, hash)
    requires forall i: nat :: i < NumChunks(|src|, c) ==> Arrived(calls, i, hash)
    ensures var s := HandleAll(FirstAccept(|src|, c, known), calls, hash);
            s.file == src && s.completions == 1 && !s.incoming
  {
    var n, start := NumChunks(|src|, c), FirstAccept(|src|, c, known);
    var s := HandleAll(start, calls, hash);
    CompletesExactlyOnce(start, calls, hash);
    forall i: nat | i < n ensures i in s.progress.acked { ArrivedIsAcked(start, calls, hash, i); }
    TH.NothingPending(s.progress.acked, n);
    assert Arrived(calls, 0, hash);
    var events := CallsAreARun(start, calls, hash);
    EveryAcceptanceIsSafe(src, c, known, hash, events);
  }

  /** With a row, database writes that all succeed leave the manifest equal to the acked set,
      and the row completed, with all the bytes counted, exactly when completion was reported. */
  lemma {:induction false} HandledIsRecorded(start: State, calls: seq<Call>, hash: Hash)
    requires start.incoming && start.hasRow && start.manifest == start.progress.acked && !start.completedRow
    requires forall x :: x in calls ==> x.io.ack && x.io.row
    ensures var s := HandleAll(start, calls, hash);
            && s.hasRow && s.manifest == s.progress.acked && (s.completedRow <==> s.completions > start.completions)
            && (s.completedRow ==> s.rowBytes == s.progress.bytes)
  {
    hide WriteAt, Offset, NothingPending;
    if calls != [] {
      var init, last := calls[..|calls| - 1], calls[|calls| - 1];
      assert last in calls && forall x :: x in init ==> x in calls;
      HandledIsRecorded(start, init, hash);
      CompletesExactlyOnce(start, init, hash);
    }
  }

  // ---------------------------------------------------------------- the code

  class TransferReceiver {
    const c: nat
    const hash: Hash
    var file: seq<Byte>
    var hasRow: bool
    var manifest: set<nat>
    var completedRow: bool
    var rowBytes: U64
    var handle: TH.TransferHandle?
    var incoming: bool
    var completions: nat
    var peerReports: nat

    ghost predicate Valid()
      reads this, handle
    {
      && c > 0
      && (incoming ==> handle != null)
      && (handle != null ==> handle.Valid() && handle.c == c)
    }

    ghost function View(): State
      reads this, handle
    {
      State(file, hasRow, manifest, completedRow, rowBytes, handle != null, incoming,
            if handle == null then TH.FreshProgress(0, c) else handle.View(), [], completions, peerReports)
    }

    constructor (c: nat, hash: Hash)
      requires c > 0
      ensures Valid() && View() == Unaccepted(c) && this.c == c && this.hash == hash
    {
      this.c, this.hash := c, hash;
      file, hasRow, manifest, completedRow, rowBytes := [], false, {}, false, 0;
      handle, incoming, completions, peerReports := null, false, 0, 0;
    }

    /** `known` says whether the offer's message is in the database. */
    method AcceptFile(size: U64, known: bool)
      requires Valid()
      modifies this
      ensures Valid() && View() == Accept(old(View()), size, c, known)
    {
      file := Zeros(size);
      if manifest == {} {
        handle := new TH.TransferHandle(size, c);
      } else {
        handle := new TH.TransferHandle.ResumeFromManifest(size, c, manifest);
      }
      if known { hasRow := true; }
      incoming := true;
    }

    /** `FileTransferComplete` from the peer. */
    method HandleTransferComplete()
      requires Valid()
      modifies this
      ensures Valid() && View() == Next(old(View()), PeerComplete, hash)
    {
      incoming := false;
      peerReports := peerReports + 1;
    }

    method HandleIncomingChunk(m: ChunkMessage, io: Io)
      requires Valid()
      modifies this, handle
      ensures Valid() && View() == Handle(old(View()), m, io, hash)
    {
      if hash(m.payload) != m.checksum { return; }
      if !incoming { return; }
      if !io.write { return; }
      file := WriteAt(file, Offset(m.index, c), m.payload);
      handle.MarkChunkAcked(m.index, |m.payload|);
      if io.ack && hasRow { manifest := manifest + {m.index}; }
      var pending := handle.PendingChunkIndices();
      if pending == [] {
        incoming := false;
        if io.row && hasRow { completedRow, rowBytes := true, handle.bytesTransferred; }
        completions := completions + 1;
      }
    }
  }
}
