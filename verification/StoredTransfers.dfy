/** The row and the manifest of the sender and receiver models are those of the database: the
    statements their steps issue keep them equal, and what they read is what it holds. */
module StoredTransfers {
  import opened Bytes
  import opened TransferStates
  import DB = Storage
  import SR = SenderRuns
  import RX = Receiver

  /** The database holds this state and manifest for a transfer. */
  ghost predicate Holds(db: DB.Db, id: string, state: TransferState, manifest: set<nat>)
  {
    && id in db.transfers && db.transfers[id].state == state
    && (forall i :: i in manifest ==> i < U64_LIMIT)
    && (forall i: U64 :: i in DB.Acked(db, id) <==> i in manifest)
  }

  function ApplyAll(db: DB.Db, statements: seq<DB.Statement>): DB.Db
  {
    if statements == [] then db
    else DB.Apply(ApplyAll(db, statements[..|statements| - 1]), statements[|statements| - 1])
  }

  lemma ApplyOne(db: DB.Db, s: DB.Statement)
    ensures ApplyAll(db, [s]) == DB.Apply(db, s) && ApplyAll(db, []) == db
  {
    assert [s][..0] == [];
  }

  lemma {:induction false} ApplySplits(db: DB.Db, a: seq<DB.Statement>, b: seq<DB.Statement>)
    ensures ApplyAll(db, a + b) == ApplyAll(ApplyAll(db, a), b)
  {
    if b == [] {
      assert a + b == a;
    } else {
      ApplySplits(db, a, b[..|b| - 1]);
      assert (a + b)[..|a + b| - 1] == a + b[..|b| - 1];
    }
  }

  lemma MarkIsHeld(db: DB.Db, id: string, state: TransferState, manifest: set<nat>, i: U64)
    requires Holds(db, id, state, manifest)
    ensures Holds(DB.Apply(db, DB.MarkChunk(id, i)), id, state, manifest + {i})
  {
    forall j: U64 ensures j in DB.Acked(DB.Apply(db, DB.MarkChunk(id, i)), id) <==> j in manifest + {i} {
      DB.MarkAdds(db, id, i, j);
    }
  }

  lemma UpdateIsHeld(db: DB.Db, id: string, state: TransferState, manifest: set<nat>, final: TransferState, bytes: U64)
    requires Holds(db, id, state, manifest)
    ensures Holds(DB.Apply(db, DB.UpdateState(id, final, bytes)), id, final, manifest)
  {
    DB.OthersKeepAcked(db, DB.UpdateState(id, final, bytes), id);
  }

  /** Statements about other transfers, new messages, and a second creation, which fails, leave
      what is held for a transfer. */
  lemma OthersDoNotDisturb(db: DB.Db, s: DB.Statement, id: string, state: TransferState, manifest: set<nat>)
    requires Holds(db, id, state, manifest)
    requires (s.MarkChunk? || s.UpdateState?) ==> s.id != id
    ensures Holds(DB.Apply(db, s), id, state, manifest)
  {
    DB.OthersKeepAcked(db, s, id);
  }

  // ---------------------------------------------------------------- the sender

  /** What a step of the sender writes; `bytes` is what its progress shows. */
  function SenderWrites(s: SR.State, e: SR.Event, id: string, bytes: U64): seq<DB.Statement>
  {
    match e
    case Work(k, i, ok) =>
      if k < |s.runs| && i in s.runs[k].tasks && s.runs[k].tasks[i].Marked? && ok && i < U64_LIMIT
      then [DB.MarkChunk(id, i)] else []
    case OnRun(k, step) =>
      if k < |s.runs| && step == SR.Record(true) && s.runs[k].phase.Recording?
      then [DB.UpdateState(id, s.runs[k].phase.final, bytes)] else []
    case _ => []
  }

  lemma SenderStepIsStored(db: DB.Db, s: SR.State, e: SR.Event, n: nat, id: string, bytes: U64)
    requires SR.Inv(s, n) && n <= U64_LIMIT && Holds(db, id, s.row, s.manifest)
    ensures Holds(ApplyAll(db, SenderWrites(s, e, id, bytes)), id, SR.Next(s, e, n).row, SR.Next(s, e, n).manifest)
  {
    hide SR.Advance, SR.WorkOn, Holds, DB.Apply;
    match e
    case Work(k, i, ok) =>
      if k < |s.runs| && i in s.runs[k].tasks && s.runs[k].tasks[i].Marked? && ok {
        SR.TaskInRange(s.runs[k], i, s.enqueued, n);
        ApplyOne(db, DB.MarkChunk(id, i));
        MarkIsHeld(db, id, s.row, s.manifest, i);
      }
    case OnRun(k, step) =>
      if k < |s.runs| && step == SR.Record(true) && s.runs[k].phase.Recording? {
        ApplyOne(db, DB.UpdateState(id, s.runs[k].phase.final, bytes));
        UpdateIsHeld(db, id, s.row, s.manifest, s.runs[k].phase.final, bytes);
      }
    case _ =>
  }

  function AllSenderWrites(events: seq<SR.Event>, n: nat, id: string, bytes: U64): seq<DB.Statement>
  {
    if events == [] then [] else
    var init := events[..|events| - 1];
    AllSenderWrites(init, n, id, bytes) + SenderWrites(SR.After(init, n), events[|events| - 1], id, bytes)
  }

  /** After any run of the sender, the database that held its queued row holds exactly the
      state and the manifest of the model. */
  lemma {:induction false} SenderRunIsStored(db: DB.Db, events: seq<SR.Event>, n: nat, id: string, bytes: U64)
    requires n <= U64_LIMIT && Holds(db, id, Queued, {})
    ensures var s := SR.After(events, n);
            Holds(ApplyAll(db, AllSenderWrites(events, n, id, bytes)), id, s.row, s.manifest)
  {
    hide Holds, SR.Next, SR.Inv, SenderWrites;
    if events != [] {
      var init, e := events[..|events| - 1], events[|events| - 1];
      SenderRunIsStored(db, init, n, id, bytes);
      SR.EveryRunIsSafe(init, n);
      var before := AllSenderWrites(init, n, id, bytes);
      SenderStepIsStored(ApplyAll(db, before), SR.After(init, n), e, n, id, bytes);
      ApplySplits(db, before, SenderWrites(SR.After(init, n), e, id, bytes));
    }
  }

  /** What a pass reads: the transfer is a candidate exactly when the model's row is open, and
      the set loaded for it is the model's manifest. */
  lemma PassesReadModel(db: DB.Db, id: string, state: TransferState, manifest: set<nat>)
    requires Holds(db, id, state, manifest) && DB.KeysHold(db)
    ensures Open(state) <==> exists r :: DB.Listed(db, r) && r.id == id
    ensures (set i: U64 | i in DB.Acked(db, id) :: i as nat) == manifest
  {
    var row := db.transfers[id];
    if Open(state) {
      assert DB.Listed(db, DB.Resumable(id, db.messages[row.messageId], row.direction, row.localPath));
    }
    forall i | i in manifest ensures i in (set j: U64 | j in DB.Acked(db, id) :: j as nat) {
      assert (i as U64) in DB.Acked(db, id);
    }
  }

  // ---------------------------------------------------------------- the receiver

  function ReceiverState(s: RX.State): TransferState
  {
    if s.completedRow then Completed else Queued
  }

  /** The database agrees with the receiver: on the row and the manifest if there is a row, and
      else on there being none. */
  ghost predicate HoldsReceiver(db: DB.Db, id: string, s: RX.State)
  {
    if s.hasRow then Holds(db, id, ReceiverState(s), s.manifest)
    else id !in db.transfers && s.manifest == {} && !s.completedRow
  }

  /** The statement an acceptance issues. */
  function AcceptWrites(id: string, messageId: string, fileName: string, size: U64, path: string): DB.Statement
  {
    DB.CreateTransfer(id, messageId, fileName, size, "receive", path)
  }

  /** An acceptance creates a row if and only if there is none and the message the offer names
      is in the database; and the model's acceptance, told whether it is, agrees. */
  lemma {:induction false} AcceptIsStored(
    db: DB.Db, s: RX.State, id: string, messageId: string, fileName: string, size: U64, path: string, c: nat)
    requires DB.KeysHold(db) && HoldsReceiver(db, id, s)
    ensures var db' := DB.Apply(db, AcceptWrites(id, messageId, fileName, size, path));
            && (id in db'.transfers <==> id in db.transfers || messageId in db.messages)
            && DB.KeysHold(db') && HoldsReceiver(db', id, RX.Accept(s, size, c, messageId in db.messages))
  {
    var create := AcceptWrites(id, messageId, fileName, size, path);
    DB.OthersKeepAcked(db, create, id);
    assert id !in db.transfers ==> DB.Acked(db, id) == {};
  }

  /** The manifest an acceptance rebuilds its handle from is the one the database holds, empty
      without a row. */
  lemma {:induction false} AcceptReadsModel(db: DB.Db, s: RX.State, id: string)
    requires DB.KeysHold(db) && HoldsReceiver(db, id, s)
    ensures (set i: U64 | i in DB.Acked(db, id) :: i as nat) == s.manifest
  {
    if s.hasRow { PassesReadModel(db, id, ReceiverState(s), s.manifest); }
    else { assert DB.Acked(db, id) == {}; }
  }

  function ReceiverWrites(s: RX.State, e: RX.Event, id: string): seq<DB.Statement>
  {
    if !e.Advance? || e.k >= |s.handlers| || !e.ok then [] else
    match s.handlers[e.k]
    case Persisting(i) => if i < U64_LIMIT then [DB.MarkChunk(id, i)] else []
    case Recording => [DB.UpdateState(id, Completed, s.progress.bytes)]
    case _ => []
  }

  /** Every step of the receiver keeps the database in agreement with the model, the recorded
      bytes included: without a row the marks fail and the updates do nothing. */
  lemma {:induction false} ReceiverStepIsStored(db: DB.Db, s: RX.State, e: RX.Event, hash: RX.Hash, id: string)
    requires HoldsReceiver(db, id, s)
    requires IndicesFit(s)
    ensures var t, db' := RX.Next(s, e, hash), ApplyAll(db, ReceiverWrites(s, e, id));
            && HoldsReceiver(db', id, t)
            && (s.hasRow && e.Advance? && e.ok && e.k < |s.handlers| && s.handlers[e.k].Recording? ==>
                  DB.FromI64(db'.transfers[id].bytesTransferred) == t.rowBytes)
  {
    RX.StepKeepsRow(s, e, hash);
    if e.Advance? && e.k < |s.handlers| && e.ok && (s.handlers[e.k].Persisting? || s.handlers[e.k].Recording?) {
      assert s.handlers[e.k] in s.handlers;
      if s.handlers[e.k].Persisting? { MarkStepIsStored(db, s, e.k, id); } else { RecordStepIsStored(db, s, e.k, id); }
      hide HoldsReceiver, RX.RunHandler;
    } else {
      OtherStepsStoreNothing(s, e, hash);
      hide RX.Next, Holds;
    }
  }

  lemma OtherStepsStoreNothing(s: RX.State, e: RX.Event, hash: RX.Hash)
    requires !(e.Advance? && e.k < |s.handlers| && e.ok && (s.handlers[e.k].Persisting? || s.handlers[e.k].Recording?))
    ensures RX.Next(s, e, hash).manifest == s.manifest && RX.Next(s, e, hash).completedRow == s.completedRow
    ensures ReceiverWrites(s, e, "") == []
  {
    hide RX.NextPhase, RX.Admitted, RX.Effect;
    if e.Advance? && e.k < |s.handlers| { OtherEffectsStoreNothing(s, s.handlers[e.k], e.ok); }
  }

  lemma OtherEffectsStoreNothing(s: RX.State, h: RX.Handler, ok: bool)
    requires !(ok && (h.Persisting? || h.Recording?))
    ensures RX.Effect(s, h, ok).manifest == s.manifest && RX.Effect(s, h, ok).completedRow == s.completedRow
  {
  }

  lemma MarkStepIsStored(db: DB.Db, s: RX.State, k: nat, id: string)
    requires HoldsReceiver(db, id, s) && k < |s.handlers| && s.handlers[k].Persisting? && s.handlers[k].i < U64_LIMIT
    ensures HoldsReceiver(ApplyAll(db, [DB.MarkChunk(id, s.handlers[k].i)]), id, RX.RunHandler(s, k, true))
  {
    var i := s.handlers[k].i;
    ApplyOne(db, DB.MarkChunk(id, i));
    if s.hasRow { MarkIsHeld(db, id, ReceiverState(s), s.manifest, i); }
    hide Holds;
  }

  lemma RecordStepIsStored(db: DB.Db, s: RX.State, k: nat, id: string)
    requires HoldsReceiver(db, id, s) && k < |s.handlers| && s.handlers[k].Recording?
    ensures var t, db' := RX.RunHandler(s, k, true), ApplyAll(db, [DB.UpdateState(id, Completed, s.progress.bytes)]);
            && HoldsReceiver(db', id, t)
            && (s.hasRow ==> id in db'.transfers && DB.FromI64(db'.transfers[id].bytesTransferred) == t.rowBytes)
  {
    ApplyOne(db, DB.UpdateState(id, Completed, s.progress.bytes));
    if s.hasRow { UpdateIsHeld(db, id, ReceiverState(s), s.manifest, Completed, s.progress.bytes); }
  }

  function AllReceiverWrites(s: RX.State, events: seq<RX.Event>, hash: RX.Hash, id: string): seq<DB.Statement>
  {
    if events == [] then [] else
    var init := events[..|events| - 1];
    AllReceiverWrites(s, init, hash, id) + ReceiverWrites(RX.Run(s, init, hash), events[|events| - 1], id)
  }

  /** The index a handler is at work on, or 0. */
  function IndexOf(h: RX.Handler): nat
  {
    match h
    case Writing(i, _) => i
    case Inserting(i, _) => i
    case Counting(i, _) => i
    case Persisting(i) => i
    case _ => 0
  }

  ghost predicate IndicesFit(s: RX.State)
  {
    forall h :: h in s.handlers ==> IndexOf(h) < U64_LIMIT
  }

  lemma HandlerKeepsIndex(s: RX.State, k: nat, ok: bool)
    requires k < |s.handlers|
    ensures var t := RX.RunHandler(s, k, ok);
            |t.handlers| == |s.handlers| && t.handlers == s.handlers[k := t.handlers[k]]
            && (IndexOf(t.handlers[k]) == IndexOf(s.handlers[k]) || IndexOf(t.handlers[k]) == 0)
  {
    hide RX.NothingPending, RX.Effect;
  }

  lemma StepKeepsIndices(s: RX.State, e: RX.Event, hash: RX.Hash)
    requires IndicesFit(s)
    ensures IndicesFit(RX.Next(s, e, hash))
  {
    if e.Advance? && e.k < |s.handlers| {
      HandlerKeepsIndex(s, e.k, e.ok);
      assert s.handlers[e.k] in s.handlers;
    }
    hide RX.RunHandler, IndexOf;
    if e.Arrive? { WritingIndex(e.m.index, e.m.payload); }
  }

  lemma WritingIndex(i: nat, payload: seq<Byte>)
    ensures IndexOf(RX.Writing(i, payload)) == i
  {
  }

  /** After any run of the receiver, row or no row, the database agrees with the model. */
  lemma {:induction false} ReceiverRunIsStored(
    db: DB.Db, s: RX.State, events: seq<RX.Event>, hash: RX.Hash, id: string)
    requires HoldsReceiver(db, id, s) && s.handlers == []
    ensures var t := RX.Run(s, events, hash);
            IndicesFit(t) && HoldsReceiver(ApplyAll(db, AllReceiverWrites(s, events, hash, id)), id, t)
  {
    if events != [] {
      hide HoldsReceiver, RX.Next, ReceiverWrites;
      var init, e := events[..|events| - 1], events[|events| - 1];
      ReceiverRunIsStored(db, s, init, hash, id);
      var before, t := AllReceiverWrites(s, init, hash, id), RX.Run(s, init, hash);
      StepKeepsIndices(t, e, hash);
      ReceiverStepIsStored(ApplyAll(db, before), t, e, hash, id);
      ApplySplits(db, before, ReceiverWrites(t, e, id));
    }
  }
}
