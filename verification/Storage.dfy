/** The tables that outlive a restart: transfers, their chunk manifest, and the messages both
    hang on by foreign keys. Each statement either takes effect or fails and changes nothing. */
module Storage {
  import opened Wrappers
  import opened Bytes
  import opened TransferStates

  type I64 = n: int | -0x8000_0000_0000_0000 <= n < 0x8000_0000_0000_0000

  /** `as i64` and back. */
  function ToI64(n: U64): (i: I64)
    ensures (i - n) % U64_LIMIT == 0
  {
    if n >= 0x8000_0000_0000_0000 then n - U64_LIMIT else n
  }

  function FromI64(n: I64): (u: U64)
    ensures (u - n) % U64_LIMIT == 0
  {
    if n < 0 then n + U64_LIMIT else n
  }

  datatype Row = Row(messageId: string, fileName: string, fileSize: I64, direction: string,
                     state: TransferState, bytesTransferred: I64, localPath: string)

  /** `messages` maps a message to its conversation, which is named after the peer. */
  datatype Db = Db(messages: map<string, string>, transfers: map<string, Row>, manifest: set<(string, I64)>)

  datatype Statement =
    | InsertMessage(messageId: string, conversation: string)
    | CreateTransfer(id: string, messageId: string, fileName: string, fileSize: U64,
                     direction: string, localPath: string)
    | UpdateState(id: string, state: TransferState, bytes: U64)
    | MarkChunk(id: string, index: U64)

  /** Primary keys are not taken twice, and foreign keys must lead somewhere. */
  predicate Succeeds(db: Db, s: Statement)
  {
    match s
    case InsertMessage(m, _) => m !in db.messages
    case CreateTransfer(id, m, _, _, _, _) => id !in db.transfers && m in db.messages
    case UpdateState(_, _, _) => true
    case MarkChunk(id, _) => id in db.transfers
  }

  /** An update of a missing row succeeds and does nothing. */
  function Apply(db: Db, s: Statement): Db
  {
    if !Succeeds(db, s) then db else
    match s
    case InsertMessage(m, c) => db.(messages := db.messages[m := c])
    case CreateTransfer(id, m, name, size, direction, path) =>
      db.(transfers := db.transfers[id := Row(m, name, ToI64(size), direction, Queued, 0, path)])
    case UpdateState(id, state, bytes) =>
      if id !in db.transfers then db
      else db.(transfers := db.transfers[id := db.transfers[id].(state := state, bytesTransferred := ToI64(bytes))])
    case MarkChunk(id, i) => db.(manifest := db.manifest + {(id, ToI64(i))})
  }

  function Acked(db: Db, id: string): set<U64>
  {
    set e <- db.manifest | e.0 == id :: FromI64(e.1)
  }

  datatype Resumable = Resumable(id: string, peer: string, direction: string, localPath: string)

  /** The rows of the join. */
  predicate Listed(db: Db, r: Resumable)
  {
    && r.id in db.transfers
    && var row := db.transfers[r.id];
       && Open(row.state) && row.messageId in db.messages
       && r.peer == db.messages[row.messageId] && r.direction == row.direction && r.localPath == row.localPath
  }

  class Storage {
    var messages: map<string, string>
    var transfers: map<string, Row>
    var manifest: set<(string, I64)>

    constructor ()
      ensures Contents() == Db(map[], map[], {})
    {
      messages, transfers, manifest := map[], map[], {};
    }

    function Contents(): Db
      reads this
    {
      Db(messages, transfers, manifest)
    }

    method CreateTransfer(id: string, messageId: string, fileName: string, fileSize: U64,
                          direction: string, localPath: string) returns (ok: bool)
      modifies this
      ensures var s := Statement.CreateTransfer(id, messageId, fileName, fileSize, direction, localPath);
              ok == Succeeds(old(Contents()), s) && Contents() == Apply(old(Contents()), s)
    {
      if id in transfers || messageId !in messages { return false; }
      transfers := transfers[id := Row(messageId, fileName, ToI64(fileSize), direction, Queued, 0, localPath)];
      ok := true;
    }

    method UpdateTransferState(id: string, state: TransferState, bytesTransferred: U64)
      modifies this
      ensures Contents() == Apply(old(Contents()), UpdateState(id, state, bytesTransferred))
    {
      if id in transfers {
        transfers := transfers[id := transfers[id].(state := state, bytesTransferred := ToI64(bytesTransferred))];
      }
    }

    method MarkChunkAcked(id: string, index: U64) returns (ok: bool)
      modifies this
      ensures ok == Succeeds(old(Contents()), MarkChunk(id, index))
      ensures Contents() == Apply(old(Contents()), MarkChunk(id, index))
    {
      if id !in transfers { return false; }
      manifest := manifest + {(id, ToI64(index))};
      ok := true;
    }

    method LoadAckedChunks(id: string) returns (acked: set<U64>)
      ensures acked == Acked(Contents(), id)
    {
      acked := {};
      var rows := set e <- manifest | e.0 == id;
      ghost var read: set<(string, I64)> := {};
      while rows != {}
        invariant rows + read == set e <- manifest | e.0 == id
        invariant acked == set e <- read :: FromI64(e.1)
        decreases rows
      {
        var row :| row in rows;
        acked := acked + {FromI64(row.1)};
        rows, read := rows - {row}, read + {row};
      }
      assert read == set e <- manifest | e.0 == id;
    }

    /** In no particular order. */
    method ListResumableTransfersWithPeer() returns (out: seq<Resumable>)
      ensures forall r :: r in out <==> Listed(Contents(), r)
      ensures forall i, j :: 0 <= i < j < |out| ==> out[i].id != out[j].id
    {
      out := [];
      var rest := transfers.Keys;
      while rest != {}
        invariant rest <= transfers.Keys
        invariant forall r :: r in out <==> Listed(Contents(), r) && r.id !in rest
        invariant forall i, j :: 0 <= i < j < |out| ==> out[i].id != out[j].id
        decreases rest
      {
        var id :| id in rest;
        var row := transfers[id];
        assert forall r :: r in out ==> r.id != id;
        assert forall i :: 0 <= i < |out| ==> out[i] in out;
        rest := rest - {id};
        if Open(row.state) && row.messageId in messages {
          out := out + [Resumable(id, messages[row.messageId], row.direction, row.localPath)];
        }
      }
    }
  }

  // ---------------------------------------------------------------- histories

  function After(history: seq<Statement>): Db
  {
    if history == [] then Db(map[], map[], {})
    else Apply(After(history[..|history| - 1]), history[|history| - 1])
  }

  lemma OneMore(history: seq<Statement>, s: Statement)
    ensures After(history + [s]) == Apply(After(history), s)
  {
    assert (history + [s])[..|history|] == history;
  }

  /** Every row leads to a message, and every manifest entry to a row. */
  ghost predicate KeysHold(db: Db)
  {
    && (forall id :: id in db.transfers ==> db.transfers[id].messageId in db.messages)
    && (forall e :: e in db.manifest ==> e.0 in db.transfers)
  }

  lemma {:induction false} ForeignKeysHold(history: seq<Statement>)
    ensures KeysHold(After(history))
  {
    if history != [] { ForeignKeysHold(history[..|history| - 1]); }
  }

  lemma MarkAdds(db: Db, id: string, index: U64, i: U64)
    ensures i in Acked(Apply(db, MarkChunk(id, index)), id) <==>
            i in Acked(db, id) || (i == index && id in db.transfers)
  {
    var after := Apply(db, MarkChunk(id, index));
    if i in Acked(db, id) {
      var e :| e in db.manifest && e.0 == id && FromI64(e.1) == i;
      assert e in after.manifest;
    }
    if i == index && id in db.transfers {
      assert (id, ToI64(index)) in after.manifest && FromI64(ToI64(index)) == index;
    }
  }

  lemma OthersKeepAcked(db: Db, s: Statement, id: string)
    requires !s.MarkChunk? || s.id != id
    ensures Acked(Apply(db, s), id) == Acked(db, id)
  {
    assert forall e: (string, I64) :: e.0 == id ==> (e in Apply(db, s).manifest <==> e in db.manifest);
  }

  ghost predicate MarkedAt(history: seq<Statement>, k: int, id: string, i: U64)
  {
    0 <= k < |history| && history[k] == MarkChunk(id, i) && id in After(history[..k]).transfers
  }

  /** What is loaded for a transfer is what was marked for it while it had a row: no more, no
      less, whatever else was written in between, and for every 64-bit index. */
  lemma {:induction false} LoadsWhatWasMarked(history: seq<Statement>, id: string, i: U64)
    ensures i in Acked(After(history), id) <==> exists k :: MarkedAt(history, k, id, i)
  {
    if history != [] {
      var n := |history| - 1;
      var init, s := history[..n], history[n];
      LoadsWhatWasMarked(init, id, i);
      forall k | 0 <= k < n ensures MarkedAt(history, k, id, i) <==> MarkedAt(init, k, id, i) {
        assert history[..k] == init[..k];
      }
      if s.MarkChunk? && s.id == id { MarkAdds(After(init), id, s.index, i); }
      else { OthersKeepAcked(After(init), s, id); }
      assert MarkedAt(history, n, id, i) <==> s == MarkChunk(id, i) && id in After(init).transfers;
      if k: int :| MarkedAt(init, k, id, i) { assert MarkedAt(history, k, id, i); }
    }
  }

  predicate Creates(history: seq<Statement>, k: int, id: string)
  {
    0 <= k < |history| && history[k].CreateTransfer? && history[k].id == id && Succeeds(After(history[..k]), history[k])
  }

  predicate Updates(s: Statement, id: string) { s.UpdateState? && s.id == id }

  /** The statement sets the state of the row of `id`. */
  predicate Touches(db: Db, s: Statement, id: string)
  {
    (s.CreateTransfer? && s.id == id && Succeeds(db, s)) || (Updates(s, id) && id in db.transfers)
  }

  /** Statement `k` is the last to set the state of the row of `id`. */
  predicate SetsState(history: seq<Statement>, k: int, id: string)
  {
    && 0 <= k < |history|
    && Touches(After(history[..k]), history[k], id)
    && forall j :: k < j < |history| ==> !Updates(history[j], id)
  }

  lemma TouchSetsState(db: Db, s: Statement, id: string)
    ensures id in Apply(db, s).transfers <==> id in db.transfers || Touches(db, s, id)
    ensures Touches(db, s, id) ==>
              Apply(db, s).transfers[id].state == if s.UpdateState? then s.state else Queued
    ensures id in db.transfers && !Touches(db, s, id) ==> Apply(db, s).transfers[id].state == db.transfers[id].state
    ensures id in db.transfers && Touches(db, s, id) ==> Updates(s, id)
    ensures id in db.transfers && Updates(s, id) ==> Touches(db, s, id)
  {
  }

  lemma SetBefore(history: seq<Statement>, s: Statement, k: int, id: string)
    ensures k < |history| ==> (SetsState(history + [s], k, id) <==> SetsState(history, k, id) && !Updates(s, id))
    ensures k == |history| ==> (SetsState(history + [s], k, id) <==> Touches(After(history), s, id))
  {
    hide After, Touches, Updates;
    var longer := history + [s];
    assert longer[..|history|] == history && longer[|history|] == s;
    if 0 <= k < |history| {
      assert longer[..k] == history[..k];
      assert forall j :: 0 <= j < |history| ==> longer[j] == history[j];
    }
  }

  /** A transfer has a row exactly when one was created for it, and the row is in the state it
      was last put in: queued by its creation, or whatever the last update after that says. */
  lemma {:induction false} StateIsLastSet(history: seq<Statement>, id: string)
    ensures id in After(history).transfers <==> exists k :: SetsState(history, k, id)
    ensures forall k :: SetsState(history, k, id) ==>
              After(history).transfers[id].state == if history[k].UpdateState? then history[k].state else Queued
  {
    if history != [] {
      hide Apply, Touches;
      var n := |history| - 1;
      var init, s := history[..n], history[n];
      assert history == init + [s];
      StateIsLastSet(init, id);
      TouchSetsState(After(init), s, id);
      forall k { SetBefore(init, s, k, id); }
      if k: int :| SetsState(init, k, id) { assert SetsState(history, k, id) || Updates(s, id); }
      hide SetsState;
      if Touches(After(init), s, id) { assert SetsState(history, n, id); }
    }
  }

  /** A message in the database was inserted. */
  lemma {:induction false} KnownWasInserted(history: seq<Statement>, m: string)
    ensures m in After(history).messages <==> exists k :: InsertsAt(history, k, m)
  {
    if history != [] {
      var n := |history| - 1;
      var init, s := history[..n], history[n];
      KnownWasInserted(init, m);
      assert forall k :: 0 <= k < n ==> (InsertsAt(history, k, m) <==> InsertsAt(init, k, m));
      assert InsertsAt(history, n, m) <==> s.InsertMessage? && s.messageId == m;
      if k: int :| InsertsAt(init, k, m) { assert InsertsAt(history, k, m); }
    }
  }

  predicate InsertsAt(history: seq<Statement>, k: int, m: string)
  {
    0 <= k < |history| && history[k].InsertMessage? && history[k].messageId == m
  }

  lemma InsertsInPrefix(history: seq<Statement>, k: int, m: string)
    requires history != []
    ensures InsertsAt(history[..|history| - 1], k, m) ==> InsertsAt(history, k, m)
  {
  }

  /** No statement that would create a row for the transfer names a message that was ever
      inserted. */
  ghost predicate NamesNoMessage(history: seq<Statement>, id: string)
  {
    forall j, k :: 0 <= j < |history| && history[j].CreateTransfer? && history[j].id == id ==>
      !InsertsAt(history, k, history[j].messageId)
  }

  /** Then it has no row, whatever else is written: nothing is marked for it, and it is never a
      candidate for resuming. */
  lemma {:induction false} UnknownMessageLeavesNoRow(history: seq<Statement>, id: string)
    requires NamesNoMessage(history, id)
    ensures id !in After(history).transfers && Acked(After(history), id) == {}
    ensures !exists r :: Listed(After(history), r) && r.id == id
  {
    if history != [] {
      var n := |history| - 1;
      var init, s := history[..n], history[n];
      forall j, k | 0 <= j < n && init[j].CreateTransfer? && init[j].id == id
        ensures !InsertsAt(init, k, init[j].messageId)
      {
        InsertsInPrefix(history, k, history[j].messageId);
      }
      UnknownMessageLeavesNoRow(init, id);
      if s.CreateTransfer? && s.id == id {
        KnownWasInserted(init, s.messageId);
        forall k ensures !InsertsAt(init, k, s.messageId) { InsertsInPrefix(history, k, history[n].messageId); }
      }
    }
    ForeignKeysHold(history);
  }

  /** What a transfer was created with stays, its size included. */
  lemma {:induction false} MetaIsAsCreated(history: seq<Statement>, k: nat, id: string)
    requires Creates(history, k, id)
    ensures id in After(history).transfers
    ensures var row, s := After(history).transfers[id], history[k];
            && row.messageId == s.messageId && row.fileName == s.fileName && FromI64(row.fileSize) == s.fileSize
            && row.direction == s.direction && row.localPath == s.localPath
  {
    var n := |history| - 1;
    if k < n {
      assert history[..n][..k] == history[..k];
      MetaIsAsCreated(history[..n], k, id);
    }
  }

  /** The candidates for resuming are exactly the transfers created and last left in an open
      state, each with the peer its message is with: the join drops none of them. */
  lemma ListedIffOpen(history: seq<Statement>, id: string, k: nat)
    requires SetsState(history, k, id)
    ensures (exists r :: Listed(After(history), r) && r.id == id) <==>
            history[k].CreateTransfer? || Open(history[k].state)
  {
    StateIsLastSet(history, id);
    ForeignKeysHold(history);
    var db := After(history);
    var row := db.transfers[id];
    assert Open(row.state) ==> Listed(db, Resumable(id, db.messages[row.messageId], row.direction, row.localPath));
  }

  /** Event m is the first insertion of a message; later ones fail. */
  predicate FirstInsertsAt(history: seq<Statement>, m: int, messageId: string)
  {
    InsertsAt(history, m, messageId) && forall j :: 0 <= j < m ==> !InsertsAt(history, j, messageId)
  }

  /** A message is with the conversation it was first inserted with. */
  lemma {:induction false} ConversationIsFirstInserted(history: seq<Statement>, messageId: string)
    ensures messageId in After(history).messages <==> exists m :: FirstInsertsAt(history, m, messageId)
    ensures forall m :: FirstInsertsAt(history, m, messageId) ==>
              messageId in After(history).messages && After(history).messages[messageId] == history[m].conversation
  {
    if history != [] {
      var n := |history| - 1;
      var init, s := history[..n], history[n];
      ConversationIsFirstInserted(init, messageId);
      KnownWasInserted(init, messageId);
      forall k { InsertsInPrefix(history, k, messageId); }
      assert forall k :: 0 <= k < n ==> (InsertsAt(history, k, messageId) <==> InsertsAt(init, k, messageId));
      assert forall k :: 0 <= k < n ==> (FirstInsertsAt(history, k, messageId) <==> FirstInsertsAt(init, k, messageId));
      assert FirstInsertsAt(history, n, messageId) <==>
             s.InsertMessage? && s.messageId == messageId && messageId !in After(init).messages;
      if m: int :| FirstInsertsAt(init, m, messageId) { assert FirstInsertsAt(history, m, messageId); }
    }
  }

  lemma {:induction false} RowWasCreated(history: seq<Statement>, id: string) returns (k: nat)
    requires id in After(history).transfers
    ensures Creates(history, k, id)
  {
    var n := |history| - 1;
    var init, s := history[..n], history[n];
    if id in After(init).transfers {
      k := RowWasCreated(init, id);
      assert history[..k] == init[..k];
    } else {
      k := n;
    }
  }

  /** A candidate for resuming as the history makes it: its creation gives direction and path,
      the first insertion of that statement's message the peer, and the last statement on its
      state leaves it open. */
  ghost predicate Candidate(history: seq<Statement>, r: Resumable)
  {
    exists k, m, q ::
      && Creates(history, k, r.id) && FirstInsertsAt(history, m, history[k].messageId) && SetsState(history, q, r.id)
      && r.direction == history[k].direction && r.localPath == history[k].localPath
      && r.peer == history[m].conversation
      && (history[q].CreateTransfer? || Open(history[q].state))
  }

  /** What is listed after any history is exactly its candidates, in all their columns. */
  lemma {:induction false} ListsCandidates(history: seq<Statement>, r: Resumable)
    ensures Listed(After(history), r) <==> Candidate(history, r)
  {
    var db := After(history);
    StateIsLastSet(history, r.id);
    if Listed(db, r) {
      var k := RowWasCreated(history, r.id);
      MetaIsAsCreated(history, k, r.id);
      ConversationIsFirstInserted(history, history[k].messageId);
      var m: int :| FirstInsertsAt(history, m, history[k].messageId);
      var q: int :| SetsState(history, q, r.id);
      hide After;
      assert Creates(history, k, r.id) && FirstInsertsAt(history, m, history[k].messageId);
    }
    if Candidate(history, r) {
      var k: int, m: int, q: int :|
        && Creates(history, k, r.id) && FirstInsertsAt(history, m, history[k].messageId) && SetsState(history, q, r.id)
        && r.direction == history[k].direction && r.localPath == history[k].localPath
        && r.peer == history[m].conversation
        && (history[q].CreateTransfer? || Open(history[q].state));
      MetaIsAsCreated(history, k, r.id);
      ConversationIsFirstInserted(history, history[k].messageId);
      hide After;
    }
  }

  /** What an auto-resume pass to a peer goes through, over a database with any history: the
      candidates that are sends to that peer and whose source is a path, not a descriptor. */
  method ToResume(storage: Storage, deviceId: string, ghost history: seq<Statement>)
    returns (out: seq<(string, string)>)
    requires storage.Contents() == After(history)
    ensures forall id, path ::
              (id, path) in out <==> Candidate(history, Resumable(id, deviceId, "send", path)) && !("fd:" <= path)
    ensures forall i, j :: 0 <= i < j < |out| ==> out[i].0 != out[j].0
  {
    var listed := storage.ListResumableTransfersWithPeer();
    forall r { ListsCandidates(history, r); }
    out := [];
    for i := 0 to |listed|
      invariant forall id, path ::
                  (id, path) in out <==>
                  Resumable(id, deviceId, "send", path) in listed[..i] && !("fd:" <= path)
      invariant forall k :: 0 <= k < |out| ==> exists j :: 0 <= j < i && listed[j].id == out[k].0
      invariant forall k, l :: 0 <= k < l < |out| ==> out[k].0 != out[l].0
    {
      var r := listed[i];
      assert listed[..i + 1] == listed[..i] + [r];
      if r.peer != deviceId || r.direction != "send" { continue; }
      if "fd:" <= r.localPath { continue; }
      out := out + [(r.id, r.localPath)];
    }
    assert listed[..|listed|] == listed;
  }
}
