// Local writes racing with upload workers: claim, transfer, acknowledge or fail.

module Recovery {
  import opened Options
  import opened Paths
  import opened Rows
  import opened Metadata
  import opened Renames
  import opened Cache
  import T = Transactions
  import Pins

  /** A writer between `begin_cached_write` and `mark_dirty_with_size`, holding its cache file open. */
  datatype Handle = Handle(id: string, cache: CachePath)

  /** A worker that claimed `seen`, the bytes it has read and sent since, and whether it met the end of the file. */
  datatype Worker = Worker(seen: Row, cache: CachePath, sent: Bytes, done: bool)

  /** `workers` has at most one entry a row, as the item lock demands. `acked` holds the bytes of the last
      upload the cloud acknowledged for a row, `owner` the row each cache file belongs to. */
  datatype World = World(
    store: Store,
    handles: map<nat, Handle>,
    workers: map<string, Worker>,
    acked: map<string, Bytes>,
    owner: map<CachePath, string>)

  datatype Step =
    | BeginWrite(h: nat, id: string, seen: Row)
    | WriteBytes(h: nat, bytes: Bytes)
    | EndWrite(h: nat, size: nat, now: int)
    | Claim(id: string, seen: Row)
    | Send(id: string, count: nat)
    | EndOfFile(id: string)
    | Acknowledge(id: string, up: Entry, now: int)
    | FailUpload(id: string, permanent: bool)
    | Conflicted(id: string)
    | LeaveUpload(id: string)
    | Rename(id: string, path: Path)
    | Import(e: Entry, block: bool)
    | Decide(policy: T.Policy)

  predicate Can(w: World, step: Step) {
    match step
    case BeginWrite(h, id, seen) =>
      h !in w.handles && id in w.store.files && w.store.files[id].cache.Some? && SameBaseline(w.store.files[id], seen)
    case WriteBytes(h, _) => h in w.handles
    case EndWrite(h, _, _) => h in w.handles
    case Claim(id, seen) =>
      id !in w.workers && Claimable(w.store, id, seen) && seen.cache.Some? && seen.cache.value in w.store.disk
    case Send(id, count) =>
      && id in w.workers && !w.workers[id].done && w.workers[id].cache in w.store.disk
      && |w.workers[id].sent| + count <= |w.store.disk[w.workers[id].cache]|
    case EndOfFile(id) =>
      id in w.workers && w.workers[id].cache in w.store.disk
          && |w.workers[id].sent| == |w.store.disk[w.workers[id].cache]|
    case Acknowledge(id, _, _) => id in w.workers && w.workers[id].done
    case FailUpload(id, _) => id in w.workers
    case Conflicted(id) => id in w.workers
    case LeaveUpload(id) => id in w.workers
    case Rename(id, path) => id in w.store.files && !PathTaken(w.store.files, path, id)
    case Import(e, _) => true
    case Decide(_) => true
  }

  function Next(w: World, step: Step, scan: Scan): World
    requires Schema(w.store.files) && IsScan(scan) && Can(w, step)
  {
    match step
    case BeginWrite(h, id, _) =>
      w.(store := w.store.(files := Marked(w.store.files, id, Writing)),
         handles := w.handles[h := Handle(id, w.store.files[id].cache.value)])
    case WriteBytes(h, bytes) => w.(store := w.store.(disk := w.store.disk[w.handles[h].cache := bytes]))
    case EndWrite(h, size, now) =>
      var id := w.handles[h].id;
      w.(store := if id in w.store.files
                  then w.store.(files := w.store.files[id := w.store.files[id].(state := Dirty, size := size,
                      modified := now)])
                  else w.store,
         handles := w.handles - {h})
    case Claim(id, seen) =>
      w.(store := w.store.(files := w.store.files[id := Claimed(w.store.files[id])]),
         workers := w.workers[id := Worker(seen, seen.cache.value, [], false)])
    case Send(id, count) =>
      var k := w.workers[id];
      w.(workers := w.workers[id := k.(sent := k.sent + w.store.disk[k.cache][|k.sent|..|k.sent| + count])])
    case EndOfFile(id) => w.(workers := w.workers[id := w.workers[id].(done := true)])
    case Acknowledge(id, up, now) =>
      var k := w.workers[id];
      (match Committed(w.store, id, k.seen.path, up, k.cache, now)
       case None => w.(workers := w.workers - {id})
       case Some(s) => w.(store := s, workers := w.workers - {id}, acked := w.acked[id := k.sent]))
    case FailUpload(id, permanent) =>
      w.(store := w.store.(files := Marked(w.store.files, id, if permanent
          then Error else Dirty)), workers := w.workers - {id})
    case Conflicted(id) =>
      w.(store := if Conflicting(w.store.files, id, w.workers[id].seen)
                  then w.store.(files := Marked(w.store.files, id, Conflict)) else w.store,
         workers := w.workers - {id})
    case LeaveUpload(id) => w.(workers := w.workers - {id})
    case Rename(id, path) => w.(store := w.store.(files := w.store.files[id := w.store.files[id].(path := path)]))
    case Import(e, block) =>
      (match Imported(w.store, e, block, scan) case None => w case Some(s) => w.(store := s))
    case Decide(policy) => w.(store := w.store.(files := T.Decided(w.store.files, policy)))
  }

  // ---- the invariant ----

  ghost predicate NoWriter(w: World, id: string) {
    forall h :: h in w.handles ==> w.handles[h].id != id
  }

  /** A row that counts as synced and has no writer holds the bytes the cloud acknowledged last. */
  ghost predicate SyncedRow(w: World, id: string)
    requires id in w.store.files
  {
    var row := w.store.files[id];
    Clean(row.state) && row.cache.Some? && NoWriter(w, id) ==>
      && row.cache.value in w.store.disk && id in w.acked
      && w.store.disk[row.cache.value] == w.acked[id]
  }

  /** While a claimed row is still uploading the same file with no writer, what was sent is a prefix of it,
      and all of it once the worker met its end. */
  ghost predicate WorkerOk(w: World, id: string, k: Worker) {
    && id in w.store.files && Protected(w.store.files[id].state)
    && (k.cache in w.owner && w.owner[k.cache] == id)
    && (w.store.files[id].state.Uploading? && w.store.files[id].cache == Some(k.cache) && NoWriter(w, id) ==>
          k.cache in w.store.disk && k.sent <= w.store.disk[k.cache] && (k.done ==> k.sent == w.store.disk[k.cache]))
  }

  ghost predicate Owned(w: World) {
    && (forall id :: id in w.store.files && w.store.files[id].cache.Some? ==>
          w.store.files[id].cache.value in w.owner && w.owner[w.store.files[id].cache.value] == id)
    && (forall h :: h in w.handles ==> w.handles[h].cache in w.owner && w.owner[w.handles[h].cache] == w.handles[h].id)
  }

  ghost predicate Inv(w: World) {
    && Schema(w.store.files) && Owned(w)
    && (forall id :: id in w.store.files ==> SyncedRow(w, id))
    && (forall id :: id in w.workers ==> WorkerOk(w, id, w.workers[id]))
  }

  // ---- steps that only touch rows ----

  /** Rows keep their cache or drop it, none becomes clean with a cache, local work stays as it is. */
  predicate RowKept(a: Row, b: Row) {
    && (b.cache.Some? ==> b.cache == a.cache)
    && (Clean(b.state) && b.cache.Some? ==> Clean(a.state))
    && (Protected(a.state) ==> b.state == a.state && b.cache == a.cache)
  }

  ghost predicate RowsKept(before: Files, after: Files) {
    && (forall id :: id in before && id in after ==> RowKept(before[id], after[id]))
    && (forall id :: id in before && Protected(before[id].state) ==> id in after)
    && (forall id :: id in after && id !in before ==> after[id].cache == None)
  }

  lemma RowsKeptKeepInv(w: World, files: Files)
    requires Inv(w) && Schema(files) && RowsKept(w.store.files, files)
    ensures Inv(w.(store := w.store.(files := files)))
  {
    var x := w.(store := w.store.(files := files));
    forall id | id in files ensures SyncedRow(x, id) {
      if id in w.store.files { assert SyncedRow(w, id); }
    }
    forall id | id in x.workers ensures WorkerOk(x, id, x.workers[id]) {
      assert WorkerOk(w, id, w.workers[id]);
    }
  }

  lemma ImportKeepsRows(s: Store, e: Entry, block: bool, scan: Scan)
    requires Schema(s.files) && IsScan(scan) && Imported(s, e, block, scan).Some?
    ensures RowsKept(s.files, Imported(s, e, block, scan).value.files)
  {
    var t := Imported(s, e, block, scan).value;
    if !Skips(s, e) {
      AppliedTouchesOneRow(s, LocalIdFor(s.files, e.remoteId), e, block, scan);
    }
  }

  lemma PolicyKeepsRows(files: Files, policy: T.Policy)
    requires UniquePaths(files)
    ensures RowsKept(files, T.Decided(files, policy))
  {
    T.DecidedRewrites(files, policy);
    match policy
    case Repin => RepinKeepsRows(files);
    case SetPin(id, pinned) => if id in files { SetPinKeepsRows(files, id, pinned); }
    case AllowPins(id) => if id in files { SetPinKeepsRows(files, id, true); }
    case Release(path) => ReleaseKeepsRows(files, path);
  }

  lemma RepinKeepsRows(files: Files)
    requires UniquePaths(files)
    ensures RowsKept(files, Pins.Recomputed(files))
  {
  }

  lemma SetPinKeepsRows(files: Files, id: string, pinned: bool)
    requires id in files
    ensures RowsKept(files, Pins.ExplicitSet(files, id, pinned)) && RowsKept(files, Pins.InheritanceAllowed(files, id))
  {
  }

  lemma ReleaseKeepsRows(files: Files, path: Path)
    ensures RowsKept(files, PathReleased(files, path))
  {
    var policy := Pins.PolicyReleased(files, path);
    assert forall id :: id in files ==> RowKept(files[id], policy[id]);
    assert forall id :: id in files ==> RowKept(policy[id], PathReleased(files, path)[id]);
  }

  lemma ImportKeepsInv(w: World, e: Entry, block: bool, scan: Scan)
    requires Inv(w) && IsScan(scan) && Imported(w.store, e, block, scan).Some?
    ensures Inv(w.(store := Imported(w.store, e, block, scan).value))
  {
    var s := Imported(w.store, e, block, scan).value;
    ImportKeepsRows(w.store, e, block, scan);
    RowsKeptKeepInv(w, s.files);
    assert s.disk == w.store.disk by {
      if !Skips(w.store, e) { AppliedTouchesOneRow(w.store, LocalIdFor(w.store.files, e.remoteId), e, block, scan); }
    }
    SameFilesAndDisk(w.(store := w.store.(files := s.files)), s);
  }

  lemma SameFilesAndDisk(w: World, s: Store)
    requires Inv(w) && s.files == w.store.files && s.disk == w.store.disk
    ensures Inv(w.(store := s))
  {
    var x := w.(store := s);
    forall id | id in s.files ensures SyncedRow(x, id) { assert SyncedRow(w, id); }
    forall id | id in x.workers ensures WorkerOk(x, id, x.workers[id]) { assert WorkerOk(w, id, w.workers[id]); }
  }

  lemma PolicyKeepsInv(w: World, policy: T.Policy)
    requires Inv(w)
    ensures Inv(w.(store := w.store.(files := T.Decided(w.store.files, policy))))
  {
    T.DecidedRewrites(w.store.files, policy);
    SubsetKeepsSchema(w.store.files, T.Decided(w.store.files, policy));
    PolicyKeepsRows(w.store.files, policy);
    RowsKeptKeepInv(w, T.Decided(w.store.files, policy));
  }

  // ---- writers ----

  /** One row changes, with its handles and its worker; everything else is seen to be untouched. */
  lemma OneRowKeepsInv(w: World, x: World, id: string)
    requires Inv(w) && Schema(x.store.files) && Owned(x) && x.owner == w.owner
    requires id in x.store.files ==> SyncedRow(x, id)
    requires forall i :: i in x.store.files && i != id ==> i in w.store.files && x.store.files[i] == w.store.files[i]
    requires forall i :: i in w.store.files && i != id && Protected(w.store.files[i].state) ==> i in x.store.files
    requires forall i :: i != id && NoWriter(x, i) ==> NoWriter(w, i)
    requires forall c :: c in w.store.disk && c in w.owner && w.owner[c] != id ==>
               c in x.store.disk && x.store.disk[c] == w.store.disk[c]
    requires forall i :: i in w.acked && i != id ==> i in x.acked && x.acked[i] == w.acked[i]
    requires forall i :: i in x.workers && i != id ==> i in w.workers && x.workers[i] == w.workers[i]
    requires id in x.workers ==> WorkerOk(x, id, x.workers[id])
    ensures Inv(x)
  {
    forall i | i in x.store.files ensures SyncedRow(x, i) {
      if i != id { assert SyncedRow(w, i); }
    }
    forall i | i in x.workers ensures WorkerOk(x, i, x.workers[i]) {
      if i != id { assert WorkerOk(w, i, w.workers[i]); }
    }
  }

  /** Handles on other rows are the same before and after. */
  ghost predicate OnlyHandlesOf(id: string, before: map<nat, Handle>, after: map<nat, Handle>) {
    && (forall h :: h in before && before[h].id != id ==> h in after && after[h] == before[h])
    && (forall h :: h in after && after[h].id != id ==> h in before && before[h] == after[h])
  }

  /** The row `id` is rewritten, keeping its cache file. */
  lemma RowKeepsInv(w: World, id: string, row: Row, handles: map<nat, Handle>, workers: map<string, Worker>)
    requires Inv(w) && id in w.store.files && row.cache == w.store.files[id].cache
    requires Schema(w.store.files[id := row])
    requires OnlyHandlesOf(id, w.handles, handles)
    requires forall h :: h in handles && handles[h].id == id ==>
               handles[h].cache in w.owner && w.owner[handles[h].cache] == id
    requires workers - {id} == w.workers - {id}
    requires var x := World(w.store.(files := w.store.files[id := row]), handles, workers, w.acked, w.owner);
             SyncedRow(x, id) && (id in workers ==> WorkerOk(x, id, workers[id]))
    ensures Inv(World(w.store.(files := w.store.files[id := row]), handles, workers, w.acked, w.owner))
  {
    var x := World(w.store.(files := w.store.files[id := row]), handles, workers, w.acked, w.owner);
    forall h | h in handles ensures handles[h].cache in w.owner && w.owner[handles[h].cache] == handles[h].id {
      if handles[h].id != id { assert w.handles[h] == handles[h]; }
    }
    forall i | i != id && NoWriter(x, i) ensures NoWriter(w, i) {
      forall g | g in w.handles ensures w.handles[g].id != i {
        assert w.handles[g].id != id ==> handles[g] == w.handles[g];
      }
    }
    forall i | i in workers && i != id ensures i in w.workers && workers[i] == w.workers[i] {
      assert i in workers - {id};
      assert (workers - {id})[i] == (w.workers - {id})[i];
    }
    OneRowKeepsInv(w, x, id);
  }

  lemma BeginWriteKeepsInv(w: World, h: nat, id: string)
    requires Inv(w) && h !in w.handles && id in w.store.files && w.store.files[id].cache.Some?
    ensures Inv(w.(store := w.store.(files := Marked(w.store.files, id, Writing)),
                   handles := w.handles[h := Handle(id, w.store.files[id].cache.value)]))
  {
    var row := w.store.files[id].(state := Writing);
    var handles := w.handles[h := Handle(id, w.store.files[id].cache.value)];
    assert handles[h].id == id;
    if id in w.workers { assert WorkerOk(w, id, w.workers[id]); }
    SameNameKeepsSchema(w.store.files, id, row);
    RowKeepsInv(w, id, row, handles, w.workers);
  }

  lemma WriteBytesKeepsInv(w: World, h: nat, bytes: Bytes)
    requires Inv(w) && h in w.handles
    ensures Inv(w.(store := w.store.(disk := w.store.disk[w.handles[h].cache := bytes])))
  {
    var x := w.(store := w.store.(disk := w.store.disk[w.handles[h].cache := bytes]));
    var id := w.handles[h].id;
    assert !NoWriter(x, id);
    if id in w.workers { assert WorkerOk(w, id, w.workers[id]); }
    OneRowKeepsInv(w, x, id);
  }

  lemma HandleClosedKeepsInv(w: World, h: nat, size: nat, now: int)
    requires Inv(w) && h in w.handles
    ensures var id := w.handles[h].id;
            id in w.store.files ==>
              Inv(w.(store := w.store.(files := w.store.files[id := w.store.files[id].(state := Dirty,
                  size := size, modified := now)]),
                     handles := w.handles - {h}))
  {
    var id := w.handles[h].id;
    if id in w.workers { assert WorkerOk(w, id, w.workers[id]); }
    if id in w.store.files {
      var row := w.store.files[id].(state := Dirty, size := size, modified := now);
      SameNameKeepsSchema(w.store.files, id, row);
      RowKeepsInv(w, id, row, w.handles - {h}, w.workers);
    }
  }

  lemma StrayHandleClosedKeepsInv(w: World, h: nat)
    requires Inv(w) && h in w.handles && w.handles[h].id !in w.store.files
    ensures Inv(w.(handles := w.handles - {h}))
  {
    var id := w.handles[h].id;
    assert id in w.workers ==> WorkerOk(w, id, w.workers[id]);
    var x := w.(handles := w.handles - {h});
    forall i | i != id && NoWriter(x, i) ensures NoWriter(w, i) {
      forall g | g in w.handles ensures w.handles[g].id != i { assert g != h ==> g in x.handles; }
    }
    OneRowKeepsInv(w, x, id);
  }

  lemma EndWriteKeepsInv(w: World, h: nat, size: nat, now: int, scan: Scan)
    requires Inv(w) && IsScan(scan) && Can(w, EndWrite(h, size, now))
    ensures Inv(Next(w, EndWrite(h, size, now), scan))
  {
    if w.handles[h].id in w.store.files {
      HandleClosedKeepsInv(w, h, size, now);
    } else {
      StrayHandleClosedKeepsInv(w, h);
    }
  }

  // ---- workers ----

  /** A claim starts with nothing sent. */
  lemma ClaimKeepsInv(w: World, id: string, seen: Row)
    requires Inv(w) && id !in w.workers && Claimable(w.store, id, seen)
    requires seen.cache.Some? && seen.cache.value in w.store.disk
    ensures Inv(w.(store := w.store.(files := w.store.files[id := Claimed(w.store.files[id])]),
                   workers := w.workers[id := Worker(seen, seen.cache.value, [], false)]))
  {
    var row := Claimed(w.store.files[id]);
    var workers := w.workers[id := Worker(seen, seen.cache.value, [], false)];
    SameNameKeepsSchema(w.store.files, id, row);
    assert workers - {id} == w.workers - {id};
    RowKeepsInv(w, id, row, w.handles, workers);
  }

  /** Reading on, or meeting the end of the file, keeps what was sent a prefix of the file. */
  lemma ReadKeepsInv(w: World, id: string, k: Worker)
    requires Inv(w) && id in w.workers && k == w.workers[id].(sent := k.sent, done := k.done)
    requires k.cache in w.store.disk
    requires w.workers[id].sent <= w.store.disk[k.cache] ==>
               k.sent <= w.store.disk[k.cache] && (k.done ==> k.sent == w.store.disk[k.cache])
    ensures Inv(w.(workers := w.workers[id := k]))
  {
    assert WorkerOk(w, id, w.workers[id]);
    if id in w.store.files { assert SyncedRow(w, id); }
    OneRowKeepsInv(w, w.(workers := w.workers[id := k]), id);
  }

  lemma PieceIsNext(sent: Bytes, file: Bytes, count: nat)
    requires |sent| + count <= |file|
    ensures sent <= file ==> sent + file[|sent|..|sent| + count] <= file
    ensures sent <= file && |sent| == |file| ==> sent == file
  {
  }

  lemma SendKeepsInv(w: World, id: string, count: nat, scan: Scan)
    requires Inv(w) && IsScan(scan) && Can(w, Send(id, count))
    ensures Inv(Next(w, Send(id, count), scan))
  {
    PieceIsNext(w.workers[id].sent, w.store.disk[w.workers[id].cache], count);
    ReadKeepsInv(w, id, WithPiece(w, id, count));
  }

  /** The worker after it has read and sent one more piece. */
  function WithPiece(w: World, id: string, count: nat): Worker
    requires Can(w, Send(id, count))
  {
    var k := w.workers[id];
    k.(sent := k.sent + w.store.disk[k.cache][|k.sent|..|k.sent| + count])
  }

  lemma EndOfFileKeepsInv(w: World, id: string, scan: Scan)
    requires Inv(w) && IsScan(scan) && Can(w, EndOfFile(id))
    ensures Inv(Next(w, EndOfFile(id), scan))
  {
    var k := w.workers[id];
    PieceIsNext(k.sent, w.store.disk[k.cache], 0);
    ReadKeepsInv(w, id, k.(done := true));
  }

  /** The acknowledgement touches one row, and echoes that hold no local work. */
  lemma CommittedRows(s: Store, id: string, requested: Path, up: Entry, cache: CachePath, now: int)
    requires Schema(s.files) && Committed(s, id, requested, up, cache, now).Some?
    ensures var t := Committed(s, id, requested, up, cache, now).value;
            && id in s.files && id in t.files && t.disk == s.disk
            && t.files[id] == Acknowledged(s.files[id], requested, up, cache, now)
            && (forall i :: i in t.files && i != id ==> i in s.files && t.files[i] == s.files[i])
            && (forall i :: i in s.files && Protected(s.files[i].state) ==> i in t.files)
  {
  }

  /** A worker that gives up leaves the rest as it is. */
  lemma ReleaseWorkerKeepsInv(w: World, id: string)
    requires Inv(w) && id in w.workers
    ensures Inv(w.(workers := w.workers - {id}))
  {
    var x := w.(workers := w.workers - {id});
    forall i | i in x.store.files ensures SyncedRow(x, i) { assert SyncedRow(w, i); }
    forall i | i in x.workers ensures WorkerOk(x, i, x.workers[i]) { assert WorkerOk(w, i, w.workers[i]); }
  }

  /** Only the generation that was claimed and never written since becomes clean. */
  lemma AcknowledgedRowIsSynced(w: World, id: string, up: Entry, now: int, x: World)
    requires Inv(w) && id in w.workers && w.workers[id].done
    requires id in w.store.files && id in x.store.files && x.handles == w.handles && x.store.disk == w.store.disk
    requires x.store.files[id] == Acknowledged(w.store.files[id], w.workers[id].seen.path, up, w.workers[id].cache, now)
    requires x.acked == w.acked[id := w.workers[id].sent]
    ensures SyncedRow(x, id)
  {
    var k := w.workers[id];
    assert WorkerOk(w, id, k);
    if Clean(x.store.files[id].state) && NoWriter(x, id) {
      assert NoWriter(w, id);
      assert k.sent == w.store.disk[k.cache];
    }
  }

  lemma CommitKeepsInv(w: World, id: string, up: Entry, now: int, t: Store)
    requires Inv(w) && id in w.workers && w.workers[id].done
    requires Schema(t.files) && id in w.store.files && id in t.files && t.disk == w.store.disk
    requires t.files[id] == Acknowledged(w.store.files[id], w.workers[id].seen.path, up, w.workers[id].cache, now)
    requires forall i :: i in t.files && i != id ==> i in w.store.files && t.files[i] == w.store.files[i]
    requires forall i :: i in w.store.files && Protected(w.store.files[i].state) ==> i in t.files
    ensures Inv(w.(store := t, workers := w.workers - {id}, acked := w.acked[id := w.workers[id].sent]))
  {
    var x := w.(store := t, workers := w.workers - {id}, acked := w.acked[id := w.workers[id].sent]);
    AcknowledgedRowIsSynced(w, id, up, now, x);
    assert WorkerOk(w, id, w.workers[id]);
    OneRowKeepsInv(w, x, id);
  }

  lemma AcknowledgeKeepsInv(w: World, id: string, up: Entry, now: int, scan: Scan)
    requires Inv(w) && IsScan(scan) && Can(w, Acknowledge(id, up, now))
    ensures Inv(Next(w, Acknowledge(id, up, now), scan))
  {
    var k := w.workers[id];
    var t := Committed(w.store, id, k.seen.path, up, k.cache, now);
    if t.Some? {
      CommittedRows(w.store, id, k.seen.path, up, k.cache, now);
      CommitKeepsInv(w, id, up, now, t.value);
    } else {
      ReleaseWorkerKeepsInv(w, id);
    }
  }

  /** A failed upload marks the row whatever happened to it meanwhile, with a state that is not clean. */
  lemma MarkKeepsInv(w: World, id: string, state: FileState)
    requires Inv(w) && id in w.workers && !Clean(state)
    ensures Inv(w.(store := w.store.(files := Marked(w.store.files, id, state)), workers := w.workers - {id}))
  {
    assert WorkerOk(w, id, w.workers[id]);
    var row := w.store.files[id].(state := state);
    SameNameKeepsSchema(w.store.files, id, row);
    assert (w.workers - {id}) - {id} == w.workers - {id};
    RowKeepsInv(w, id, row, w.handles, w.workers - {id});
  }

  lemma FailKeepsInv(w: World, step: Step, scan: Scan)
    requires Inv(w) && IsScan(scan) && Can(w, step) && (step.FailUpload? || step.Conflicted?)
    ensures Inv(Next(w, step, scan))
  {
    if step.FailUpload? {
      MarkKeepsInv(w, step.id, if step.permanent then Error else Dirty);
    } else if Conflicting(w.store.files, step.id, w.workers[step.id].seen) {
      MarkKeepsInv(w, step.id, Conflict);
    } else {
      ReleaseWorkerKeepsInv(w, step.id);
    }
  }

  lemma RenamedKeepsSchema(files: Files, id: string, path: Path)
    requires Schema(files) && id in files && !PathTaken(files, path, id)
    ensures Schema(files[id := files[id].(path := path)])
  {
    var after := files[id := files[id].(path := path)];
    assert forall i :: i in after && i != id ==> after[i] == files[i] && files[i].path != path;
    assert UniqueClouds(after);
  }

  lemma RenameKeepsInv(w: World, id: string, path: Path, scan: Scan)
    requires Inv(w) && IsScan(scan) && Can(w, Rename(id, path))
    ensures Inv(Next(w, Rename(id, path), scan))
  {
    RenamedKeepsSchema(w.store.files, id, path);
    var row := w.store.files[id].(path := path);
    assert SyncedRow(w, id);
    if id in w.workers { assert WorkerOk(w, id, w.workers[id]); }
    RowKeepsInv(w, id, row, w.handles, w.workers);
  }

  lemma StepKeepsInv(w: World, step: Step, scan: Scan)
    requires Inv(w) && IsScan(scan) && Can(w, step)
    ensures Inv(Next(w, step, scan))
  {
    match step
    case BeginWrite(h, id, _) => BeginWriteKeepsInv(w, h, id);
    case WriteBytes(h, bytes) => WriteBytesKeepsInv(w, h, bytes);
    case EndWrite(h, size, now) => EndWriteKeepsInv(w, h, size, now, scan);
    case Claim(id, seen) => ClaimKeepsInv(w, id, seen);
    case Send(id, count) => SendKeepsInv(w, id, count, scan);
    case EndOfFile(id) => EndOfFileKeepsInv(w, id, scan);
    case Acknowledge(id, up, now) => AcknowledgeKeepsInv(w, id, up, now, scan);
    case FailUpload(_, _) => FailKeepsInv(w, step, scan);
    case Conflicted(_) => FailKeepsInv(w, step, scan);
    case LeaveUpload(id) => ReleaseWorkerKeepsInv(w, id);
    case Rename(id, path) => RenameKeepsInv(w, id, path, scan);
    case Import(e, block) =>
      if Imported(w.store, e, block, scan).Some? { ImportKeepsInv(w, e, block, scan); }
    case Decide(policy) => PolicyKeepsInv(w, policy);
  }

  // ---- runs ----

  ghost predicate IsRun(run: seq<World>, steps: seq<Step>, scan: Scan)
    requires IsScan(scan)
  {
    && |run| == |steps| + 1
    && forall k :: 0 <= k < |steps| ==>
         Schema(run[k].store.files) && Can(run[k], steps[k]) && run[k + 1] == Next(run[k], steps[k], scan)
  }

  /** No update is lost: over every run, a row that counts as synced and has no writer holds exactly the
      bytes of the last upload the cloud acknowledged for it. */
  lemma {:induction false} NoLostUpdate(run: seq<World>, steps: seq<Step>, scan: Scan, k: nat)
    requires IsScan(scan) && IsRun(run, steps, scan) && Inv(run[0]) && k < |run|
    ensures Inv(run[k])
    ensures forall id :: id in run[k].store.files ==> SyncedRow(run[k], id)
  {
    if k > 0 {
      NoLostUpdate(run, steps, scan, k - 1);
      StepKeepsInv(run[k - 1], steps[k - 1], scan);
    }
  }

  /** The acknowledged row turns clean exactly when it still is the uploading generation. */
  lemma OnlyCurrentTurnsClean(row: Row, requested: Path, up: Entry, cache: CachePath, now: int)
    requires Protected(row.state)
    ensures Clean(Acknowledged(row, requested, up, cache, now).state) <==> IsCurrentGeneration(row, requested, cache)
  {
  }

  /** A stale acknowledgement never marks newer local bytes as synced: the row turns clean exactly when it is
      still the uploading generation, and then the bytes on disk are the bytes the cloud received. */
  lemma StaleAcknowledgementStaysPending(w: World, id: string, up: Entry, now: int, scan: Scan)
    requires Inv(w) && IsScan(scan) && Can(w, Acknowledge(id, up, now))
    requires Committed(w.store, id, w.workers[id].seen.path, up, w.workers[id].cache, now).Some?
    ensures var x := Next(w, Acknowledge(id, up, now), scan);
            var k := w.workers[id];
            && (Clean(x.store.files[id].state) <==> IsCurrentGeneration(w.store.files[id], k.seen.path, k.cache))
            && (Clean(x.store.files[id].state) && NoWriter(w, id) ==>
                k.cache in w.store.disk && w.store.disk[k.cache] == k.sent)
  {
    var k := w.workers[id];
    assert WorkerOk(w, id, k);
    CommittedRows(w.store, id, k.seen.path, up, k.cache, now);
    OnlyCurrentTurnsClean(w.store.files[id], k.seen.path, up, k.cache, now);
  }
}
