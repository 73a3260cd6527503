// The worker that uploads one dirty file, between the steps of all others.

module RecoveryWorker {
  import opened Options
  import opened Paths
  import opened Rows
  import opened Metadata
  import opened Renames
  import opened Cache
  import opened Recovery
  import Completion
  import Uploads
  import Writers

  /** The step belongs to the worker that holds the item lock of `id`. */
  predicate Mine(step: Step, id: string) {
    match step
    case Claim(i, _) => i == id
    case Send(i, _) => i == id
    case EndOfFile(i) => i == id
    case Acknowledge(i, _, _) => i == id
    case FailUpload(i, _) => i == id
    case Conflicted(i) => i == id
    case LeaveUpload(i) => i == id
    case _ => false
  }

  /** The worker of `id` is the same, and no cache file is gone. */
  ghost predicate SameWorker(w: World, x: World, id: string) {
    && (if id in w.workers then id in x.workers && x.workers[id] == w.workers[id] else id !in x.workers)
    && w.store.disk.Keys <= x.store.disk.Keys
  }

  lemma CommitKeepsDisk(w: World, id: string, up: Entry, now: int)
    requires Schema(w.store.files) && id in w.workers
    ensures var k := w.workers[id];
            var t := Committed(w.store, id, k.seen.path, up, k.cache, now);
            t.Some? ==> t.value.disk == w.store.disk
  {
  }

  lemma OthersKeepWorkers(w: World, step: Step, scan: Scan, id: string)
    requires Schema(w.store.files) && IsScan(scan) && Can(w, step) && !Mine(step, id)
    ensures var x := Next(w, step, scan);
            if id in w.workers then id in x.workers && x.workers[id] == w.workers[id] else id !in x.workers
  {
  }

  lemma OthersKeepDisk(w: World, step: Step, scan: Scan)
    requires Inv(w) && IsScan(scan) && Can(w, step)
    ensures w.store.disk.Keys <= Next(w, step, scan).store.disk.Keys
  {
    if step.Acknowledge? {
      CommitKeepsDisk(w, step.id, step.up, step.now);
    } else if step.Import? {
      ImportKeepsDisk(w.store, step.e, step.block, scan);
    } else {
      PlainStepsKeepDisk(w, step, scan);
    }
  }

  lemma PlainStepsKeepDisk(w: World, step: Step, scan: Scan)
    requires Schema(w.store.files) && IsScan(scan) && Can(w, step) && !step.Acknowledge? && !step.Import?
    ensures w.store.disk.Keys <= Next(w, step, scan).store.disk.Keys
  {
  }

  lemma ImportKeepsDisk(s: Store, e: Entry, block: bool, scan: Scan)
    requires Schema(s.files) && IsScan(scan)
    ensures Imported(s, e, block, scan).Some? ==> Imported(s, e, block, scan).value.disk == s.disk
  {
    if Imported(s, e, block, scan).Some? && !Skips(s, e) {
      AppliedTouchesOneRow(s, LocalIdFor(s.files, e.remoteId), e, block, scan);
    }
  }

  lemma OthersKeepWorker(w: World, step: Step, scan: Scan, id: string)
    requires Inv(w) && IsScan(scan) && Can(w, step) && !Mine(step, id)
    ensures SameWorker(w, Next(w, step, scan), id)
  {
    OthersKeepWorkers(w, step, scan, id);
    OthersKeepDisk(w, step, scan);
  }

  /** The row is there, and no other row but an early echo has the cloud id it gets. */
  ghost predicate Commits(w: World, id: string, up: Entry)
    requires id in w.workers
  {
    && id in w.store.files
    && var k := w.workers[id];
       forall i :: i in w.store.files && i != id && !Uploads.EarlyEcho(w.store, i, id, k.seen.path, up) ==>
         w.store.files[i].cloudId != Some(Uploads.OwnedAs(w.store.files[id], k.seen.path, up, k.cache))
  }

  /** The claimed row is the current generation, and the acknowledgement of `up` goes through. */
  ghost predicate Accepts(w: World, id: string, up: Entry)
    requires id in w.workers
  {
    Commits(w, id, up) && Uploads.Current(w.store.files[id], w.workers[id].seen.path, w.workers[id].cache)
  }

  lemma ClaimAccepts(w: World, x: World, id: string, up: Entry, scan: Scan)
    requires Schema(w.store.files) && IsScan(scan) && Completion.Uploadable(w.store.files, id, up)
    requires Can(w, Claim(id, w.store.files[id])) && x == Next(w, Claim(id, w.store.files[id]), scan)
    ensures Accepts(x, id, up)
  {
  }

  /** The row after a failed upload: as it is when it was deleted, in conflict when the cloud has another version and
      the row still is what was claimed, and otherwise queued again or given up. */
  function Failed(before: World, id: string, conflict: bool, unsupported: bool): Row
    requires id in before.workers && id in before.store.files
  {
    var row, seen := before.store.files[id], before.workers[id].seen;
    if exists d :: d in before.store.deletes && before.store.deletes[d].localId == Some(id) then row
    else if !conflict then row.(state := if unsupported then Error else Dirty)
    else if row.state == Uploading && row.path == seen.path && row.cache == seen.cache && row.cloudId == seen.cloudId
            && row.size == seen.size && row.modified == seen.modified && row.etag == seen.etag
      then row.(state := Conflict)
    else row
  }

  /** The step of a worker whose upload has failed. */
  function FailureOf(w: World, id: string, conflict: bool, unsupported: bool): Step {
    if exists d :: d in w.store.deletes && w.store.deletes[d].localId == Some(id) then LeaveUpload(id)
    else if conflict then Conflicted(id) else FailUpload(id, unsupported)
  }

  lemma FailsExactly(w: World, id: string, conflict: bool, unsupported: bool, scan: Scan)
    requires Inv(w) && IsScan(scan) && id in w.workers
    ensures var step := FailureOf(w, id, conflict, unsupported);
            && Can(w, step) && id in w.store.files
            && Next(w, step, scan) ==
                 w.(store := w.store.(files := w.store.files[id := Failed(w, id, conflict, unsupported)]),
                    workers := w.workers - {id})
  {
    assert WorkerOk(w, id, w.workers[id]);
    var step := FailureOf(w, id, conflict, unsupported);
    if step.LeaveUpload? {
      assert w.store.files[id := w.store.files[id]] == w.store.files;
    } else if step.Conflicted? {
      ConflictFails(w, id, unsupported, scan);
    }
  }

  lemma ConflictFails(w: World, id: string, unsupported: bool, scan: Scan)
    requires Schema(w.store.files) && IsScan(scan) && id in w.workers && id in w.store.files
    requires FailureOf(w, id, true, unsupported) == Conflicted(id)
    ensures Next(w, Conflicted(id), scan) ==
              w.(store := w.store.(files := w.store.files[id := Failed(w, id, true, unsupported)]),
                 workers := w.workers - {id})
  {
    assert w.store.files[id := w.store.files[id]] == w.store.files;
  }

  lemma SendsAll(w: World, id: string, scan: Scan)
    requires Schema(w.store.files) && IsScan(scan) && id in w.workers && !w.workers[id].done
    requires w.workers[id].cache in w.store.disk && w.workers[id].sent == []
    ensures var k := w.workers[id];
            var all := w.store.disk[k.cache];
            && Can(w, Send(id, |all|))
            && Next(w, Send(id, |all|), scan) == w.(workers := w.workers[id := k.(sent := all)])
  {
    var all := w.store.disk[w.workers[id].cache];
    assert [] + all[0..|all|] == all;
  }

  /** What the threads of the process share. */
  class Shared {
    var w: World
    const scan: Scan
    /** Nobody else acts, the cloud has nothing at the path, and the connection takes what is sent. */
    const calm: bool

    ghost predicate Valid()
      reads this
    {
      IsScan(scan) && Inv(w)
    }

    constructor (scan: Scan, w: World, calm: bool)
      requires IsScan(scan) && Inv(w)
      ensures Valid() && this.w == w && this.calm == calm
    {
      this.scan, this.w, this.calm := scan, w, calm;
    }

    /** Any number of steps of writers, of imports and pins, and of other workers. */
    method Others(id: string)
      requires Valid()
      modifies this`w
      ensures Valid() && SameWorker(old(w), w, id) && (calm ==> w == old(w))
    {
      var count: nat := *;
      var n: nat := if 0 <= count && !calm then count else 0;
      for i := 0 to n
        invariant Valid() && SameWorker(old(w), w, id) && (calm ==> w == old(w))
      {
        var step: Step := *;
        if Can(w, step) && !Mine(step, id) {
          Recovery.StepKeepsInv(w, step, scan);
          OthersKeepWorker(w, step, scan, id);
          w := Next(w, step, scan);
        }
      }
    }

    method Take(step: Step)
      requires Valid() && Can(w, step)
      modifies this`w
      ensures Valid() && w == Next(old(w), step, scan)
    {
      Recovery.StepKeepsInv(w, step, scan);
      w := Next(w, step, scan);
    }

    /** Nobody interferes, and the row is dirty and free to be uploaded. */
    ghost predicate Undisturbed(id: string)
      reads this
    {
      && calm && Writers.Ready(w, id)
      && forall d :: d in w.store.deletes ==> d != id && w.store.deletes[d].cloudId != Some(id)
    }

    /** The row is there, nothing is pending for it or above it, and its file exists. */
    method Inspect(id: string, record: Row) returns (ok: bool)
      requires Valid() && id !in w.workers
      modifies this`w
      ensures Valid() && id !in w.workers && (calm ==> w == old(w))
      ensures ok ==> record.cache.Some? && record.cache.value in w.store.disk && record.state != Conflict
      ensures old(Undisturbed(id)) && record == old(w).store.files[id] ==> ok
      ensures calm && ok ==> forall d :: d in w.store.deletes ==> d != id && w.store.deletes[d].cloudId != Some(id)
    {
      Others(id);
      if id !in w.store.files {
        return false;
      }
      Others(id);
      if IsPendingDelete(w.store, id, record.path) {
        return false;
      }
      Others(id);
      if HasPendingMetadataAtOrAbove(w.store, record.path) {
        return false;
      }
      if record.cache.None? || record.cache.value !in w.store.disk || record.state == Conflict {
        return false;
      }
      return true;
    }

    /** The checks before the claim. A copy of a conflicting file is made elsewhere. */
    method MayClaim(id: string, record: Row) returns (ok: bool)
      requires Valid() && id !in w.workers
      modifies this`w
      ensures Valid() && id !in w.workers
      ensures ok ==> Can(w, Claim(id, record))
      ensures calm ==> w == old(w)
      ensures old(Undisturbed(id)) && record == old(w).store.files[id] ==> ok
      ensures calm && ok ==> forall d :: d in w.store.deletes ==> d != id && w.store.deletes[d].cloudId != Some(id)
    {
      ok := Inspect(id, record);
      if !ok {
        return;
      }
      if record.cloudId.None? {
        var found: Option<string> := *;
        var atPath := if calm then None else found;
        Others(id);
        if atPath.Some? && OwnedElsewhere(w.store, id, atPath.value) {
          return false;
        }
      }
      Others(id);
      ok := Claimable(w.store, id, record);
    }

    /** `commit_uploaded`; it fails when the row is gone or its new cloud id is taken. */
    method Commit(id: string, up: Entry) returns (ok: bool)
      requires Valid() && id in w.workers && w.workers[id].done
      modifies this`w
      ensures Valid() && id !in w.workers
      ensures ok ==> id in w.acked && w.acked[id] == old(w.workers[id].sent)
      ensures ok <==> Commits(old(w), id, up)
      ensures ok ==> w.store.disk == old(w).store.disk && id in w.store.files
      ensures ok && old(Uploads.Current(w.store.files[id], w.workers[id].seen.path, w.workers[id].cache)) ==>
        w.store.files[id].state in {Cached, Pinned} && w.store.files[id].cache == Some(old(w).workers[id].cache)
    {
      var now: int := *;
      var k := w.workers[id];
      Uploads.CommitFailsExactly(w.store, id, k.seen.path, up, k.cache, now);
      if Committed(w.store, id, k.seen.path, up, k.cache, now).Some? {
        Uploads.CommitWritesExactly(w.store, id, k.seen.path, up, k.cache, now);
      }
      ok := Committed(w.store, id, k.seen.path, up, k.cache, now).Some?;
      Take(Acknowledge(id, up, now));
    }

    /** After a failed upload: the row was deleted, or is in conflict, or is queued again. */
    method Fail(id: string, conflict: bool, unsupported: bool)
      requires Valid() && id in w.workers
      modifies this`w
      ensures Valid() && id in old(w).store.files
      ensures w == old(w).(store := old(w).store.(files := old(w).store.files[
                             id := Failed(old(w), id, conflict, unsupported)]),
                           workers := old(w).workers - {id})
    {
      FailsExactly(w, id, conflict, unsupported, scan);
      if exists d :: d in w.store.deletes && w.store.deletes[d].localId == Some(id) {
        Take(LeaveUpload(id));
        return;
      }
      Take(if conflict then Conflicted(id) else FailUpload(id, unsupported));
    }

    method SendAll(id: string)
      requires Valid() && id in w.workers && !w.workers[id].done && w.workers[id].cache in w.store.disk
      requires w.workers[id].sent == []
      modifies this`w
      ensures Valid() && id in w.workers && w.store == old(w).store
      ensures w.workers[id] == old(w.workers[id].(sent := w.store.disk[w.workers[id].cache]))
    {
      SendsAll(w, id, scan);
      Take(Send(id, |w.store.disk[w.workers[id].cache]|));
    }

    method SendPieces(id: string)
      requires Valid() && id in w.workers && !w.workers[id].done && w.workers[id].cache in w.store.disk
      modifies this`w
      ensures Valid() && id in w.workers && w.workers[id].cache in w.store.disk
      ensures w.workers[id] == old(w.workers[id]).(sent := w.workers[id].sent)
    {
      var limit: nat := *;
      for i := 0 to if 0 <= limit then limit else 0
        invariant Valid() && id in w.workers && !w.workers[id].done && w.workers[id].cache in w.store.disk
        invariant w.workers[id] == old(w.workers[id]).(sent := w.workers[id].sent)
      {
        Others(id);
        var count: nat := *;
        if Can(w, Send(id, count)) {
          Take(Send(id, count));
        }
      }
    }

    /** The upload reads and sends the file piece by piece, and may fail at any of them. */
    method Upload(id: string) returns (ok: bool)
      requires Valid() && id in w.workers && !w.workers[id].done && w.workers[id].cache in w.store.disk
      modifies this`w
      ensures Valid() && id in w.workers && (ok ==> w.workers[id].done)
      ensures w.workers[id] == old(w.workers[id]).(sent := w.workers[id].sent, done := w.workers[id].done)
      ensures calm && old(w.workers[id]).sent == [] ==>
        ok && w.store == old(w).store && w.workers[id].sent == w.store.disk[w.workers[id].cache]
    {
      if calm && w.workers[id].sent == [] {
        SendAll(id);
      } else {
        SendPieces(id);
      }
      Others(id);
      if !Can(w, EndOfFile(id)) {
        return false;
      }
      Take(EndOfFile(id));
      var lost := *;
      ok := calm || !lost;
    }
  }

  predicate IsPendingDelete(s: Store, id: string, path: Path) {
    || id in s.deletes
    || (exists d :: d in s.deletes &&
          (s.deletes[d].cloudId == Some(id) || s.deletes[d].path == path
           || s.deletes[d].uploadPath == Some(path) || s.deletes[d].uploadedPath == Some(path)))
  }

  predicate HasPendingMetadataAtOrAbove(s: Store, path: Path) {
    exists op :: op in s.operations && op in s.files && (path == s.files[op].path || Below(s.files[op].path, path))
  }

  /** The item at the requested path belongs to another row, or is about to be deleted. */
  predicate OwnedElsewhere(s: Store, id: string, cloud: string) {
    || (exists i :: i in s.files && i != id && s.files[i].cloudId == Some(cloud))
    || (exists d :: d in s.deletes && s.deletes[d].cloudId == Some(cloud))
  }

  /** The row is synced only if its file holds these bytes, or a writer is at work. */
  ghost predicate SyncedWith(w: World, id: string, bytes: Bytes) {
    id in w.store.files && NoWriter(w, id) ==>
      var row := w.store.files[id];
      Clean(row.state) && row.cache.Some? ==> row.cache.value in w.store.disk && w.store.disk[row.cache.value] == bytes
  }

  lemma AckedIsSynced(w: World, id: string)
    requires Inv(w) && id in w.acked
    ensures SyncedWith(w, id, w.acked[id])
  {
    if id in w.store.files {
      assert SyncedRow(w, id);
    }
  }

  /** After the claim: the upload, and its acknowledgement or its failure. */
  method UploadClaimed(shared: Shared, id: string, up: Entry) returns (uploaded: Option<Bytes>)
    requires shared.Valid() && id in shared.w.workers
    requires shared.w.workers[id].sent == [] && !shared.w.workers[id].done
    requires shared.w.workers[id].cache in shared.w.store.disk
    modifies shared`w
    ensures shared.Valid() && id !in shared.w.workers
    ensures uploaded.Some? ==> id in shared.w.acked && shared.w.acked[id] == uploaded.value
    ensures uploaded.Some? ==> SyncedWith(shared.w, id, uploaded.value)
    ensures shared.calm && Accepts(old(shared.w), id, up) ==>
      && uploaded == Some(old(shared.w.store.disk[shared.w.workers[id].cache]))
      && id in shared.w.store.files && shared.w.store.files[id].state in {Cached, Pinned}
      && shared.w.store.files[id].cache == Some(old(shared.w.workers[id].cache))
  {
    var ok := shared.Upload(id);
    shared.Others(id);
    if !ok {
      var conflict, unsupported := *, *;
      shared.Fail(id, conflict, unsupported);
      return None;
    }
    var sent := shared.w.workers[id].sent;
    ok := shared.Commit(id, up);
    if !ok {
      return None;
    }
    AckedIsSynced(shared.w, id);
    return Some(sent);
  }

  /** `recover_dirty_record`, with the item lock of `id` held. A result means that the cloud acknowledged these
      bytes; the row counts as synced only if its file holds exactly them, or a writer is at work. When nobody
      interferes, a dirty row is uploaded and clean afterwards. `up` is the item that the cloud answers with. */
  method RecoverDirtyRecord(shared: Shared, id: string, record: Row, up: Entry) returns (uploaded: Option<Bytes>)
    requires shared.Valid() && id !in shared.w.workers
    modifies shared`w
    ensures shared.Valid() && id !in shared.w.workers
    ensures uploaded.Some? ==> id in shared.w.acked && shared.w.acked[id] == uploaded.value
    ensures uploaded.Some? ==> SyncedWith(shared.w, id, uploaded.value)
    ensures var s := old(shared.w).store;
            old(shared.Undisturbed(id)) && record == s.files[id] && Completion.Uploadable(s.files, id, up) ==>
              && uploaded == Some(s.disk[record.cache.value])
              && id in shared.w.store.files && shared.w.store.files[id].state in {Cached, Pinned}
              && shared.w.store.files[id].cache == record.cache
  {
    var ok := shared.MayClaim(id, record);
    if !ok {
      return None;
    }
    ghost var before := shared.w;
    shared.Take(Claim(id, record));
    if id in before.store.files && record == before.store.files[id]
       && Completion.Uploadable(before.store.files, id, up) {
      ClaimAccepts(before, shared.w, id, up, shared.scan);
    }
    uploaded := UploadClaimed(shared, id, up);
  }
}
