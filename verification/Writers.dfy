// When the writer condition of `Recovery.NoLostUpdate` can be dropped, and what happens when it cannot.

module Writers {
  import opened Options
  import opened Paths
  import opened Rows
  import opened Metadata
  import opened Renames
  import opened Cache
  import opened Recovery
  import T = Transactions

  // ---- writers that hold their rows ----

  /** Every row with an open handle is in state writing. */
  ghost predicate WritersHold(w: World) {
    forall h :: h in w.handles ==> w.handles[h].id in w.store.files && w.store.files[w.handles[h].id].state == Writing
  }

  /** No failed upload resets a row with an open handle, and no handle is closed while the row has another. */
  ghost predicate Careful(w: World, step: Step) {
    match step
    case FailUpload(id, _) => NoWriter(w, id)
    case EndWrite(h, _, _) => forall g :: g in w.handles && g != h && h in w.handles ==>
        w.handles[g].id != w.handles[h].id
    case _ => true
  }

  lemma KeptRowsHold(w: World, files: Files)
    requires WritersHold(w) && RowsKept(w.store.files, files)
    ensures WritersHold(w.(store := w.store.(files := files)))
  {
  }

  lemma OneRowHolds(w: World, id: string, row: Row)
    requires WritersHold(w) && id in w.store.files
    ensures WritersHold(w.(store := w.store.(files := w.store.files[id := row])))
            <==> row.state == Writing || NoWriter(w, id)
  {
  }

  lemma AcknowledgedHolds(w: World, id: string, up: Entry, now: int)
    requires Inv(w) && WritersHold(w) && id in w.workers
    requires Committed(w.store, id, w.workers[id].seen.path, up, w.workers[id].cache, now).Some?
    ensures WritersHold(w.(store := Committed(w.store, id, w.workers[id].seen.path, up, w.workers[id].cache,
        now).value))
  {
    var k := w.workers[id];
    CommittedRows(w.store, id, k.seen.path, up, k.cache, now);
  }

  lemma EndWriteHolds(w: World, h: nat, row: Row)
    requires WritersHold(w) && h in w.handles && row.state == Dirty
    ensures var id := w.handles[h].id;
            WritersHold(w.(store := w.store.(files := w.store.files[id := row]), handles := w.handles - {h}))
            <==> forall g :: g in w.handles && g != h ==> w.handles[g].id != id
  {
    var id := w.handles[h].id;
    var x := w.(store := w.store.(files := w.store.files[id := row]), handles := w.handles - {h});
    forall g | g in w.handles && g != h ensures g in x.handles && x.handles[g] == w.handles[g] {
    }
  }

  lemma MarkedHolds(w: World, id: string, state: FileState)
    requires WritersHold(w) && id in w.store.files && state != Writing
    ensures WritersHold(w.(store := w.store.(files := Marked(w.store.files, id, state)), workers := w.workers - {id}))
            <==> NoWriter(w, id)
  {
    OneRowHolds(w, id, w.store.files[id].(state := state));
  }

  lemma FailUploadHoldsExactly(w: World, id: string, permanent: bool, scan: Scan)
    requires Inv(w) && IsScan(scan) && Can(w, FailUpload(id, permanent)) && WritersHold(w)
    ensures WritersHold(Next(w, FailUpload(id, permanent), scan)) <==> NoWriter(w, id)
  {
    assert WorkerOk(w, id, w.workers[id]);
    MarkedHolds(w, id, if permanent then Error else Dirty);
  }

  lemma ConflictedHolds(w: World, id: string, scan: Scan)
    requires Inv(w) && IsScan(scan) && Can(w, Conflicted(id)) && WritersHold(w)
    ensures WritersHold(Next(w, Conflicted(id), scan))
  {
    if Conflicting(w.store.files, id, w.workers[id].seen) {
      MarkedHolds(w, id, Conflict);
    }
  }

  lemma TablesHold(w: World, step: Step, scan: Scan)
    requires Inv(w) && IsScan(scan) && Can(w, step) && WritersHold(w) && (step.Import? || step.Decide?)
    ensures WritersHold(Next(w, step, scan))
  {
    match step
    case Import(e, block) =>
      if Imported(w.store, e, block, scan).Some? {
        ImportKeepsRows(w.store, e, block, scan);
        KeptRowsHold(w, Imported(w.store, e, block, scan).value.files);
      }
    case Decide(policy) =>
      PolicyKeepsRows(w.store.files, policy);
      KeptRowsHold(w, T.Decided(w.store.files, policy));
  }

  lemma AcknowledgeHolds(w: World, id: string, up: Entry, now: int, scan: Scan)
    requires Inv(w) && IsScan(scan) && Can(w, Acknowledge(id, up, now)) && WritersHold(w)
    ensures WritersHold(Next(w, Acknowledge(id, up, now), scan))
  {
    var k := w.workers[id];
    if Committed(w.store, id, k.seen.path, up, k.cache, now).Some? {
      AcknowledgedHolds(w, id, up, now);
    }
  }

  lemma EndWriteHoldsExactly(w: World, h: nat, size: nat, now: int, scan: Scan)
    requires Inv(w) && IsScan(scan) && Can(w, EndWrite(h, size, now)) && WritersHold(w)
    ensures WritersHold(Next(w, EndWrite(h, size, now), scan)) <==> Careful(w, EndWrite(h, size, now))
  {
    EndWriteHolds(w, h, w.store.files[w.handles[h].id].(state := Dirty, size := size, modified := now));
  }

  lemma RowStepHolds(w: World, step: Step, scan: Scan)
    requires Inv(w) && IsScan(scan) && Can(w, step) && WritersHold(w) && (step.Claim? || step.Rename?)
    ensures WritersHold(Next(w, step, scan))
  {
    var id := step.id;
    OneRowHolds(w, id, if step.Claim? then Claimed(w.store.files[id]) else w.store.files[id].(path := step.path));
  }

  lemma OthersHold(w: World, step: Step, scan: Scan)
    requires Inv(w) && IsScan(scan) && Can(w, step) && WritersHold(w)
    requires step.BeginWrite? || step.WriteBytes? || step.Send? || step.EndOfFile? || step.LeaveUpload?
    ensures WritersHold(Next(w, step, scan))
  {
  }

  /** A step lets a writer lose its row exactly when it is not careful. */
  lemma WritersHoldExactly(w: World, step: Step, scan: Scan)
    requires Inv(w) && IsScan(scan) && Can(w, step) && WritersHold(w)
    ensures WritersHold(Next(w, step, scan)) <==> Careful(w, step)
  {
    if step.EndWrite? {
      EndWriteHoldsExactly(w, step.h, step.size, step.now, scan);
    } else if step.Acknowledge? {
      AcknowledgeHolds(w, step.id, step.up, step.now, scan);
    } else if step.FailUpload? {
      FailUploadHoldsExactly(w, step.id, step.permanent, scan);
    } else if step.Conflicted? {
      ConflictedHolds(w, step.id, scan);
    } else if step.Import? || step.Decide? {
      TablesHold(w, step, scan);
    } else if step.Claim? || step.Rename? {
      RowStepHolds(w, step, scan);
    } else {
      OthersHold(w, step, scan);
    }
  }

  /** The row holds the bytes the cloud acknowledged last, whoever has it open. */
  ghost predicate Synced(w: World, id: string) {
    id in w.store.files && Clean(w.store.files[id].state) && w.store.files[id].cache.Some? ==>
      && w.store.files[id].cache.value in w.store.disk && id in w.acked
      && w.store.disk[w.store.files[id].cache.value] == w.acked[id]
  }

  lemma HeldRowsAreSynced(w: World, id: string)
    requires Inv(w) && WritersHold(w)
    ensures Synced(w, id)
  {
    if id in w.store.files && Clean(w.store.files[id].state) {
      assert SyncedRow(w, id) && NoWriter(w, id);
    }
  }

  /** Over careful runs no update is lost, with no condition on writers. */
  lemma {:induction false} NoLostUpdateWithCare(run: seq<World>, steps: seq<Step>, scan: Scan, k: nat)
    requires IsScan(scan) && IsRun(run, steps, scan) && Inv(run[0]) && WritersHold(run[0]) && k < |run|
    requires forall i :: 0 <= i < |steps| ==> Careful(run[i], steps[i])
    ensures WritersHold(run[k]) && forall id :: Synced(run[k], id)
  {
    NoLostUpdate(run, steps, scan, k);
    if k > 0 {
      NoLostUpdateWithCare(run, steps, scan, k - 1);
      NoLostUpdate(run, steps, scan, k - 1);
      assert Careful(run[k - 1], steps[k - 1]);
      assert Can(run[k - 1], steps[k - 1]) && run[k] == Next(run[k - 1], steps[k - 1], scan);
      WritersHoldExactly(run[k - 1], steps[k - 1], scan);
    }
    assert Inv(run[k]) && WritersHold(run[k]);
    forall id ensures Synced(run[k], id) {
      HeldRowsAreSynced(run[k], id);
    }
  }

  /** A synced row keeps the acknowledged bytes under every next write if and only if no handle is open on its file. */
  lemma NextWriteKeepsBytes(w: World, id: string, scan: Scan)
    requires Inv(w) && IsScan(scan) && id in w.store.files
    requires Clean(w.store.files[id].state) && w.store.files[id].cache.Some?
    requires Synced(w, id)
    ensures (forall h, bytes :: Can(w, WriteBytes(h, bytes)) ==> Synced(Next(w, WriteBytes(h, bytes), scan), id))
            <==> forall h :: h in w.handles ==> w.handles[h].cache != w.store.files[id].cache.value
  {
    forall h | h in w.handles && w.handles[h].cache == w.store.files[id].cache.value
      ensures Can(w, WriteBytes(h, w.acked[id] + [0])) && !Synced(Next(w, WriteBytes(h, w.acked[id] + [0]), scan), id) {
      assert |w.acked[id] + [0]| == |w.acked[id]| + 1;
    }
  }

  // ---- a writer that has lost its row ----

  /** One more step, to a world already known. */
  lemma RunGrows(run: seq<World>, steps: seq<Step>, step: Step, x: World, scan: Scan)
    requires IsScan(scan) && IsRun(run, steps, scan) && Leads(run[|steps|], step, x, scan)
    ensures IsRun(run + [x], steps + [step], scan)
  {
    var longer, more := run + [x], steps + [step];
    forall k | 0 <= k < |more| ensures Leads(longer[k], more[k], longer[k + 1], scan) {
      if k < |steps| {
        assert longer[k] == run[k] && more[k] == steps[k] && longer[k + 1] == run[k + 1];
      }
    }
  }

  ghost predicate Leads(w: World, step: Step, x: World, scan: Scan)
    requires IsScan(scan)
  {
    Schema(w.store.files) && Can(w, step) && x == Next(w, step, scan)
  }

  /** A dirty row, or one whose upload was interrupted, that may be uploaded. */
  ghost predicate Ready(w: World, id: string) {
    && id in w.store.files && id !in w.workers
    && var row := w.store.files[id];
       && (row.state.Dirty? || row.state.Uploading?) && row.cache.Some? && row.cache.value in w.store.disk
       && !StandsInTheWay(w.store, row.path)
  }

  /** Handle h is open on the file of such a row. */
  ghost predicate Exposed(w: World, id: string, h: nat) {
    Ready(w, id) && h in w.handles && w.store.files[id].cache == Some(w.handles[h].cache)
  }

  lemma InTheWayExactly(s: Store, path: Path)
    ensures ClaimBlocked(s, path) <==> StandsInTheWay(s, path)
  {
  }

  /** The row is uploading for a worker that has sent `sent`. */
  ghost function Uploading(w: World, id: string, sent: Bytes, done: bool): World
    requires id in w.store.files && w.store.files[id].cache.Some?
  {
    var row := w.store.files[id];
    w.(store := w.store.(files := w.store.files[id := Claimed(row)]),
       workers := w.workers[id := Worker(row, row.cache.value, sent, done)])
  }

  lemma ClaimLeads(w: World, id: string, scan: Scan)
    requires IsScan(scan) && Schema(w.store.files) && Ready(w, id)
    ensures Leads(w, Claim(id, w.store.files[id]), Uploading(w, id, [], false), scan)
  {
    InTheWayExactly(w.store, w.store.files[id].path);
  }

  lemma SendLeads(w: World, id: string, scan: Scan)
    requires IsScan(scan) && Schema(w.store.files) && Ready(w, id)
    ensures var all := w.store.disk[w.store.files[id].cache.value];
            Leads(Uploading(w, id, [], false), Send(id, |all|), Uploading(w, id, all, false), scan)
  {
    SameNameKeepsSchema(w.store.files, id, Claimed(w.store.files[id]));
    var all := w.store.disk[w.store.files[id].cache.value];
    assert [] + all[0..|all|] == all;
    var x, y := Next(Uploading(w, id, [], false), Send(id, |all|), scan), Uploading(w, id, all, false);
    assert x.workers[id].sent == all;
    assert x.workers == y.workers;
  }

  lemma EndLeads(w: World, id: string, scan: Scan)
    requires IsScan(scan) && Schema(w.store.files) && Ready(w, id)
    ensures var all := w.store.disk[w.store.files[id].cache.value];
            Leads(Uploading(w, id, all, false), EndOfFile(id), Uploading(w, id, all, true), scan)
  {
    SameNameKeepsSchema(w.store.files, id, Claimed(w.store.files[id]));
    var all := w.store.disk[w.store.files[id].cache.value];
    assert Next(Uploading(w, id, all, false), EndOfFile(id), scan).workers == Uploading(w, id, all, true).workers;
  }

  /** The worker claims the row and reads its whole file. */
  lemma ReadRun(w: World, id: string, scan: Scan) returns (run: seq<World>, steps: seq<Step>)
    requires IsScan(scan) && Schema(w.store.files) && Ready(w, id)
    ensures var all := w.store.disk[w.store.files[id].cache.value];
            && IsRun(run, steps, scan) && run[0] == w && run[|steps|] == Uploading(w, id, all, true)
            && steps == [Claim(id, w.store.files[id]), Send(id, |all|), EndOfFile(id)]
  {
    var all := w.store.disk[w.store.files[id].cache.value];
    var none, some, read := Uploading(w, id, [], false), Uploading(w, id, all, false), Uploading(w, id, all, true);
    run, steps := [w], [];
    ClaimLeads(w, id, scan);
    RunGrows(run, steps, Claim(id, w.store.files[id]), none, scan);
    run, steps := run + [none], steps + [Claim(id, w.store.files[id])];
    SendLeads(w, id, scan);
    RunGrows(run, steps, Send(id, |all|), some, scan);
    run, steps := run + [some], steps + [Send(id, |all|)];
    EndLeads(w, id, scan);
    RunGrows(run, steps, EndOfFile(id), read, scan);
    run, steps := run + [read], steps + [EndOfFile(id)];
  }

  ghost function Overwritten(w: World, c: CachePath, bytes: Bytes): World {
    w.(store := w.store.(disk := w.store.disk[c := bytes]))
  }

  lemma WriteLeads(w: World, id: string, h: nat, bytes: Bytes, scan: Scan)
    requires IsScan(scan) && Schema(w.store.files) && Exposed(w, id, h)
    ensures var c := w.handles[h].cache;
            var read := Uploading(w, id, w.store.disk[c], true);
            Leads(read, WriteBytes(h, bytes), Overwritten(read, c, bytes), scan)
  {
    SameNameKeepsSchema(w.store.files, id, Claimed(w.store.files[id]));
  }

  /** The uploaded item is the row's own, or new. */
  ghost predicate Fresh(files: Files, id: string, up: Entry) {
    id in files && (files[id].cloudId == Some(up.remoteId) || (forall i :: i in files ==>
        files[i].cloudId != Some(up.remoteId)))
  }

  lemma LateCommit(s: Store, id: string, row: Row, up: Entry, c: CachePath)
    requires Schema(s.files) && id in s.files && s.files[id] == Claimed(row) && row.cache == Some(c)
    requires Fresh(s.files, id, up)
    ensures var t := Committed(s, id, row.path, up, c, 0);
            t.Some? && id in t.value.files && Clean(t.value.files[id].state)
                && t.value.files[id].cache == Some(c) && t.value.disk == s.disk
  {
    assert !CloudTaken(s.files - Echoes(s, id, row.path, up), Acknowledged(s.files[id], row.path, up, c,
        0).cloudId, id);
    CommittedRows(s, id, row.path, up, c, 0);
  }

  lemma AcknowledgementLoses(late: World, id: string, row: Row, sent: Bytes, up: Entry, scan: Scan)
    requires IsScan(scan) && Schema(late.store.files) && id in late.store.files && row.cache.Some?
    requires late.store.files[id] == Claimed(row) && Fresh(late.store.files, id, up)
    requires id in late.workers && late.workers[id] == Worker(row, row.cache.value, sent, true)
    requires row.cache.value in late.store.disk && late.store.disk[row.cache.value] != sent
    ensures Can(late, Acknowledge(id, up, 0)) && !Synced(Next(late, Acknowledge(id, up, 0), scan), id)
  {
    LateCommit(late.store, id, row, up, row.cache.value);
  }

  /** From an exposed row on, the worker reads the whole file, and then the writer writes once more. */
  lemma OverwriteRun(w: World, id: string, h: nat, bytes: Bytes, scan: Scan) returns (run: seq<World>, steps: seq<Step>)
    requires IsScan(scan) && Inv(w) && Exposed(w, id, h)
    ensures IsRun(run, steps, scan) && run[0] == w
    ensures run[|steps|] == Overwritten(Uploading(w, id, w.store.disk[w.handles[h].cache], true),
        w.handles[h].cache, bytes)
  {
    var c := w.handles[h].cache;
    var read := Uploading(w, id, w.store.disk[c], true);
    run, steps := ReadRun(w, id, scan);
    WriteLeads(w, id, h, bytes, scan);
    RunGrows(run, steps, WriteBytes(h, bytes), Overwritten(read, c, bytes), scan);
    run, steps := run + [Overwritten(read, c, bytes)], steps + [WriteBytes(h, bytes)];
  }

  /** The writer condition is needed: from every world with an exposed row a run of five steps leads to a row that
      counts as synced although the cloud never received its bytes. */
  lemma WriterConditionIsNeeded(w: World, id: string, h: nat, bytes: Bytes, up: Entry, scan: Scan)
    returns (run: seq<World>, steps: seq<Step>)
    requires IsScan(scan) && Inv(w) && Exposed(w, id, h) && Fresh(w.store.files, id, up)
    requires bytes != w.store.disk[w.handles[h].cache]
    ensures IsRun(run, steps, scan) && run[0] == w && !Synced(run[|steps|], id)
  {
    run, steps := OverwriteRun(w, id, h, bytes, scan);
    var late := run[|steps|];
    SameNameKeepsSchema(w.store.files, id, Claimed(w.store.files[id]));
    AcknowledgementLoses(late, id, w.store.files[id], w.store.disk[w.handles[h].cache], up, scan);
    RunGrows(run, steps, Acknowledge(id, up, 0), Next(late, Acknowledge(id, up, 0), scan), scan);
    run, steps := run + [Next(late, Acknowledge(id, up, 0), scan)], steps + [Acknowledge(id, up, 0)];
  }

  // ---- how rows become exposed ----

  /** A row that turns dirty while a handle is open on its file is exposed. */
  lemma TurnedDirty(w: World, x: World, id: string, h: nat, row: Row)
    requires id in w.store.files
    requires row == w.store.files[id].(state := Dirty, size := row.size, modified := row.modified)
    requires x.store == w.store.(files := w.store.files[id := row]) && id !in x.workers
    requires h in w.handles && h in x.handles && x.handles[h] == w.handles[h]
    requires row.cache == Some(w.handles[h].cache) && w.handles[h].cache in w.store.disk
    requires !ClaimBlocked(w.store, row.path)
    ensures Exposed(x, id, h)
  {
    assert ClaimBlocked(x.store, row.path) ==> ClaimBlocked(w.store, row.path);
  }

  /** A failed upload exposes a row that a writer has open. */
  lemma FailedUploadExposes(w: World, id: string, h: nat, scan: Scan)
    requires Inv(w) && IsScan(scan) && Can(w, FailUpload(id, false)) && id in w.store.files
    requires h in w.handles && w.store.files[id].cache == Some(w.handles[h].cache) && w.handles[h].cache in w.store.disk
    requires !ClaimBlocked(w.store, w.store.files[id].path)
    ensures Exposed(Next(w, FailUpload(id, false), scan), id, h)
  {
    TurnedDirty(w, Next(w, FailUpload(id, false), scan), id, h, w.store.files[id].(state := Dirty));
  }

  /** So does the closing of a second handle, with no failed upload at all. */
  lemma SecondHandleExposes(w: World, id: string, h: nat, g: nat, size: nat, now: int, scan: Scan)
    requires Inv(w) && IsScan(scan) && id in w.store.files && id !in w.workers
    requires h in w.handles && g in w.handles && g != h && w.handles[g].id == id
    requires w.store.files[id].cache == Some(w.handles[h].cache) && w.handles[h].cache in w.store.disk
    requires !ClaimBlocked(w.store, w.store.files[id].path)
    ensures Can(w, EndWrite(g, size, now)) && Exposed(Next(w, EndWrite(g, size, now), scan), id, h)
  {
    TurnedDirty(w, Next(w, EndWrite(g, size, now), scan), id, h,
                w.store.files[id].(state := Dirty, size := size, modified := now));
  }
}
