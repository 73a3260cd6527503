// Downloads racing with imports, releases, prunes and a remote that changes at any moment.

module Hydration {
  import opened Options
  import opened Paths
  import opened Rows
  import opened Metadata
  import opened Renames
  import opened Cache
  import T = Transactions
  import Pins

  datatype Version = Version(etag: string, content: Bytes)

  /** Opened: the record is read. Begun: the row is claimed and the partial file empty.
      Fetching: the remote version matched. Verified: it matched again after the last byte. */
  datatype Phase = Opened | Begun | Fetching | Verified

  datatype Transfer = Transfer(generation: nat, cloud: string, etag: string, size: nat, phase: Phase, bytes: Bytes)

  /** `history` holds every version the remote ever had; `transfers` has at most one entry a row, as
      the hydration lock demands; `dead` are the rows an import removed. */
  datatype World = World(
    store: Store,
    remote: map<string, Version>,
    history: map<(string, string), Bytes>,
    transfers: map<string, Transfer>,
    dead: set<string>)

  datatype Step =
    | Import(e: Entry, block: bool)
    | Decide(policy: T.Policy)
    | Invalidate(id: string, seen: Row)
    | ReleaseRecord(id: string, cutoff: Option<int>, locked: set<CachePath>)
    | Reclaim(c: CachePath, locked: set<CachePath>)
    | Edit(cloud: string, version: Version)
    | Vanish(cloud: string)
    | Open(id: string, generation: nat)
    | Begin(id: string)
    | Check(id: string)
    | Chunk(id: string, count: nat)
    | Publish(id: string, now: int)
    | Abort(id: string)
    | Crash

  /** The remote still has the version the transfer was started for. */
  predicate Matches(w: World, t: Transfer) {
    t.cloud in w.remote && w.remote[t.cloud].etag == t.etag
  }

  predicate Can(w: World, step: Step, scan: Scan) {
    match step
    // A deleted row is not imported again under its id, and the cloud never names a local upload.
    case Import(e, block) => CloudIdOf(e).Some? && e.remoteId !in w.dead
    case Decide(_) => true
    case Invalidate(_, _) => true
    case ReleaseRecord(_, _, _) => true
    case Reclaim(c, _) => !c.Partial?
    // Etags are never reused.
    case Edit(cloud, version) => (cloud, version.etag) !in w.history
    case Vanish(_) => true
    // The generation was read before the record.
    case Open(id, generation) =>
      && id !in w.transfers && id in w.store.files
      && !w.store.files[id].isDir && w.store.files[id].cloudId.Some? && generation <= w.store.files[id].generation
    case Begin(id) => id in w.transfers && w.transfers[id].phase.Opened?
        && Hydratable(w.store.files, id, w.transfers[id].generation)
    case Check(id) =>
      && id in w.transfers
      && var t := w.transfers[id];
         && Matches(w, t) && |w.remote[t.cloud].content| == t.size
         && (t.phase.Begun? || (t.phase.Fetching? && |t.bytes| == t.size))
    case Chunk(id, count) =>
      && id in w.transfers && w.transfers[id].phase.Fetching?
      && w.transfers[id].cloud in w.remote
      && |w.transfers[id].bytes| + count <= |w.remote[w.transfers[id].cloud].content|
    case Publish(id, _) => id in w.transfers && w.transfers[id].phase.Verified?
    case Abort(id) => id in w.transfers
    case Crash => true
  }

  /** The partial file is removed and the row set back, unless the row was never claimed. */
  function Aborted(w: World, id: string): World
    requires id in w.transfers
  {
    var t := w.transfers[id];
    var store := if t.phase.Opened? then w.store else
      w.store.(disk := w.store.disk - {Partial(id, t.generation)},
               files := HydrationFailed(w.store.files, id, t.generation));
    w.(store := store, transfers := w.transfers - {id})
  }

  function Next(w: World, step: Step, scan: Scan): World
    requires Schema(w.store.files) && IsScan(scan) && Can(w, step, scan)
  {
    match step
    case Import(e, block) =>
      (match Imported(w.store, e, block, scan)
       case None => w
       case Some(s) => w.(store := s, dead := w.dead + (w.store.files.Keys - s.files.Keys)))
    case Decide(policy) => w.(store := w.store.(files := T.Decided(w.store.files, policy)))
    case Invalidate(id, seen) =>
      if Invalidatable(w.store.files, id, seen)
      then w.(store := w.store.(files := w.store.files[id := Invalidated(w.store.files[id])])) else w
    case ReleaseRecord(id, cutoff, locked) =>
      if Releasable(w.store, id, cutoff, locked) then w.(store := CachedReleased(w.store, id)) else w
    case Reclaim(c, locked) => w.(store := Reclaimed(w.store, c, locked))
    case Edit(cloud, version) =>
      w.(remote := w.remote[cloud := version], history := w.history[(cloud, version.etag) := version.content])
    case Vanish(cloud) => w.(remote := w.remote - {cloud})
    case Open(id, generation) =>
      var row := w.store.files[id];
      w.(transfers := w.transfers[id := Transfer(generation, row.cloudId.value, row.etag, row.size, Opened, [])])
    case Begin(id) =>
      var t := w.transfers[id];
      w.(store := w.store.(files := w.store.files[id := HydrationBegun(w.store.files[id])],
                           disk := w.store.disk[Partial(id, t.generation) := []]),
         transfers := w.transfers[id := t.(phase := Begun)])
    case Check(id) =>
      var t := w.transfers[id];
      w.(transfers := w.transfers[id := t.(phase := if t.phase.Begun? then Fetching else Verified)])
    case Chunk(id, count) =>
      var t := w.transfers[id];
      var bytes := t.bytes + w.remote[t.cloud].content[|t.bytes|..|t.bytes| + count];
      w.(store := w.store.(disk := w.store.disk[Partial(id, t.generation) := bytes]),
         transfers := w.transfers[id := t.(bytes := bytes)])
    case Publish(id, now) =>
      var t := w.transfers[id];
      var r := HydrationFinished(w.store, id, t.generation, Partial(id, t.generation), Download(id, t.generation), now);
      if r.Done? then w.(store := r.store, transfers := w.transfers - {id}) else Aborted(w, id)
    case Abort(id) => Aborted(w, id)
    case Crash => w.(transfers := map[])
  }

  // ---- the invariant ----

  /** A clean row's cache is exactly the remote version its etag names. */
  ghost predicate Published(w: World) {
    forall id :: id in w.store.files && Clean(w.store.files[id].state) && w.store.files[id].cache.Some? ==>
      var row := w.store.files[id];
      && !row.isDir && row.cloudId.Some? && (row.cloudId.value, row.etag) in w.history
      && row.cache.value in w.store.disk
      && w.store.disk[row.cache.value] == w.history[(row.cloudId.value, row.etag)]
      && |w.store.disk[row.cache.value]| == row.size
  }

  /** Imported rows carry the cloud's id, and a published file belongs to the row in its name. */
  ghost predicate OwnNames(files: Files) {
    forall id :: id in files ==>
      && (!(LOCAL_UPLOAD <= id) ==> files[id].cloudId == Some(id))
      && (files[id].cache.Some? ==> !files[id].cache.value.Partial?)
      && (files[id].cache.Some? && files[id].cache.value.Download? ==> files[id].cache.value.id == id)
  }

  ghost predicate RemoteRecorded(w: World) {
    forall c :: c in w.remote ==>
      (c, w.remote[c].etag) in w.history && w.history[(c, w.remote[c].etag)] == w.remote[c].content
  }

  /** While the row keeps the transfer's generation, it keeps the version the transfer is for. */
  ghost predicate SameGenerationSameVersion(w: World, id: string, t: Transfer) {
    id in w.store.files ==>
      var row := w.store.files[id];
      && t.generation <= row.generation
      && (row.generation == t.generation ==>
          !row.isDir && row.cloudId == Some(t.cloud) && row.etag == t.etag && row.size == t.size)
  }

  /** As long as the remote still has the version, the bytes are a prefix of it. */
  ghost predicate BytesAreGood(w: World, t: Transfer) {
    && (t.phase.Opened? || t.phase.Begun? ==> t.bytes == [])
    && (t.phase.Fetching? || t.phase.Verified? ==> (t.cloud, t.etag) in w.history)
    && (t.phase.Fetching? && Matches(w, t) ==> t.bytes <= w.remote[t.cloud].content)
    && (t.phase.Verified? ==> t.bytes == w.history[(t.cloud, t.etag)])
  }

  ghost predicate TransferOk(w: World, id: string, t: Transfer) {
    && (id in w.store.files || id in w.dead)
    && SameGenerationSameVersion(w, id, t)
    && BytesAreGood(w, t)
    && (!t.phase.Opened? ==>
          Partial(id, t.generation) in w.store.disk && w.store.disk[Partial(id, t.generation)] == t.bytes)
  }

  ghost predicate Inv(w: World) {
    && Schema(w.store.files) && OwnNames(w.store.files) && Published(w) && RemoteRecorded(w)
    && w.dead !! w.store.files.Keys
    && forall id :: id in w.transfers ==> TransferOk(w, id, w.transfers[id])
  }

  // ---- steps that change the rows ----

  /** Rows that stay keep their identity, their generation never falls, and a changed version bumps it. */
  predicate RowProgress(a: Row, b: Row) {
    && b.cloudId == a.cloudId && a.generation <= b.generation
    && (b.generation == a.generation && !a.isDir ==> b.etag == a.etag && b.size == a.size && !b.isDir)
    && (b.cache.Some? ==> b.cache == a.cache)
    && (b.cache.Some? && Clean(b.state) ==>
          Clean(a.state) && (!a.isDir ==> !b.isDir && b.etag == a.etag && b.size == a.size))
  }

  ghost predicate Progress(before: Files, after: Files) {
    && (forall id :: id in before && id in after ==> RowProgress(before[id], after[id]))
    && (forall id :: id in after && id !in before ==> after[id].cache == None && (!(LOCAL_UPLOAD <= id) ==>
          after[id].cloudId == Some(id)))
  }

  /** No file that a row or a transfer still uses is touched. */
  ghost predicate DiskKept(after: Files, before: map<CachePath, Bytes>, disk: map<CachePath, Bytes>) {
    && (forall c :: c in before && c.Partial? ==> c in disk && disk[c] == before[c])
    && (forall id :: id in after && after[id].cache.Some? && after[id].cache.value in before ==>
          after[id].cache.value in disk && disk[after[id].cache.value] == before[after[id].cache.value])
  }

  lemma RowsKeepInv(w: World, s: Store, dead: set<string>)
    requires Inv(w) && Schema(s.files) && Progress(w.store.files, s.files) && DiskKept(s.files, w.store.disk, s.disk)
    requires w.dead + (w.store.files.Keys - s.files.Keys) <= dead && dead !! s.files.Keys
    ensures Inv(w.(store := s, dead := dead))
  {
    var x := w.(store := s, dead := dead);
    assert OwnNames(s.files);
    assert Published(x);
    forall id | id in x.transfers ensures TransferOk(x, id, x.transfers[id]) {
      assert TransferOk(w, id, w.transfers[id]);
    }
  }

  lemma RefreshedProgress(row: Row, e: Entry, p: Path)
    requires row.cloudId == CloudIdOf(e)
    ensures RowProgress(row, Refreshed(DetachedRow(row, e), e).(path := p))
  {
  }

  lemma TouchedProgress(before: Files, id: string, e: Entry, block: bool, after: Files)
    requires OneRowTouched(before, id, e, block, after) && OwnNames(before) && CloudIdOf(e).Some?
    requires if id in before then before[id].cloudId == Some(e.remoteId) else id == e.remoteId
    ensures Progress(before, after) && after.Keys <= before.Keys + {e.remoteId}
  {
    if id in before {
      RefreshedProgress(before[id], e, after[id].path);
    }
  }

  lemma ImportProgress(s: Store, e: Entry, block: bool, scan: Scan)
    requires Schema(s.files) && IsScan(scan) && OwnNames(s.files) && CloudIdOf(e).Some?
    requires Imported(s, e, block, scan).Some?
    ensures var t := Imported(s, e, block, scan).value;
            && Progress(s.files, t.files) && t.disk == s.disk && t.files.Keys <= s.files.Keys + {e.remoteId}
  {
    var id := LocalIdFor(s.files, e.remoteId);
    if !Skips(s, e) {
      assert id in s.files ==> s.files[id].cloudId == Some(e.remoteId);
      AppliedTouchesOneRow(s, id, e, block, scan);
      TouchedProgress(s.files, id, e, block, Applied(s, id, e, block, scan).value.files);
    }
  }

  lemma SetPinProgress(files: Files, id: string, pinned: bool)
    requires id in files
    ensures Progress(files, Pins.ExplicitSet(files, id, pinned)) && Progress(files, Pins.InheritanceAllowed(files, id))
  {
  }

  lemma PolicyProgress(files: Files, policy: T.Policy)
    requires UniquePaths(files)
    ensures Progress(files, T.Decided(files, policy)) && T.Decided(files, policy).Keys == files.Keys
  {
    match policy
    case Repin => RepinProgress(files);
    case SetPin(id, pinned) => if id in files { SetPinProgress(files, id, pinned); }
    case AllowPins(id) => if id in files { SetPinProgress(files, id, true); }
    case Release(path) => ReleaseProgress(files, path);
  }

  lemma RepinProgress(files: Files)
    requires UniquePaths(files)
    ensures Progress(files, Pins.Recomputed(files))
  {
  }

  lemma ReleaseProgress(files: Files, path: Path)
    ensures Progress(files, PathReleased(files, path))
  {
    var policy := Pins.PolicyReleased(files, path);
    assert forall id :: id in files ==> RowProgress(files[id], policy[id]);
    assert forall id :: id in files ==> RowProgress(policy[id], PathReleased(files, path)[id]);
  }

  lemma OneRowKeepsInv(w: World, id: string, row: Row)
    requires Inv(w) && id in w.store.files && RowProgress(w.store.files[id], row) && row.path == w.store.files[id].path
    ensures Inv(w.(store := w.store.(files := w.store.files[id := row])))
  {
    var s := w.store.(files := w.store.files[id := row]);
    SubsetKeepsSchema(w.store.files, s.files);
    assert Progress(w.store.files, s.files);
    assert s.files.Keys == w.store.files.Keys;
    RowsKeepInv(w, s, w.dead);
  }

  lemma InvalidateKeepsInv(w: World, id: string, seen: Row)
    requires Inv(w) && Invalidatable(w.store.files, id, seen)
    ensures Inv(w.(store := w.store.(files := w.store.files[id := Invalidated(w.store.files[id])])))
  {
    OneRowKeepsInv(w, id, Invalidated(w.store.files[id]));
  }

  lemma ReleaseRecordKeepsInv(w: World, id: string, cutoff: Option<int>, locked: set<CachePath>)
    requires Inv(w) && Releasable(w.store, id, cutoff, locked)
    ensures Inv(w.(store := CachedReleased(w.store, id)))
  {
    var s := CachedReleased(w.store, id);
    SubsetKeepsSchema(w.store.files, s.files);
    assert RowProgress(w.store.files[id], s.files[id]);
    RowsKeepInv(w, s, w.dead);
  }

  lemma ReclaimKeepsInv(w: World, c: CachePath, locked: set<CachePath>)
    requires Inv(w) && !c.Partial?
    ensures Inv(w.(store := Reclaimed(w.store, c, locked)))
  {
    var s := Reclaimed(w.store, c, locked);
    assert Progress(w.store.files, s.files);
    RowsKeepInv(w, s, w.dead);
  }

  lemma PolicyKeepsInv(w: World, policy: T.Policy)
    requires Inv(w)
    ensures Inv(w.(store := w.store.(files := T.Decided(w.store.files, policy))))
  {
    var s := w.store.(files := T.Decided(w.store.files, policy));
    T.DecidedRewrites(w.store.files, policy);
    SubsetKeepsSchema(w.store.files, s.files);
    PolicyProgress(w.store.files, policy);
    RowsKeepInv(w, s, w.dead);
  }

  lemma ImportKeepsInv(w: World, e: Entry, block: bool, scan: Scan)
    requires Inv(w) && IsScan(scan) && Can(w, Import(e, block), scan)
    ensures Inv(Next(w, Import(e, block), scan))
  {
    if Imported(w.store, e, block, scan).Some? {
      ImportProgress(w.store, e, block, scan);
      var s := Imported(w.store, e, block, scan).value;
      RowsKeepInv(w, s, w.dead + (w.store.files.Keys - s.files.Keys));
    }
  }

  // ---- steps of a transfer ----

  /** A step that only moves the transfer of `id`, and touches no file but its partial one. */
  lemma TransferKeepsInv(w: World, id: string, t: Transfer, disk: map<CachePath, Bytes>)
    requires Inv(w)
    requires forall c :: c in w.store.disk && (!c.Partial? || c.id != id) ==> c in disk && disk[c] == w.store.disk[c]
    requires TransferOk(w.(store := w.store.(disk := disk)), id, t)
    ensures Inv(w.(store := w.store.(disk := disk), transfers := w.transfers[id := t]))
  {
    var x := w.(store := w.store.(disk := disk), transfers := w.transfers[id := t]);
    forall i | i in x.transfers ensures TransferOk(x, i, x.transfers[i]) {
      if i != id { assert TransferOk(w, i, w.transfers[i]); }
    }
  }

  lemma BeginKeepsInv(w: World, id: string, scan: Scan)
    requires Inv(w) && IsScan(scan) && Can(w, Begin(id), scan)
    ensures Inv(Next(w, Begin(id), scan))
  {
    var t := w.transfers[id];
    var row := HydrationBegun(w.store.files[id]);
    OneRowKeepsInv(w, id, row);
    var x := w.(store := w.store.(files := w.store.files[id := row]));
    assert TransferOk(x, id, x.transfers[id]);
    TransferKeepsInv(x, id, t.(phase := Begun, bytes := []), x.store.disk[Partial(id, t.generation) := []]);
  }

  lemma OpenKeepsInv(w: World, id: string, generation: nat, scan: Scan)
    requires Inv(w) && IsScan(scan) && Can(w, Open(id, generation), scan)
    ensures Inv(Next(w, Open(id, generation), scan))
  {
    TransferKeepsInv(w, id, Next(w, Open(id, generation), scan).transfers[id], w.store.disk);
  }

  lemma CheckKeepsInv(w: World, id: string, scan: Scan)
    requires Inv(w) && IsScan(scan) && Can(w, Check(id), scan)
    ensures Inv(Next(w, Check(id), scan))
  {
    assert TransferOk(w, id, w.transfers[id]);
    TransferKeepsInv(w, id, Next(w, Check(id), scan).transfers[id], w.store.disk);
  }

  lemma ChunkKeepsInv(w: World, id: string, count: nat, scan: Scan)
    requires Inv(w) && IsScan(scan) && Can(w, Chunk(id, count), scan)
    ensures Inv(Next(w, Chunk(id, count), scan))
  {
    assert TransferOk(w, id, w.transfers[id]);
    var x := Next(w, Chunk(id, count), scan);
    TransferKeepsInv(w, id, x.transfers[id], x.store.disk);
  }

  lemma EditKeepsInv(w: World, cloud: string, version: Version, scan: Scan)
    requires Inv(w) && IsScan(scan) && Can(w, Edit(cloud, version), scan)
    ensures Inv(Next(w, Edit(cloud, version), scan))
  {
    var x := Next(w, Edit(cloud, version), scan);
    forall i | i in x.transfers ensures TransferOk(x, i, x.transfers[i]) {
      assert TransferOk(w, i, w.transfers[i]);
    }
  }

  lemma AbortKeepsInv(w: World, id: string)
    requires Inv(w) && id in w.transfers
    ensures Inv(Aborted(w, id))
  {
    var t := w.transfers[id];
    var files := w.store.files;
    var u := w.(store := w.store.(files := HydrationFailed(files, id, t.generation)));
    if u.store.files != files {
      OneRowKeepsInv(w, id, files[id].(state := OnlineOnly));
      assert u.store.files == files[id := files[id].(state := OnlineOnly)];
    } else {
      assert u.store == w.store;
    }
    assert Inv(u);
    DropKeepsInv(u, id);
    DropKeepsInv(w, id);
  }

  /** A transfer disappears, with or without its partial file. */
  lemma DropKeepsInv(w: World, id: string)
    requires Inv(w) && id in w.transfers
    ensures Inv(w.(transfers := w.transfers - {id}))
    ensures Inv(w.(transfers := w.transfers - {id}, store := w.store.(disk := w.store.disk - {Partial(id,
        w.transfers[id].generation)})))
  {
    var x := w.(transfers := w.transfers - {id}, store := w.store.(disk := w.store.disk - {Partial(id,
        w.transfers[id].generation)}));
    forall i | i in x.transfers ensures TransferOk(x, i, x.transfers[i])
        && TransferOk(x.(store := w.store), i, x.transfers[i]) {
      assert TransferOk(w, i, w.transfers[i]);
    }
  }

  /** The published file is the version named by the row's current etag. */
  /** A publication overwrites no other row's file. */
  lemma OtherCopiesStay(w: World, id: string, generation: nat, bytes: Bytes, i: string)
    requires Inv(w) && i in w.store.files && i != id && Clean(w.store.files[i].state) && w.store.files[i].cache.Some?
    ensures var c := w.store.files[i].cache.value;
            var disk := (w.store.disk - {Partial(id, generation)})[Download(id, generation) := bytes];
            c in w.store.disk && c in disk && disk[c] == w.store.disk[c]
  {
  }

  lemma PublishedWith(w: World, x: World, id: string, generation: nat, bytes: Bytes)
    requires Inv(w) && id in w.store.files && id in x.store.files && x.history == w.history
    requires x.store.files == w.store.files[id := x.store.files[id]]
    requires x.store.disk == (w.store.disk - {Partial(id, generation)})[Download(id, generation) := bytes]
    requires var row := x.store.files[id];
             && row.cache == Some(Download(id, generation)) && Clean(row.state)
             && !row.isDir && row.cloudId.Some? && (row.cloudId.value, row.etag) in w.history
             && bytes == w.history[(row.cloudId.value, row.etag)] && |bytes| == row.size
    ensures Published(x)
  {
    forall i | i in w.store.files && i != id && Clean(w.store.files[i].state) && w.store.files[i].cache.Some? {
      OtherCopiesStay(w, id, generation, bytes, i);
    }
  }

  lemma DoneKeepsInv(w: World, id: string, row: Row)
    requires Inv(w) && id in w.transfers && w.transfers[id].phase.Verified?
    requires id in w.store.files && w.store.files[id].generation == w.transfers[id].generation
    requires row == w.store.files[id].(cache := Some(Download(id, w.transfers[id].generation)), state := row.state,
        accessed := row.accessed)
    requires Clean(row.state) && |w.transfers[id].bytes| == row.size
    ensures var t := w.transfers[id];
            var disk := (w.store.disk - {Partial(id, t.generation)})[Download(id, t.generation) := t.bytes];
            Inv(w.(transfers := w.transfers - {id}, store := w.store.(files := w.store.files[id := row], disk := disk)))
  {
    var t := w.transfers[id];
    assert TransferOk(w, id, t);
    var files := w.store.files[id := row];
    var disk := (w.store.disk - {Partial(id, t.generation)})[Download(id, t.generation) := t.bytes];
    var x := w.(transfers := w.transfers - {id}, store := w.store.(files := files, disk := disk));
    SubsetKeepsSchema(w.store.files, files);
    PublishedWith(w, x, id, t.generation, t.bytes);
    assert OwnNames(files) && RemoteRecorded(x) && x.store.files.Keys == w.store.files.Keys;
    forall i | i in x.transfers ensures TransferOk(x, i, x.transfers[i]) {
      OtherTransferStaysOk(w, x, id, i);
    }
  }

  /** A transfer that owns neither the row nor the files that change goes on as before. */
  lemma OtherTransferStaysOk(w: World, x: World, id: string, i: string)
    requires Inv(w) && i in w.transfers && i != id
    requires x.store.files.Keys == w.store.files.Keys && (i in w.store.files ==> x.store.files[i] == w.store.files[i])
    requires x.remote == w.remote && x.history == w.history && x.dead == w.dead
    requires forall c :: c in w.store.disk && c.Partial? && c.id != id ==>
               c in x.store.disk && x.store.disk[c] == w.store.disk[c]
    ensures TransferOk(x, i, w.transfers[i])
  {
    assert TransferOk(w, i, w.transfers[i]);
  }

  lemma PublishKeepsInv(w: World, id: string, now: int, scan: Scan)
    requires Inv(w) && IsScan(scan) && Can(w, Publish(id, now), scan)
    ensures Inv(Next(w, Publish(id, now), scan))
  {
    var t := w.transfers[id];
    var partial, cache := Partial(id, t.generation), Download(id, t.generation);
    var r := HydrationFinished(w.store, id, t.generation, partial, cache, now);
    if r.Done? {
      assert TransferOk(w, id, t);
      DoneKeepsInv(w, id, r.store.files[id]);
    } else {
      AbortKeepsInv(w, id);
    }
  }

  lemma StepKeepsInv(w: World, step: Step, scan: Scan)
    requires Inv(w) && IsScan(scan) && Can(w, step, scan)
    ensures Inv(Next(w, step, scan))
  {
    match step
    case Import(e, block) => ImportKeepsInv(w, e, block, scan);
    case Decide(policy) => PolicyKeepsInv(w, policy);
    case Invalidate(id, seen) => if Invalidatable(w.store.files, id, seen) { InvalidateKeepsInv(w, id, seen); }
    case ReleaseRecord(id, cutoff, locked) =>
      if Releasable(w.store, id, cutoff, locked) { ReleaseRecordKeepsInv(w, id, cutoff, locked); }
    case Reclaim(c, locked) => ReclaimKeepsInv(w, c, locked);
    case Edit(cloud, version) => EditKeepsInv(w, cloud, version, scan);
    case Vanish(cloud) => VanishKeepsInv(w, cloud);
    case Open(id, generation) => OpenKeepsInv(w, id, generation, scan);
    case Begin(id) => BeginKeepsInv(w, id, scan);
    case Check(id) => CheckKeepsInv(w, id, scan);
    case Chunk(id, count) => ChunkKeepsInv(w, id, count, scan);
    case Publish(id, now) => PublishKeepsInv(w, id, now, scan);
    case Abort(id) => AbortKeepsInv(w, id);
    case Crash => CrashKeepsInv(w);
  }

  lemma VanishKeepsInv(w: World, cloud: string)
    requires Inv(w)
    ensures Inv(w.(remote := w.remote - {cloud}))
  {
    var x := w.(remote := w.remote - {cloud});
    forall i | i in x.transfers ensures TransferOk(x, i, x.transfers[i]) {
      assert TransferOk(w, i, w.transfers[i]);
    }
  }

  lemma CrashKeepsInv(w: World)
    requires Inv(w)
    ensures Inv(w.(transfers := map[]))
  {
  }

  // ---- runs ----

  ghost predicate IsRun(run: seq<World>, steps: seq<Step>, scan: Scan)
    requires IsScan(scan)
  {
    && |run| == |steps| + 1
    && forall k :: 0 <= k < |steps| ==>
         Schema(run[k].store.files) && Can(run[k], steps[k], scan) && run[k + 1] == Next(run[k], steps[k], scan)
  }

  /** Over every run, every cache that stands for a cloud version holds exactly the bytes and length of
      the version its row's current etag names. */
  lemma {:induction false} PublishedCachesAreExact(run: seq<World>, steps: seq<Step>, scan: Scan, k: nat)
    requires IsScan(scan) && IsRun(run, steps, scan) && Inv(run[0]) && k < |run|
    ensures Inv(run[k]) && Published(run[k])
  {
    if k > 0 {
      PublishedCachesAreExact(run, steps, scan, k - 1);
      StepKeepsInv(run[k - 1], steps[k - 1], scan);
    }
  }

  /** The row's generation has moved past `generation`, or the row is gone for good. */
  predicate Cancelled(w: World, id: string, generation: nat) {
    if id in w.store.files then w.store.files[id].generation > generation else id in w.dead
  }

  /** No transfer lowers a generation or removes a row. */
  ghost predicate RowsNotReset(w: World, x: World) {
    && x.dead == w.dead && x.store.files.Keys == w.store.files.Keys
    && forall id :: id in w.store.files ==> w.store.files[id].generation <= x.store.files[id].generation
  }

  lemma AbortedNotReset(w: World, id: string)
    requires id in w.transfers
    ensures RowsNotReset(w, Aborted(w, id))
  {
  }

  lemma PublishNotReset(w: World, id: string, generation: nat, now: int)
    ensures var r := HydrationFinished(w.store, id, generation, Partial(id, generation), Download(id, generation), now);
            r.Done? ==> RowsNotReset(w, w.(store := r.store, transfers := w.transfers - {id}))
  {
  }

  lemma DecideNotReset(w: World, policy: T.Policy)
    requires UniquePaths(w.store.files)
    ensures RowsNotReset(w, w.(store := w.store.(files := T.Decided(w.store.files, policy))))
  {
    PolicyProgress(w.store.files, policy);
  }

  lemma OneRowNotReset(w: World, id: string, row: Row, disk: map<CachePath, Bytes>)
    requires id in w.store.files && w.store.files[id].generation <= row.generation
    ensures RowsNotReset(w, w.(store := w.store.(files := w.store.files[id := row], disk := disk)))
  {
  }

  lemma StepNotReset(w: World, step: Step, scan: Scan)
    requires Schema(w.store.files) && IsScan(scan) && Can(w, step, scan) && !step.Import?
    ensures RowsNotReset(w, Next(w, step, scan))
  {
    match step
    case Decide(policy) => DecideNotReset(w, policy);
    case Invalidate(id, seen) =>
      if Invalidatable(w.store.files, id, seen) {
        OneRowNotReset(w, id, Invalidated(w.store.files[id]), w.store.disk);
      }
    case ReleaseRecord(id, cutoff, locked) =>
      if Releasable(w.store, id, cutoff, locked) {
        var s := CachedReleased(w.store, id);
        OneRowNotReset(w, id, s.files[id], s.disk);
      }
    case Publish(id, now) =>
      AbortedNotReset(w, id);
      PublishNotReset(w, id, w.transfers[id].generation, now);
    case Abort(id) => AbortedNotReset(w, id);
    case _ =>
  }

  lemma StepKeepsCancelled(w: World, step: Step, scan: Scan, id: string, generation: nat)
    requires Inv(w) && IsScan(scan) && Can(w, step, scan) && Cancelled(w, id, generation)
    ensures Cancelled(Next(w, step, scan), id, generation)
  {
    if step.Import? {
      if Imported(w.store, step.e, step.block, scan).Some? {
        ImportProgress(w.store, step.e, step.block, scan);
      }
    } else {
      StepNotReset(w, step, scan);
    }
  }

  lemma ReleaseCancels(w: World, step: Step, scan: Scan, id: string, generation: nat)
    requires Schema(w.store.files) && IsScan(scan) && Can(w, step, scan)
    requires step.Decide? && step.policy.Release?
    requires id in w.store.files && !w.store.files[id].isDir && InSubtree(step.policy.path, w.store.files[id].path)
    requires generation <= w.store.files[id].generation
    ensures Cancelled(Next(w, step, scan), id, generation)
  {
    ReleaseRetiresGenerations(w.store.files, step.policy.path, id);
  }

  lemma CancelledIsRefused(w: World, id: string, generation: nat)
    requires Inv(w) && Cancelled(w, id, generation)
    ensures !Hydratable(w.store.files, id, generation) && !Finishable(w.store.files, id, generation)
  {
  }

  /** A committed release cancels every older download of its subtree for good: none of them is ever published. */
  lemma {:induction false} ReleaseCancelsForGood(run: seq<World>, steps: seq<Step>, scan: Scan, k: nat, id: string,
                                                 generation: nat)
    requires IsScan(scan) && IsRun(run, steps, scan) && Inv(run[0]) && 0 < k < |run|
    requires steps[0].Decide? && steps[0].policy.Release?
    requires id in run[0].store.files && !run[0].store.files[id].isDir
    requires InSubtree(steps[0].policy.path, run[0].store.files[id].path)
    requires generation <= run[0].store.files[id].generation
    ensures Cancelled(run[k], id, generation)
    ensures !Hydratable(run[k].store.files, id, generation) && !Finishable(run[k].store.files, id, generation)
  {
    PublishedCachesAreExact(run, steps, scan, k - 1);
    PublishedCachesAreExact(run, steps, scan, k);
    if k == 1 {
      ReleaseCancels(run[0], steps[0], scan, id, generation);
    } else {
      ReleaseCancelsForGood(run, steps, scan, k - 1, id, generation);
      StepKeepsCancelled(run[k - 1], steps[k - 1], scan, id, generation);
    }
    CancelledIsRefused(run[k], id, generation);
  }
}
