// The thread that hydrates one file, between the steps of all others.

module HydrationWorker {
  import opened Options
  import opened Paths
  import opened Rows
  import opened Metadata
  import opened Renames
  import opened Cache
  import opened Hydration
  import Completion

  /** The step belongs to the transfer that the hydration lock of `id` protects, or ends the process. */
  predicate Mine(step: Step, id: string) {
    match step
    case Open(i, _) => i == id
    case Begin(i) => i == id
    case Check(i) => i == id
    case Chunk(i, _) => i == id
    case Publish(i, _) => i == id
    case Abort(i) => i == id
    case Crash => true
    case _ => false
  }

  predicate SameTransfer(before: map<string, Transfer>, after: map<string, Transfer>, id: string) {
    if id in before then id in after && after[id] == before[id] else id !in after
  }

  lemma OthersKeepTransfer(w: World, step: Step, scan: Scan, id: string)
    requires Schema(w.store.files) && IsScan(scan) && Can(w, step, scan) && !Mine(step, id)
    ensures SameTransfer(w.transfers, Next(w, step, scan).transfers, id)
  {
  }

  /** What the threads of the process share. */
  class Shared {
    var w: World
    const scan: Scan
    /** Nobody else acts, the remote does not change, and the connection delivers what is asked for. */
    const calm: bool
    /** The steps this thread has taken itself. */
    ghost var taken: seq<Step>

    ghost predicate Valid()
      reads this
    {
      IsScan(scan) && Inv(w)
    }

    constructor (scan: Scan, calm: bool)
      requires IsScan(scan)
      ensures Valid() && w.transfers == map[] && taken == [] && this.calm == calm
    {
      this.scan, this.calm, taken := scan, calm, [];
      w := World(Store(map[], map[], map[], {}, map[]), map[], map[], map[], {});
    }

    /** Any number of steps of other threads, of the cloud, and of other transfers. */
    method Others(id: string)
      requires Valid()
      modifies this`w
      ensures Valid() && SameTransfer(old(w.transfers), w.transfers, id) && (calm ==> w == old(w))
    {
      var count: nat := *;
      var n: nat := if 0 <= count && !calm then count else 0;
      for i := 0 to n
        invariant Valid() && SameTransfer(old(w.transfers), w.transfers, id) && (calm ==> w == old(w))
      {
        var step: Step := *;
        if Can(w, step, scan) && !Mine(step, id) {
          Hydration.StepKeepsInv(w, step, scan);
          OthersKeepTransfer(w, step, scan, id);
          w := Next(w, step, scan);
        }
      }
    }

    method Take(step: Step)
      requires Valid() && Can(w, step, scan)
      modifies this`w, this`taken
      ensures Valid() && w == Next(old(w), step, scan) && taken == old(taken) + [step]
    {
      Hydration.StepKeepsInv(w, step, scan);
      w, taken := Next(w, step, scan), taken + [step];
    }

    /** Nobody interferes, and the row wants what the remote has, at this generation. */
    ghost predicate Undisturbed(id: string, generation: nat)
      reads this
    {
      && calm && Completion.CanDownload(w, id) && w.store.files[id].generation == generation
      && !HasExistingCache(w.store.files[id], w.store.disk)
    }

    /** `check_download_generation`. */
    method SameGeneration(id: string, generation: nat) returns (ok: bool)
      ensures ok == (id in w.store.files && w.store.files[id].generation == generation)
    {
      ok := id in w.store.files && w.store.files[id].generation == generation;
    }

    /** The remote has the version that the transfer is for. */
    predicate Offers(id: string)
      reads this
    {
      && id in w.transfers
      && var t := w.transfers[id];
         t.cloud in w.remote && w.remote[t.cloud].etag == t.etag && |w.remote[t.cloud].content| == t.size
    }

    /** `verify_remote_version`. It passes when the remote has the etag and the size of the record at this moment.
        The metadata of another version is imported; a remote that is gone leaves nothing to do. */
    method VerifyRemoteVersion(id: string) returns (ok: bool)
      requires Valid() && id in w.transfers
      requires w.transfers[id].phase.Begun?
          || (w.transfers[id].phase.Fetching? && |w.transfers[id].bytes| == w.transfers[id].size)
      modifies this`w, this`taken
      ensures Valid() && id in w.transfers
      ensures var t := old(w.transfers[id]);
              w.transfers[id] == if ok then t.(phase := if t.phase.Begun? then Fetching else Verified) else t
      ensures ok ==>
        var t := old(w.transfers[id]);
        taken == old(taken) + [Check(id)] && Matches(w, t) && |w.remote[t.cloud].content| == t.size
      ensures !ok ==> taken == old(taken) || ImportedOther(old(taken), taken, old(w.transfers[id]))
      ensures calm && old(Offers(id)) ==> ok && Offers(id) && w.store == old(w.store)
    {
      Others(id);
      var t := w.transfers[id];
      if t.cloud !in w.remote {
        return false;
      }
      var remote := w.remote[t.cloud];
      if |remote.content| == t.size && remote.etag == t.etag {
        Take(Check(id));
        return true;
      }
      var path: Path, isDir: bool, modified: int := *, *, *;
      Others(id);
      var e := Entry(t.cloud, path, isDir, |remote.content|, modified, remote.etag);
      // A row that an import has deleted is not imported again.
      if Can(w, Import(e, false), scan) {
        OthersKeepTransfer(w, Import(e, false), scan, id);
        ghost var before := taken;
        Take(Import(e, false));
        assert taken == before + [Import(e, false)];
      }
      return false;
    }

    /** The thread's last step imported what the remote says of the transfer's item: another version. */
    ghost predicate ImportedOther(before: seq<Step>, after: seq<Step>, t: Transfer) {
      exists e :: after == before + [Import(e, false)] && e.remoteId == t.cloud && !(e.etag == t.etag
          && e.size == t.size)
    }

    /** The row still is at the generation of the transfer. */
    predicate Current(id: string)
      reads this
    {
      && id in w.transfers && id in w.store.files
      && w.store.files[id].generation == w.transfers[id].generation
    }

    /** The ranged download into the partial file; the progress reports look at the generation now and then. */
    method DownloadSized(id: string) returns (ok: bool)
      requires Valid() && id in w.transfers && w.transfers[id].phase.Fetching? && w.transfers[id].bytes == []
      modifies this`w, this`taken
      ensures Valid() && id in w.transfers && w.transfers[id].phase.Fetching?
      ensures w.transfers[id] == old(w.transfers[id]).(bytes := w.transfers[id].bytes)
      ensures ok ==> |w.transfers[id].bytes| == w.transfers[id].size
      ensures calm && old(Offers(id)) && old(Current(id)) ==>
        ok && Offers(id) && w.store.files == old(w.store.files)
    {
      while |w.transfers[id].bytes| < w.transfers[id].size
        invariant Valid() && id in w.transfers && w.transfers[id].phase.Fetching?
        invariant w.transfers[id] == old(w.transfers[id]).(bytes := w.transfers[id].bytes)
        invariant calm && old(Offers(id)) && old(Current(id)) ==>
          Offers(id) && |w.transfers[id].bytes| <= w.transfers[id].size && w.store.files == old(w.store.files)
        decreases w.transfers[id].size - |w.transfers[id].bytes|
      {
        ok := ReadChunk(id);
        if !ok {
          return false;
        }
      }
      ok := |w.transfers[id].bytes| == w.transfers[id].size;
    }

    /** Some more bytes, unless the connection breaks or the generation has moved on. */
    method ReadChunk(id: string) returns (ok: bool)
      requires Valid() && id in w.transfers && w.transfers[id].phase.Fetching?
      modifies this`w, this`taken
      ensures Valid() && id in w.transfers
      ensures w.transfers[id] == old(w.transfers[id]).(bytes := w.transfers[id].bytes)
      ensures ok ==> |w.transfers[id].bytes| > |old(w.transfers[id].bytes)|
      ensures calm && old(Offers(id) && Current(id) && |w.transfers[id].bytes| < w.transfers[id].size) ==>
        ok && Offers(id) && |w.transfers[id].bytes| == w.transfers[id].size && w.store.files == old(w.store.files)
    {
      Others(id);
      var count: nat, looks: bool := *, *;
      if calm && |w.transfers[id].bytes| < w.transfers[id].size {
        count := w.transfers[id].size - |w.transfers[id].bytes|;
      }
      if count == 0 || !Can(w, Chunk(id, count), scan) {
        return false;
      }
      Take(Chunk(id, count));
      ok := true;
      if looks {
        ok := SameGeneration(id, w.transfers[id].generation);
      }
    }

    /** The row of `before` is claimed for a download and otherwise as it was. */
    predicate Begun(before: World, id: string)
      requires id in before.store.files
      reads this
    {
      && Current(id) && w.store.files[id].cloudId == before.store.files[id].cloudId
      && w.store.files[id].size == before.store.files[id].size && w.store.files[id].etag == before.store.files[id].etag
      && w.store.files[id].state in {OnlineOnly, Hydrating, Pinned} && !w.store.files[id].releasePending
    }

    /** The record is read; then `begin_hydration` claims the row, unless its generation has moved on. */
    method BeginTransfer(id: string, generation: nat) returns (ok: bool)
      requires Valid() && id !in w.transfers
      modifies this`w, this`taken
      ensures Valid() && (ok <==> id in w.transfers)
      ensures ok ==> var t := w.transfers[id]; t.phase.Begun? && t.bytes == [] && t.generation == generation
      ensures old(Undisturbed(id, generation)) ==> ok && Offers(id) && Begun(old(w), id)
    {
      // A record that is gone or has no cloud id cannot be begun; files and folders keep their kind.
      if !Can(w, Open(id, generation), scan) {
        return false;
      }
      Take(Open(id, generation));
      Others(id);
      if !Hydratable(w.store.files, id, generation) {
        Take(Abort(id));
        return false;
      }
      BegunBytes(w, id);
      Take(Begin(id));
      ok := true;
    }

    /** `finish_hydration`, and the cleanup when it refuses. */
    method PublishTransfer(id: string) returns (ok: bool)
      requires Valid() && id in w.transfers
      requires w.transfers[id].phase.Verified? && |w.transfers[id].bytes| == w.transfers[id].size
      modifies this`w, this`taken
      ensures Valid() && id !in w.transfers && Partial(id, old(w.transfers[id]).generation) !in w.store.disk
      ensures ok ==> PublishedAs(w, id, old(w.transfers[id]).generation)
      ensures calm && id in old(w).store.files && Waits(old(w).store.files, id, old(w.transfers[id]).generation) ==> ok
    {
      Others(id);
      var now: int := *;
      PartialGone(w, id, now, scan);
      FinishesExactly(w.store, id, w.transfers[id].generation, Partial(id, w.transfers[id].generation),
                      Download(id, w.transfers[id].generation), now);
      ok := Finishable(w.store.files, id, w.transfers[id].generation);
      if ok {
        PublishedRow(w, id, now, scan);
      }
      Take(Publish(id, now));
    }

    /** The cleanup after a failure: the partial file of a claimed row goes. */
    method GiveUp(id: string)
      requires Valid() && id in w.transfers && !w.transfers[id].phase.Opened?
      modifies this`w, this`taken
      ensures Valid() && id !in w.transfers && Partial(id, old(w.transfers[id]).generation) !in w.store.disk
    {
      Others(id);
      Take(Abort(id));
    }
  }

  datatype Hydrated = Fresh(cache: CachePath) | Existing(cache: CachePath) | NotHydrated

  /** `has_existing_cache`. */
  predicate HasExistingCache(row: Row, disk: map<CachePath, Bytes>) {
    && (row.state.Cached? || row.state.Pinned? || row.state.Writing? || row.state.Dirty? || row.state.Uploading?)
    && row.cache.Some? && row.cache.value in disk
    && (row.state.Cached? || row.state.Pinned? ==> |disk[row.cache.value]| == row.size)
  }

  lemma BegunBytes(w: World, id: string)
    requires Inv(w) && id in w.transfers && w.transfers[id].phase.Opened?
    ensures w.transfers[id].bytes == []
  {
    assert TransferOk(w, id, w.transfers[id]);
  }

  /** The file holds exactly the version that the etag of the row names. */
  ghost predicate ExactCopy(w: World, row: Row, cache: CachePath) {
    && row.cache == Some(cache) && row.cloudId.Some? && cache in w.store.disk && |w.store.disk[cache]| == row.size
    && (row.cloudId.value, row.etag) in w.history
    && w.store.disk[cache] == w.history[(row.cloudId.value, row.etag)]
  }

  /** The row is clean at `generation`, on its own file, an exact copy. */
  ghost predicate PublishedAs(w: World, id: string, generation: nat) {
    && id in w.store.files && Clean(w.store.files[id].state) && w.store.files[id].generation == generation
    && ExactCopy(w, w.store.files[id], Download(id, generation))
  }

  lemma PartialGone(w: World, id: string, now: int, scan: Scan)
    requires Inv(w) && IsScan(scan) && Can(w, Publish(id, now), scan)
    ensures var x := Next(w, Publish(id, now), scan);
            id !in x.transfers && Partial(id, w.transfers[id].generation) !in x.store.disk
  {
  }

  lemma ExistingIsExact(w: World, id: string)
    requires Inv(w) && id in w.store.files && HasExistingCache(w.store.files[id], w.store.disk)
    ensures var row := w.store.files[id]; Clean(row.state) ==> ExactCopy(w, row, row.cache.value)
  {
  }

  lemma PublishedRow(w: World, id: string, now: int, scan: Scan)
    requires Inv(w) && IsScan(scan) && Can(w, Publish(id, now), scan) && |w.transfers[id].bytes| == w.transfers[id].size
    requires Finishable(w.store.files, id, w.transfers[id].generation)
    ensures var x := Next(w, Publish(id, now), scan);
            id !in x.transfers && PublishedAs(x, id, w.transfers[id].generation)
  {
    assert TransferOk(w, id, w.transfers[id]);
  }

  /** `hydrate_generation`, with the hydration lock of `id` held; `given` is the caller's record. A fresh cache
      is the row's, and holds exactly the content of the version the row's etag names. An existing cache is the
      row's when the row is still there, and an exact copy when the row is clean. Otherwise nothing was published,
      and in any case the transfer is over. When nobody interferes, a row that wants what the remote has gets it. */
  method HydrateGeneration(shared: Shared, id: string, given: Row, generation: nat) returns (r: Hydrated)
    requires shared.Valid() && id !in shared.w.transfers
    modifies shared`w, shared`taken
    ensures shared.Valid() && id !in shared.w.transfers
    ensures r.Fresh? ==> r.cache == Download(id, generation) && PublishedAs(shared.w, id, generation)
    ensures r.Existing? && id in shared.w.store.files ==>
      var row := shared.w.store.files[id];
      row.cache == Some(r.cache) && r.cache in shared.w.store.disk && (Clean(row.state) ==>
          ExactCopy(shared.w, row, r.cache))
    ensures !given.isDir && old(shared.Undisturbed(id, generation)) ==> r.Fresh?
  {
    if given.isDir {
      return NotHydrated;
    }
    shared.Others(id);
    var ok := shared.SameGeneration(id, generation);
    if !ok {
      return NotHydrated;
    }
    shared.Others(id);
    var record := if id in shared.w.store.files then shared.w.store.files[id] else given;
    if HasExistingCache(record, shared.w.store.disk) {
      if id in shared.w.store.files {
        ExistingIsExact(shared.w, id);
      }
      return Existing(record.cache.value);
    }
    ok := shared.BeginTransfer(id, generation);
    if !ok {
      return NotHydrated;
    }
    ok := shared.VerifyRemoteVersion(id);
    if ok {
      ok := shared.DownloadSized(id);
    }
    if ok {
      ok := shared.VerifyRemoteVersion(id);
    }
    if ok {
      shared.Others(id);
      ok := shared.SameGeneration(id, generation);
    }
    if !ok {
      shared.GiveUp(id);
      return NotHydrated;
    }
    ok := shared.PublishTransfer(id);
    r := if ok then Fresh(Download(id, generation)) else NotHydrated;
  }
}
