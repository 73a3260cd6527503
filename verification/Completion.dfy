// What gets through when nobody interferes: downloads are published, and uploads acknowledged.

module Completion {
  import opened Options
  import opened Paths
  import opened Renames
  import opened Rows
  import opened Metadata
  import opened Cache
  import T = Transactions
  import H = Hydration
  import R = Recovery
  import Uploads
  import Writers

  // ---- the transactions of a download ----

  /** A file on the cloud without newer local bytes, which no release waits for. */
  predicate Wanted(row: Row) {
    && row.cloudId.Some? && !row.releasePending
    && row.state in {OnlineOnly, Hydrating, Pinned, Cached, Error}
  }

  /** The row has its file: pinned exactly when a pin covers it. */
  predicate Served(before: Row, after: Row, cache: CachePath, now: int) {
    after == before.(cache := Some(cache), accessed := Some(now),
                     state := if before.pinExplicit || before.pinOrigin.Some? then Pinned else Cached)
  }

  lemma BeginIsTaken(s: Store, id: string, scan: Scan)
    requires Schema(s.files) && IsScan(scan) && id in s.files && Wanted(s.files[id])
    ensures T.Apply(s, T.RowStep(id, T.Begin(s.files[id].generation)), scan)
         == s.(files := s.files[id := HydrationBegun(s.files[id])])
  {
  }

  lemma FinishIsTaken(s: Store, id: string, now: int, scan: Scan)
    requires Schema(s.files) && IsScan(scan) && id in s.files
    requires var g := s.files[id].generation;
             Waits(s.files, id, g) && Partial(id, g) in s.disk && |s.disk[Partial(id, g)]| == s.files[id].size
    ensures var g := s.files[id].generation;
            MovedIn(s, T.Apply(s, T.Finish(id, g, now), scan), id, Partial(id, g), Download(id, g), now)
  {
    var g := s.files[id].generation;
    FinishesExactly(s, id, g, Partial(id, g), Download(id, g), now);
  }

  /** A download that is begun at the row's generation and receives as many bytes as the row expects is published. */
  lemma DownloadPublishes(s: Store, id: string, bytes: Bytes, now: int, scan: Scan)
    requires Schema(s.files) && IsScan(scan) && id in s.files && Wanted(s.files[id]) && |bytes| == s.files[id].size
    ensures var g := s.files[id].generation;
            var begun := T.Apply(s, T.RowStep(id, T.Begin(g)), scan);
            Schema(begun.files)
            && var received := T.Apply(begun, T.Receive(id, g, bytes), scan);
               Schema(received.files)
               && var t := T.Apply(received, T.Finish(id, g, now), scan);
                  && Download(id, g) in t.disk && t.disk[Download(id, g)] == bytes && Partial(id, g) !in t.disk
                  && id in t.files && Served(s.files[id], t.files[id], Download(id, g), now)
                  && t.files == s.files[id := t.files[id]]
  {
    var g := s.files[id].generation;
    BeginIsTaken(s, id, scan);
    SameNameKeepsSchema(s.files, id, HydrationBegun(s.files[id]));
    var received := s.(files := s.files[id := HydrationBegun(s.files[id])], disk := s.disk[Partial(id, g) := bytes]);
    assert received == T.Apply(s.(files := received.files), T.Receive(id, g, bytes), scan);
    FinishIsTaken(received, id, now, scan);
  }

  // ---- a download between all other threads ----

  ghost predicate Leads(w: H.World, step: H.Step, x: H.World, scan: Scan)
    requires IsScan(scan)
  {
    Schema(w.store.files) && H.Can(w, step, scan) && x == H.Next(w, step, scan)
  }

  /** One more step, to a world already known. */
  lemma RunGrows(run: seq<H.World>, steps: seq<H.Step>, step: H.Step, x: H.World, scan: Scan)
    requires IsScan(scan) && H.IsRun(run, steps, scan) && Leads(run[|steps|], step, x, scan)
    ensures H.IsRun(run + [x], steps + [step], scan)
  {
    var longer, more := run + [x], steps + [step];
    forall k | 0 <= k < |more| ensures Leads(longer[k], more[k], longer[k + 1], scan) {
      if k < |steps| {
        assert longer[k] == run[k] && more[k] == steps[k] && longer[k + 1] == run[k + 1];
      }
    }
  }

  /** The remote has the version that the row records. */
  predicate Offered(w: H.World, row: Row) {
    && row.cloudId.Some? && row.cloudId.value in w.remote
    && w.remote[row.cloudId.value].etag == row.etag && |w.remote[row.cloudId.value].content| == row.size
  }

  ghost predicate CanDownload(w: H.World, id: string) {
    && Schema(w.store.files) && id in w.store.files && id !in w.transfers
    && Wanted(w.store.files[id]) && !w.store.files[id].isDir && Offered(w, w.store.files[id])
  }

  ghost function Transferring(w: H.World, id: string, phase: H.Phase, bytes: Bytes): map<string, H.Transfer>
    requires id in w.store.files && w.store.files[id].cloudId.Some?
  {
    var row := w.store.files[id];
    w.transfers[id := H.Transfer(row.generation, row.cloudId.value, row.etag, row.size, phase, bytes)]
  }

  /** The claimed row's download at one of its phases, with these bytes in the partial file. */
  ghost function Loading(w: H.World, id: string, phase: H.Phase, bytes: Bytes): H.World
    requires id in w.store.files && w.store.files[id].cloudId.Some?
  {
    var row := w.store.files[id];
    w.(store := w.store.(files := w.store.files[id := HydrationBegun(row)],
                         disk := w.store.disk[Partial(id, row.generation) := bytes]),
       transfers := Transferring(w, id, phase, bytes))
  }

  lemma OpenLeads(w: H.World, id: string, scan: Scan)
    requires IsScan(scan) && CanDownload(w, id)
    ensures Leads(w, H.Open(id, w.store.files[id].generation), w.(transfers := Transferring(w, id, H.Opened, [])), scan)
  {
  }

  lemma BeginLeads(w: H.World, id: string, scan: Scan)
    requires IsScan(scan) && CanDownload(w, id)
    ensures Leads(w.(transfers := Transferring(w, id, H.Opened, [])), H.Begin(id), Loading(w, id, H.Begun, []), scan)
  {
    var x := H.Next(w.(transfers := Transferring(w, id, H.Opened, [])), H.Begin(id), scan);
    assert x.transfers == Loading(w, id, H.Begun, []).transfers;
  }

  lemma CheckLeads(w: H.World, id: string, phase: H.Phase, bytes: Bytes, scan: Scan)
    requires IsScan(scan) && CanDownload(w, id)
    requires phase.Begun? || (phase.Fetching? && |bytes| == w.store.files[id].size)
    ensures Leads(Loading(w, id, phase, bytes), H.Check(id),
                  Loading(w, id, if phase.Begun? then H.Fetching else H.Verified, bytes), scan)
  {
    SameNameKeepsSchema(w.store.files, id, HydrationBegun(w.store.files[id]));
    var next := if phase.Begun? then H.Fetching else H.Verified;
    var x := Loading(w, id, phase, bytes);
    assert Loading(w, id, next, bytes) ==
      x.(transfers := x.transfers[id := x.transfers[id].(phase := next)]) by {
      assert Transferring(w, id, next, bytes) == x.transfers[id := x.transfers[id].(phase := next)];
    }
  }

  lemma ChunkLeads(w: H.World, id: string, scan: Scan)
    requires IsScan(scan) && CanDownload(w, id)
    ensures var row := w.store.files[id];
            Leads(Loading(w, id, H.Fetching, []), H.Chunk(id, row.size),
                  Loading(w, id, H.Fetching, w.remote[row.cloudId.value].content), scan)
  {
    var row := w.store.files[id];
    var content := w.remote[row.cloudId.value].content;
    SameNameKeepsSchema(w.store.files, id, HydrationBegun(row));
    assert [] + content[0..row.size] == content;
    LoadingMore(w, id, content);
  }

  lemma LoadingMore(w: H.World, id: string, bytes: Bytes)
    requires id in w.store.files && w.store.files[id].cloudId.Some?
    ensures var x := Loading(w, id, H.Fetching, []);
            Loading(w, id, H.Fetching, bytes) ==
              x.(store := x.store.(disk := x.store.disk[Partial(id, w.store.files[id].generation) := bytes]),
                 transfers := x.transfers[id := x.transfers[id].(bytes := bytes)])
  {
    var x, y := Loading(w, id, H.Fetching, []), Loading(w, id, H.Fetching, bytes);
    assert y.store.disk == x.store.disk[Partial(id, w.store.files[id].generation) := bytes];
    assert y.transfers == x.transfers[id := x.transfers[id].(bytes := bytes)];
  }

  lemma PublishLeads(w: H.World, id: string, now: int, scan: Scan) returns (x: H.World)
    requires IsScan(scan) && CanDownload(w, id)
    ensures var row := w.store.files[id];
            var content := w.remote[row.cloudId.value].content;
            && Leads(Loading(w, id, H.Verified, content), H.Publish(id, now), x, scan)
            && id !in x.transfers && id in x.store.files
            && Served(row, x.store.files[id], Download(id, row.generation), now)
            && Download(id, row.generation) in x.store.disk
            && x.store.disk[Download(id, row.generation)] == content
  {
    var row := w.store.files[id];
    SameNameKeepsSchema(w.store.files, id, HydrationBegun(row));
    var y := Loading(w, id, H.Verified, w.remote[row.cloudId.value].content);
    FinishesExactly(y.store, id, row.generation, Partial(id, row.generation), Download(id, row.generation), now);
    x := H.Next(y, H.Publish(id, now), scan);
  }

  /** The worker claims the row. */
  lemma BeginRun(w: H.World, id: string, scan: Scan) returns (run: seq<H.World>, steps: seq<H.Step>)
    requires IsScan(scan) && CanDownload(w, id)
    ensures H.IsRun(run, steps, scan) && run[0] == w && run[|steps|] == Loading(w, id, H.Begun, [])
    ensures steps == [H.Open(id, w.store.files[id].generation), H.Begin(id)]
  {
    var x, y := w.(transfers := Transferring(w, id, H.Opened, [])), Loading(w, id, H.Begun, []);
    var first := H.Open(id, w.store.files[id].generation);
    OpenLeads(w, id, scan);
    RunGrows([w], [], first, x, scan);
    BeginLeads(w, id, scan);
    RunGrows([w] + [x], [] + [first], H.Begin(id), y, scan);
    run, steps := [w] + [x] + [y], [] + [first] + [H.Begin(id)];
  }

  /** The worker fetches the version that the row records, and checks again. */
  lemma FetchRun(w: H.World, id: string, scan: Scan) returns (run: seq<H.World>, steps: seq<H.Step>)
    requires IsScan(scan) && CanDownload(w, id)
    ensures var row := w.store.files[id];
            && H.IsRun(run, steps, scan) && run[0] == w
            && run[|steps|] == Loading(w, id, H.Verified, w.remote[row.cloudId.value].content)
            && steps == [H.Open(id, row.generation), H.Begin(id), H.Check(id), H.Chunk(id, row.size), H.Check(id)]
  {
    var row := w.store.files[id];
    var content := w.remote[row.cloudId.value].content;
    run, steps := BeginRun(w, id, scan);
    CheckLeads(w, id, H.Begun, [], scan);
    run, steps := Longer(run, steps, H.Check(id), Loading(w, id, H.Fetching, []), scan);
    ChunkLeads(w, id, scan);
    run, steps := Longer(run, steps, H.Chunk(id, row.size), Loading(w, id, H.Fetching, content), scan);
    CheckLeads(w, id, H.Fetching, content, scan);
    run, steps := Longer(run, steps, H.Check(id), Loading(w, id, H.Verified, content), scan);
  }

  lemma Longer(run: seq<H.World>, steps: seq<H.Step>, step: H.Step, x: H.World, scan: Scan)
    returns (longer: seq<H.World>, more: seq<H.Step>)
    requires IsScan(scan) && H.IsRun(run, steps, scan) && Leads(run[|steps|], step, x, scan)
    ensures H.IsRun(longer, more, scan) && longer[0] == run[0] && longer[|more|] == x && more == steps + [step]
  {
    RunGrows(run, steps, step, x, scan);
    longer, more := run + [x], steps + [step];
  }

  /** From every world in which a row wants the version that the remote offers, the steps of one download lead to the
      row having exactly that content. */
  lemma DownloadCompletes(w: H.World, id: string, now: int, scan: Scan) returns (run: seq<H.World>, steps: seq<H.Step>)
    requires IsScan(scan) && CanDownload(w, id)
    ensures var row := w.store.files[id];
            var cache := Download(id, row.generation);
            && H.IsRun(run, steps, scan) && run[0] == w
            && steps == [H.Open(id, row.generation), H.Begin(id), H.Check(id), H.Chunk(id, row.size), H.Check(id),
                         H.Publish(id, now)]
            && var x := run[|steps|];
               && id !in x.transfers && id in x.store.files && Served(row, x.store.files[id], cache, now)
               && cache in x.store.disk && x.store.disk[cache] == w.remote[row.cloudId.value].content
  {
    run, steps := FetchRun(w, id, scan);
    var x := PublishLeads(w, id, now, scan);
    run, steps := Longer(run, steps, H.Publish(id, now), x, scan);
  }

  // ---- an upload between all other threads ----

  /** The item is the row's own, or new to the table. */
  predicate Uploadable(files: Files, id: string, up: Entry) {
    id in files && if files[id].cloudId.Some? then files[id].cloudId.value == up.remoteId
                   else forall i :: i in files ==> files[i].cloudId != Some(up.remoteId)
  }

  /** From every world with a dirty or interrupted row that may be claimed, the steps of one upload lead to a clean row
      whose file holds exactly the bytes that the cloud has acknowledged. */
  lemma UploadCompletes(w: R.World, id: string, up: Entry, now: int, scan: Scan)
    returns (run: seq<R.World>, steps: seq<R.Step>)
    requires IsScan(scan) && Schema(w.store.files) && Writers.Ready(w, id) && Uploadable(w.store.files, id, up)
    ensures var row := w.store.files[id];
            var bytes := w.store.disk[row.cache.value];
            && R.IsRun(run, steps, scan) && run[0] == w
            && steps == [R.Claim(id, row), R.Send(id, |bytes|), R.EndOfFile(id), R.Acknowledge(id, up, now)]
            && var x := run[|steps|];
               && id in x.acked && x.acked[id] == bytes && x.store.disk == w.store.disk
               && id in x.store.files
               && Uploads.Acknowledges(Claimed(row), x.store.files[id], row.path, up, row.cache.value, now)
               && x.store.files[id].state in {Cached, Pinned} && x.store.files[id].cache == row.cache
  {
    var row := w.store.files[id];
    var bytes := w.store.disk[row.cache.value];
    run, steps := Writers.ReadRun(w, id, scan);
    var x := AcknowledgeLeads(w, id, up, now, scan);
    Writers.RunGrows(run, steps, R.Acknowledge(id, up, now), x, scan);
    run, steps := run + [x], steps + [R.Acknowledge(id, up, now)];
  }

  lemma AcknowledgeLeads(w: R.World, id: string, up: Entry, now: int, scan: Scan) returns (x: R.World)
    requires IsScan(scan) && Schema(w.store.files) && Writers.Ready(w, id) && Uploadable(w.store.files, id, up)
    ensures var row := w.store.files[id];
            var bytes := w.store.disk[row.cache.value];
            && Writers.Leads(Writers.Uploading(w, id, bytes, true), R.Acknowledge(id, up, now), x, scan)
            && id in x.acked && x.acked[id] == bytes && x.store.disk == w.store.disk && id in x.store.files
            && Uploads.Acknowledges(Claimed(row), x.store.files[id], row.path, up, row.cache.value, now)
  {
    var row := w.store.files[id];
    var done := Writers.Uploading(w, id, w.store.disk[row.cache.value], true);
    SameNameKeepsSchema(w.store.files, id, Claimed(row));
    ReadyCommits(done.store, id, Claimed(row), up, now);
    x := R.Next(done, R.Acknowledge(id, up, now), scan);
  }

  lemma ReadyCommits(s: Store, id: string, row: Row, up: Entry, now: int)
    requires Schema(s.files) && Uploadable(s.files, id, up) && s.files[id] == row && row.cache.Some?
    requires row.state == Uploading
    ensures var t := Committed(s, id, row.path, up, row.cache.value, now);
            && t.Some? && t.value.disk == s.disk && id in t.value.files
            && Uploads.Acknowledges(row, t.value.files[id], row.path, up, row.cache.value, now)
  {
    Uploads.CommitFailsExactly(s, id, row.path, up, row.cache.value, now);
    if Committed(s, id, row.path, up, row.cache.value, now).Some? {
      Uploads.CommitWritesExactly(s, id, row.path, up, row.cache.value, now);
    }
  }
}
