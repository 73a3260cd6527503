// Acknowledged uploads and recovery copies, column by column, and the file of a claim.

module Uploads {
  import opened Options
  import opened Paths
  import opened Renames
  import opened Rows
  import opened Metadata
  import opened Cache
  import opened Transactions
  import Pins

  // ---- the acknowledgement of an upload ----

  /** The row still is the uploading generation: same name, same file, nothing written since. */
  predicate Current(row: Row, requested: Path, cache: CachePath) {
    row.path == requested && row.state == Uploading && row.cache == Some(cache)
  }

  /** The cloud id of the row once the upload `up` of it is acknowledged. */
  function OwnedAs(row: Row, requested: Path, up: Entry, cache: CachePath): string {
    if row.cloudId.None? || Current(row, requested, cache) then up.remoteId else row.cloudId.value
  }

  /** The columns of the acknowledged row. The etag is the uploaded one unless the row belongs to another item; the
      local modification time stays; only the current generation becomes clean. */
  predicate Acknowledges(before: Row, after: Row, requested: Path, up: Entry, cache: CachePath, now: int) {
    && after.cloudId == Some(OwnedAs(before, requested, up, cache))
    && after.etag == (if before.cloudId.Some? && before.cloudId.value != up.remoteId then before.etag else up.etag)
    && after.modified == before.modified
    && after.uploadPath == None && after.uploadTarget == None && after.uploadCache == None
    && (if Current(before, requested, cache)
        then after.size == up.size && after.cache == Some(cache) && after.accessed == Some(now)
             && after.state == (if before.pinExplicit || before.pinOrigin.Some? then Pinned else Cached)
        else after.size == before.size && after.cache == before.cache && after.accessed == before.accessed
             && after.state == before.state)
    && after.path == before.path && after.isDir == before.isDir && after.pinExplicit == before.pinExplicit
    && after.pinOrigin == before.pinOrigin && after.pinBlocked == before.pinBlocked
    && after.localMode == before.localMode && after.generation == before.generation
    && after.releasePending == before.releasePending
  }

  /** Row i is what a delta has imported of a first upload before its acknowledgement, and nobody has touched it. */
  predicate EarlyEcho(s: Store, i: string, local: string, requested: Path, up: Entry) {
    && local in s.files && s.files[local].cloudId == None
    && i in s.files && i != local && i !in s.operations
    && s.files[i].cloudId == Some(up.remoteId) && s.files[i].path == requested && s.files[i].etag == up.etag
    && s.files[i].size == up.size && !s.files[i].isDir && !s.files[i].pinExplicit
    && s.files[i].state in {OnlineOnly, Cached, Pinned, Hydrating}
  }

  /** The whole effect of an acknowledgement. */
  ghost predicate Commits(s: Store, t: Store, local: string, requested: Path, up: Entry, cache: CachePath, now: int)
    requires local in s.files
  {
    && local in t.files && Acknowledges(s.files[local], t.files[local], requested, up, cache, now)
    && (forall i :: i != local ==> (i in t.files <==> i in s.files && !EarlyEcho(s, i, local, requested, up)))
    && (forall i :: i in t.files && i != local ==> t.files[i] == s.files[i])
    && (forall c :: c in t.retired <==>
          c in s.retired || exists i :: EarlyEcho(s, i, local, requested, up) && s.files[i].cache == Some(c))
    && t.operations == (if s.files[local].cloudId == None && s.files[local].path != requested
                        then s.operations[local := Operation(Move, s.files[local].path, now)] else s.operations)
    && t.deletes == s.deletes && t.disk == s.disk
  }

  lemma EchoesExactly(s: Store, local: string, requested: Path, up: Entry)
    ensures forall i :: i in Echoes(s, local, requested, up) <==> EarlyEcho(s, i, local, requested, up)
  {
  }

  /** An acknowledgement fails exactly when the row is gone or another row, not an early echo, has its cloud id. */
  lemma CommitFailsExactly(s: Store, local: string, requested: Path, up: Entry, cache: CachePath, now: int)
    requires Schema(s.files)
    ensures Committed(s, local, requested, up, cache, now) == None
            <==> local !in s.files
                 || exists i :: i in s.files && i != local && !EarlyEcho(s, i, local, requested, up)
                        && s.files[i].cloudId == Some(OwnedAs(s.files[local], requested, up, cache))
  {
    if local in s.files {
      EchoesExactly(s, local, requested, up);
      var rest := s.files - Echoes(s, local, requested, up);
      var mine := Acknowledged(s.files[local], requested, up, cache, now).cloudId;
      assert mine == Some(OwnedAs(s.files[local], requested, up, cache));
      forall i | i in s.files && i != local ensures i in rest <==> !EarlyEcho(s, i, local, requested, up) {
      }
    }
  }

  /** An acknowledgement that succeeds does exactly this. */
  lemma CommitWritesExactly(s: Store, local: string, requested: Path, up: Entry, cache: CachePath, now: int)
    requires Schema(s.files) && Committed(s, local, requested, up, cache, now).Some?
    ensures Commits(s, Committed(s, local, requested, up, cache, now).value, local, requested, up, cache, now)
  {
    var t := Committed(s, local, requested, up, cache, now).value;
    EchoesExactly(s, local, requested, up);
    assert Acknowledges(s.files[local], t.files[local], requested, up, cache, now);
    forall c ensures c in CachesOf(s.files, Echoes(s, local, requested, up))
        <==> exists i :: EarlyEcho(s, i, local, requested, up) && s.files[i].cache == Some(c) {
      if c in CachesOf(s.files, Echoes(s, local, requested, up)) {
        var i :| i in Echoes(s, local, requested, up) && i in s.files && s.files[i].cache == Some(c);
        assert EarlyEcho(s, i, local, requested, up);
      }
    }
  }

  /** The upload of an edited file that the cloud knows, to the item it is bound to. */
  ghost predicate EditUpload(s: Store, local: string, requested: Path, up: Entry) {
    && Schema(s.files) && local in s.files && s.files[local].cloudId == Some(up.remoteId)
    && !s.files[local].isDir && s.files[local].state in {Writing, Dirty, Uploading, Conflict}
    && up.path == requested && !up.isDir && up.etag != "" && !("local-upload-" <= up.remoteId)
  }

  lemma EditCommits(s: Store, local: string, requested: Path, up: Entry, cache: CachePath, now: int)
    requires EditUpload(s, local, requested, up)
    ensures Committed(s, local, requested, up, cache, now).Some?
  {
    CommitFailsExactly(s, local, requested, up, cache, now);
  }

  /** The delta echo of an acknowledged edit changes nothing, whether or not the file was edited or renamed again
      meanwhile: the row already has the version it reports, or newer local bytes. */
  lemma EditEchoIsIdle(s: Store, local: string, requested: Path, up: Entry, cache: CachePath, now: int, scan: Scan)
    requires EditUpload(s, local, requested, up) && IsScan(scan)
    ensures var c := Committed(s, local, requested, up, cache, now);
            c.Some? && Imported(c.value, up, false, scan) == c
  {
    EditCommits(s, local, requested, up, cache, now);
    CommitWritesExactly(s, local, requested, up, cache, now);
    var t := Committed(s, local, requested, up, cache, now).value;
    assert t.files[local].cloudId == Some(up.remoteId);
    assert LocalIdFor(t.files, up.remoteId) == local;
    if !Skips(t, up) {
      assert Current(s.files[local], requested, cache);
      RepeatedEntryIsIdle(t, local, up, scan);
    }
  }

  /** The upload keeps its cache: right after the acknowledgement and the echo, the row of the current generation is
      clean, with the uploaded version and the file that was uploaded. */
  lemma UploadedFileStaysCached(s: Store, local: string, requested: Path, up: Entry, cache: CachePath, now: int,
                                scan: Scan)
    requires EditUpload(s, local, requested, up) && IsScan(scan) && Current(s.files[local], requested, cache)
    ensures var c := Committed(s, local, requested, up, cache, now);
            c.Some? && Imported(c.value, up, false, scan).Some?
            && var row := Imported(c.value, up, false, scan).value.files;
               && local in row && row[local].cache == Some(cache) && row[local].state in {Cached, Pinned}
               && row[local].etag == up.etag && row[local].size == up.size
  {
    EditEchoIsIdle(s, local, requested, up, cache, now, scan);
    CommitWritesExactly(s, local, requested, up, cache, now);
  }

  // ---- the recovery copy ----

  /** The row the copy goes to: the one bound to its id, or else the one named like it. */
  ghost predicate CopiesTo(files: Files, up: Entry, copy: string) {
    if exists i :: i in files && files[i].cloudId == Some(up.remoteId)
    then copy in files && files[copy].cloudId == Some(up.remoteId)
    else copy == up.remoteId
  }

  /** The row claims exactly this upload of a new item. */
  predicate Claims(row: Row, up: Entry, cache: CachePath) {
    row.uploadPath == Some(up.path) && row.uploadCache == Some(cache) && row.uploadTarget == None
  }

  /** The original still is the conflicted generation whose bytes were copied, with no operation queued. */
  predicate IsCopied(s: Store, id: string, original: Row, up: Entry, cache: CachePath) {
    && id in s.files && id !in s.operations
    && s.files[id].state == Conflict && s.files[id].cache == Some(cache) && Claims(s.files[id], up, cache)
    && s.files[id].cloudId == original.cloudId && s.files[id].size == original.size
    && s.files[id].modified == original.modified && s.files[id].etag == original.etag
  }

  /** The columns of the copy's row: its name and pins stay when it is known, the bytes and version are the upload's. */
  predicate Attaches(files: Files, copy: string, after: Row, original: Row, up: Entry, cache: CachePath, now: int) {
    && after.size == up.size && after.modified == original.modified && after.etag == up.etag
    && after.cache == Some(cache) && after.accessed == Some(now) && after.cloudId == Some(up.remoteId)
    && if copy in files
       then after.state == (if files[copy].pinExplicit || files[copy].pinOrigin.Some? then Pinned else Cached)
            && after == files[copy].(size := after.size, modified := after.modified, etag := after.etag,
                                     state := after.state, cache := after.cache, accessed := after.accessed)
       else after.state == Cached && after.path == up.path && !after.isDir && after.localMode == original.localMode
            && !after.pinExplicit && after.pinOrigin == None && !after.pinBlocked
            && after.uploadPath == None && after.uploadTarget == None && after.uploadCache == None
            && after.generation == 0 && !after.releasePending
  }

  /** The copy cannot be published: it is the original itself, it has newer work, or its name is taken. */
  ghost predicate CopyCannot(files: Files, id: string, copy: string, up: Entry) {
    || copy == id
    || (copy in files && (files[copy].cloudId != Some(up.remoteId)
                          || files[copy].state in {Writing, Dirty, Uploading, Conflict, Error}))
    || (copy !in files && exists i :: i in files && files[i].path == up.path)
  }

  /** The copy's row gives up the file of its last clean version. */
  predicate Gives(files: Files, copy: string, cache: CachePath, c: CachePath) {
    c != cache && copy in files && files[copy].state in {Cached, Pinned} && files[copy].cache == Some(c)
  }

  /** The whole effect of a published copy. */
  ghost predicate Publishes(s: Store, t: Store, id: string, copy: string, original: Row, up: Entry, cache: CachePath,
                            now: int)
    requires id in s.files
  {
    && copy in t.files && Attaches(s.files, copy, t.files[copy], original, up, cache, now)
    && (id in t.files <==> !IsCopied(s, id, original, up, cache))
    && (id in t.files ==> t.files[id] == if Claims(s.files[id], up, cache)
          then s.files[id].(uploadPath := None, uploadTarget := None, uploadCache := None) else s.files[id])
    && (forall i :: i != id && i != copy ==> (i in t.files <==> i in s.files))
    && (forall i :: i in t.files && i != id && i != copy ==> t.files[i] == s.files[i])
    && (forall c :: c in t.retired <==> c in s.retired || Gives(s.files, copy, cache, c))
    && t.deletes == s.deletes && t.operations == s.operations && t.disk == s.disk
  }

  /** When a copy is published, when it is refused, and what it does. An original in any state but conflict stays. */
  lemma CopyExactly(s: Store, id: string, copy: string, original: Row, up: Entry, cache: CachePath, now: int)
    requires Schema(s.files) && CopiesTo(s.files, up, copy)
    ensures var r := CopyCompleted(s, id, original, up, cache, now);
            var gone := id !in s.files || exists d :: d in s.deletes && s.deletes[d].localId == Some(id);
            && (r.Absent? <==> gone) && (r.Refused? <==> !gone && CopyCannot(s.files, id, copy, up))
            && (r.Published? ==> Publishes(s, r.store, id, copy, original, up, cache, now))
  {
    assert LocalIdFor(s.files, up.remoteId) == copy;
    CopyRefusedExactly(s.files, id, copy, up);
    if CopyCompleted(s, id, original, up, cache, now).Published? {
      CopyPublishes(s, id, copy, original, up, cache, now);
    }
  }

  lemma CopyPublishes(s: Store, id: string, copy: string, original: Row, up: Entry, cache: CachePath, now: int)
    requires id in s.files && copy != id && (copy in s.files ==> s.files[copy].cloudId == Some(up.remoteId))
    ensures var files := s.files[copy := CopyRow(s.files, copy, original, up, cache, now)];
            Publishes(s, s.(files := FailureRetired(s, files, id, original, up, cache),
                            retired := s.retired + CacheReplaced(s.files, copy, cache)),
                      id, copy, original, up, cache, now)
  {
    var files := s.files[copy := CopyRow(s.files, copy, original, up, cache, now)];
    CopyRowAttaches(s.files, copy, original, up, cache, now);
    OriginalSettles(s, files, id, copy, original, up, cache);
    ReplacedExactly(s.files, copy, cache);
  }

  lemma ReplacedExactly(files: Files, copy: string, cache: CachePath)
    ensures forall c :: c in CacheReplaced(files, copy, cache) <==> Gives(files, copy, cache, c)
  {
  }

  lemma CopyRefusedExactly(files: Files, id: string, copy: string, up: Entry)
    ensures CopyRefused(files, id, copy, up) <==> CopyCannot(files, id, copy, up)
  {
  }

  lemma CopyRowAttaches(files: Files, copy: string, original: Row, up: Entry, cache: CachePath, now: int)
    requires copy in files ==> files[copy].cloudId == Some(up.remoteId)
    ensures Attaches(files, copy, CopyRow(files, copy, original, up, cache, now), original, up, cache, now)
  {
  }

  /** The original goes, loses its claim or stays as it is; no other row is touched. */
  lemma OriginalSettles(s: Store, files: Files, id: string, copy: string, original: Row, up: Entry, cache: CachePath)
    requires id in s.files && id in files && files[id] == s.files[id] && copy != id
    ensures var t := FailureRetired(s, files, id, original, up, cache);
            && (id in t <==> !IsCopied(s, id, original, up, cache))
            && (id in t ==> t[id] == if Claims(s.files[id], up, cache)
                  then s.files[id].(uploadPath := None, uploadTarget := None, uploadCache := None) else s.files[id])
            && (forall i :: i != id ==> (i in t <==> i in files) && (i in t ==> t[i] == files[i]))
  {
  }

  lemma OtherStatesStay(s: Store, id: string, original: Row, up: Entry, cache: CachePath, now: int)
    requires Schema(s.files) && CopyCompleted(s, id, original, up, cache, now).Published?
    requires id in s.files && s.files[id].state != Conflict
    ensures id in CopyCompleted(s, id, original, up, cache, now).store.files
  {
  }

  // ---- the file of a claim ----

  /** The step ends the claim of `id`: an acknowledgement, a new claim, a published copy, or the row's removal. */
  ghost predicate EndsClaim(s: Store, step: Step, scan: Scan, id: string)
    requires Schema(s.files) && IsScan(scan)
  {
    match step
    case RowStep(i, action) => i == id && (action.Claim? || action.ClaimCopy?)
    case Commit(i, requested, up, cache, now) => i == id || EarlyEcho(s, id, i, requested, up)
    case CompleteCopy(i, seen, up, cache, now) => i == id
    case Import(entries, block) =>
      exists n :: 0 <= n <= |entries| && RowGone(ImportedAll(s, entries[..n], block, scan), id)
    case _ => false
  }

  predicate RowGone(s: Option<Store>, id: string) {
    s.Some? && id !in s.value.files
  }

  /** The claimed file is on disk, and the row's claim still names it. */
  ghost predicate Holds(s: Store, id: string, c: CachePath) {
    id in s.files && s.files[id].uploadCache == Some(c) && c in s.disk
  }

  lemma {:induction false} ImportKeepsClaim(s: Store, entries: seq<Entry>, block: bool, scan: Scan, id: string)
    requires Schema(s.files) && IsScan(scan) && id in s.files && ImportedAll(s, entries, block, scan).Some?
    requires forall n :: 0 <= n <= |entries| ==> !RowGone(ImportedAll(s, entries[..n], block, scan), id)
    ensures var t := ImportedAll(s, entries, block, scan).value;
            id in t.files && t.files[id].uploadCache == s.files[id].uploadCache
  {
    assert entries[..|entries|] == entries;
    if entries != [] {
      var init := entries[..|entries| - 1];
      forall n | 0 <= n <= |init| ensures !RowGone(ImportedAll(s, init[..n], block, scan), id) {
        assert init[..n] == entries[..n];
      }
      ImportKeepsClaim(s, init, block, scan, id);
      EntryKeepsClaim(ImportedAll(s, init, block, scan).value, entries[|entries| - 1], block, scan, id);
    }
  }

  lemma ImportedKeepsClaim(s: Store, entries: seq<Entry>, block: bool, scan: Scan, id: string)
    requires Schema(s.files) && IsScan(scan) && id in s.files && ImportedAll(s, entries, block, scan).Some?
    requires !EndsClaim(s, Import(entries, block), scan, id)
    ensures var t := ImportedAll(s, entries, block, scan).value;
            id in t.files && t.files[id].uploadCache == s.files[id].uploadCache
  {
    forall n | 0 <= n <= |entries| ensures !RowGone(ImportedAll(s, entries[..n], block, scan), id) {
    }
    ImportKeepsClaim(s, entries, block, scan, id);
  }

  lemma EntryKeepsClaim(s: Store, e: Entry, block: bool, scan: Scan, id: string)
    requires Schema(s.files) && IsScan(scan) && id in s.files && Imported(s, e, block, scan).Some?
    requires id in Imported(s, e, block, scan).value.files
    ensures Imported(s, e, block, scan).value.files[id].uploadCache == s.files[id].uploadCache
  {
    if !Skips(s, e) {
      AppliedTouchesOneRow(s, LocalIdFor(s.files, e.remoteId), e, block, scan);
    }
  }

  lemma CopyKeepsClaim(s: Store, i: string, seen: Row, up: Entry, cache: CachePath, now: int, id: string)
    requires Schema(s.files) && id in s.files && i != id && CopyCompleted(s, i, seen, up, cache, now).Published?
    ensures var t := CopyCompleted(s, i, seen, up, cache, now).store;
            id in t.files && t.files[id].uploadCache == s.files[id].uploadCache
  {
    var copy := LocalIdFor(s.files, up.remoteId);
    CopyExactly(s, i, copy, seen, up, cache, now);
    if id == copy {
      assert Attaches(s.files, copy, CopyCompleted(s, i, seen, up, cache, now).store.files[copy], seen, up, cache, now);
    }
  }

  lemma PolicyKeepsClaim(files: Files, policy: Policy, id: string)
    requires UniquePaths(files) && id in files
    ensures var t := Decided(files, policy); id in t && t[id].uploadCache == files[id].uploadCache
  {
    match policy
    case Repin =>
    case SetPin(i, pinned) =>
    case AllowPins(i) =>
    case Release(path) =>
      var released := Pins.PolicyReleased(files, path);
      assert released[id].uploadCache == files[id].uploadCache;
  }

  lemma StepKeepsClaimRow(s: Store, step: Step, scan: Scan, id: string)
    requires Schema(s.files) && IsScan(scan) && id in s.files && !EndsClaim(s, step, scan, id)
    ensures var t := Apply(s, step, scan); id in t.files && t.files[id].uploadCache == s.files[id].uploadCache
  {
    match step
    case PolicyStep(policy) => PolicyKeepsClaim(s.files, policy, id);
    case Import(entries, block) =>
      if ImportedAll(s, entries, block, scan).Some? {
        ImportedKeepsClaim(s, entries, block, scan, id);
      }
    case Commit(i, requested, up, cache, now) =>
      if Committed(s, i, requested, up, cache, now).Some? { CommitKeepsClaim(s, i, requested, up, cache, now, id); }
    case CompleteCopy(i, seen, up, cache, now) =>
      if CopyCompleted(s, i, seen, up, cache, now).Published? { CopyKeepsClaim(s, i, seen, up, cache, now, id); }
    case RowStep(i, action) => RowStepKeepsClaim(s, i, action, scan, id);
    case _ => FileStepKeepsClaim(s, step, scan, id);
  }

  lemma FileStepKeepsClaim(s: Store, step: Step, scan: Scan, id: string)
    requires Schema(s.files) && IsScan(scan) && id in s.files
    requires step.Finish? || step.ReleaseRecord? || step.Reclaim? || step.WriteBytes? || step.Receive?
    ensures var t := Apply(s, step, scan); id in t.files && t.files[id].uploadCache == s.files[id].uploadCache
  {
  }

  lemma RowStepKeepsClaim(s: Store, i: string, action: RowAction, scan: Scan, id: string)
    requires Schema(s.files) && IsScan(scan) && id in s.files && !EndsClaim(s, RowStep(i, action), scan, id)
    ensures var t := Apply(s, RowStep(i, action), scan);
            id in t.files && t.files[id].uploadCache == s.files[id].uploadCache
  {
  }

  lemma CommitKeepsClaim(s: Store, i: string, requested: Path, up: Entry, cache: CachePath, now: int, id: string)
    requires Schema(s.files) && id in s.files && i != id && !EarlyEcho(s, id, i, requested, up)
    requires Committed(s, i, requested, up, cache, now).Some?
    ensures var t := Committed(s, i, requested, up, cache, now).value;
            id in t.files && t.files[id].uploadCache == s.files[id].uploadCache
  {
    CommitWritesExactly(s, i, requested, up, cache, now);
  }

  lemma StepHolds(s: Store, step: Step, scan: Scan, id: string, c: CachePath)
    requires Schema(s.files) && IsScan(scan) && RefsOnDisk(s) && Enabled(s, step)
    requires Holds(s, id, c) && !EndsClaim(s, step, scan, id)
    ensures RefsOnDisk(Apply(s, step, scan)) && Holds(Apply(s, step, scan), id, c)
  {
    var t := Apply(s, step, scan);
    StepKeepsRefs(s, step, scan);
    StepKeepsClaimRow(s, step, scan, id);
    assert c in RefsOf(t.files[id]) && Kept(RefsOf(t.files[id]), t.disk);
  }

  lemma {:induction false} HeldFileStays(s: Store, steps: seq<Step>, scan: Scan, id: string, c: CachePath)
    requires Schema(s.files) && IsScan(scan) && RefsOnDisk(s) && Holds(s, id, c)
    requires forall n :: 0 <= n < |steps| ==>
      Enabled(Run(s, steps[..n], scan), steps[n]) && !EndsClaim(Run(s, steps[..n], scan), steps[n], scan, id)
    ensures RefsOnDisk(Run(s, steps, scan)) && Holds(Run(s, steps, scan), id, c)
  {
    if steps != [] {
      var n := |steps| - 1;
      forall k | 0 <= k < n
        ensures Enabled(Run(s, steps[..n][..k], scan), steps[..n][k])
        ensures !EndsClaim(Run(s, steps[..n][..k], scan), steps[..n][k], scan, id) {
        assert steps[..n][..k] == steps[..k];
      }
      HeldFileStays(s, steps[..n], scan, id, c);
      StepHolds(Run(s, steps[..n], scan), steps[n], scan, id, c);
    }
  }

  /** From a claim until that row's acknowledgement, next claim, published copy or removal, the file that was claimed
      stays on disk, whatever cache the row takes meanwhile. */
  lemma ClaimedFileStays(s: Store, seen: Row, steps: seq<Step>, scan: Scan, id: string)
    requires Schema(s.files) && IsScan(scan) && RefsOnDisk(s)
    requires CanAct(s, id, Claim(seen)) && seen.cache.Some?
    ensures var claimed := Apply(s, RowStep(id, Claim(seen)), scan);
            Schema(claimed.files)
            && ((forall n :: 0 <= n < |steps| ==>
                  && Enabled(Run(claimed, steps[..n], scan), steps[n])
                  && !EndsClaim(Run(claimed, steps[..n], scan), steps[n], scan, id))
                ==> seen.cache.value in Run(claimed, steps, scan).disk
                    && id in Run(claimed, steps, scan).files
                    && Run(claimed, steps, scan).files[id].uploadCache == seen.cache)
  {
    ApplyKeepsSchema(s, RowStep(id, Claim(seen)), scan);
    StepKeepsRefs(s, RowStep(id, Claim(seen)), scan);
    var claimed := Apply(s, RowStep(id, Claim(seen)), scan);
    assert seen.cache.value in RefsOf(s.files[id]);
    assert Kept(RefsOf(s.files[id]), s.disk);
    assert Holds(claimed, id, seen.cache.value);
    if forall n :: 0 <= n < |steps| ==>
      && Enabled(Run(claimed, steps[..n], scan), steps[n])
      && !EndsClaim(Run(claimed, steps[..n], scan), steps[n], scan, id) {
      HeldFileStays(claimed, steps, scan, id, seen.cache.value);
    }
  }
}
