// Compare-and-set transitions of a row's cache, and the removal of cache files.

module Cache {
  import opened Options
  import opened Paths
  import opened Rows
  import Pins

  // ---- local writes and upload claims ----

  /** The row is still the snapshot `seen`, as far as a writer inspected it. */
  predicate SameBaseline(row: Row, seen: Row) {
    && row.cache == seen.cache && row.cloudId == seen.cloudId && row.etag == seen.etag
    && row.state == seen.state && row.size == seen.size && row.modified == seen.modified
  }

  method BeginCachedWrite(db: Database, id: string, seen: Row) returns (ok: bool)
    requires db.Valid()
    modifies db`files
    ensures db.Valid()
    ensures ok <==>
      && id in old(db.files)
      && var row := old(db.files)[id];
         && row.cache == seen.cache && row.cloudId == seen.cloudId && row.etag == seen.etag
         && row.state == seen.state && row.size == seen.size && row.modified == seen.modified
    ensures db.files == if ok then old(db.files)[id := old(db.files)[id].(state := Writing)] else old(db.files)
  {
    ok := id in db.files && SameBaseline(db.files[id], seen);
    if ok {
      db.files := db.files[id := db.files[id].(state := Writing)];
    }
  }

  predicate ClaimBlocked(s: Store, path: Path) {
    || (exists d :: d in s.deletes &&
          (s.deletes[d].path == path || s.deletes[d].uploadPath == Some(path)
              || s.deletes[d].uploadedPath == Some(path)))
    || (exists op :: op in s.operations && op in s.files &&
          (path == s.files[op].path || Below(s.files[op].path, path)))
  }

  predicate Claimable(s: Store, id: string, seen: Row) {
    && (seen.state.Dirty? || seen.state.Uploading?)
    && id in s.files && s.files[id].path == seen.path && SameBaseline(s.files[id], seen)
    && !ClaimBlocked(s, seen.path)
  }

  function Claimed(row: Row): Row {
    row.(state := Uploading, uploadPath := Some(row.path), uploadTarget := row.cloudId, uploadCache := row.cache)
  }

  /** The delete or upload of a tombstone stands at the path, or a queued operation at or above it. */
  ghost predicate StandsInTheWay(s: Store, path: Path) {
    || (exists d :: d in s.deletes
          && (s.deletes[d].path == path || Some(path) in {s.deletes[d].uploadPath, s.deletes[d].uploadedPath}))
    || (exists op :: op in s.operations && op in s.files
          && (s.files[op].path == path || (s.files[op].path != ROOT && s.files[op].path < path)))
  }

  /** The claim succeeds exactly for the row the worker has seen, dirty or interrupted, with nothing in the way. It
      records name, target and file of what was seen, and changes nothing else. */
  method BeginUpload(db: Database, id: string, seen: Row) returns (ok: bool)
    requires db.Valid()
    modifies db`files
    ensures db.Valid() && ok == Claimable(old(db.View()), id, seen)
    ensures db.files == if ok then old(db.files)[id := Claimed(old(db.files)[id])] else old(db.files)
    ensures ok <==>
      && seen.state in {Dirty, Uploading} && id in old(db.files) && !StandsInTheWay(old(db.View()), seen.path)
      && var row := old(db.files)[id];
         && row.path == seen.path && row.cache == seen.cache && row.cloudId == seen.cloudId
         && row.etag == seen.etag && row.state == seen.state && row.size == seen.size
         && row.modified == seen.modified
    ensures ok ==>
      && id in db.files
      && db.files[id] == old(db.files)[id].(state := Uploading, uploadPath := Some(seen.path),
                                            uploadTarget := seen.cloudId, uploadCache := seen.cache)
  {
    if !seen.state.Dirty? && !seen.state.Uploading? {
      return false;
    }
    ok := id in db.files && db.files[id].path == seen.path && SameBaseline(db.files[id], seen)
          && !ClaimBlocked(db.View(), seen.path);
    if ok {
      var row := db.files[id];
      db.files := db.files[id := row.(
        state := Uploading, uploadPath := Some(row.path), uploadTarget := row.cloudId, uploadCache := row.cache)];
    }
  }

  predicate Conflicting(files: Files, id: string, seen: Row) {
    && id in files && files[id].state == Uploading && files[id].path == seen.path
    && SameBaseline(files[id], seen.(state := Uploading))
  }

  method MarkUploadConflict(db: Database, id: string, seen: Row) returns (ok: bool)
    requires db.Valid()
    modifies db`files
    ensures db.Valid() && ok == Conflicting(old(db.files), id, seen)
    ensures ok <==>
      && id in old(db.files)
      && var row := old(db.files)[id];
         && row.state == Uploading && row.path == seen.path && row.cache == seen.cache
         && row.cloudId == seen.cloudId && row.etag == seen.etag && row.size == seen.size
         && row.modified == seen.modified
    ensures db.files == if ok then old(db.files)[id := old(db.files)[id].(state := Conflict)] else old(db.files)
  {
    ok := id in db.files && db.files[id].state == Uploading && db.files[id].path == seen.path
          && SameBaseline(db.files[id], seen.(state := Uploading));
    if ok {
      db.files := db.files[id := db.files[id].(state := Conflict)];
    }
  }

  function Marked(files: Files, id: string, state: FileState): Files {
    if id in files then files[id := files[id].(state := state)] else files
  }

  method MarkState(db: Database, id: string, state: FileState)
    requires db.Valid()
    modifies db`files
    ensures db.Valid() && db.files == Marked(old(db.files), id, state)
  {
    if id in db.files {
      db.files := db.files[id := db.files[id].(state := state)];
    }
  }

  method MarkDirtyWithSize(db: Database, id: string, size: nat, now: int) returns (ok: bool)
    requires db.Valid()
    modifies db`files
    ensures db.Valid() && ok == (id in old(db.files))
    ensures db.files == if ok then old(db.files)[id := old(db.files)[id].(state := Dirty, size := size,
        modified := now)]
                        else old(db.files)
  {
    if id !in db.files {
      return false;
    }
    db.files := db.files[id := db.files[id].(state := Dirty, size := size, modified := now)];
    return true;
  }

  // ---- downloads ----

  predicate Invalidatable(files: Files, id: string, seen: Row) {
    && id in files
    && var row := files[id];
       && row.cache == seen.cache && row.etag == seen.etag && row.size == seen.size
       && (row.state.Cached? || row.state.Pinned?) && row.cloudId.Some?
  }

  function Invalidated(row: Row): Row {
    row.(cache := None, accessed := None, generation := row.generation + 1,
         state := if row.Effective() then Hydrating else OnlineOnly)
  }

  method InvalidateCachedSnapshot(db: Database, id: string, seen: Row) returns (ok: bool)
    requires db.Valid()
    modifies db`files
    ensures db.Valid() && ok == Invalidatable(old(db.files), id, seen)
    ensures ok <==>
      && id in old(db.files)
      && var row := old(db.files)[id];
         && row.state in {Cached, Pinned} && row.cloudId.Some? && row.cache == seen.cache
         && row.etag == seen.etag && row.size == seen.size
    ensures ok ==>
      && id in db.files
      && var row := old(db.files)[id];
         db.files[id] == row.(cache := None, accessed := None, generation := row.generation + 1,
                              state := if row.pinExplicit || row.pinOrigin.Some? then Hydrating else OnlineOnly)
    ensures db.files == if ok then old(db.files)[id := Invalidated(old(db.files)[id])] else old(db.files)
  {
    ok := Invalidatable(db.files, id, seen);
    if ok {
      var row := db.files[id];
      SameNameKeepsSchema(db.files, id, Invalidated(row));
      db.files := db.files[id := row.(
        cache := None, accessed := None, generation := row.generation + 1,
        state := if row.pinExplicit || row.pinOrigin.Some? then Hydrating else OnlineOnly)];
    }
  }

  predicate Hydratable(files: Files, id: string, generation: nat) {
    && id in files
    && var row := files[id];
       && row.generation == generation && !row.releasePending && row.cloudId.Some?
       && (row.state.OnlineOnly? || row.state.Hydrating? || row.state.Pinned? || row.state.Cached? || row.state.Error?)
  }

  function HydrationBegun(row: Row): Row {
    row.(state := if row.Effective() then Pinned else Hydrating, cache := None, accessed := None)
  }

  method BeginHydration(db: Database, id: string, generation: nat) returns (ok: bool)
    requires db.Valid()
    modifies db`files
    ensures db.Valid() && ok == Hydratable(old(db.files), id, generation)
    ensures ok <==>
      && id in old(db.files)
      && var row := old(db.files)[id];
         && row.generation == generation && !row.releasePending && row.cloudId.Some?
         && row.state in {OnlineOnly, Hydrating, Pinned, Cached, Error}
    ensures ok ==>
      && id in db.files
      && var row := old(db.files)[id];
         db.files[id] == row.(cache := None, accessed := None,
                              state := if row.pinExplicit || row.pinOrigin.Some? then Pinned else Hydrating)
    ensures db.files == if ok then old(db.files)[id := HydrationBegun(old(db.files)[id])] else old(db.files)
  {
    ok := Hydratable(db.files, id, generation);
    if ok {
      var row := db.files[id];
      db.files := db.files[id := row.(
        state := if row.pinExplicit || row.pinOrigin.Some?
            then Pinned else Hydrating, cache := None, accessed := None)];
    }
  }

  /** The row can still take the download of this generation. */
  predicate Finishable(files: Files, id: string, generation: nat) {
    && id in files
    && var row := files[id];
       && row.generation == generation && !row.releasePending
       && (row.state.OnlineOnly? || row.state.Hydrating? || row.state.Pinned?)
  }

  datatype FinishOutcome = Cancelled | Mismatch | Done(store: Store)

  function HydrationFinished(s: Store, id: string, generation: nat, temporary: CachePath, cache: CachePath,
                             now: int): FinishOutcome {
    if !Finishable(s.files, id, generation) then Cancelled
    else if temporary !in s.disk || |s.disk[temporary]| != s.files[id].size then Mismatch
    else
      var row := s.files[id];
      Done(s.(disk := (s.disk - {temporary})[cache := s.disk[temporary]],
              files := s.files[id := row.(state := if row.Effective() then Pinned else Cached,
                                          cache := Some(cache), accessed := Some(now))]))
  }

  /** The row is at the generation of the download, and neither released nor changed by a local write. */
  predicate Waits(files: Files, id: string, generation: nat) {
    && id in files && files[id].generation == generation && !files[id].releasePending
    && files[id].state in {OnlineOnly, Hydrating, Pinned}
  }

  /** The downloaded bytes have become the row's cache, and the partial file is gone. */
  ghost predicate MovedIn(before: Store, after: Store, id: string, temporary: CachePath, cache: CachePath, now: int)
    requires id in before.files && temporary in before.disk
  {
    && cache in after.disk && after.disk[cache] == before.disk[temporary]
    && (forall c :: c != cache ==> (c in after.disk <==> c in before.disk && c != temporary))
    && (forall c :: c in after.disk && c != cache ==> after.disk[c] == before.disk[c])
    && id in after.files && after == before.(files := before.files[id := after.files[id]], disk := after.disk)
    && var row := before.files[id];
       after.files[id] == row.(cache := Some(cache), accessed := Some(now),
                               state := if row.pinExplicit || row.pinOrigin.Some? then Pinned else Cached)
  }

  lemma FinishesExactly(s: Store, id: string, generation: nat, temporary: CachePath, cache: CachePath, now: int)
    ensures var r := HydrationFinished(s, id, generation, temporary, cache, now);
            && (!r.Cancelled? <==> Waits(s.files, id, generation))
            && (r.Done? <==> Waits(s.files, id, generation) && temporary in s.disk
                             && |s.disk[temporary]| == s.files[id].size)
            && (r.Done? ==> MovedIn(s, r.store, id, temporary, cache, now))
  {
  }

  method FinishHydration(db: Database, id: string, generation: nat, temporary: CachePath, cache: CachePath, now: int)
    returns (r: FinishOutcome)
    requires db.Valid()
    modifies db`files, db`disk
    ensures db.Valid() && r == HydrationFinished(old(db.View()), id, generation, temporary, cache, now)
    ensures db.View() == if r.Done? then r.store else old(db.View())
    ensures !r.Cancelled? <==> Waits(old(db.files), id, generation)
    ensures r.Done? <==>
      && Waits(old(db.files), id, generation)
      && temporary in old(db.disk) && |old(db.disk)[temporary]| == old(db.files)[id].size
    ensures r.Done? ==> MovedIn(old(db.View()), db.View(), id, temporary, cache, now)
  {
    FinishesExactly(db.View(), id, generation, temporary, cache, now);
    if !Finishable(db.files, id, generation) {
      return Cancelled;
    }
    var row := db.files[id];
    if temporary !in db.disk || |db.disk[temporary]| != row.size {
      return Mismatch;
    }
    ghost var goal := HydrationFinished(db.View(), id, generation, temporary, cache, now);
    SubsetKeepsSchema(db.files, goal.store.files);
    db.disk := (db.disk - {temporary})[cache := db.disk[temporary]];
    db.files := db.files[id := row.(
      state := if row.pinExplicit || row.pinOrigin.Some?
          then Pinned else Cached, cache := Some(cache), accessed := Some(now))];
    assert goal.store == db.View();
    return Done(db.View());
  }

  function HydrationFailed(files: Files, id: string, generation: nat): Files {
    if id in files && files[id].generation == generation && files[id].state == Hydrating && files[id].cache == None
    then files[id := files[id].(state := OnlineOnly)]
    else files
  }

  method FailHydration(db: Database, id: string, generation: nat)
    requires db.Valid()
    modifies db`files
    ensures db.Valid() && db.files == HydrationFailed(old(db.files), id, generation)
    ensures forall i :: i in db.files <==> i in old(db.files)
    ensures forall i :: i in db.files ==>
      var row := old(db.files)[i];
      db.files[i] == if i == id && row.generation == generation && row.state == Hydrating && row.cache == None
                     then row.(state := OnlineOnly) else row
  {
    if id in db.files && db.files[id].generation == generation && db.files[id].state == Hydrating
        && db.files[id].cache.None? {
      db.files := db.files[id := db.files[id].(state := OnlineOnly)];
    }
  }

  // ---- releases ----

  predicate AllDigits(s: string) {
    s != "" && forall i :: 0 <= i < |s| ==> '0' <= s[i] <= '9'
  }

  const TRASH := ".Trash"
  const TRASH_DASH := ".Trash-"

  /** The freedesktop trash at the mount root, `.Trash-$uid` or `.Trash/$uid`, and all below it. */
  predicate IsMountTrash(p: Path) {
    && p != ROOT
    && if p[0] == TRASH then |p| > 1 && AllDigits(p[1])
       else TRASH_DASH <= p[0] && AllDigits(p[0][|TRASH_DASH|..])
  }

  /** A path is in the trash exactly when it is a folder `.Trash-$uid` or `.Trash/$uid` of the root or lies below
      one, where a uid is a number. */
  lemma TrashExactly(p: Path)
    ensures IsMountTrash(p)
            <==> exists uid :: uid != "" && (forall i :: 0 <= i < |uid| ==> uid[i] in "0123456789")
                               && ([".Trash-" + uid] <= p || [".Trash", uid] <= p)
  {
    forall uid: string ensures AllDigits(uid) <==> uid != "" && forall i :: 0 <= i < |uid| ==> uid[i] in "0123456789" {
      DigitsExactly(uid);
    }
    if IsMountTrash(p) {
      if p[0] == TRASH {
        assert [".Trash", p[1]] <= p;
      } else {
        assert p[0] == ".Trash-" + p[0][|TRASH_DASH|..];
        assert [".Trash-" + p[0][|TRASH_DASH|..]] <= p;
      }
    }
    forall uid | AllDigits(uid) && ([".Trash-" + uid] <= p || [".Trash", uid] <= p) ensures IsMountTrash(p) {
      if [".Trash-" + uid] <= p {
        assert p[0] == ".Trash-" + uid && p[0][|TRASH_DASH|..] == uid;
        assert |TRASH_DASH| == 7 && |p[0]| > |TRASH|;
      } else {
        assert p[0] == ".Trash" && p[1] == uid;
      }
    }
  }

  lemma DigitsExactly(s: string)
    ensures AllDigits(s) <==> s != "" && forall i :: 0 <= i < |s| ==> s[i] in "0123456789"
  {
    forall i | 0 <= i < |s| ensures '0' <= s[i] <= '9' <==> s[i] in "0123456789" {
      DigitExactly(s[i]);
    }
  }

  lemma DigitExactly(c: char)
    ensures '0' <= c <= '9' <==> c in "0123456789"
  {
    if '0' <= c <= '9' {
      var digits := "0123456789";
      assert digits[(c - '0') as int] == c;
    }
  }

  predicate TombstoneRefers(s: Store, c: CachePath) {
    exists d :: d in s.deletes && (s.deletes[d].cache == Some(c) || s.deletes[d].uploadCache == Some(c))
  }

  /** Some row other than `id`, some upload claim or some tombstone still needs the file. */
  predicate NeededBesides(s: Store, id: string, c: CachePath) {
    || (exists i :: i in s.files && (s.files[i].uploadCache == Some(c) || (i != id && s.files[i].cache == Some(c))))
    || TombstoneRefers(s, c)
  }

  /** The row may drop its cache now; `locked` holds the files a reader, writer or upload has open. */
  predicate Releasable(s: Store, id: string, cutoff: Option<int>, locked: set<CachePath>) {
    && id in s.files
    && var row := s.files[id];
       && !row.isDir && !row.Effective() && row.state.Cached? && row.cloudId.Some?
       && (cutoff.Some? ==> !IsMountTrash(row.path) && (row.accessed.Some? ==> row.accessed.value <= cutoff.value))
       && (row.cache.Some? ==> !NeededBesides(s, id, row.cache.value)
                               && !(row.cache.value in s.disk && row.cache.value in locked))
  }

  function CachedReleased(s: Store, id: string): Store
    requires id in s.files
  {
    var row := s.files[id];
    s.(disk := if row.cache.Some? then s.disk - {row.cache.value} else s.disk,
       files := s.files[id := row.(state := OnlineOnly, cache := None, accessed := None, releasePending := false)])
  }

  /** No other row, no upload claim and no tombstone has the row's file, and nobody has it open. */
  ghost predicate Unneeded(s: Store, id: string, locked: set<CachePath>)
    requires id in s.files
  {
    s.files[id].cache.Some? ==>
      var c := s.files[id].cache.value;
      && (forall i :: i in s.files && i != id ==> s.files[i].cache != Some(c))
      && (forall i :: i in s.files ==> s.files[i].uploadCache != Some(c))
      && (forall d :: d in s.deletes ==> s.deletes[d].cache != Some(c) && s.deletes[d].uploadCache != Some(c))
      && (c in s.disk ==> c !in locked)
  }

  /** Outside the trash, and not accessed since. */
  predicate Stale(row: Row, cutoff: int) {
    !IsMountTrash(row.path) && (row.accessed.Some? ==> row.accessed.value <= cutoff)
  }

  /** Exactly these rows have dropped their cache, and nothing else has changed in the table. */
  ghost predicate Dropped(before: Files, after: Files, ids: set<string>) {
    && after.Keys == before.Keys
    && forall id :: id in before ==>
         after[id] == if id in ids
           then before[id].(state := OnlineOnly, cache := None, accessed := None, releasePending := false)
           else before[id]
  }

  /** Exactly their files are gone. */
  ghost predicate DroppedFiles(before: Store, disk: map<CachePath, Bytes>, ids: set<string>) {
    && (forall c :: c in disk <==>
          c in before.disk && forall id :: id in ids && id in before.files ==> before.files[id].cache != Some(c))
    && (forall c :: c in disk ==> disk[c] == before.disk[c])
  }

  lemma ReleasableExactly(s: Store, id: string, cutoff: Option<int>, locked: set<CachePath>)
    ensures Releasable(s, id, cutoff, locked)
            <==> id in s.files && Unneeded(s, id, locked)
                 && var row := s.files[id];
                    && row.state == Cached && !row.isDir && !row.pinExplicit && row.pinOrigin == None
                    && row.cloudId.Some? && (cutoff.Some? ==> Stale(row, cutoff.value))
  {
  }

  lemma ReleasedAlone(s: Store, id: string)
    requires id in s.files
    ensures Dropped(s.files, CachedReleased(s, id).files, {id})
    ensures DroppedFiles(s, CachedReleased(s, id).disk, {id})
  {
    var c := s.files[id].cache;
    assert c.None? ==> s.disk == CachedReleased(s, id).disk;
  }

  method ReleaseCachedRecord(db: Database, id: string, cutoff: Option<int>, locked: set<CachePath>) returns (ok: bool)
    requires db.Valid()
    modifies db`files, db`disk
    ensures db.Valid() && ok == Releasable(old(db.View()), id, cutoff, locked)
    ensures db.View() == if ok then CachedReleased(old(db.View()), id) else old(db.View())
    ensures ok <==>
      && id in old(db.files) && Unneeded(old(db.View()), id, locked)
      && var row := old(db.files)[id];
         && row.state == Cached && !row.isDir && !row.pinExplicit && row.pinOrigin == None
         && row.cloudId.Some? && (cutoff.Some? ==> Stale(row, cutoff.value))
    ensures ok ==> Dropped(old(db.files), db.files, {id}) && DroppedFiles(old(db.View()), db.disk, {id})
  {
    ReleasableExactly(db.View(), id, cutoff, locked);
    ok := MayRelease(db, id, cutoff, locked);
    if ok {
      ReleasedAlone(db.View(), id);
      var row := db.files[id];
      SameNameKeepsSchema(db.files, id, CachedReleased(db.View(), id).files[id]);
      if row.cache.Some? {
        db.disk := db.disk - {row.cache.value};
      }
      db.files := db.files[id := row.(state := OnlineOnly, cache := None, accessed := None, releasePending := false)];
    }
  }

  /** The tests of a release, on the row as it is now. */
  method MayRelease(db: Database, id: string, cutoff: Option<int>, locked: set<CachePath>) returns (ok: bool)
    ensures ok == Releasable(db.View(), id, cutoff, locked)
  {
    if id !in db.files {
      return false;
    }
    var row := db.files[id];
    if row.isDir || row.Effective() || row.state != Cached || row.cloudId.None? {
      return false;
    }
    if cutoff.Some? && (IsMountTrash(row.path) || (row.accessed.Some? && row.accessed.value > cutoff.value)) {
      return false;
    }
    if row.cache.None? {
      return true;
    }
    return !NeededBesides(db.View(), id, row.cache.value) && !(row.cache.value in db.disk && row.cache.value in locked);
  }

  /** Every record of `ids` released in turn, each in its own transaction. */
  function AllReleased(s: Store, ids: seq<string>, cutoff: Option<int>, locked: set<CachePath>): (r: Store)
    ensures r.files.Keys == s.files.Keys
  {
    if ids == [] then s
    else
      var t := AllReleased(s, ids[..|ids| - 1], cutoff, locked);
      var id := ids[|ids| - 1];
      if Releasable(t, id, cutoff, locked) then CachedReleased(t, id) else t
  }

  function ReleasedCount(s: Store, ids: seq<string>, cutoff: Option<int>, locked: set<CachePath>): nat {
    if ids == [] then 0
    else
      var t := AllReleased(s, ids[..|ids| - 1], cutoff, locked);
      ReleasedCount(s, ids[..|ids| - 1], cutoff, locked)
      + if Releasable(t, ids[|ids| - 1], cutoff, locked) then 1 else 0
  }

  method ReleaseRecords(db: Database, ids: seq<string>, cutoff: Option<int>, locked: set<CachePath>)
    returns (count: nat)
    requires db.Valid()
    modifies db`files, db`disk
    ensures db.Valid() && db.View() == AllReleased(old(db.View()), ids, cutoff, locked)
    ensures count == ReleasedCount(old(db.View()), ids, cutoff, locked)
  {
    count := 0;
    for i := 0 to |ids|
      invariant db.Valid() && count == ReleasedCount(old(db.View()), ids[..i], cutoff, locked)
      invariant db.View() == AllReleased(old(db.View()), ids[..i], cutoff, locked)
    {
      assert ids[..i + 1][..i] == ids[..i];
      var ok := ReleaseCachedRecord(db, ids[i], cutoff, locked);
      if ok {
        count := count + 1;
      }
    }
    assert ids[..|ids|] == ids;
  }

  /** The releases that can go through, all judged by the rows as they were at the start. */
  ghost function Free(s: Store, ids: seq<string>, cutoff: Option<int>, locked: set<CachePath>): set<string> {
    set id | id in s.files && id in ids && Releasable(s, id, cutoff, locked)
  }

  /** A release of some rows decides nothing about the others: rows that share a file keep each other from it. */
  lemma OthersStillReleasable(s: Store, t: Store, ids: set<string>, cutoff: Option<int>, locked: set<CachePath>,
                              id: string)
    requires forall i :: i in ids ==> Releasable(s, i, cutoff, locked)
    requires Dropped(s.files, t.files, ids) && DroppedFiles(s, t.disk, ids) && t.deletes == s.deletes
    ensures Releasable(t, id, cutoff, locked) <==> Releasable(s, id, cutoff, locked) && id !in ids
  {
    if id in s.files && id !in ids && s.files[id].cache.Some? {
      var c := s.files[id].cache.value;
      assert forall i :: i in ids ==> s.files[i].cache != Some(c);
      assert NeededBesides(t, id, c) <==> NeededBesides(s, id, c);
    }
  }

  lemma OneMoreDropped(s: Store, t: Store, ids: set<string>, cutoff: Option<int>, locked: set<CachePath>, id: string)
    requires Dropped(s.files, t.files, ids) && DroppedFiles(s, t.disk, ids)
    requires id in s.files && id !in ids
    ensures Dropped(s.files, CachedReleased(t, id).files, ids + {id})
    ensures DroppedFiles(s, CachedReleased(t, id).disk, ids + {id})
  {
    ReleasedAlone(t, id);
  }

  /** The store after the release of these rows, and of nothing else. */
  ghost predicate AtOnce(s: Store, t: Store, free: set<string>) {
    Dropped(s.files, t.files, free) && DroppedFiles(s, t.disk, free) && t == s.(files := t.files, disk := t.disk)
  }

  lemma OneMoreAtOnce(s: Store, t: Store, free: set<string>, cutoff: Option<int>, locked: set<CachePath>, id: string)
    requires AtOnce(s, t, free) && forall i :: i in free ==> Releasable(s, i, cutoff, locked)
    requires Releasable(t, id, cutoff, locked)
    ensures Releasable(s, id, cutoff, locked) && id !in free && AtOnce(s, CachedReleased(t, id), free + {id})
  {
    OthersStillReleasable(s, t, free, cutoff, locked, id);
    OneMoreDropped(s, t, free, cutoff, locked, id);
  }

  /** Releasing records in turn drops exactly those that could go at the start, whatever their order. */
  lemma {:induction false} ReleasedAtOnce(s: Store, ids: seq<string>, cutoff: Option<int>, locked: set<CachePath>)
    ensures AtOnce(s, AllReleased(s, ids, cutoff, locked), Free(s, ids, cutoff, locked))
    ensures ReleasedCount(s, ids, cutoff, locked) == |Free(s, ids, cutoff, locked)|
  {
    if ids == [] {
      assert Free(s, ids, cutoff, locked) == {};
    } else {
      var init, id := ids[..|ids| - 1], ids[|ids| - 1];
      var t, free := AllReleased(s, init, cutoff, locked), Free(s, init, cutoff, locked);
      ReleasedAtOnce(s, init, cutoff, locked);
      OneMoreFree(s, ids, cutoff, locked);
      if Releasable(t, id, cutoff, locked) {
        OneMoreAtOnce(s, t, free, cutoff, locked, id);
      } else {
        OthersStillReleasable(s, t, free, cutoff, locked, id);
      }
    }
  }

  lemma OneMoreFree(s: Store, ids: seq<string>, cutoff: Option<int>, locked: set<CachePath>)
    requires ids != []
    ensures var init, id := ids[..|ids| - 1], ids[|ids| - 1];
            Free(s, ids, cutoff, locked) ==
              Free(s, init, cutoff, locked) + if Releasable(s, id, cutoff, locked) then {id} else {}
  {
    var init, id := ids[..|ids| - 1], ids[|ids| - 1];
    assert forall i :: i in ids <==> i in init || i == id;
  }

  // ---- releasing a path ----

  predicate Hungry(row: Row) {
    row.state == Hydrating && row.cache == None
  }

  /** The second statement of `release_path`: cancel downloads, and queue what cannot be dropped yet. */
  function DownloadCancelled(row: Row): Row {
    row.(generation := row.generation + 1,
         releasePending := !(row.state == OnlineOnly || Hungry(row)),
         state := if Hungry(row) then OnlineOnly else row.state)
  }

  predicate CancelApplies(top: Path, row: Row) {
    !row.isDir && !row.Effective() && InSubtree(top, row.path)
  }

  /** The transaction of `release_path`: policy and cancellation together. */
  function PathReleased(files: Files, top: Path): (r: Files)
    ensures r.Keys == files.Keys
  {
    var policy := Pins.PolicyReleased(files, top);
    map id | id in policy :: if CancelApplies(top, policy[id]) then DownloadCancelled(policy[id]) else policy[id]
  }

  function DownloadsCancelled(files: Files, top: Path): set<string> {
    var policy := Pins.PolicyReleased(files, top);
    set id | id in policy && CancelApplies(top, policy[id]) && Hungry(policy[id])
  }

  /** A file of the subtree that waits for bytes: its download is cancelled. */
  predicate Starves(files: Files, top: Path, id: string) {
    && id in files && top <= files[id].path && !files[id].isDir
    && files[id].cache == None && files[id].state in {Pinned, Hydrating}
  }

  /** A clean file on the cloud that no other row, claim or tombstone shares, and nobody has open. */
  ghost predicate Frees(s: Store, id: string, locked: set<CachePath>) {
    && id in s.files && !s.files[id].isDir && s.files[id].cloudId.Some? && Unneeded(s, id, locked)
    && (s.files[id].state == Cached || (s.files[id].state == Pinned && s.files[id].cache.Some?))
  }

  /** The columns of a row of the released subtree. */
  predicate Releases(before: Row, after: Row, starves: bool, frees: bool) {
    && !after.pinExplicit && after.pinOrigin == None && after.pinBlocked
    && after.state == (if starves || frees then OnlineOnly
                       else if before.state == Pinned then (if before.isDir then OnlineOnly else Cached)
                       else before.state)
    && after.cache == (if frees then None else before.cache)
    && after.accessed == (if frees then None else before.accessed)
    && after.generation == (if before.isDir then before.generation else before.generation + 1)
    && after.releasePending == (if before.isDir then before.releasePending
                                else !starves && !frees && before.state != OnlineOnly)
    && after == before.(pinExplicit := after.pinExplicit, pinOrigin := after.pinOrigin,
                        pinBlocked := after.pinBlocked, state := after.state, cache := after.cache,
                        accessed := after.accessed, generation := after.generation,
                        releasePending := after.releasePending)
  }

  /** The rows and the files after a release of `top`, when the rows of `ids` were tried. */
  ghost predicate SubtreeReleased(s: Store, t: Store, top: Path, ids: set<string>, locked: set<CachePath>) {
    && t.files.Keys == s.files.Keys && t == s.(files := t.files, disk := t.disk)
    && (forall id :: id in s.files ==>
          if top <= s.files[id].path
          then Releases(s.files[id], t.files[id], Starves(s.files, top, id), id in ids && Frees(s, id, locked))
          else t.files[id] == s.files[id])
    && (forall c :: c in t.disk <==>
          c in s.disk && forall id :: id in ids && Frees(s, id, locked) ==> s.files[id].cache != Some(c))
    && (forall c :: c in t.disk ==> t.disk[c] == s.disk[c])
  }

  /** Files of the subtree are unpinned but keep their caches until they are released one by one. */
  lemma PathReleasedRow(files: Files, top: Path, id: string)
    requires id in files
    ensures var row := PathReleased(files, top)[id];
            if top <= files[id].path then
              Releases(files[id], row, Starves(files, top, id), false)
            else row == files[id]
  {
    assert InSubtree(top, files[id].path) <==> top <= files[id].path;
  }

  lemma CancelledExactly(files: Files, top: Path)
    ensures DownloadsCancelled(files, top) == Starving(files, top)
  {
    forall id | id in files
      ensures id in DownloadsCancelled(files, top) <==> Starves(files, top, id) {
      assert InSubtree(top, files[id].path) <==> top <= files[id].path;
    }
  }

  lemma SameReferences(s: Store, t: Store, id: string, locked: set<CachePath>)
    requires t == s.(files := t.files) && t.files.Keys == s.files.Keys && id in s.files
    requires forall i :: i in s.files ==>
      t.files[i].cache == s.files[i].cache && t.files[i].uploadCache == s.files[i].uploadCache
    ensures Unneeded(t, id, locked) <==> Unneeded(s, id, locked)
  {
  }

  lemma FreesExactly(s: Store, top: Path, ids: seq<string>, locked: set<CachePath>, id: string)
    requires id in s.files && (id in ids ==> top <= s.files[id].path)
    ensures var policy := s.(files := PathReleased(s.files, top));
            id in Free(policy, ids, None, locked) <==> id in ids && Frees(s, id, locked)
  {
    var policy := s.(files := PathReleased(s.files, top));
    forall i | i in s.files
      ensures policy.files[i].cache == s.files[i].cache && policy.files[i].uploadCache == s.files[i].uploadCache {
      PathReleasedRow(s.files, top, i);
    }
    PathReleasedRow(s.files, top, id);
    SameReferences(s, policy, id, locked);
    ReleasableExactly(policy, id, None, locked);
  }

  /** The rows of `ids` that a release frees. */
  ghost function Freed(s: Store, ids: set<string>, locked: set<CachePath>): set<string> {
    set id | id in ids && Frees(s, id, locked)
  }

  function Starving(files: Files, top: Path): set<string> {
    set id | id in files && Starves(files, top, id)
  }

  lemma FreedRow(s: Store, top: Path, t: Store, free: set<string>, id: string)
    requires id in s.files && (id in free ==> top <= s.files[id].path && !s.files[id].isDir
                                              && !Starves(s.files, top, id))
    requires Dropped(PathReleased(s.files, top), t.files, free)
    ensures if top <= s.files[id].path
            then Releases(s.files[id], t.files[id], Starves(s.files, top, id), id in free)
            else t.files[id] == s.files[id]
  {
    PathReleasedRow(s.files, top, id);
  }

  lemma ReleasedRows(s: Store, top: Path, t: Store, free: set<string>, ids: set<string>, locked: set<CachePath>)
    requires free == Freed(s, ids, locked) && forall id :: id in free ==> id in s.files && top <= s.files[id].path
    requires Dropped(PathReleased(s.files, top), t.files, free)
    requires DroppedFiles(s.(files := PathReleased(s.files, top)), t.disk, free)
    requires t == s.(files := t.files, disk := t.disk)
    ensures SubtreeReleased(s, t, top, ids, locked)
  {
    forall id | id in s.files
      ensures if top <= s.files[id].path
              then Releases(s.files[id], t.files[id], Starves(s.files, top, id), id in ids && Frees(s, id, locked))
              else t.files[id] == s.files[id] {
      FreedRow(s, top, t, free, id);
    }
    forall id | id in s.files ensures PathReleased(s.files, top)[id].cache == s.files[id].cache {
      PathReleasedRow(s.files, top, id);
    }
  }

  lemma FreeIsFreed(s: Store, top: Path, ids: seq<string>, locked: set<CachePath>)
    requires forall id :: id in ids ==> id in s.files && top <= s.files[id].path
    ensures Free(s.(files := PathReleased(s.files, top)), ids, None, locked) == Freed(s, (set id | id in ids), locked)
  {
    forall id | id in s.files
      ensures id in Free(s.(files := PathReleased(s.files, top)), ids, None, locked)
              <==> id in Freed(s, (set id | id in ids), locked) {
      FreesExactly(s, top, ids, locked, id);
    }
  }

  /** No row of the subtree stays pinned, and every clean file that can go is online-only with its cache gone. */
  lemma ReleaseLeavesNothingPinned(s: Store, t: Store, top: Path, ids: set<string>, locked: set<CachePath>)
    requires SubtreeReleased(s, t, top, ids, locked)
    ensures forall id :: id in t.files && top <= t.files[id].path ==> t.files[id].state != Pinned
    ensures forall id :: id in ids && Frees(s, id, locked) && top <= s.files[id].path ==>
              && t.files[id].state == OnlineOnly && t.files[id].cache == None
              && (s.files[id].cache.Some? ==> s.files[id].cache.value !in t.disk)
    ensures forall id :: Starves(s.files, top, id) ==> t.files[id].state == OnlineOnly
  {
  }

  /** The rows below the path, as the query lists them. */
  ghost predicate Listing(files: Files, top: Path, order: seq<string>) {
    forall id :: id in order <==> id in files && top < files[id].path
  }

  /** The rows a release tries one by one: those below a folder, or the file itself. */
  function Tried(files: Files, record: string): set<string>
    requires record in files
  {
    set id | id in files && if files[record].isDir then files[record].path < files[id].path else id == record
  }

  lemma ListedReleased(s: Store, record: string, ids: seq<string>, locked: set<CachePath>)
    requires record in s.files
    requires if s.files[record].isDir then Listing(s.files, s.files[record].path, ids) else ids == [record]
    ensures var top := s.files[record].path;
            var policy := s.(files := PathReleased(s.files, top));
            && SubtreeReleased(s, AllReleased(policy, ids, None, locked), top, Tried(s.files, record), locked)
            && ReleasedCount(policy, ids, None, locked) == |Freed(s, Tried(s.files, record), locked)|
  {
    var top := s.files[record].path;
    var policy := s.(files := PathReleased(s.files, top));
    assert Tried(s.files, record) == set id | id in ids;
    FreeIsFreed(s, top, ids, locked);
    ReleasedAtOnce(policy, ids, None, locked);
    ReleasedRows(s, top, AllReleased(policy, ids, None, locked), Freed(s, Tried(s.files, record), locked),
                 Tried(s.files, record), locked);
  }

  /** `order` is the order in which the query returned the descendants. Every file of the subtree is unpinned and its
      downloads are cancelled. A clean file that nothing else shares or has open is online-only afterwards, without a
      cache and with its file gone, and so is one that was waiting for bytes; the result counts both. */
  method ReleasePath(db: Database, path: Path, order: seq<string>, locked: set<CachePath>)
    returns (ok: bool, released: nat)
    requires db.Valid()
    modifies db`files, db`disk
    ensures db.Valid() && ok == (exists id :: id in old(db.files) && old(db.files)[id].path == path)
    ensures !ok ==> db.View() == old(db.View()) && released == 0
    ensures forall id :: id in old(db.files) && old(db.files)[id].path == path ==>
      var s := old(db.View()).(files := PathReleased(old(db.files), path));
      var ids := if old(db.files)[id].isDir then order else [id];
      && db.View() == AllReleased(s, ids, None, locked)
      && released == |DownloadsCancelled(old(db.files), path)| + ReleasedCount(s, ids, None, locked)
    ensures forall id ::
      id in old(db.files) && old(db.files)[id].path == path && Listing(old(db.files), path, order) ==>
      && SubtreeReleased(old(db.View()), db.View(), path, Tried(old(db.files), id), locked)
      && released == |Starving(old(db.files), path)| + |Freed(old(db.View()), Tried(old(db.files), id), locked)|
  {
    if !(exists id :: id in db.files && db.files[id].path == path) {
      return false, 0;
    }
    var record :| record in db.files && db.files[record].path == path;
    released := ReleaseKnown(db, record, order, locked);
    return true, released;
  }

  method ReleaseKnown(db: Database, record: string, order: seq<string>, locked: set<CachePath>) returns (released: nat)
    requires db.Valid() && record in db.files
    modifies db`files, db`disk
    ensures db.Valid()
    ensures var files, path := old(db.files), old(db.files)[record].path;
            var s := old(db.View()).(files := PathReleased(files, path));
            var ids := if files[record].isDir then order else [record];
            && db.View() == AllReleased(s, ids, None, locked)
            && released == |DownloadsCancelled(files, path)| + ReleasedCount(s, ids, None, locked)
    ensures var s, path := old(db.View()), old(db.files)[record].path;
            Listing(s.files, path, order) ==>
              && SubtreeReleased(s, db.View(), path, Tried(s.files, record), locked)
              && released == |Starving(s.files, path)| + |Freed(s, Tried(s.files, record), locked)|
  {
    var path := db.files[record].path;
    var ids := if db.files[record].isDir then order else [record];
    var cancelled := DownloadsCancelled(db.files, path);
    CancelledExactly(db.files, path);
    if Listing(db.files, path, order) {
      ListedReleased(db.View(), record, ids, locked);
    }
    PathReleasedKeepsSchema(db.files, path);
    db.files := PathReleased(db.files, path);
    var count := ReleaseRecords(db, ids, None, locked);
    released := |cancelled| + count;
  }

  lemma PathReleasedKeepsSchema(files: Files, top: Path)
    requires Schema(files)
    ensures Schema(PathReleased(files, top))
  {
    var after := PathReleased(files, top);
    assert forall id :: id in files ==> after[id].path == files[id].path && after[id].cloudId == files[id].cloudId;
  }

  /** A committed release retires the generation of every file of the subtree, and only those. */
  lemma ReleaseRetiresGenerations(files: Files, top: Path, id: string)
    requires id in files
    ensures PathReleased(files, top)[id].generation ==
            files[id].generation + if !files[id].isDir && InSubtree(top, files[id].path) then 1 else 0
  {
  }

  /** The records a retention scan finds expired. */
  predicate Expired(row: Row, cutoff: int) {
    && row.state == Cached && !row.Effective() && !IsMountTrash(row.path)
    && (row.accessed.Some? ==> row.accessed.value <= cutoff)
  }

  function ExpiredIds(files: Files, order: seq<string>, cutoff: int): seq<string> {
    if order == [] then []
    else
      var id := order[|order| - 1];
      ExpiredIds(files, order[..|order| - 1], cutoff) + if id in files && Expired(files[id], cutoff) then [id] else []
  }

  /** A clean cached file outside the trash, not pinned nor accessed since, that nothing else needs. */
  ghost predicate Prunable(s: Store, id: string, cutoff: int, locked: set<CachePath>) {
    && id in s.files && Unneeded(s, id, locked)
    && var row := s.files[id];
       && row.state == Cached && !row.isDir && !row.pinExplicit && row.pinOrigin == None && row.cloudId.Some?
       && !IsMountTrash(row.path) && (row.accessed.Some? ==> row.accessed.value <= cutoff)
  }

  lemma {:induction false} ExpiredIdsExactly(files: Files, order: seq<string>, cutoff: int, id: string)
    ensures id in ExpiredIds(files, order, cutoff) <==> id in order && id in files && Expired(files[id], cutoff)
  {
    if order != [] {
      ExpiredIdsExactly(files, order[..|order| - 1], cutoff, id);
      assert id in order <==> id in order[..|order| - 1] || id == order[|order| - 1];
    }
  }

  lemma PrunesExactly(s: Store, order: seq<string>, cutoff: int, locked: set<CachePath>)
    ensures Free(s, ExpiredIds(s.files, order, cutoff), Some(cutoff), locked)
         == set id | id in s.files && id in order && Prunable(s, id, cutoff, locked)
  {
    forall id | id in s.files
      ensures id in Free(s, ExpiredIds(s.files, order, cutoff), Some(cutoff), locked)
              <==> id in order && Prunable(s, id, cutoff, locked) {
      ExpiredIdsExactly(s.files, order, cutoff, id);
      ReleasableExactly(s, id, Some(cutoff), locked);
    }
  }

  /** The table is scanned in `order`. Exactly the scanned rows that can be pruned at the start lose their cache. */
  method PruneCache(db: Database, cutoff: int, order: seq<string>, locked: set<CachePath>) returns (pruned: nat)
    requires db.Valid()
    modifies db`files, db`disk
    ensures db.Valid()
    ensures db.View() == AllReleased(old(db.View()), ExpiredIds(old(db.files), order, cutoff), Some(cutoff), locked)
    ensures pruned == ReleasedCount(old(db.View()), ExpiredIds(old(db.files), order, cutoff), Some(cutoff), locked)
    ensures var gone := set id | id in old(db.files) && id in order && Prunable(old(db.View()), id, cutoff, locked);
            && Dropped(old(db.files), db.files, gone) && DroppedFiles(old(db.View()), db.disk, gone) && pruned == |gone|
  {
    PrunesExactly(db.View(), order, cutoff, locked);
    ReleasedAtOnce(db.View(), ExpiredIds(db.files, order, cutoff), Some(cutoff), locked);
    var records := [];
    for i := 0 to |order|
      invariant records == ExpiredIds(db.files, order[..i], cutoff)
    {
      assert order[..i + 1][..i] == order[..i];
      if order[i] in db.files && Expired(db.files[order[i]], cutoff) {
        records := records + [order[i]];
      }
    }
    assert order[..|order|] == order;
    pruned := ReleaseRecords(db, records, Some(cutoff), locked);
  }

  // ---- reclaiming ----

  predicate Referenced(s: Store, c: CachePath) {
    || (exists i :: i in s.files && (s.files[i].cache == Some(c) || s.files[i].uploadCache == Some(c)))
    || TombstoneRefers(s, c)
  }

  function Reclaimed(s: Store, c: CachePath, locked: set<CachePath>): Store {
    if Referenced(s, c) || (c in s.disk && c in locked) then s
    else s.(disk := s.disk - {c}, retired := s.retired - {c})
  }

  /** A row's cache, an upload claim or a tombstone names the file. */
  ghost predicate Named(s: Store, c: CachePath) {
    || (exists i :: i in s.files && Some(c) in {s.files[i].cache, s.files[i].uploadCache})
    || (exists d :: d in s.deletes && Some(c) in {s.deletes[d].cache, s.deletes[d].uploadCache})
  }

  lemma ReferencedExactly(s: Store, c: CachePath)
    ensures Referenced(s, c) <==> Named(s, c)
  {
    if i :| i in s.files && Some(c) in {s.files[i].cache, s.files[i].uploadCache} {
      assert s.files[i].cache == Some(c) || s.files[i].uploadCache == Some(c);
    }
    if d :| d in s.deletes && Some(c) in {s.deletes[d].cache, s.deletes[d].uploadCache} {
      assert s.deletes[d].cache == Some(c) || s.deletes[d].uploadCache == Some(c);
    }
    forall i | i in s.files && (s.files[i].cache == Some(c) || s.files[i].uploadCache == Some(c)) ensures Named(s, c) {
      assert Some(c) in {s.files[i].cache, s.files[i].uploadCache};
    }
    forall d | d in s.deletes && (s.deletes[d].cache == Some(c) || s.deletes[d].uploadCache == Some(c))
      ensures Named(s, c) {
      assert Some(c) in {s.deletes[d].cache, s.deletes[d].uploadCache};
    }
  }

  method RemoveUnreferencedCache(db: Database, c: CachePath, locked: set<CachePath>) returns (removed: bool)
    requires db.Valid()
    modifies db`disk, db`retired
    ensures db.Valid() && db.View() == Reclaimed(old(db.View()), c, locked)
    ensures removed == (c in old(db.disk) && c !in db.disk) && |db.disk| + (if removed then 1 else 0) == |old(db.disk)|
    ensures removed <==> c in old(db.disk) && c !in locked && !Named(old(db.View()), c)
    ensures db.disk == if removed then old(db.disk) - {c} else old(db.disk)
    ensures db.retired == if Named(old(db.View()), c) || (c in old(db.disk) && c in locked)
                          then old(db.retired) else old(db.retired) - {c}
  {
    ReferencedExactly(db.View(), c);
    if Referenced(db.View(), c) {
      return false;
    }
    removed := c in db.disk;
    if removed {
      if c in locked {
        return false;
      }
      db.disk := db.disk - {c};
    }
    assert db.disk == old(db.disk) - {c};
    db.retired := db.retired - {c};
  }

  method PruneRetiredCache(db: Database, locked: set<CachePath>) returns (removed: nat)
    requires db.Valid()
    modifies db`disk, db`retired
    ensures db.Valid() && |db.disk| + removed == |old(db.disk)|
    ensures forall c :: c in db.disk <==>
              c in old(db.disk) && !(c in old(db.retired) && !Named(old(db.View()), c) && c !in locked)
    ensures forall c :: c in db.disk ==> db.disk[c] == old(db.disk)[c]
    ensures forall c :: c in db.retired <==>
              c in old(db.retired) && (Named(old(db.View()), c) || (c in old(db.disk) && c in locked))
  {
    var todo := db.retired;
    removed := 0;
    while todo != {}
      invariant db.Valid() && todo <= old(db.retired) && |db.disk| + removed == |old(db.disk)|
      invariant forall c :: c in db.disk <==>
        c in old(db.disk) && !(c in old(db.retired) - todo && !Named(old(db.View()), c) && c !in locked)
      invariant forall c :: c in db.disk ==> db.disk[c] == old(db.disk)[c]
      invariant forall c :: c in db.retired <==>
        c in old(db.retired) && (c in todo || Named(old(db.View()), c) || (c in old(db.disk) && c in locked))
      decreases todo
    {
      var c :| c in todo;
      assert Named(db.View(), c) == Named(old(db.View()), c);
      var one := RemoveUnreferencedCache(db, c, locked);
      if one {
        removed := removed + 1;
      }
      todo := todo - {c};
    }
  }
}
