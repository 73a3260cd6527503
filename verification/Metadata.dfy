// Importing cloud metadata and acknowledging uploads.

module Metadata {
  import opened Options
  import opened Paths
  import opened Renames
  import opened Rows
  import Pins

  // ---- the guards of an import ----

  predicate DeletePending(s: Store, e: Entry) {
    exists d :: d in s.deletes &&
      (d == e.remoteId
       || s.deletes[d].cloudId == Some(e.remoteId)
       || s.deletes[d].path == e.path
       || s.deletes[d].uploadPath == Some(e.path)
       || s.deletes[d].uploadedPath == Some(e.path))
  }

  /** The local identity an entry belongs to: the row bound to its cloud id, or the cloud id itself. */
  function LocalIdFor(files: Files, cloud: string): (id: string)
    requires Schema(files)
    ensures if exists i :: i in files && files[i].cloudId == Some(cloud)
            then id in files && files[id].cloudId == Some(cloud)
            else id == cloud
  {
    if exists i :: i in files && files[i].cloudId == Some(cloud)
    then var i :| i in files && files[i].cloudId == Some(cloud); i
    else cloud
  }

  predicate OperationPending(s: Store, id: string, e: Entry) {
    exists op :: op in s.operations && op in s.files &&
      var ancestor := s.files[op].path;
      (op == id
       || e.path == ancestor
       || Below(ancestor, e.path)
       || (id in s.files && Below(ancestor, s.files[id].path)))
  }

  predicate ProtectedHere(files: Files, id: string, e: Entry) {
    || (exists i :: i in files && i != id && files[i].path == e.path && Protected(files[i].state))
    || (id in files && Protected(files[id].state))
  }

  predicate Skips(s: Store, e: Entry)
    requires Schema(s.files)
  {
    var id := LocalIdFor(s.files, e.remoteId);
    DeletePending(s, e) || OperationPending(s, id, e) || ProtectedHere(s.files, id, e)
  }

  // ---- what an import does to the rows ----

  predicate VersionChanged(row: Row, e: Entry) {
    row.etag != e.etag || row.size != e.size || row.isDir != e.isDir
  }

  /** A cache file is retired only while it still has the length the row recorded for it. */
  function RetiredBy(s: Store, id: string, e: Entry): set<CachePath> {
    if id in s.files
       && var row := s.files[id];
          && !row.isDir && row.cache.Some? && (row.state.Cached? || row.state.Pinned?) && VersionChanged(row, e)
          && row.cache.value in s.disk && |s.disk[row.cache.value]| == row.size
    then {s.files[id].cache.value}
    else {}
  }

  /** A changed version drops the cache and retires the download generation of a file. */
  function DetachedRow(row: Row, e: Entry): Row {
    if !row.isDir && VersionChanged(row, e)
    then row.(cache := None, accessed := None, state := OnlineOnly, generation := row.generation + 1)
    else row
  }

  function Detached(files: Files, id: string, e: Entry): Files {
    if id in files then files[id := DetachedRow(files[id], e)] else files
  }

  function WithoutPath(files: Files, path: Path, id: string): Files {
    map i | i in files && (i == id || files[i].path != path) :: files[i]
  }

  const LOCAL_UPLOAD := "local-upload-"

  function CloudIdOf(e: Entry): Option<string> {
    if LOCAL_UPLOAD <= e.remoteId then None else Some(e.remoteId)
  }

  function FreshRow(e: Entry, block: bool): Row {
    Row(CloudIdOf(e), e.path, e.isDir, e.size, e.modified, e.etag, OnlineOnly, None, None,
        false, None, block, None, None, None, None, 0, false)
  }

  function Refreshed(row: Row, e: Entry): Row {
    row.(path := e.path, isDir := e.isDir, size := e.size, etag := e.etag, cloudId := CloudIdOf(e),
         modified := if !row.isDir && row.etag != "" && row.etag == e.etag && row.size == e.size
                     then row.modified else e.modified)
  }

  function Upserted(files: Files, id: string, e: Entry, block: bool): Files {
    files[id := if id in files then Refreshed(files[id], e) else FreshRow(e, block)]
  }

  /** The table once the entry's row stands at the entry's path. */
  function Placed(files: Files, id: string, e: Entry, block: bool): Files {
    Upserted(WithoutPath(Detached(files, id, e), e.path, id), id, e, block)
  }

  lemma PlacedRows(files: Files, id: string, e: Entry, block: bool)
    ensures var placed := Placed(files, id, e, block);
            && id in placed
            && placed[id] == (if id in files then Refreshed(DetachedRow(files[id], e), e) else FreshRow(e, block))
            && (forall i :: i in placed && i != id ==> i in files && placed[i] == files[i] && files[i].path != e.path)
            && (forall i :: i in files && i !in placed ==> files[i].path == e.path)
  {
  }

  /** One accepted entry; None when an index is violated. */
  function Applied(s: Store, id: string, e: Entry, block: bool, scan: Scan): Option<Store>
    requires IsScan(scan)
  {
    var retired := s.retired + RetiredBy(s, id, e);
    var files := Placed(s.files, id, e, block);
    if id in s.files && s.files[id].path != e.path then
      var before := s.files[id].path;
      var rows := Descendants(files, before);
      match RebasedInOrder(files, rows, scan(rows), before, e.path)
      case None => None
      case Some(moved) => Some(s.(files := moved, retired := retired))
    else Some(s.(files := files, retired := retired))
  }

  lemma PlacedKeepsSchema(files: Files, id: string, e: Entry, block: bool)
    requires Schema(files) && id == LocalIdFor(files, e.remoteId)
    ensures Schema(Placed(files, id, e, block))
  {
    var placed := Placed(files, id, e, block);
    PlacedRows(files, id, e, block);
    assert placed[id].path == e.path && placed[id].cloudId == CloudIdOf(e);
    assert forall i :: i in placed && i != id ==> files[i].cloudId != Some(e.remoteId);
    assert UniquePaths(placed);
    assert UniqueClouds(placed);
  }

  lemma AppliedKeepsSchema(s: Store, id: string, e: Entry, block: bool, scan: Scan)
    requires Schema(s.files) && IsScan(scan) && id == LocalIdFor(s.files, e.remoteId)
    ensures Applied(s, id, e, block, scan).Some? ==> Schema(Applied(s, id, e, block, scan).value.files)
  {
    PlacedKeepsSchema(s.files, id, e, block);
    var files := Placed(s.files, id, e, block);
    if id in s.files && s.files[id].path != e.path {
      var rows := Descendants(files, s.files[id].path);
      assert Enumerates(scan(rows), rows.Keys);
      RebasedKeepsSchema(files, rows, scan(rows), s.files[id].path, e.path);
    }
  }

  /** One entry of the batch. */
  function Imported(s: Store, e: Entry, block: bool, scan: Scan): (r: Option<Store>)
    requires Schema(s.files) && IsScan(scan)
    ensures r.Some? ==> Schema(r.value.files)
  {
    if Skips(s, e) then Some(s)
    else
      var id := LocalIdFor(s.files, e.remoteId);
      AppliedKeepsSchema(s, id, e, block, scan);
      Applied(s, id, e, block, scan)
  }

  /** The transaction over a whole batch. */
  function ImportedAll(s: Store, entries: seq<Entry>, block: bool, scan: Scan): (r: Option<Store>)
    requires Schema(s.files) && IsScan(scan)
    ensures r.Some? ==> Schema(r.value.files)
  {
    if entries == [] then Some(s)
    else
      match ImportedAll(s, entries[..|entries| - 1], block, scan)
      case None => None
      case Some(t) => Imported(t, entries[|entries| - 1], block, scan)
  }

  lemma {:induction false} ImportTouchesRowsAndRetired(s: Store, entries: seq<Entry>, block: bool, scan: Scan)
    requires Schema(s.files) && IsScan(scan) && ImportedAll(s, entries, block, scan).Some?
    ensures var t := ImportedAll(s, entries, block, scan).value; t == s.(files := t.files, retired := t.retired)
  {
    if entries != [] {
      ImportTouchesRowsAndRetired(s, entries[..|entries| - 1], block, scan);
    }
  }

  lemma {:induction false} FailedPrefixFails(s: Store, entries: seq<Entry>, i: nat, block: bool, scan: Scan)
    requires Schema(s.files) && IsScan(scan) && i <= |entries|
    requires ImportedAll(s, entries[..i], block, scan) == None
    ensures ImportedAll(s, entries, block, scan) == None
  {
    if i == |entries| {
      assert entries[..i] == entries;
    } else {
      assert entries[..|entries| - 1][..i] == entries[..i];
      FailedPrefixFails(s, entries[..|entries| - 1], i, block, scan);
    }
  }

  // ---- the import ----

  /** One turn of the loop over the entries. */
  method UpsertEntry(s: Store, e: Entry, block: bool, scan: Scan) returns (r: Option<Store>)
    requires Schema(s.files) && IsScan(scan)
    ensures r == Imported(s, e, block, scan)
  {
    if DeletePending(s, e) {
      return Some(s);
    }
    var id := LocalIdFor(s.files, e.remoteId);
    if OperationPending(s, id, e) {
      return Some(s);
    }
    if ProtectedHere(s.files, id, e) {
      return Some(s);
    }
    var retired := s.retired + RetiredBy(s, id, e);
    var files := Detached(s.files, id, e);
    files := WithoutPath(files, e.path, id);
    files := Upserted(files, id, e, block);
    if id in s.files && s.files[id].path != e.path {
      var moved := RebaseDescendants(files, s.files[id].path, e.path, scan);
      if moved == None {
        return None;
      }
      files := moved.value;
    }
    return Some(s.(files := files, retired := retired));
  }

  /** `upsert_metadata` and `upsert_metadata_batch`: all entries in one transaction, then the pins. */
  method UpsertMetadataEntries(db: Database, entries: seq<Entry>, block: bool, scan: Scan) returns (ok: bool)
    requires db.Valid() && IsScan(scan)
    modifies db
    ensures db.Valid()
    ensures match ImportedAll(old(db.View()), entries, block, scan)
            case None => !ok && db.View() == old(db.View())
            case Some(s) => ok && db.View() == s.(files := Pins.Recomputed(s.files))
  {
    var s := db.View();
    for n := 0 to |entries|
      invariant ImportedAll(old(db.View()), entries[..n], block, scan) == Some(s)
      invariant Schema(s.files) && db.View() == old(db.View())
    {
      assert entries[..n + 1][..n] == entries[..n];
      var next := UpsertEntry(s, entries[n], block, scan);
      if next == None {
        FailedPrefixFails(db.View(), entries, n + 1, block, scan);
        return false;
      }
      s := next.value;
    }
    assert entries[..|entries|] == entries;
    ImportTouchesRowsAndRetired(db.View(), entries, block, scan);
    db.files, db.retired := s.files, s.retired;
    Pins.RecomputePinInheritance(db);
    return true;
  }

  // ---- local work survives an import ----

  /** The row of the entry is rewritten; every other row that remains keeps everything but its path,
      which changes only when the row lay below the entry's old path. */
  ghost predicate OneRowTouched(before: Files, id: string, e: Entry, block: bool, after: Files) {
    && id in after
    && after[id] == (if id in before
        then Refreshed(DetachedRow(before[id], e), e) else FreshRow(e, block)).(path := after[id].path)
    && (forall i :: i in after && i != id ==>
          && i in before
          && after[i] == before[i].(path := after[i].path)
          && (after[i].path == before[i].path || FollowsFolder(before, id, e, i, after[i].path)))
    && (forall i :: i in before && i !in after ==> before[i].path == e.path)
  }

  predicate FollowsFolder(files: Files, folder: string, e: Entry, i: string, p: Path)
    requires i in files
  {
    && folder in files && files[folder].path != e.path && files[folder].path < files[i].path
    && p == Rebase(files[folder].path, e.path, files[i].path)
  }

  lemma PlacedTouchesOneRow(files: Files, id: string, e: Entry, block: bool)
    ensures OneRowTouched(files, id, e, block, Placed(files, id, e, block))
  {
    PlacedRows(files, id, e, block);
  }

  lemma MovedTouchesOneRow(files: Files, id: string, e: Entry, block: bool, placed: Files, moved: Files)
    requires OneRowTouched(files, id, e, block, placed) && id in files && files[id].path != e.path
    requires forall i :: i in placed && i != id ==> placed[i] == files[i]
    requires moved.Keys == placed.Keys
    requires forall i :: i in placed ==>
      moved[i] == placed[i].(path := if files[id].path < placed[i].path
                                     then Rebase(files[id].path, e.path, placed[i].path) else placed[i].path)
    ensures OneRowTouched(files, id, e, block, moved)
  {
  }

  lemma AppliedTouchesOneRow(s: Store, id: string, e: Entry, block: bool, scan: Scan)
    requires IsScan(scan) && Applied(s, id, e, block, scan).Some?
    ensures var t := Applied(s, id, e, block, scan).value;
            t == s.(files := t.files, retired := s.retired + RetiredBy(s, id, e))
            && OneRowTouched(s.files, id, e, block, t.files)
  {
    var placed := Placed(s.files, id, e, block);
    PlacedTouchesOneRow(s.files, id, e, block);
    PlacedRows(s.files, id, e, block);
    if id in s.files && s.files[id].path != e.path {
      RebasedRows(placed, s.files[id].path, e.path, scan);
      MovedTouchesOneRow(s.files, id, e, block, placed, Applied(s, id, e, block, scan).value.files);
    }
  }

  /** When an entry fails: its folder was renamed, and a row stands in the way of one below it. */
  lemma AppliedFailsExactly(s: Store, id: string, e: Entry, block: bool, scan: Scan)
    requires Schema(s.files) && IsPathScan(scan) && id == LocalIdFor(s.files, e.remoteId)
    ensures Applied(s, id, e, block, scan) == None
            <==> id in s.files && s.files[id].path != e.path
                 && !NothingInTheWay(Placed(s.files, id, e, block), s.files[id].path, e.path)
  {
    if id in s.files && s.files[id].path != e.path {
      var files, before := Placed(s.files, id, e, block), s.files[id].path;
      PlacedKeepsSchema(s.files, id, e, block);
      ScanLists(files, before, scan);
      assert InPathOrder(Descendants(files, before), scan(Descendants(files, before)));
      RenameSucceedsExactly(files, scan(Descendants(files, before)), before, e.path);
    }
  }

  lemma RebasedOnceMore(before: Path, after: Path)
    requires before < after && forall k :: 0 <= k < |after| ==> after[k] != ""
    ensures Rebase(before, after, after) != after
  {
    var p := Rebase(before, after, after);
    if before != ROOT {
      assert |p| == 2 * |after| - |before|;
    } else if |after| == 1 {
      assert |p[0]| == 2 * |after[0]|;
    }
  }

  /** A renamed folder ends at the path of its entry, unless that lies below its old path: then the folder's own row
      is taken for a descendant and moved once more. */
  lemma RenamedRowStandsAtItsEntry(s: Store, id: string, e: Entry, block: bool, scan: Scan)
    requires IsScan(scan) && id in s.files && s.files[id].path != e.path && Applied(s, id, e, block, scan).Some?
    requires forall k :: 0 <= k < |e.path| ==> e.path[k] != ""
    ensures var t := Applied(s, id, e, block, scan).value;
            id in t.files && (t.files[id].path == e.path <==> !(s.files[id].path < e.path))
  {
    PlacedRows(s.files, id, e, block);
    RebasedRows(Placed(s.files, id, e, block), s.files[id].path, e.path, scan);
    if s.files[id].path < e.path {
      RebasedOnceMore(s.files[id].path, e.path);
    }
  }

  /** One entry leaves a row with newer local bytes as it is; at most its path follows a renamed folder. */
  lemma ImportKeepsLocalWork(s: Store, e: Entry, block: bool, scan: Scan, id: string)
    requires Schema(s.files) && IsScan(scan) && Imported(s, e, block, scan).Some?
    requires id in s.files && Protected(s.files[id].state)
    ensures var t := Imported(s, e, block, scan).value;
            && id in t.files
            && t.files[id] == s.files[id].(path := t.files[id].path)
            && (t.files[id].path == s.files[id].path
                || FollowsFolder(s.files, LocalIdFor(s.files, e.remoteId), e, id, t.files[id].path))
  {
    if !Skips(s, e) {
      var local := LocalIdFor(s.files, e.remoteId);
      AppliedTouchesOneRow(s, local, e, block, scan);
    }
  }

  /** What a row with newer local bytes keeps: all but its path and the pin bookkeeping. */
  predicate SameLocalWork(before: Row, after: Row) {
    after == before.(path := after.path, pinOrigin := after.pinOrigin, releasePending := after.releasePending)
  }

  lemma {:induction false} BatchKeepsRow(s: Store, entries: seq<Entry>, block: bool, scan: Scan, id: string)
    requires Schema(s.files) && IsScan(scan) && ImportedAll(s, entries, block, scan).Some?
    requires id in s.files && Protected(s.files[id].state)
    ensures var t := ImportedAll(s, entries, block, scan).value;
            id in t.files && t.files[id] == s.files[id].(path := t.files[id].path)
  {
    if entries != [] {
      BatchKeepsRow(s, entries[..|entries| - 1], block, scan, id);
      var t := ImportedAll(s, entries[..|entries| - 1], block, scan).value;
      ImportKeepsLocalWork(t, entries[|entries| - 1], block, scan, id);
    }
  }

  /** No import of any batch, with the pin recomputation that follows, loses or alters local work. */
  lemma BatchKeepsLocalWork(s: Store, entries: seq<Entry>, block: bool, scan: Scan, id: string)
    requires Schema(s.files) && IsScan(scan) && ImportedAll(s, entries, block, scan).Some?
    requires id in s.files && Protected(s.files[id].state)
    ensures var after := Pins.Recomputed(ImportedAll(s, entries, block, scan).value.files);
            Schema(after) && id in after && SameLocalWork(s.files[id], after[id])
  {
    BatchKeepsRow(s, entries, block, scan, id);
    var t := ImportedAll(s, entries, block, scan).value;
    Pins.RecomputedKeepsSchema(t.files);
    Pins.RecomputedKeepsLocalWork(t.files, id);
  }

  // ---- acknowledging an upload ----

  /** The clean row a delta may have imported at the requested path before the acknowledgement. */
  predicate IsEcho(s: Store, id: string, local: string, requested: Path, up: Entry)
  {
    && id in s.files && id != local && id !in s.operations
    && var row := s.files[id];
       && row.cloudId == Some(up.remoteId) && row.path == requested && row.etag == up.etag && row.size == up.size
       && !row.isDir && !row.pinExplicit && Clean(row.state)
  }

  predicate IsCurrentGeneration(row: Row, requested: Path, cache: CachePath) {
    row.path == requested && row.state == Uploading && row.cache == Some(cache)
  }

  function Acknowledged(row: Row, requested: Path, up: Entry, cache: CachePath, now: int): Row {
    var current := IsCurrentGeneration(row, requested, cache);
    row.(uploadPath := None, uploadTarget := None, uploadCache := None,
         cloudId := if current || row.cloudId == None then Some(up.remoteId) else row.cloudId,
         etag := if row.cloudId == None || row.cloudId == Some(up.remoteId) then up.etag else row.etag,
         size := if current then up.size else row.size,
         state := if !current then row.state else if row.Effective() then Pinned else Cached,
         cache := if current then Some(cache) else row.cache,
         accessed := if current then Some(now) else row.accessed)
  }

  predicate CloudTaken(files: Files, cloud: Option<string>, id: string) {
    cloud.Some? && exists i :: i in files && i != id && files[i].cloudId == cloud
  }

  function Echoes(s: Store, local: string, requested: Path, up: Entry): set<string> {
    if local in s.files && s.files[local].cloudId == None
    then set i | i in s.files && IsEcho(s, i, local, requested, up)
    else {}
  }

  function CachesOf(files: Files, ids: set<string>): set<CachePath> {
    set i | i in ids && i in files && files[i].cache.Some? :: files[i].cache.value
  }

  /** The transaction of `commit_uploaded`; None when the row is gone or its cloud id is taken. */
  function Committed(s: Store, local: string, requested: Path, up: Entry, cache: CachePath,
                     now: int): (r: Option<Store>)
    requires Schema(s.files)
    ensures r.Some? ==> Schema(r.value.files)
  {
    if local !in s.files then None
    else
      var row := s.files[local];
      var rest := s.files - Echoes(s, local, requested, up);
      var acked := Acknowledged(row, requested, up, cache, now);
      if CloudTaken(rest, acked.cloudId, local) then None
      else
        Some(s.(files := rest[local := acked],
                retired := s.retired + CachesOf(s.files, Echoes(s, local, requested, up)),
                operations := if row.path != requested && row.cloudId == None
                              then s.operations[local := Operation(Move, row.path, now)]
                              else s.operations))
  }

  method CommitUploaded(db: Database, local: string, requested: Path, up: Entry, cache: CachePath, now: int)
    returns (ok: bool)
    requires db.Valid()
    modifies db
    ensures db.Valid()
    ensures match Committed(old(db.View()), local, requested, up, cache, now)
            case None => !ok && db.View() == old(db.View())
            case Some(s) => ok && db.View() == s
  {
    if local !in db.files {
      return false;
    }
    var current := db.files[local];
    var files, retired := RetireEcho(db.View(), local, requested, up);
    var acked := Acknowledged(current, requested, up, cache, now);
    if CloudTaken(files, acked.cloudId, local) {
      return false;
    }
    ghost var goal := Committed(db.View(), local, requested, up, cache, now);
    db.files, db.retired := files[local := acked], retired;
    if current.path != requested && current.cloudId.None? {
      db.operations := db.operations[local := Operation(Move, current.path, now)];
    }
    assert goal == Some(db.View());
    return true;
  }

  method RetireEcho(s: Store, local: string, requested: Path, up: Entry) returns (files: Files, retired: set<CachePath>)
    requires Schema(s.files)
    ensures files == s.files - Echoes(s, local, requested, up)
    ensures retired == s.retired + CachesOf(s.files, Echoes(s, local, requested, up))
  {
    files, retired := s.files, s.retired;
    if local in files && files[local].cloudId.None? {
      var echoes := set i | i in files && IsEcho(s, i, local, requested, up);
      if echoes != {} {
        var echo :| echo in echoes;
        EchoIsUnique(s, local, requested, up, echoes, echo);
        if files[echo].cache.Some? {
          retired := retired + {files[echo].cache.value};
        }
        files := files - {echo};
      }
    }
    assert files == s.files - Echoes(s, local, requested, up);
  }

  lemma EchoIsUnique(s: Store, local: string, requested: Path, up: Entry, echoes: set<string>, echo: string)
    requires Schema(s.files) && echo in echoes
    requires forall i :: i in echoes ==> IsEcho(s, i, local, requested, up)
    ensures echoes == {echo}
  {
  }

  // ---- the acknowledgement and its delta echo commute ----

  /** `upsert_metadata` of a single entry. */
  function Upsert(s: Store, e: Entry, scan: Scan): (r: Option<Store>)
    requires Schema(s.files) && IsScan(scan)
  {
    match ImportedAll(s, [e], false, scan)
    case None => None
    case Some(t) => Some(t.(files := Pins.Recomputed(t.files)))
  }

  lemma UpsertIsImport(s: Store, e: Entry, scan: Scan)
    requires Schema(s.files) && IsScan(scan)
    ensures ImportedAll(s, [e], false, scan) == Imported(s, e, false, scan)
  {
    assert [e][..0] == [];
    assert ImportedAll(s, [], false, scan) == Some(s);
  }

  /** The acknowledged first upload of an unbound file, with nothing else at its name or under its new id. */
  ghost predicate FirstUpload(s: Store, local: string, requested: Path, up: Entry)
  {
    && Schema(s.files)
    && local in s.files && s.files[local].cloudId == None && !s.files[local].isDir && Protected(s.files[local].state)
    && up.path == requested && !up.isDir && up.etag != "" && CloudIdOf(up) == Some(up.remoteId)
    && up.remoteId !in s.files && up.remoteId !in s.operations
    && (forall i :: i in s.files ==> s.files[i].cloudId != Some(up.remoteId))
    && (forall i :: i in s.files && i != local ==> s.files[i].path != requested)
  }

  /** Acknowledging and re-pinning a row are independent. */
  lemma AcknowledgedCommutesWithPins(row: Row, origin: Option<string>, requested: Path, up: Entry, cache: CachePath,
                                     now: int)
    requires Protected(row.state)
    ensures Acknowledged(Pins.Repinned(row, origin), requested, up, cache, now)
         == Pins.Repinned(Acknowledged(row, requested, up, cache, now), origin)
  {
  }

  lemma FirstUploadCommits(s: Store, local: string, requested: Path, up: Entry, cache: CachePath, now: int)
    requires FirstUpload(s, local, requested, up)
    ensures Committed(s, local, requested, up, cache, now) == Some(s.(
              files := s.files[local := Acknowledged(s.files[local], requested, up, cache, now)],
              operations := if s.files[local].path == requested then s.operations
                            else s.operations[local := Operation(Move, s.files[local].path, now)]))
  {
    assert Echoes(s, local, requested, up) == {};
    assert s.files - {} == s.files;
    assert s.retired + CachesOf(s.files, {}) == s.retired;
  }

  /** An entry that repeats what its row already says changes nothing. */
  lemma RepeatedEntryIsIdle(s: Store, id: string, e: Entry, scan: Scan)
    requires IsScan(scan) && Schema(s.files) && id in s.files && s.files[id].path == e.path
    requires !VersionChanged(s.files[id], e) && !e.isDir && e.etag != "" && s.files[id].cloudId == CloudIdOf(e)
    ensures Applied(s, id, e, false, scan) == Some(s)
  {
    assert WithoutPath(s.files, e.path, id) == s.files;
    assert Refreshed(s.files[id], e) == s.files[id];
    assert s.files[id := s.files[id]] == s.files;
    assert s.retired + RetiredBy(s, id, e) == s.retired;
  }

  /** After the acknowledgement the echo changes no row. */
  lemma EchoAfterAcknowledgement(s: Store, local: string, requested: Path, up: Entry, cache: CachePath, now: int,
                                 scan: Scan)
    requires FirstUpload(s, local, requested, up) && IsScan(scan)
    ensures var c := Committed(s, local, requested, up, cache, now);
            c.Some? && Imported(c.value, up, false, scan) == c
  {
    FirstUploadCommits(s, local, requested, up, cache, now);
    var c := Committed(s, local, requested, up, cache, now).value;
    assert c.files[local].cloudId == Some(up.remoteId);
    assert LocalIdFor(c.files, up.remoteId) == local;
    if !Skips(c, up) {
      RepeatedEntryIsIdle(c, local, up, scan);
    }
  }

  /** Before the acknowledgement the echo at most adds a clean row at the requested path. */
  lemma EchoBeforeAcknowledgement(s: Store, local: string, requested: Path, up: Entry, scan: Scan)
    requires FirstUpload(s, local, requested, up) && IsScan(scan)
    ensures var t := Imported(s, up, false, scan);
            t == Some(s) ||
            (s.files[local].path != requested && t == Some(s.(files := s.files[up.remoteId := FreshRow(up, false)])))
  {
    assert LocalIdFor(s.files, up.remoteId) == up.remoteId;
    if !Skips(s, up) {
      assert !ProtectedHere(s.files, up.remoteId, up);
      assert s.files[local].path != requested;
      assert WithoutPath(s.files, up.path, up.remoteId) == s.files;
      assert s.retired + RetiredBy(s, up.remoteId, up) == s.retired;
    }
  }

  /** The store after the acknowledgement and the echo, in whichever order. */
  ghost function Settled(s: Store, local: string, requested: Path, up: Entry, cache: CachePath, now: int): Store
    requires FirstUpload(s, local, requested, up)
  {
    var files := s.files[local := Acknowledged(s.files[local], requested, up, cache, now)];
    UpsertedPathsStay(s.files, local, requested, up, cache, now);
    s.(files := Pins.Recomputed(files),
       operations := if s.files[local].path == requested then s.operations
                     else s.operations[local := Operation(Move, s.files[local].path, now)])
  }

  lemma UpsertedPathsStay(files: Files, local: string, requested: Path, up: Entry, cache: CachePath, now: int)
    requires UniquePaths(files) && local in files
    ensures UniquePaths(files[local := Acknowledged(files[local], requested, up, cache, now)])
  {
    var after := files[local := Acknowledged(files[local], requested, up, cache, now)];
    assert forall i :: i in after ==> i in files && after[i].path == files[i].path;
  }

  /** The store `t` after the import of the echo, before the pins are recomputed. */
  ghost predicate EchoImported(s: Store, t: Store, local: string, requested: Path, up: Entry)
    requires local in s.files
  {
    && t == s.(files := t.files) && Schema(t.files)
    && (t.files == s.files
        || (s.files[local].path != requested && t.files == s.files[up.remoteId := FreshRow(up, false)]))
  }

  lemma RepinnedFreshRow(e: Entry, origin: Option<string>)
    ensures var row := Pins.Repinned(FreshRow(e, false), origin);
            && row.cloudId == CloudIdOf(e) && row.path == e.path && row.etag == e.etag && row.size == e.size
            && row.isDir == e.isDir && !row.pinExplicit && Clean(row.state) && row.cache == None
  {
  }

  lemma EchoIsCoalesced(s: Store, t: Store, local: string, requested: Path, up: Entry)
    requires FirstUpload(s, local, requested, up) && EchoImported(s, t, local, requested, up)
    ensures var u := t.(files := Pins.Recomputed(t.files));
            && Echoes(u, local, requested, up) == t.files.Keys - s.files.Keys
            && CachesOf(u.files, Echoes(u, local, requested, up)) == {}
  {
    var u := t.(files := Pins.Recomputed(t.files));
    forall i | i in t.files ensures IsEcho(u, i, local, requested, up) <==> i !in s.files {
      if i !in s.files {
        RepinnedFreshRow(up, Pins.OriginFrom(Pins.ExplicitRoots(t.files), t.files[i]));
      }
    }
  }

  lemma PinsIgnoreEcho(s: Store, t: Store, local: string, requested: Path, up: Entry, cache: CachePath, now: int)
    requires FirstUpload(s, local, requested, up) && EchoImported(s, t, local, requested, up)
    ensures var final := s.files[local := Acknowledged(s.files[local], requested, up, cache, now)];
            && UniquePaths(final)
            && Pins.ExplicitRoots(t.files) == Pins.ExplicitRoots(s.files) == Pins.ExplicitRoots(final)
  {
    var final := s.files[local := Acknowledged(s.files[local], requested, up, cache, now)];
    UpsertedPathsStay(s.files, local, requested, up, cache, now);
    Pins.SameRoots(s.files, t.files);
    Pins.SameRoots(s.files, final);
  }

  lemma AcknowledgedRowsAgree(roots: map<Path, string>, files: Files, more: Files, local: string,
                              requested: Path, up: Entry, cache: CachePath, now: int)
    requires local in files && Protected(files[local].state)
    requires files.Keys <= more.Keys && forall i :: i in files ==> more[i] == files[i]
    ensures var repinned := Pins.RepinnedAll(roots, more);
            (repinned - (more.Keys - files.Keys))[local := Acknowledged(repinned[local], requested, up, cache, now)]
            == Pins.RepinnedAll(roots, files[local := Acknowledged(files[local], requested, up, cache, now)])
  {
    AcknowledgedCommutesWithPins(files[local], Pins.OriginFrom(roots, files[local]), requested, up, cache, now);
  }

  /** The acknowledgement gives the row its pinned form whether or not the pins were recomputed before. */
  lemma CommitAfterEcho(s: Store, t: Store, local: string, requested: Path, up: Entry, cache: CachePath, now: int)
    requires FirstUpload(s, local, requested, up) && EchoImported(s, t, local, requested, up)
    ensures Schema(Pins.Recomputed(t.files))
    ensures Committed(t.(files := Pins.Recomputed(t.files)), local, requested, up, cache, now)
         == Some(Settled(s, local, requested, up, cache, now))
  {
    Pins.RecomputedKeepsSchema(t.files);
    EchoIsCoalesced(s, t, local, requested, up);
    PinsIgnoreEcho(s, t, local, requested, up, cache, now);
    AcknowledgedRowsAgree(Pins.ExplicitRoots(s.files), s.files, t.files, local, requested, up, cache, now);
    CommitsOnto(t.(files := Pins.Recomputed(t.files)), s, local, requested, up, cache, now);
  }

  lemma CommitsOnto(u: Store, s: Store, local: string, requested: Path, up: Entry, cache: CachePath, now: int)
    requires Schema(u.files) && local in u.files && local in s.files
    requires u == s.(files := u.files)
    requires u.files[local].cloudId == None && u.files[local].path == s.files[local].path
    requires forall i :: i in u.files - Echoes(u, local, requested, up) ==> u.files[i].cloudId != Some(up.remoteId)
    requires CachesOf(u.files, Echoes(u, local, requested, up)) == {}
    ensures Committed(u, local, requested, up, cache, now) == Some(s.(
              files := (u.files - Echoes(u, local, requested, up))[local := Acknowledged(u.files[local], requested,
                  up, cache, now)],
              operations := if s.files[local].path == requested then s.operations
                            else s.operations[local := Operation(Move, s.files[local].path, now)]))
  {
    assert s.retired + {} == s.retired;
  }

  lemma SettledHasOneOwner(s: Store, local: string, requested: Path, up: Entry, cache: CachePath, now: int)
    requires FirstUpload(s, local, requested, up)
    ensures var t := Settled(s, local, requested, up, cache, now);
            && (forall i :: i in t.files ==> (t.files[i].cloudId == Some(up.remoteId) <==> i == local))
            && (forall i :: i in t.files && t.files[i].path == requested ==> i == local)
            && t.files.Keys == s.files.Keys
  {
  }

  /** A first upload's acknowledgement and the delta echo of the uploaded entry commute, renamed or
      rewritten meanwhile or not. They leave one owner of the new cloud id, no row at a name the file
      has left, and a queued move exactly when it was renamed. */
  lemma AcknowledgementAndEchoCommute(s: Store, local: string, requested: Path, up: Entry, cache: CachePath, now: int,
                                      scan: Scan)
    requires FirstUpload(s, local, requested, up) && IsScan(scan)
    ensures var acked := Committed(s, local, requested, up, cache, now);
            var echoed := Upsert(s, up, scan);
            && acked.Some? && echoed.Some? && Schema(echoed.value.files)
            && Upsert(acked.value, up, scan) == Committed(echoed.value, local, requested, up, cache, now)
            && var t := Upsert(acked.value, up, scan);
               && t.Some?
               && (forall i :: i in t.value.files ==> (t.value.files[i].cloudId == Some(up.remoteId) <==> i == local))
               && (forall i :: i in t.value.files && t.value.files[i].path == requested ==> i == local)
               && t.value.files.Keys == s.files.Keys
               && t.value.operations == (if s.files[local].path == requested then s.operations
                                         else s.operations[local := Operation(Move, s.files[local].path, now)])
  {
    FirstUploadCommits(s, local, requested, up, cache, now);
    EchoAfterAcknowledgement(s, local, requested, up, cache, now, scan);
    var acked := Committed(s, local, requested, up, cache, now).value;
    UpsertIsImport(acked, up, scan);
    assert Upsert(acked, up, scan) == Some(Settled(s, local, requested, up, cache, now));
    SettledHasOneOwner(s, local, requested, up, cache, now);
    EchoBeforeAcknowledgement(s, local, requested, up, scan);
    UpsertIsImport(s, up, scan);
    CommitAfterEcho(s, Imported(s, up, false, scan).value, local, requested, up, cache, now);
  }

  // ---- publishing the recovery copy of a file the cloud lost ----

  datatype CopyOutcome = Absent | Refused | Published(store: Store)

  /** The recovery copy's row, attached to the retained bytes. */
  function CopyRow(files: Files, copy: string, original: Row, up: Entry, cache: CachePath, now: int): Row {
    if copy in files then
      files[copy].(size := up.size, modified := original.modified, etag := up.etag,
                   state := if files[copy].Effective() then Pinned else Cached,
                   cache := Some(cache), accessed := Some(now))
    else
      Row(Some(up.remoteId), up.path, false, up.size, original.modified, up.etag, Cached, Some(cache), Some(now),
          false, None, false, original.localMode, None, None, None, 0, false)
  }

  /** The row still describes exactly the failed generation whose bytes were copied. */
  predicate IsFailedGeneration(s: Store, row: Row, id: string, original: Row, up: Entry, cache: CachePath) {
    && row.state == Conflict && row.cache == Some(cache) && row.cloudId == original.cloudId
    && row.size == original.size && row.modified == original.modified && row.etag == original.etag
    && OwnsClaim(row, up, cache) && id !in s.operations
  }

  predicate OwnsClaim(row: Row, up: Entry, cache: CachePath) {
    row.uploadPath == Some(up.path) && row.uploadCache == Some(cache) && row.uploadTarget == None
  }

  function ClaimCleared(row: Row): Row {
    row.(uploadPath := None, uploadTarget := None, uploadCache := None)
  }

  predicate CopyRefused(files: Files, id: string, copy: string, up: Entry) {
    || copy == id
    || (copy in files && !(files[copy].cloudId == Some(up.remoteId) && Clean(files[copy].state)))
    || (copy !in files && PathTaken(files, up.path, copy))
  }

  /** The version the copy's row held before, when nothing else can still need it. */
  function CacheReplaced(files: Files, copy: string, cache: CachePath): set<CachePath> {
    if copy in files && (files[copy].state.Cached? || files[copy].state.Pinned?) && files[copy].cache.Some?
    then {files[copy].cache.value} - {cache}
    else {}
  }

  /** Retires the failed generation, or only its claim. */
  function FailureRetired(s: Store, files: Files, id: string, original: Row, up: Entry, cache: CachePath): Files
    requires id in files
  {
    if IsFailedGeneration(s, files[id], id, original, up, cache) then files - {id}
    else if OwnsClaim(files[id], up, cache) then files[id := ClaimCleared(files[id])]
    else files
  }

  /** The transaction of `complete_missing_conflict_upload`, before the pins are recomputed. */
  function CopyCompleted(s: Store, id: string, original: Row, up: Entry, cache: CachePath, now: int): (r: CopyOutcome)
    requires Schema(s.files)
    ensures r.Published? ==> Schema(r.store.files)
  {
    if id !in s.files || (exists d :: d in s.deletes && s.deletes[d].localId == Some(id)) then Absent
    else
      var copy := LocalIdFor(s.files, up.remoteId);
      if CopyRefused(s.files, id, copy, up) then Refused
      else
        var files := s.files[copy := CopyRow(s.files, copy, original, up, cache, now)];
        var settled := FailureRetired(s, files, id, original, up, cache);
        CopyRowKeepsSchema(s.files, id, original, up, cache, now);
        SubsetKeepsSchema(files, settled);
        Published(s.(files := settled,
                     retired := s.retired + CacheReplaced(s.files, copy, cache)))
  }

  method CompleteMissingConflictUpload(db: Database, id: string, original: Row, up: Entry, cache: CachePath, now: int)
    returns (ok: bool, published: bool)
    requires db.Valid()
    modifies db
    ensures db.Valid()
    ensures match CopyCompleted(old(db.View()), id, original, up, cache, now)
            case Absent => ok && !published && db.View() == old(db.View())
            case Refused => !ok && !published && db.View() == old(db.View())
            case Published(s) => ok && published && db.View() == s.(files := Pins.Recomputed(s.files))
  {
    if id !in db.files || exists d :: d in db.deletes && db.deletes[d].localId == Some(id) {
      return true, false;
    }
    var s := db.View();
    var copy := LocalIdFor(s.files, up.remoteId);
    if CopyRefused(s.files, id, copy, up) {
      return false, false;
    }
    var files := s.files[copy := CopyRow(s.files, copy, original, up, cache, now)];
    var retired := s.retired + CacheReplaced(s.files, copy, cache);
    if IsFailedGeneration(s, files[id], id, original, up, cache) {
      files := files - {id};
    } else if OwnsClaim(files[id], up, cache) {
      files := files[id := ClaimCleared(files[id])];
    }
    db.files, db.retired := files, retired;
    assert CopyCompleted(s, id, original, up, cache, now) == Published(db.View());
    Pins.RecomputePinInheritance(db);
    return true, true;
  }

  lemma CopyRowKeepsSchema(files: Files, id: string, original: Row, up: Entry, cache: CachePath, now: int)
    requires Schema(files)
    ensures var copy := LocalIdFor(files, up.remoteId);
            !CopyRefused(files, id, copy, up) ==> Schema(files[copy := CopyRow(files, copy, original, up, cache, now)])
  {
    var copy := LocalIdFor(files, up.remoteId);
    if !CopyRefused(files, id, copy, up) {
      var after := files[copy := CopyRow(files, copy, original, up, cache, now)];
      if copy in files {
        SubsetKeepsSchema(files, after);
      } else {
        assert forall i :: i in after && i != copy ==> i in files && after[i] == files[i];
        assert UniquePaths(after);
        assert UniqueClouds(after);
      }
    }
  }

  /** The copy becomes the one owner of its cloud id and of the bytes. The original disappears exactly
      when it still is the failed generation; a newer save or a queued move stays pending, at most
      losing the acknowledged claim; no other row changes. */
  lemma CopyKeepsOtherWork(s: Store, id: string, original: Row, up: Entry, cache: CachePath, now: int)
    requires Schema(s.files) && CopyCompleted(s, id, original, up, cache, now).Published?
    ensures var t := CopyCompleted(s, id, original, up, cache, now).store;
            var copy := LocalIdFor(s.files, up.remoteId);
            && Schema(t.files) && copy != id && id in s.files
            && copy in t.files && t.files[copy].cloudId == Some(up.remoteId)
            && t.files[copy].cache == Some(cache) && t.files[copy].etag == up.etag && t.files[copy].size == up.size
            && (id !in t.files <==> IsFailedGeneration(s, s.files[id], id, original, up, cache))
            && (id in t.files ==>
                  t.files[id] == (if OwnsClaim(s.files[id], up, cache) then ClaimCleared(s.files[id]) else s.files[id]))
            && (forall i :: i in s.files && i != id && i != copy ==> i in t.files && t.files[i] == s.files[i])
            && t.files.Keys <= s.files.Keys + {copy}
  {
  }
}
