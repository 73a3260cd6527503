// What one imported entry makes of the tables, column by column.

module Imports {
  import opened Options
  import opened Paths
  import opened Renames
  import opened Rows
  import opened Metadata

  // ---- which entries are left out ----

  /** The row the entry speaks of: the one bound to its id, or else the one named like it. */
  ghost predicate Speaks(files: Files, e: Entry, id: string) {
    if exists i :: i in files && files[i].cloudId == Some(e.remoteId)
    then id in files && files[id].cloudId == Some(e.remoteId)
    else id == e.remoteId
  }

  /** The tombstone is for the entry's id or its path. */
  predicate Names(d: string, tombstone: Tombstone, e: Entry) {
    || d == e.remoteId || tombstone.cloudId == Some(e.remoteId)
    || tombstone.path == e.path || tombstone.uploadPath == Some(e.path) || tombstone.uploadedPath == Some(e.path)
  }

  /** A queued operation stands on row `op`, at or above the entry or its row. */
  predicate StandsOver(files: Files, op: string, e: Entry, id: string) {
    && op in files
    && var at := files[op].path;
       op == id || at == e.path || (at != ROOT && at < e.path) || (at != ROOT && id in files && at < files[id].path)
  }

  /** Row i has newer local bytes, and is the entry's or holds its path. */
  predicate Defends(files: Files, i: string, e: Entry, id: string) {
    && i in files && (i == id || files[i].path == e.path)
    && files[i].state in {Writing, Dirty, Uploading, Conflict}
  }

  ghost predicate LeftOut(s: Store, e: Entry, id: string) {
    || (exists d :: d in s.deletes && Names(d, s.deletes[d], e))
    || (exists op :: op in s.operations && StandsOver(s.files, op, e, id))
    || (exists i :: Defends(s.files, i, e, id))
  }

  lemma SpeaksOfOne(files: Files, e: Entry, id: string)
    requires Schema(files) && Speaks(files, e, id)
    ensures LocalIdFor(files, e.remoteId) == id
  {
  }

  /** The guards of the import are exactly these. */
  lemma GuardsExactly(s: Store, e: Entry, id: string)
    requires Schema(s.files) && Speaks(s.files, e, id)
    ensures Skips(s, e) <==> LeftOut(s, e, id)
  {
    SpeaksOfOne(s.files, e, id);
    forall op | op in s.operations && StandsOver(s.files, op, e, id) ensures OperationPending(s, id, e) {
    }
    forall i | Defends(s.files, i, e, id) ensures ProtectedHere(s.files, id, e) {
    }
    if OperationPending(s, id, e) {
      var op :| op in s.operations && op in s.files &&
        (op == id || e.path == s.files[op].path || Below(s.files[op].path, e.path)
         || (id in s.files && Below(s.files[op].path, s.files[id].path)));
      assert StandsOver(s.files, op, e, id);
    }
    if ProtectedHere(s.files, id, e) {
      if id in s.files && Protected(s.files[id].state) {
        assert Defends(s.files, id, e, id);
      } else {
        var i :| i in s.files && i != id && s.files[i].path == e.path && Protected(s.files[i].state);
        assert Defends(s.files, i, e, id);
      }
    }
  }

  // ---- what an entry that is taken does ----

  predicate Differs(row: Row, e: Entry) {
    row.etag != e.etag || row.size != e.size || row.isDir != e.isDir
  }

  /** The entry's path, unless that is below the row's old one: then the row is moved along with its descendants. */
  function Landing(before: Row, e: Entry): Path {
    if before.path < e.path then Rebase(before.path, e.path, e.path) else e.path
  }

  /** The columns of a row the entry finds. A file whose version differs loses its cache. */
  predicate Updates(before: Row, after: Row, e: Entry) {
    && after.size == e.size && after.etag == e.etag && after.isDir == e.isDir
    && after.cloudId == (if "local-upload-" <= e.remoteId then None else Some(e.remoteId))
    && after.path == Landing(before, e)
    && after.modified == (if !before.isDir && before.etag != "" && !(before.etag != e.etag || before.size != e.size)
                          then before.modified else e.modified)
    && (if !before.isDir && Differs(before, e)
        then after.cache == None && after.accessed == None && after.state == OnlineOnly
             && after.generation == before.generation + 1
        else after.cache == before.cache && after.accessed == before.accessed && after.state == before.state
             && after.generation == before.generation)
    && after.pinExplicit == before.pinExplicit && after.pinOrigin == before.pinOrigin
    && after.pinBlocked == before.pinBlocked && after.localMode == before.localMode
    && after.uploadPath == before.uploadPath && after.uploadTarget == before.uploadTarget
    && after.uploadCache == before.uploadCache && after.releasePending == before.releasePending
  }

  /** The columns of a row the entry brings. */
  predicate Brings(after: Row, e: Entry, block: bool) {
    && after.size == e.size && after.etag == e.etag && after.isDir == e.isDir && after.path == e.path
    && after.cloudId == (if "local-upload-" <= e.remoteId then None else Some(e.remoteId))
    && after.modified == e.modified && after.state == OnlineOnly && after.cache == None && after.accessed == None
    && !after.pinExplicit && after.pinOrigin == None && after.pinBlocked == block && after.localMode == None
    && after.uploadPath == None && after.uploadTarget == None && after.uploadCache == None
    && after.generation == 0 && !after.releasePending
  }

  /** Another row goes only when it held the entry's path, and keeps all but a path below a renamed folder. */
  ghost predicate OthersFollow(before: Files, after: Files, e: Entry, id: string) {
    && (forall i :: i != id ==> (i in after <==> i in before && before[i].path != e.path))
    && (forall i :: i in after && i != id ==>
          after[i] == before[i].(path :=
            if id in before && before[id].path != e.path && before[id].path < before[i].path
            then Rebase(before[id].path, e.path, before[i].path) else before[i].path))
  }

  /** The file of a clean version that the entry replaces, when it still has the length recorded for it. */
  predicate Replaced(s: Store, e: Entry, id: string, c: CachePath) {
    && id in s.files && !s.files[id].isDir && Differs(s.files[id], e)
    && s.files[id].state in {Cached, Pinned} && s.files[id].cache == Some(c)
    && c in s.disk && |s.disk[c]| == s.files[id].size
  }

  /** The whole effect of an entry that is taken. */
  ghost predicate Takes(s: Store, t: Store, e: Entry, block: bool, id: string) {
    && id in t.files
    && (if id in s.files then Updates(s.files[id], t.files[id], e) else Brings(t.files[id], e, block))
    && OthersFollow(s.files, t.files, e, id)
    && (forall c :: c in t.retired <==> c in s.retired || Replaced(s, e, id, c))
    && t.deletes == s.deletes && t.operations == s.operations && t.disk == s.disk
  }

  lemma PlacedTakes(files: Files, e: Entry, block: bool, id: string)
    ensures var placed := Placed(files, id, e, block);
            && id in placed && placed[id].path == e.path
            && (if id in files then Updates(files[id], placed[id].(path := Landing(files[id], e)), e)
                else Brings(placed[id], e, block))
            && (forall i :: i != id ==> (i in placed <==> i in files && files[i].path != e.path))
            && (forall i :: i in placed && i != id ==> placed[i] == files[i])
  {
    PlacedRows(files, id, e, block);
  }

  /** The rows below a renamed folder follow it, and the folder itself when its new path is below its old one. */
  lemma MovedTakes(files: Files, e: Entry, id: string, placed: Files, moved: Files)
    requires id in files && files[id].path != e.path
    requires id in placed && placed[id].path == e.path
    requires Updates(files[id], placed[id].(path := Landing(files[id], e)), e)
    requires forall i :: i != id ==> (i in placed <==> i in files && files[i].path != e.path)
    requires forall i :: i in placed && i != id ==> placed[i] == files[i]
    requires moved.Keys == placed.Keys && forall i :: i in placed ==>
      moved[i] == placed[i].(path := if files[id].path < placed[i].path
                                     then Rebase(files[id].path, e.path, placed[i].path) else placed[i].path)
    ensures id in moved && Updates(files[id], moved[id], e) && OthersFollow(files, moved, e, id)
  {
  }

  lemma AppliedRetires(s: Store, e: Entry, id: string)
    ensures forall c :: c in RetiredBy(s, id, e) <==> Replaced(s, e, id, c)
  {
  }

  lemma AppliedTakes(s: Store, e: Entry, block: bool, scan: Scan, id: string)
    requires IsScan(scan) && Applied(s, id, e, block, scan).Some?
    ensures Takes(s, Applied(s, id, e, block, scan).value, e, block, id)
  {
    var t := Applied(s, id, e, block, scan).value;
    AppliedRetires(s, e, id);
    if id in s.files && s.files[id].path != e.path {
      RenameTakes(s, e, block, scan, id);
    } else {
      PlacedTakes(s.files, e, block, id);
      StillTakes(s.files, e, id, t.files);
    }
    assert t == s.(files := t.files, retired := s.retired + RetiredBy(s, id, e));
  }

  lemma RenameTakes(s: Store, e: Entry, block: bool, scan: Scan, id: string)
    requires IsScan(scan) && Applied(s, id, e, block, scan).Some?
    requires id in s.files && s.files[id].path != e.path
    ensures var t := Applied(s, id, e, block, scan).value;
            id in t.files && Updates(s.files[id], t.files[id], e) && OthersFollow(s.files, t.files, e, id)
  {
    var placed := Placed(s.files, id, e, block);
    PlacedTakes(s.files, e, block, id);
    RebasedRows(placed, s.files[id].path, e.path, scan);
    MovedTakes(s.files, e, id, placed, Applied(s, id, e, block, scan).value.files);
  }

  lemma StillTakes(files: Files, e: Entry, id: string, placed: Files)
    requires id in files ==> files[id].path == e.path
    requires forall i :: i != id ==> (i in placed <==> i in files && files[i].path != e.path)
    requires forall i :: i in placed && i != id ==> placed[i] == files[i]
    ensures OthersFollow(files, placed, e, id)
  {
  }

  /** An entry is left out exactly by the guards, and then nothing changes. Otherwise its row has the entry's size,
      version, kind and path, and no cache when a file's version differs, or the import fails as a whole. */
  lemma ImportTakesExactly(s: Store, e: Entry, block: bool, scan: Scan, id: string)
    requires Schema(s.files) && IsScan(scan) && Speaks(s.files, e, id)
    ensures LeftOut(s, e, id) ==> Imported(s, e, block, scan) == Some(s)
    ensures !LeftOut(s, e, id) && Imported(s, e, block, scan).Some? ==>
              Takes(s, Imported(s, e, block, scan).value, e, block, id)
  {
    GuardsExactly(s, e, id);
    SpeaksOfOne(s.files, e, id);
    if !LeftOut(s, e, id) && Imported(s, e, block, scan).Some? {
      AppliedTakes(s, e, block, scan, id);
    }
  }

  // ---- when an entry fails ----

  /** The rows that are left once the entry has its path. */
  function Remaining(files: Files, e: Entry, id: string): Files {
    map i | i in files && (i == id || files[i].path != e.path) ::
      if i == id then files[i].(path := e.path) else files[i]
  }

  lemma OnlyPathsStandInTheWay(files: Files, other: Files, before: Path, after: Path)
    requires before != after && files.Keys == other.Keys && forall i :: i in files ==> files[i].path == other[i].path
    ensures NothingInTheWay(files, before, after) <==> NothingInTheWay(other, before, after)
  {
    forall i, j ensures InTheWay(files, before, after, i, j) <==> InTheWay(other, before, after, i, j) {
    }
  }

  /** A batch fails at an entry exactly when that renames a known row and a row is in the way of one below it. */
  lemma ImportFailsExactly(s: Store, e: Entry, block: bool, scan: Scan, id: string)
    requires Schema(s.files) && IsPathScan(scan) && Speaks(s.files, e, id)
    ensures Imported(s, e, block, scan) == None
            <==> !LeftOut(s, e, id) && id in s.files && s.files[id].path != e.path
                 && !NothingInTheWay(Remaining(s.files, e, id), s.files[id].path, e.path)
  {
    GuardsExactly(s, e, id);
    SpeaksOfOne(s.files, e, id);
    AppliedFailsExactly(s, id, e, block, scan);
    if id in s.files && s.files[id].path != e.path {
      PlacedPaths(s.files, e, block, id);
      OnlyPathsStandInTheWay(Placed(s.files, id, e, block), Remaining(s.files, e, id), s.files[id].path, e.path);
    }
  }

  lemma PlacedPaths(files: Files, e: Entry, block: bool, id: string)
    requires id in files
    ensures var placed, remaining := Placed(files, id, e, block), Remaining(files, e, id);
            placed.Keys == remaining.Keys && forall i :: i in placed ==> placed[i].path == remaining[i].path
  {
    PlacedRows(files, id, e, block);
  }

  /** A batch is its entries one after the other, all or nothing. */
  lemma {:induction false} BatchGoesOn(s: Store, some: seq<Entry>, more: seq<Entry>, block: bool, scan: Scan)
    requires Schema(s.files) && IsScan(scan)
    ensures ImportedAll(s, [], block, scan) == Some(s)
    ensures forall e :: ImportedAll(s, [e], block, scan) == Imported(s, e, block, scan)
    ensures ImportedAll(s, some + more, block, scan) ==
            match ImportedAll(s, some, block, scan)
            case None => None
            case Some(t) => ImportedAll(t, more, block, scan)
  {
    forall e ensures ImportedAll(s, [e], block, scan) == Imported(s, e, block, scan) {
      assert [e][..0] == [];
    }
    if more == [] {
      assert some + more == some;
    } else {
      assert (some + more)[..|some + more| - 1] == some + more[..|more| - 1];
      BatchGoesOn(s, some, more[..|more| - 1], block, scan);
    }
  }
}
