// The tables the local database keeps for one cloud drive, and the cache files beside them.

module Options {
  datatype Option<+T> = None | Some(value: T)
}

/** Cloud paths as sequences of non-empty segments; `[]` is "/". */
module Paths {
  type Path = seq<string>

  const ROOT: Path := []

  function Parent(p: Path): Path {
    if p == ROOT then ROOT else p[..|p| - 1]
  }

  /** The SQL test `substr(p, 1, length(a) + 1) = a || '/'`. For "/" it compares with "//" and never holds. */
  predicate Below(ancestor: Path, p: Path) {
    ancestor != ROOT && ancestor < p
  }

  /** The SQL test `p = top OR top = '/' OR substr(...)` of a release. */
  predicate InSubtree(top: Path, p: Path) {
    p == top || top == ROOT || Below(top, p)
  }

  /** Where a descendant of `before` lands when `before` becomes `after`. A descendant of "/" loses
      its leading slash with the prefix, so its first segment is glued to the last one of `after`. */
  function Rebase(before: Path, after: Path, p: Path): Path
    requires before < p && (before == ROOT ==> after != ROOT)
  {
    if before == ROOT then after[..|after| - 1] + [after[|after| - 1] + p[0]] + p[1..]
    else after + p[|before|..]
  }

  /** A renamed folder takes its descendants along, unless the folder is "/". */
  lemma RebaseStaysBelow(before: Path, after: Path, p: Path)
    requires before < p && (before == ROOT ==> after != ROOT)
    requires p[0] != ""
    ensures after < Rebase(before, after, p) <==> before != ROOT
  {
    if before == ROOT {
      var last := |after| - 1;
      assert |Rebase(before, after, p)[last]| == |after[last]| + |p[0]|;
    }
  }
}

module Rows {
  import opened Options
  import opened Paths

  type Bytes = seq<bv8>

  /** `Download(id, g)` is the published copy of generation g, `Partial(id, g)` the file it is
      written to first, `Local(name)` any other file of the cache directory. */
  datatype CachePath =
    | Download(id: string, generation: nat)
    | Partial(id: string, generation: nat)
    | Local(name: string)

  datatype FileState = OnlineOnly | Hydrating | Cached | Pinned | Writing | Dirty | Uploading | Conflict | Error

  /** States whose bytes are newer than the cloud's. */
  predicate Protected(state: FileState) {
    state.Writing? || state.Dirty? || state.Uploading? || state.Conflict?
  }

  /** States whose cache, when there is one, stands for the row's cloud version. */
  predicate Clean(state: FileState) {
    state.OnlineOnly? || state.Hydrating? || state.Cached? || state.Pinned?
  }

  datatype Row = Row(
    cloudId: Option<string>,
    path: Path,
    isDir: bool,
    size: nat,
    modified: int,
    etag: string,
    state: FileState,
    cache: Option<CachePath>,
    accessed: Option<int>,
    pinExplicit: bool,
    pinOrigin: Option<string>,
    pinBlocked: bool,
    localMode: Option<int>,
    uploadPath: Option<Path>,
    uploadTarget: Option<string>,
    uploadCache: Option<CachePath>,
    generation: nat,
    releasePending: bool)
  {
    predicate Effective() {
      pinExplicit || pinOrigin.Some?
    }
  }

  /** What the cloud reports about one item. */
  datatype Entry = Entry(remoteId: string, path: Path, isDir: bool, size: nat, modified: int, etag: string)

  datatype Tombstone = Tombstone(
    localId: Option<string>,
    cloudId: Option<string>,
    path: Path,
    cache: Option<CachePath>,
    uploadPath: Option<Path>,
    uploadCache: Option<CachePath>,
    uploadedPath: Option<Path>)

  datatype OperationKind = CreateFolder | Move

  datatype Operation = Operation(kind: OperationKind, path: Path, queued: int)

  type Files = map<string, Row>

  /** The durable state: the four tables and the cache directory. */
  datatype Store = Store(
    files: Files,
    deletes: map<string, Tombstone>,
    operations: map<string, Operation>,
    retired: set<CachePath>,
    disk: map<CachePath, Bytes>)

  ghost predicate UniquePaths(files: Files) {
    forall i, j :: i in files && j in files && files[i].path == files[j].path ==> i == j
  }

  ghost predicate UniqueClouds(files: Files) {
    forall i, j :: i in files && j in files && files[i].cloudId.Some? && files[i].cloudId == files[j].cloudId ==> i == j
  }

  /** The unique indexes of table `files`. */
  ghost predicate Schema(files: Files) {
    UniquePaths(files) && UniqueClouds(files)
  }

  /** Rows that keep their names keep the indexes valid. */
  lemma SubsetKeepsSchema(files: Files, some: Files)
    requires Schema(files)
    requires forall i :: i in some ==>
               i in files && some[i].path == files[i].path && some[i].cloudId == files[i].cloudId
    ensures Schema(some)
  {
  }

  lemma SameNameKeepsSchema(files: Files, id: string, row: Row)
    requires Schema(files) && id in files && row.path == files[id].path && row.cloudId == files[id].cloudId
    ensures Schema(files[id := row])
  {
    SubsetKeepsSchema(files, files[id := row]);
  }

  /** The database object every component shares. */
  class Database {
    var files: Files
    var deletes: map<string, Tombstone>
    var operations: map<string, Operation>
    var retired: set<CachePath>
    var disk: map<CachePath, Bytes>

    ghost predicate Valid()
      reads this
    {
      Schema(files)
    }

    function View(): Store
      reads this
    {
      Store(files, deletes, operations, retired, disk)
    }

    constructor ()
      ensures Valid() && View() == Store(map[], map[], map[], {}, map[])
    {
      files, deletes, operations, retired, disk := map[], map[], map[], {}, map[];
    }
  }
}
