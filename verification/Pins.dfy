// Always-keep pins: explicit pins on rows, inherited along the path.

module Pins {
  import opened Options
  import opened Paths
  import opened Rows

  // ---- what an inherited pin means ----

  /** `o` names the deepest explicitly pinned row at a proper prefix of `p`. */
  ghost predicate IsDeepestPin(files: Files, p: Path, o: Option<string>) {
    match o
    case None => forall a :: a in files && files[a].pinExplicit ==> !(files[a].path < p)
    case Some(a) =>
      && a in files && files[a].pinExplicit && files[a].path < p
      && forall b :: b in files && files[b].pinExplicit && files[b].path < p ==> files[b].path <= files[a].path
  }

  /** Explicit pins by path, as the recomputation indexes them. */
  function ExplicitRoots(files: Files): map<Path, string>
    requires UniquePaths(files)
  {
    map id | id in files && files[id].pinExplicit :: files[id].path := id
  }

  /** The walk from `ancestor` towards "/". */
  function Walk(roots: map<Path, string>, ancestor: Path): Option<string>
    decreases |ancestor|
  {
    if ancestor in roots then Some(roots[ancestor])
    else if ancestor == ROOT then None
    else Walk(roots, Parent(ancestor))
  }

  function OriginFrom(roots: map<Path, string>, row: Row): Option<string> {
    if row.pinExplicit || row.pinBlocked then None else Walk(roots, Parent(row.path))
  }

  function Repinned(row: Row, origin: Option<string>): Row {
    var effective := row.pinExplicit || origin.Some?;
    row.(pinOrigin := origin,
         releasePending := !effective && row.releasePending,
         state :=
           if Protected(row.state) || row.state.Error? then row.state
           else if effective && (row.isDir || row.cache.Some?) then Pinned
           else if effective then Hydrating
           else if row.cache.Some? then Cached
           else OnlineOnly)
  }

  function RepinnedAll(roots: map<Path, string>, files: Files): (r: Files)
    ensures r.Keys == files.Keys
  {
    map id | id in files :: Repinned(files[id], OriginFrom(roots, files[id]))
  }

  /** The table after `recompute_pin_inheritance`. */
  function Recomputed(files: Files): (r: Files)
    requires UniquePaths(files)
    ensures r.Keys == files.Keys
  {
    RepinnedAll(ExplicitRoots(files), files)
  }

  // ---- the recomputation ----

  method InheritedPin(roots: map<Path, string>, path: Path) returns (origin: Option<string>)
    ensures origin == Walk(roots, Parent(path))
  {
    origin := None;
    var ancestor := Parent(path);
    while true
      invariant Walk(roots, ancestor) == Walk(roots, Parent(path))
      invariant origin == None
      decreases |ancestor|
    {
      if ancestor in roots {
        return Some(roots[ancestor]);
      }
      if ancestor == ROOT {
        return;
      }
      ancestor := Parent(ancestor);
    }
  }

  /** The table while the rows of `todo` still have their old pins. */
  function PartlyRepinned(roots: map<Path, string>, files: Files, todo: set<string>): Files {
    map id | id in files :: if id in todo then files[id] else Repinned(files[id], OriginFrom(roots, files[id]))
  }

  lemma OneMoreRepinned(roots: map<Path, string>, files: Files, todo: set<string>, id: string)
    requires id in todo && id in files
    ensures PartlyRepinned(roots, files, todo - {id})
         == PartlyRepinned(roots, files, todo)[id := Repinned(files[id], OriginFrom(roots, files[id]))]
  {
  }

  method RecomputePinInheritance(db: Database)
    requires db.Valid()
    modifies db`files
    ensures db.Valid() && db.files == Recomputed(old(db.files))
    ensures forall i :: i in old(db.files) ==>
      i in db.files && Recomputes(old(db.files)[i], db.files[i]) && FollowsPins(db.files, i)
  {
    var before := db.files;
    var roots := ExplicitRoots(before);
    var files := before;
    var todo := before.Keys;
    assert PartlyRepinned(roots, before, before.Keys) == before;
    while todo != {}
      invariant todo <= before.Keys && files == PartlyRepinned(roots, before, todo)
      decreases todo
    {
      var id :| id in todo;
      var row := before[id];
      var origin := None;
      if !row.pinExplicit && !row.pinBlocked {
        origin := InheritedPin(roots, row.path);
      }
      OneMoreRepinned(roots, before, todo, id);
      files := files[id := Repinned(row, origin)];
      todo := todo - {id};
    }
    assert files == RepinnedAll(roots, before);
    db.files := files;
    RecomputedKeepsSchema(before);
    forall i | i in before ensures Recomputes(before[i], db.files[i]) && FollowsPins(db.files, i) {
      RecomputedRow(before, i);
    }
  }

  lemma RecomputedKeepsSchema(files: Files)
    requires Schema(files)
    ensures Schema(Recomputed(files))
  {
  }

  // ---- the walk finds the deepest pin ----

  lemma {:induction false} WalkFindsDeepest(files: Files, p: Path, ancestor: Path)
    requires UniquePaths(files) && ancestor < p
    requires forall a :: a in files && files[a].pinExplicit && files[a].path < p ==> files[a].path <= ancestor
    ensures IsDeepestPin(files, p, Walk(ExplicitRoots(files), ancestor))
    decreases |ancestor|
  {
    var roots := ExplicitRoots(files);
    if ancestor in roots {
    } else if ancestor == ROOT {
      forall a | a in files && files[a].pinExplicit ensures !(files[a].path < p) {
        assert files[a].path in roots;
      }
    } else {
      forall a | a in files && files[a].pinExplicit && files[a].path < p ensures files[a].path <= Parent(ancestor) {
        assert files[a].path in roots;
        assert files[a].path != ancestor && |files[a].path| <= |ancestor| - 1;
      }
      WalkFindsDeepest(files, p, Parent(ancestor));
    }
  }

  /** Every row's origin is its deepest explicitly pinned proper ancestor, unless it is explicit or blocked. */
  lemma OriginIsDeepestPin(files: Files, id: string)
    requires UniquePaths(files) && id in files
    ensures var row := Recomputed(files)[id];
            if row.pinExplicit || row.pinBlocked then row.pinOrigin == None
            else IsDeepestPin(files, row.path, row.pinOrigin)
  {
    var row := files[id];
    if !row.pinExplicit && !row.pinBlocked {
      if row.path == ROOT {
        assert ROOT !in ExplicitRoots(files);
      } else {
        WalkFindsDeepest(files, row.path, Parent(row.path));
      }
    }
  }

  /** The deepest pin is unique, so the definition leaves the recomputation no choice. */
  lemma DeepestPinIsUnique(files: Files, p: Path, o: Option<string>, q: Option<string>)
    requires UniquePaths(files) && IsDeepestPin(files, p, o) && IsDeepestPin(files, p, q)
    ensures o == q
  {
  }

  /** The index of explicit pins depends on nothing but the explicit rows and their paths. */
  lemma SameRoots(files: Files, other: Files)
    requires UniquePaths(files) && UniquePaths(other)
    requires forall id :: id in files && files[id].pinExplicit ==>
               id in other && other[id].pinExplicit && other[id].path == files[id].path
    requires forall id :: id in other && other[id].pinExplicit ==> id in files && files[id].pinExplicit
    ensures ExplicitRoots(other) == ExplicitRoots(files)
  {
    var r, q := ExplicitRoots(files), ExplicitRoots(other);
    forall p ensures p in r <==> p in q {
      if p in r { assert other[r[p]].path == p; }
      if p in q { assert files[q[p]].path == p; }
    }
  }

  /** Recomputing twice is recomputing once. */
  lemma RecomputedIsIdempotent(files: Files)
    requires UniquePaths(files)
    ensures UniquePaths(Recomputed(files)) && Recomputed(Recomputed(files)) == Recomputed(files)
  {
    SameRoots(files, Recomputed(files));
    var roots := ExplicitRoots(files);
    forall id | id in files ensures Recomputed(Recomputed(files))[id] == Recomputed(files)[id] {
      RepinnedTwice(files[id], roots);
    }
  }

  lemma RepinnedTwice(row: Row, roots: map<Path, string>)
    ensures var once := Repinned(row, OriginFrom(roots, row)); Repinned(once, OriginFrom(roots, once)) == once
  {
  }

  /** Rows with newer local bytes keep everything but the pin bookkeeping. */
  lemma RecomputedKeepsLocalWork(files: Files, id: string)
    requires UniquePaths(files) && id in files
    ensures var before, after := files[id], Recomputed(files)[id];
            && after == before.(pinOrigin := after.pinOrigin, releasePending := after.releasePending,
                state := after.state)
            && (Protected(before.state) || before.state.Error? ==> after.state == before.state)
            && (Clean(before.state) ==> Clean(after.state))
  {
  }

  /** The columns a recomputation changes. A pinned file without its bytes waits for them; without a pin, a file with
      a cache is cached and any other row online-only; rows with newer local bytes or an error keep their state. */
  predicate Recomputes(before: Row, after: Row) {
    var pinned := after.pinExplicit || after.pinOrigin.Some?;
    && after.state == (if before.state in {Writing, Dirty, Uploading, Conflict, Error} then before.state
                       else if pinned then (if before.isDir || before.cache != None then Pinned else Hydrating)
                       else (if before.cache != None then Cached else OnlineOnly))
    && (after.releasePending <==> before.releasePending && !pinned)
    && after == before.(state := after.state, releasePending := after.releasePending, pinOrigin := after.pinOrigin)
  }

  /** The row's origin is the deepest pin above it, unless it is explicit or blocked. */
  ghost predicate FollowsPins(files: Files, id: string)
    requires id in files
  {
    var row := files[id];
    if row.pinExplicit || row.pinBlocked then row.pinOrigin == None else IsDeepestPin(files, row.path, row.pinOrigin)
  }

  lemma RecomputedRow(files: Files, id: string)
    requires UniquePaths(files) && id in files
    ensures Recomputes(files[id], Recomputed(files)[id]) && FollowsPins(Recomputed(files), id)
  {
    OriginIsDeepestPin(files, id);
    var row := Recomputed(files)[id];
    if !row.pinExplicit && !row.pinBlocked {
      SamePins(files, Recomputed(files), row.path, row.pinOrigin);
    }
  }

  lemma SamePins(files: Files, other: Files, p: Path, o: Option<string>)
    requires files.Keys == other.Keys && IsDeepestPin(files, p, o)
    requires forall id :: id in files ==>
               other[id].path == files[id].path && other[id].pinExplicit == files[id].pinExplicit
    ensures IsDeepestPin(other, p, o)
  {
  }

  // ---- changing the policy ----

  /** The rows after the policy statements of `set_explicit_pin`, before the recomputation. */
  function ExplicitSet(files: Files, id: string, pinned: bool): Files
    requires id in files
  {
    var row := files[id];
    var one := files[id := row.(pinExplicit := pinned, pinBlocked := !pinned && row.pinBlocked)];
    if pinned && row.isDir
    then map i | i in one :: if Below(row.path, one[i].path) then one[i].(pinBlocked := false) else one[i]
    else one
  }

  /** The policy columns of row i once the pin of `id` is set: a pin lifts its own block, and those below a folder. */
  function PinSet(files: Files, id: string, pinned: bool, i: string): Row
    requires id in files && i in files
  {
    files[i].(
      pinExplicit := if i == id then pinned else files[i].pinExplicit,
      pinBlocked := files[i].pinBlocked
          && !(pinned && (i == id || (files[id].isDir && files[id].path != ROOT && files[id].path < files[i].path))))
  }

  lemma ExplicitSetRow(files: Files, id: string, pinned: bool, i: string)
    requires UniquePaths(files) && id in files && i in files
    ensures var policy := ExplicitSet(files, id, pinned);
            UniquePaths(policy) && i in Recomputed(policy)
            && Recomputes(PinSet(files, id, pinned, i), Recomputed(policy)[i]) && FollowsPins(Recomputed(policy), i)
  {
    ExplicitSetKeepsPaths(files, id, pinned);
    assert ExplicitSet(files, id, pinned)[i] == PinSet(files, id, pinned, i);
    RecomputedRow(ExplicitSet(files, id, pinned), i);
  }

  /** Every row after the pin of `id` is set: its policy columns, and what the recomputation makes of them. */
  ghost predicate TakesPin(before: Files, after: Files, id: string, pinned: bool)
    requires id in before
  {
    && after.Keys == before.Keys
    && forall i :: i in before ==> Recomputes(PinSet(before, id, pinned, i), after[i]) && FollowsPins(after, i)
  }

  lemma ExplicitSetTaken(files: Files, id: string, pinned: bool)
    requires UniquePaths(files) && id in files
    ensures UniquePaths(ExplicitSet(files, id, pinned))
    ensures TakesPin(files, Recomputed(ExplicitSet(files, id, pinned)), id, pinned)
  {
    forall i | i in files
      ensures UniquePaths(ExplicitSet(files, id, pinned)) && i in Recomputed(ExplicitSet(files, id, pinned))
      ensures Recomputes(PinSet(files, id, pinned, i), Recomputed(ExplicitSet(files, id, pinned))[i])
      ensures FollowsPins(Recomputed(ExplicitSet(files, id, pinned)), i) {
      ExplicitSetRow(files, id, pinned, i);
    }
  }

  lemma ExplicitSetKeepsSchema(files: Files, id: string, pinned: bool)
    requires Schema(files) && id in files
    ensures Schema(ExplicitSet(files, id, pinned))
  {
    forall i | i in files
      ensures ExplicitSet(files, id, pinned)[i].path == files[i].path
      ensures ExplicitSet(files, id, pinned)[i].cloudId == files[i].cloudId {
    }
    SubsetKeepsSchema(files, ExplicitSet(files, id, pinned));
  }

  method SetExplicitPin(db: Database, id: string, pinned: bool) returns (ok: bool)
    requires db.Valid()
    modifies db`files
    ensures db.Valid() && ok == (id in old(db.files))
    ensures ok ==> db.files == Recomputed(ExplicitSet(old(db.files), id, pinned))
    ensures ok ==> TakesPin(old(db.files), db.files, id, pinned)
    ensures !ok ==> db.files == old(db.files)
  {
    if id !in db.files {
      return false;
    }
    ExplicitSetTaken(db.files, id, pinned);
    var record := db.files[id];
    var files := db.files[id := record.(pinExplicit := pinned, pinBlocked := if pinned
        then false else record.pinBlocked)];
    if pinned && record.isDir {
      files := map i | i in files ::
        if Below(record.path, files[i].path) then files[i].(pinBlocked := false) else files[i];
    }
    assert files == ExplicitSet(db.files, id, pinned);
    ExplicitSetKeepsSchema(db.files, id, pinned);
    db.files := files;
    RecomputePinInheritance(db);
    return true;
  }

  function InheritanceAllowed(files: Files, id: string): Files
    requires id in files
  {
    var row := files[id];
    map i | i in files ::
      if i == id || Below(row.path, files[i].path) then files[i].(pinBlocked := false) else files[i]
  }

  /** Row i without its block, when it is `id` or below it. */
  function BlockLifted(files: Files, id: string, i: string): Row
    requires id in files && i in files
  {
    files[i].(pinBlocked := files[i].pinBlocked
        && !(i == id || (files[id].path != ROOT && files[id].path < files[i].path)))
  }

  lemma InheritanceAllowedRow(files: Files, id: string, i: string)
    requires UniquePaths(files) && id in files && i in files
    ensures var policy := InheritanceAllowed(files, id);
            UniquePaths(policy) && i in Recomputed(policy)
            && Recomputes(BlockLifted(files, id, i), Recomputed(policy)[i]) && FollowsPins(Recomputed(policy), i)
  {
    SamePathsUnique(files, InheritanceAllowed(files, id));
    assert InheritanceAllowed(files, id)[i] == BlockLifted(files, id, i);
    RecomputedRow(InheritanceAllowed(files, id), i);
  }

  method AllowPinInheritance(db: Database, id: string) returns (ok: bool)
    requires db.Valid()
    modifies db`files
    ensures db.Valid() && ok == (id in old(db.files))
    ensures ok ==> db.files == Recomputed(InheritanceAllowed(old(db.files), id))
    ensures ok ==> db.files.Keys == old(db.files).Keys
    ensures ok ==> forall i :: i in old(db.files) ==>
      && Recomputes(BlockLifted(old(db.files), id, i), db.files[i]) && FollowsPins(db.files, i)
    ensures !ok ==> db.files == old(db.files)
  {
    if id !in db.files {
      return false;
    }
    forall i | i in db.files
      ensures UniquePaths(InheritanceAllowed(db.files, id)) && i in Recomputed(InheritanceAllowed(db.files, id))
      ensures Recomputes(BlockLifted(db.files, id, i), Recomputed(InheritanceAllowed(db.files, id))[i])
      ensures FollowsPins(Recomputed(InheritanceAllowed(db.files, id)), i) {
      InheritanceAllowedRow(db.files, id, i);
    }
    db.files := InheritanceAllowed(db.files, id);
    RecomputePinInheritance(db);
    return true;
  }

  lemma ExplicitSetKeepsPaths(files: Files, id: string, pinned: bool)
    requires UniquePaths(files) && id in files
    ensures var policy := ExplicitSet(files, id, pinned);
            && policy.Keys == files.Keys && UniquePaths(policy)
            && forall d :: d in files ==> policy[d].path == files[d].path
  {
    var policy := ExplicitSet(files, id, pinned);
    assert forall d :: d in files ==> policy[d].path == files[d].path;
    SamePathsUnique(files, policy);
  }

  lemma SamePathsUnique(files: Files, other: Files)
    requires UniquePaths(files) && other.Keys == files.Keys && forall d :: d in files ==> other[d].path == files[d].path
    ensures UniquePaths(other)
  {
  }

  lemma DescendantOfPinnedFolder(files: Files, id: string, d: string)
    requires UniquePaths(files) && id in files && files[id].isDir
    requires d in files && files[id].path < files[d].path
    ensures var policy := ExplicitSet(files, id, true);
            && policy.Keys == files.Keys && UniquePaths(policy)
            && (Recomputed(policy)[d].Effective() <==>
                files[id].path != ROOT || files[d].pinExplicit || !files[d].pinBlocked)
  {
    var policy := ExplicitSet(files, id, true);
    ExplicitSetKeepsPaths(files, id, true);
    OriginIsDeepestPin(policy, d);
    assert policy[id].pinExplicit && policy[id].path < policy[d].path;
  }

  /** Pinning a folder pins every descendant, except that "/" fails to reach the blocked ones. */
  lemma PinningFolderPinsDescendants(files: Files, id: string)
    requires UniquePaths(files) && id in files && files[id].isDir
    ensures UniquePaths(ExplicitSet(files, id, true))
    ensures var after := Recomputed(ExplicitSet(files, id, true));
            && after.Keys == files.Keys
            && ((forall d :: d in files && files[id].path < files[d].path ==> after[d].Effective())
                <==> (files[id].path != ROOT
                      || forall d :: d in files && files[d].path != ROOT ==>
                          files[d].pinExplicit || !files[d].pinBlocked))
  {
    ExplicitSetKeepsPaths(files, id, true);
    var after := Recomputed(ExplicitSet(files, id, true));
    forall d | d in files && files[id].path < files[d].path
      ensures d in after
      ensures (after[d].Effective() <==> files[id].path != ROOT || files[d].pinExplicit || !files[d].pinBlocked)
    {
      DescendantOfPinnedFolder(files, id, d);
    }
  }

  /** A table whose recorded origins are up to date. */
  ghost predicate PinsConsistent(files: Files)
    requires UniquePaths(files)
  {
    forall id :: id in files ==> files[id].pinOrigin == OriginFrom(ExplicitRoots(files), files[id])
  }

  lemma RecomputedIsConsistent(files: Files)
    requires UniquePaths(files)
    ensures UniquePaths(Recomputed(files)) && PinsConsistent(Recomputed(files))
  {
    SameRoots(files, Recomputed(files));
  }

  function Unpinned(row: Row): Row {
    row.(pinExplicit := false, pinOrigin := None, pinBlocked := true,
         state := if !row.state.Pinned? then row.state
                  else if row.isDir then OnlineOnly
                  else if row.cache.Some? then Cached
                  else Hydrating)
  }

  /** The policy statement of `release_path`. */
  function PolicyReleased(files: Files, top: Path): Files {
    map id | id in files :: if InSubtree(top, files[id].path) then Unpinned(files[id]) else files[id]
  }

  lemma PolicyReleasedKeepsPaths(files: Files, top: Path)
    requires UniquePaths(files)
    ensures var after := PolicyReleased(files, top);
            && after.Keys == files.Keys && UniquePaths(after)
            && forall id :: id in files ==> after[id].path == files[id].path
  {
  }

  lemma OriginSurvivesRelease(files: Files, top: Path, id: string)
    requires UniquePaths(files) && PinsConsistent(files) && id in files
    ensures var after := PolicyReleased(files, top);
            UniquePaths(after) && after[id].pinOrigin == OriginFrom(ExplicitRoots(after), after[id])
  {
    var after := PolicyReleased(files, top);
    PolicyReleasedKeepsPaths(files, top);
    var row := files[id];
    if !InSubtree(top, row.path) && !row.pinExplicit && !row.pinBlocked {
      OriginIsDeepestPin(files, id);
      OutsidePinsStay(files, top, row.path, row.pinOrigin);
      OriginIsDeepestPin(after, id);
      DeepestPinIsUnique(after, row.path, row.pinOrigin, OriginFrom(ExplicitRoots(after), after[id]));
    }
  }

  lemma OutsidePinsStay(files: Files, top: Path, p: Path, o: Option<string>)
    requires !InSubtree(top, p) && IsDeepestPin(files, p, o)
    ensures IsDeepestPin(PolicyReleased(files, top), p, o)
  {
  }

  /** A release unpins exactly its subtree, and no later recomputation changes that:
      the recorded origins outside stay up to date without being touched. */
  lemma ReleaseUnpinsExactlyItsSubtree(files: Files, top: Path)
    requires UniquePaths(files) && PinsConsistent(files)
    ensures var after := PolicyReleased(files, top);
            && after.Keys == files.Keys && UniquePaths(after) && PinsConsistent(after)
            && (forall id :: id in files && InSubtree(top, files[id].path) ==> !after[id].Effective())
            && (forall id :: id in files && !InSubtree(top, files[id].path) ==> after[id] == files[id])
            && (forall id :: id in files ==> Recomputed(after)[id].Effective() == after[id].Effective())
  {
    var after := PolicyReleased(files, top);
    PolicyReleasedKeepsPaths(files, top);
    forall id | id in files ensures after[id].pinOrigin == OriginFrom(ExplicitRoots(after), after[id]) {
      OriginSurvivesRelease(files, top, id);
    }
  }
}
