// Runs of the database: every interleaving of its transactions, each one atomic.

module Transactions {
  import opened Options
  import opened Paths
  import opened Rows
  import opened Metadata
  import opened Renames
  import opened Cache
  import Pins

  /** A guarded UPDATE of a single row. */
  datatype RowAction =
    | BeginWrite(seen: Row)
    | MarkDirty(size: nat, now: int)
    | Mark(state: FileState)
    | Claim(seen: Row)
    | MarkConflict(seen: Row)
    | ClaimCopy(seen: Row, path: Path)
    | Begin(generation: nat)
    | Fail(generation: nat)
    | Invalidate(seen: Row)

  predicate CanAct(s: Store, id: string, action: RowAction) {
    && id in s.files
    && match action
       case BeginWrite(seen) => SameBaseline(s.files[id], seen)
       case MarkDirty(_, _) => true
       case Mark(_) => true
       case Claim(seen) => Claimable(s, id, seen)
       case MarkConflict(seen) => Conflicting(s.files, id, seen)
       case ClaimCopy(seen, _) => CopyClaimable(s.files[id], seen)
       case Begin(generation) => Hydratable(s.files, id, generation)
       case Fail(generation) => HydrationFailed(s.files, id, generation) != s.files
       case Invalidate(seen) => Invalidatable(s.files, id, seen)
  }

  function Act(row: Row, action: RowAction): Row {
    match action
    case BeginWrite(_) => row.(state := Writing)
    case MarkDirty(size, now) => row.(state := Dirty, size := size, modified := now)
    case Mark(state) => row.(state := state)
    case Claim(_) => Claimed(row)
    case MarkConflict(_) => row.(state := Conflict)
    case ClaimCopy(_, path) => row.(uploadPath := Some(path), uploadTarget := None, uploadCache := row.cache)
    case Begin(_) => HydrationBegun(row)
    case Fail(_) => row.(state := OnlineOnly)
    case Invalidate(_) => Invalidated(row)
  }

  /** `begin_conflict_upload`: the row still is the conflicted generation to be copied. */
  predicate CopyClaimable(row: Row, seen: Row) {
    row.state == Conflict && row.path == seen.path && row.cache.Some? && row.cache == seen.cache
        && row.etag == seen.etag
  }

  /** Changes of the pin policy over the whole table. */
  datatype Policy = Repin | SetPin(id: string, pinned: bool) | AllowPins(id: string) | Release(path: Path)

  function Decided(files: Files, policy: Policy): Files
    requires UniquePaths(files)
  {
    match policy
    case Repin => Pins.Recomputed(files)
    case SetPin(id, pinned) => if id in files then Pins.ExplicitSet(files, id, pinned) else files
    case AllowPins(id) => if id in files then Pins.InheritanceAllowed(files, id) else files
    case Release(path) => PathReleased(files, path)
  }

  /** One transaction, or one write to a cache file between transactions. */
  datatype Step =
    | RowStep(id: string, action: RowAction)
    | PolicyStep(policy: Policy)
    | Import(entries: seq<Entry>, block: bool)
    | Commit(id: string, requested: Path, up: Entry, cache: CachePath, now: int)
    | CompleteCopy(id: string, seen: Row, up: Entry, cache: CachePath, now: int)
    | Finish(id: string, generation: nat, now: int)
    | ReleaseRecord(id: string, cutoff: Option<int>, locked: set<CachePath>)
    | Reclaim(c: CachePath, locked: set<CachePath>)
    | WriteBytes(id: string, bytes: Bytes)
    | Receive(id: string, generation: nat, bytes: Bytes)

  /** The bytes reach the disk through the open handle of the row's cache. */
  function BytesWritten(s: Store, id: string, bytes: Bytes): Store {
    if id in s.files && s.files[id].cache.Some? then s.(disk := s.disk[s.files[id].cache.value := bytes]) else s
  }

  /** What one step makes of the store; a step that fails leaves it as it was. */
  function Apply(s: Store, step: Step, scan: Scan): Store
    requires Schema(s.files) && IsScan(scan)
  {
    match step
    case RowStep(id, action) => if CanAct(s, id, action)
        then s.(files := s.files[id := Act(s.files[id], action)]) else s
    case PolicyStep(policy) => s.(files := Decided(s.files, policy))
    case Import(entries, block) => (match ImportedAll(s, entries, block, scan) case None => s case Some(t) => t)
    case Commit(id, requested, up, cache, now) =>
      (match Committed(s, id, requested, up, cache, now) case None => s case Some(t) => t)
    case CompleteCopy(id, seen, up, cache, now) =>
      var r := CopyCompleted(s, id, seen, up, cache, now); if r.Published? then r.store else s
    case Finish(id, generation, now) =>
      var r := HydrationFinished(s, id, generation, Partial(id, generation), Download(id, generation), now);
      if r.Done? then r.store else s
    case ReleaseRecord(id, cutoff, locked) => if Releasable(s, id, cutoff, locked) then CachedReleased(s, id) else s
    case Reclaim(c, locked) => Reclaimed(s, c, locked)
    case WriteBytes(id, bytes) => BytesWritten(s, id, bytes)
    case Receive(id, generation, bytes) => s.(disk := s.disk[Partial(id, generation) := bytes])
  }

  /** Publishing a recovery copy needs its bytes: the worker holds that file open under a shared lock. */
  predicate Enabled(s: Store, step: Step) {
    step.CompleteCopy? ==> step.cache in s.disk && !step.cache.Partial?
  }

  // ---- what the steps leave alone ----

  function Opt(c: Option<CachePath>): set<CachePath> {
    if c.Some? then {c.value} else {}
  }

  function RefsOf(row: Row): set<CachePath> {
    Opt(row.cache) + Opt(row.uploadCache)
  }

  /** The same rows under the same names, referring to no further file. */
  ghost predicate Rewrites(before: Files, after: Files) {
    && after.Keys == before.Keys
    && forall i :: i in before ==>
         && after[i].path == before[i].path && after[i].cloudId == before[i].cloudId
         && RefsOf(after[i]) <= RefsOf(before[i])
  }

  lemma ActRewrites(row: Row, action: RowAction)
    ensures var after := Act(row, action);
            after.path == row.path && after.cloudId == row.cloudId && RefsOf(after) <= RefsOf(row)
  {
  }

  lemma RecomputedRewrites(files: Files)
    requires UniquePaths(files)
    ensures Rewrites(files, Pins.Recomputed(files))
  {
  }

  lemma ReleaseRewrites(files: Files, path: Path)
    ensures Rewrites(files, PathReleased(files, path))
  {
    var policy := Pins.PolicyReleased(files, path);
    assert Rewrites(files, policy);
    assert Rewrites(policy, PathReleased(files, path));
  }

  lemma ExplicitSetRewrites(files: Files, id: string, pinned: bool)
    requires id in files
    ensures Rewrites(files, Pins.ExplicitSet(files, id, pinned))
  {
    var after := Pins.ExplicitSet(files, id, pinned);
    forall i | i in files ensures after[i] == files[i].(pinExplicit := after[i].pinExplicit,
        pinBlocked := after[i].pinBlocked) {
    }
  }

  lemma InheritanceAllowedRewrites(files: Files, id: string)
    requires id in files
    ensures Rewrites(files, Pins.InheritanceAllowed(files, id))
  {
  }

  lemma DecidedRewrites(files: Files, policy: Policy)
    requires UniquePaths(files)
    ensures Rewrites(files, Decided(files, policy))
  {
    match policy
    case Repin => RecomputedRewrites(files);
    case SetPin(id, pinned) => if id in files { ExplicitSetRewrites(files, id, pinned); }
    case AllowPins(id) => if id in files { InheritanceAllowedRewrites(files, id); }
    case Release(path) => ReleaseRewrites(files, path);
  }

  /** A row update or a policy change keeps every name and adds no reference. */
  lemma LocalStepRewrites(s: Store, step: Step, scan: Scan)
    requires Schema(s.files) && IsScan(scan) && (step.RowStep? || step.PolicyStep?)
    ensures Rewrites(s.files, Apply(s, step, scan).files)
    ensures Apply(s, step, scan) == s.(files := Apply(s, step, scan).files)
  {
    match step
    case RowStep(id, action) =>
      if CanAct(s, id, action) {
        ActRewrites(s.files[id], action);
      }
    case PolicyStep(policy) => DecidedRewrites(s.files, policy);
  }

  lemma HydrationKeepsSchema(s: Store, id: string, generation: nat, now: int)
    requires Schema(s.files)
    ensures var r := HydrationFinished(s, id, generation, Partial(id, generation), Download(id, generation), now);
            r.Done? ==> Schema(r.store.files)
  {
    var r := HydrationFinished(s, id, generation, Partial(id, generation), Download(id, generation), now);
    if r.Done? {
      SubsetKeepsSchema(s.files, r.store.files);
    }
  }

  lemma ApplyKeepsSchema(s: Store, step: Step, scan: Scan)
    requires Schema(s.files) && IsScan(scan)
    ensures Schema(Apply(s, step, scan).files)
  {
    if step.RowStep? || step.PolicyStep? {
      LocalStepRewrites(s, step, scan);
      SubsetKeepsSchema(s.files, Apply(s, step, scan).files);
    } else if step.Finish? {
      HydrationKeepsSchema(s, step.id, step.generation, step.now);
    } else if step.ReleaseRecord? && Releasable(s, step.id, step.cutoff, step.locked) {
      SubsetKeepsSchema(s.files, CachedReleased(s, step.id).files);
    }
  }

  ghost function Run(s: Store, steps: seq<Step>, scan: Scan): (r: Store)
    requires Schema(s.files) && IsScan(scan)
    ensures Schema(r.files)
  {
    if steps == [] then s
    else
      var t := Run(s, steps[..|steps| - 1], scan);
      ApplyKeepsSchema(t, steps[|steps| - 1], scan);
      Apply(t, steps[|steps| - 1], scan)
  }

  // ---- referenced files stay on disk ----

  function TombstoneRefs(d: Tombstone): set<CachePath> {
    Opt(d.cache) + Opt(d.uploadCache)
  }

  ghost predicate Kept(refs: set<CachePath>, disk: map<CachePath, Bytes>) {
    forall c :: c in refs ==> c in disk && !c.Partial?
  }

  /** Every file a row, an upload claim or a tombstone refers to exists, and none of them is a partial download. */
  ghost predicate RefsOnDisk(s: Store) {
    && (forall i :: i in s.files ==> Kept(RefsOf(s.files[i]), s.disk))
    && (forall d :: d in s.deletes ==> Kept(TombstoneRefs(s.deletes[d]), s.disk))
  }

  /** No row refers to a file it did not refer to before. */
  ghost predicate RefsShrink(before: Files, after: Files) {
    forall i :: i in after ==> RefsOf(after[i]) <= if i in before then RefsOf(before[i]) else {}
  }

  lemma {:induction false} ImportShrinksRefs(s: Store, entries: seq<Entry>, block: bool, scan: Scan)
    requires Schema(s.files) && IsScan(scan) && ImportedAll(s, entries, block, scan).Some?
    ensures var t := ImportedAll(s, entries, block, scan).value;
            RefsShrink(s.files, t.files) && t == s.(files := t.files, retired := t.retired)
  {
    if entries != [] {
      ImportShrinksRefs(s, entries[..|entries| - 1], block, scan);
      var t := ImportedAll(s, entries[..|entries| - 1], block, scan).value;
      var e := entries[|entries| - 1];
      if !Skips(t, e) {
        AppliedTouchesOneRow(t, LocalIdFor(t.files, e.remoteId), e, block, scan);
        AppliedShrinksRefs(t, LocalIdFor(t.files, e.remoteId), e, block, scan);
      }
    }
  }

  lemma AppliedShrinksRefs(s: Store, id: string, e: Entry, block: bool, scan: Scan)
    requires IsScan(scan) && Applied(s, id, e, block, scan).Some?
    ensures RefsShrink(s.files, Applied(s, id, e, block, scan).value.files)
  {
    AppliedTouchesOneRow(s, id, e, block, scan);
  }

  /** The steps that only rewrite rows without adding a reference, and at most add files. */
  lemma ShrinkingKeepsRefs(s: Store, t: Store)
    requires RefsOnDisk(s) && RefsShrink(s.files, t.files) && t.deletes == s.deletes && s.disk.Keys <= t.disk.Keys
    ensures RefsOnDisk(t)
  {
  }

  lemma CommitShrinksRefs(s: Store, id: string, requested: Path, up: Entry, cache: CachePath, now: int)
    requires Schema(s.files)
    ensures var r := Committed(s, id, requested, up, cache, now);
            r.Some? ==> RefsShrink(s.files, r.value.files) && r.value.deletes == s.deletes && r.value.disk == s.disk
  {
  }

  lemma FinishKeepsRefs(s: Store, id: string, generation: nat, now: int)
    requires RefsOnDisk(s)
    ensures var r := HydrationFinished(s, id, generation, Partial(id, generation), Download(id, generation), now);
            r.Done? ==> RefsOnDisk(r.store)
  {
    var r := HydrationFinished(s, id, generation, Partial(id, generation), Download(id, generation), now);
    if r.Done? {
      forall i | i in r.store.files ensures Kept(RefsOf(r.store.files[i]), r.store.disk) {
        assert RefsOf(r.store.files[i]) <= RefsOf(s.files[i]) + {Download(id, generation)};
        assert Kept(RefsOf(s.files[i]), s.disk);
      }
    }
  }

  lemma ReleaseKeepsRefs(s: Store, id: string, cutoff: Option<int>, locked: set<CachePath>)
    requires RefsOnDisk(s) && Releasable(s, id, cutoff, locked)
    ensures RefsOnDisk(CachedReleased(s, id))
  {
    var t := CachedReleased(s, id);
    var gone := Opt(s.files[id].cache);
    forall i | i in t.files ensures Kept(RefsOf(t.files[i]), t.disk) {
      assert Kept(RefsOf(s.files[i]), s.disk);
      assert gone !! RefsOf(t.files[i]);
    }
    forall d | d in t.deletes ensures Kept(TombstoneRefs(t.deletes[d]), t.disk) {
      assert Kept(TombstoneRefs(s.deletes[d]), s.disk);
      assert gone !! TombstoneRefs(t.deletes[d]);
    }
  }

  lemma ReclaimKeepsRefs(s: Store, c: CachePath, locked: set<CachePath>)
    requires RefsOnDisk(s)
    ensures RefsOnDisk(Reclaimed(s, c, locked))
  {
  }

  lemma StepKeepsRefs(s: Store, step: Step, scan: Scan)
    requires Schema(s.files) && IsScan(scan) && RefsOnDisk(s) && Enabled(s, step)
    ensures RefsOnDisk(Apply(s, step, scan))
  {
    var t := Apply(s, step, scan);
    match step
    case RowStep(_, _) =>
      LocalStepRewrites(s, step, scan);
      ShrinkingKeepsRefs(s, t);
    case PolicyStep(_) =>
      LocalStepRewrites(s, step, scan);
      ShrinkingKeepsRefs(s, t);
    case Import(entries, block) =>
      if ImportedAll(s, entries, block, scan).Some? {
        ImportShrinksRefs(s, entries, block, scan);
        ShrinkingKeepsRefs(s, t);
      }
    case Commit(id, requested, up, cache, now) =>
      CommitShrinksRefs(s, id, requested, up, cache, now);
      ShrinkingKeepsRefs(s, t);
    case CompleteCopy(id, seen, up, cache, now) => CopyKeepsRefs(s, id, seen, up, cache, now);
    case Finish(id, generation, now) => FinishKeepsRefs(s, id, generation, now);
    case ReleaseRecord(id, cutoff, locked) =>
      if Releasable(s, id, cutoff, locked) {
        ReleaseKeepsRefs(s, id, cutoff, locked);
      }
    case Reclaim(c, locked) => ReclaimKeepsRefs(s, c, locked);
    case WriteBytes(_, _) =>
    case Receive(_, _, _) =>
  }

  lemma FailureRetiredShrinks(s: Store, files: Files, id: string, seen: Row, up: Entry, cache: CachePath, i: string)
    requires id in files && i in FailureRetired(s, files, id, seen, up, cache)
    ensures i in files && RefsOf(FailureRetired(s, files, id, seen, up, cache)[i]) <= RefsOf(files[i])
  {
  }

  lemma CopyKeepsRefs(s: Store, id: string, seen: Row, up: Entry, cache: CachePath, now: int)
    requires Schema(s.files) && RefsOnDisk(s) && cache in s.disk && !cache.Partial?
    ensures var r := CopyCompleted(s, id, seen, up, cache, now); r.Published? ==> RefsOnDisk(r.store)
  {
    var r := CopyCompleted(s, id, seen, up, cache, now);
    if r.Published? {
      var copy := LocalIdFor(s.files, up.remoteId);
      var files := s.files[copy := CopyRow(s.files, copy, seen, up, cache, now)];
      forall i | i in r.store.files ensures Kept(RefsOf(r.store.files[i]), s.disk) {
        assert RefsOf(files[i]) <= {cache} + if i in s.files then RefsOf(s.files[i]) else {};
        FailureRetiredShrinks(s, files, id, seen, up, cache, i);
      }
    }
  }

  /** Over any run of imports, claims, acknowledgements, releases, prunes and reclamations, every cache
      file a row, a claim or a tombstone needs stays on disk. */
  lemma {:induction false} ReferencedFilesStay(s: Store, steps: seq<Step>, scan: Scan)
    requires Schema(s.files) && IsScan(scan) && RefsOnDisk(s)
    requires forall n :: 0 <= n < |steps| ==> Enabled(Run(s, steps[..n], scan), steps[n])
    ensures RefsOnDisk(Run(s, steps, scan))
  {
    if steps != [] {
      var n := |steps| - 1;
      forall k | 0 <= k < n ensures Enabled(Run(s, steps[..n][..k], scan), steps[..n][k]) {
        assert steps[..n][..k] == steps[..k];
      }
      ReferencedFilesStay(s, steps[..n], scan);
      StepKeepsRefs(Run(s, steps[..n], scan), steps[n], scan);
    }
  }
}
