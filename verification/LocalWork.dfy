// One machine for writers, uploads, downloads, imports and cleanup: nobody but its own writer or worker touches
// local work.

module LocalWork {
  import opened Options
  import opened Paths
  import opened Renames
  import opened Rows
  import opened Metadata
  import opened Cache
  import opened Transactions
  import Pins

  /** The step is one of the writers or workers of `id`: it is allowed to change the row or its file. */
  predicate Own(s: Store, step: Step, id: string) {
    match step
    case RowStep(i, action) => i == id && !action.Begin? && !action.Fail? && !action.Invalidate?
    case Commit(i, _, _, _, _) => i == id
    case CompleteCopy(i, _, _, _, _) => i == id
    case WriteBytes(i, _) => i in s.files && id in s.files && s.files[i].cache == s.files[id].cache
    case _ => false
  }

  /** The row has local work, in a file that is there, and that is no download of another row. */
  ghost predicate AtWork(s: Store, id: string) {
    && id in s.files && Protected(s.files[id].state) && s.files[id].cache.Some? && s.files[id].cache.value in s.disk
    && (s.files[id].cache.value.Local? || s.files[id].cache.value == Download(id, s.files[id].cache.value.generation))
  }

  /** The local work is the same: state, file and bytes. */
  ghost predicate SameWork(s: Store, t: Store, id: string)
    requires AtWork(s, id)
  {
    && AtWork(t, id) && t.files[id].state == s.files[id].state && t.files[id].cache == s.files[id].cache
    && t.disk[s.files[id].cache.value] == s.disk[s.files[id].cache.value]
  }

  lemma ImportSpares(s: Store, entries: seq<Entry>, block: bool, scan: Scan, id: string)
    requires Schema(s.files) && IsScan(scan) && AtWork(s, id) && ImportedAll(s, entries, block, scan).Some?
    ensures SameWork(s, ImportedAll(s, entries, block, scan).value, id)
  {
    BatchKeepsRow(s, entries, block, scan, id);
    ImportTouchesRowsAndRetired(s, entries, block, scan);
  }

  lemma RowsSpare(s: Store, files: Files, id: string)
    requires AtWork(s, id) && id in files && files[id].state == s.files[id].state
    requires files[id].cache == s.files[id].cache
    ensures SameWork(s, s.(files := files), id)
  {
  }

  lemma ReleasePathSpares(files: Files, path: Path, id: string)
    requires id in files && Protected(files[id].state)
    ensures var after := PathReleased(files, path)[id]; after.state == files[id].state && after.cache == files[id].cache
  {
  }

  lemma ExplicitSetSpares(files: Files, i: string, pinned: bool, id: string)
    requires i in files && id in files
    ensures id in Pins.ExplicitSet(files, i, pinned)
    ensures var after := Pins.ExplicitSet(files, i, pinned)[id];
            after.state == files[id].state && after.cache == files[id].cache
  {
  }

  lemma InheritanceAllowedSpares(files: Files, i: string, id: string)
    requires i in files && id in files
    ensures id in Pins.InheritanceAllowed(files, i)
    ensures var after := Pins.InheritanceAllowed(files, i)[id];
            after.state == files[id].state && after.cache == files[id].cache
  {
  }

  lemma DecidedSpares(files: Files, policy: Policy, id: string)
    requires UniquePaths(files) && id in files && Protected(files[id].state)
    ensures id in Decided(files, policy)
    ensures var after := Decided(files, policy)[id]; after.state == files[id].state && after.cache == files[id].cache
  {
    match policy
    case Repin => Pins.RecomputedKeepsLocalWork(files, id);
    case SetPin(i, pinned) => if i in files { ExplicitSetSpares(files, i, pinned, id); }
    case AllowPins(i) => if i in files { InheritanceAllowedSpares(files, i, id); }
    case Release(path) => ReleasePathSpares(files, path, id);
  }

  lemma PolicySpares(s: Store, policy: Policy, id: string)
    requires Schema(s.files) && AtWork(s, id)
    ensures SameWork(s, s.(files := Decided(s.files, policy)), id)
  {
    DecidedSpares(s.files, policy, id);
    RowsSpare(s, Decided(s.files, policy), id);
  }

  lemma CommitSpares(s: Store, i: string, requested: Path, up: Entry, cache: CachePath, now: int, id: string)
    requires Schema(s.files) && AtWork(s, id) && i != id && Committed(s, i, requested, up, cache, now).Some?
    ensures SameWork(s, Committed(s, i, requested, up, cache, now).value, id)
  {
  }

  lemma CopySpares(s: Store, i: string, seen: Row, up: Entry, cache: CachePath, now: int, id: string)
    requires Schema(s.files) && AtWork(s, id) && i != id && CopyCompleted(s, i, seen, up, cache, now).Published?
    ensures SameWork(s, CopyCompleted(s, i, seen, up, cache, now).store, id)
  {
    CopyKeepsOtherWork(s, i, seen, up, cache, now);
  }

  lemma FinishSpares(s: Store, i: string, generation: nat, now: int, id: string)
    requires Schema(s.files) && AtWork(s, id)
    ensures var r := HydrationFinished(s, i, generation, Partial(i, generation), Download(i, generation), now);
            r.Done? ==> SameWork(s, r.store, id)
  {
  }

  lemma ReleaseSpares(s: Store, i: string, cutoff: Option<int>, locked: set<CachePath>, id: string)
    requires AtWork(s, id) && Releasable(s, i, cutoff, locked)
    ensures SameWork(s, CachedReleased(s, i), id)
  {
  }

  lemma RowStepSpares(s: Store, i: string, action: RowAction, id: string)
    requires AtWork(s, id) && CanAct(s, i, action) && !Own(s, RowStep(i, action), id)
    ensures SameWork(s, s.(files := s.files[i := Act(s.files[i], action)]), id)
  {
  }

  /** No download, publication, import, pin change, release or reclamation, no writer of another file and no worker
      of another row changes the state, the file or the bytes of a row with local work. */
  lemma OthersSpareLocalWork(s: Store, step: Step, scan: Scan, id: string)
    requires Schema(s.files) && IsScan(scan) && AtWork(s, id) && !Own(s, step, id)
    ensures SameWork(s, Apply(s, step, scan), id)
  {
    match step
    case RowStep(i, action) => if CanAct(s, i, action) { RowStepSpares(s, i, action, id); }
    case PolicyStep(policy) => PolicySpares(s, policy, id);
    case Import(entries, block) =>
      if ImportedAll(s, entries, block, scan).Some? { ImportSpares(s, entries, block, scan, id); }
    case Commit(i, requested, up, cache, now) =>
      if Committed(s, i, requested, up, cache, now).Some? { CommitSpares(s, i, requested, up, cache, now, id); }
    case CompleteCopy(i, seen, up, cache, now) =>
      if CopyCompleted(s, i, seen, up, cache, now).Published? { CopySpares(s, i, seen, up, cache, now, id); }
    case Finish(i, generation, now) => FinishSpares(s, i, generation, now, id);
    case ReleaseRecord(i, cutoff, locked) =>
      if Releasable(s, i, cutoff, locked) { ReleaseSpares(s, i, cutoff, locked, id); }
    case Reclaim(_, _) =>
    case WriteBytes(_, _) =>
    case Receive(_, _, _) =>
  }

  /** Over any run without a step of its own, a row with local work keeps its state, its file and every byte. */
  lemma {:induction false} LocalWorkStays(s: Store, steps: seq<Step>, scan: Scan, id: string)
    requires Schema(s.files) && IsScan(scan) && AtWork(s, id)
    requires forall n :: 0 <= n < |steps| ==> !Own(Run(s, steps[..n], scan), steps[n], id)
    ensures SameWork(s, Run(s, steps, scan), id)
  {
    if steps != [] {
      var n := |steps| - 1;
      forall k | 0 <= k < n ensures !Own(Run(s, steps[..n][..k], scan), steps[..n][k], id) {
        assert steps[..n][..k] == steps[..k];
      }
      LocalWorkStays(s, steps[..n], scan, id);
      OthersSpareLocalWork(Run(s, steps[..n], scan), steps[n], scan, id);
    }
  }
}
