// The peer's updater: signed releases are staged, activated once, and rolled back.

module PeerUpdate {
  import opened Options

  /** `suffix` is the pre-release or build part; only versions without one are ever accepted. */
  datatype Version = Version(major: nat, minor: nat, patch: nat, suffix: string)

  const BUILT_IN := Version(0, 1, 1, "")

  /** The order of versions that have no suffix. */
  predicate Less(a: Version, b: Version) {
    || a.major < b.major
    || (a.major == b.major && (a.minor < b.minor || (a.minor == b.minor && a.patch < b.patch)))
  }

  predicate Stable(v: Version) {
    v.suffix == ""
  }

  function Max(a: Version, b: Version): Version {
    if Less(a, b) then b else a
  }

  /** `digest` stands for the hash of the executable and `signer` for the key whose signature verifies. */
  datatype Release = Release(
    schema: nat, product: string, version: Version, platform: string, file: string,
    size: nat, digest: seq<bv8>, signer: string)

  datatype UpdateState = UpdateState(active: Option<Version>, previous: Option<Version>, pending: Option<Version>,
      highwater: Option<Version>)

  function Floor(s: UpdateState): Version {
    Max(if s.highwater.Some? then s.highwater.value else BUILT_IN, BUILT_IN)
  }

  const MAX_EXE := 128 * 1024 * 1024

  function ExecutableName(platform: string): string {
    if platform == "windows-x86_64" then "twodrive-peer.exe" else "twodrive-peer"
  }

  /** `verify_key`: the release is for this product and platform, newer than the floor, and signed. */
  predicate Verified(r: Release, key: string, platform: string, floor: Version) {
    && r.schema == 1 && r.product == "twodrive-peer"
    && r.platform == platform && r.file == ExecutableName(platform)
    && Less(floor, r.version) && Stable(r.version)
    && 0 < r.size <= MAX_EXE
    && r.signer == key
  }

  predicate Intact(r: Release, bytes: seq<bv8>) {
    |bytes| == r.size && bytes == r.digest
  }

  datatype Installed = Installed(release: Release, bytes: seq<bv8>)

  datatype Home = Home(state: UpdateState, installed: map<Version, Installed>)

  // ---- the operations on values ----

  predicate Stageable(h: Home, r: Release, bytes: seq<bv8>, key: string, platform: string) {
    && Verified(r, key, platform, Floor(h.state)) && Intact(r, bytes)
    && (r.version in h.installed ==> Intact(r, h.installed[r.version].bytes) && h.installed[r.version].release == r)
  }

  function Staged(h: Home, r: Release, bytes: seq<bv8>): Home {
    Home(h.state.(pending := Some(r.version)),
         if r.version in h.installed then h.installed else h.installed[r.version := Installed(r, bytes)])
  }

  predicate Sound(h: Home, v: Version, key: string, platform: string) {
    && v in h.installed
    && var r := h.installed[v].release;
       Verified(r, key, platform, Version(0, 0, 0, "")) && r.version == v && Intact(r, h.installed[v].bytes)
  }

  /** The pending candidate passes every test of `activate`. */
  predicate Activatable(h: Home, key: string, platform: string, healthy: bool) {
    && h.state.pending.Some? && Less(Floor(h.state), h.state.pending.value)
    && Sound(h, h.state.pending.value, key, platform) && healthy
  }

  function Activated(s: UpdateState, v: Version): UpdateState {
    UpdateState(Some(v), s.active, None, Some(v))
  }

  function RolledBack(s: UpdateState): UpdateState {
    s.(active := s.previous, previous := None, pending := None)
  }

  // ---- which releases get through ----

  /** Versions are ordered by major, minor and patch number. */
  lemma VersionOrder(a: Version, b: Version, c: Version)
    ensures !Less(a, a) && (Less(a, b) && Less(b, c) ==> Less(a, c))
    ensures !Less(a, b) && !Less(b, a) <==> (a.major, a.minor, a.patch) == (b.major, b.minor, b.patch)
    ensures a.major < b.major ==> Less(a, b)
    ensures a.major == b.major && a.minor < b.minor ==> Less(a, b)
  {
  }

  /** A signed release for this platform, with its own executable. */
  predicate Genuine(r: Release, bytes: seq<bv8>, key: string, platform: string) {
    && r.schema == 1 && r.product == "twodrive-peer" && r.platform == platform
    && r.file == (if platform == "windows-x86_64" then "twodrive-peer.exe" else "twodrive-peer")
    && r.version.suffix == "" && r.signer == key
    && 0 < |bytes| <= 134217728 && |bytes| == r.size && bytes == r.digest
  }

  /** Newer than the built-in version and than any that was ever active. */
  predicate Newer(s: UpdateState, v: Version) {
    Less(BUILT_IN, v) && (s.highwater.Some? ==> Less(s.highwater.value, v))
  }

  /** The version is not installed, or is the very same release and intact. */
  predicate Fits(h: Home, r: Release, bytes: seq<bv8>) {
    r.version in h.installed ==> h.installed[r.version].release == r && h.installed[r.version].bytes == bytes
  }

  /** What is staged is exactly a genuine release that is newer, and what is activated a healthy, genuine one. */
  lemma UpdatesExactly(h: Home, r: Release, bytes: seq<bv8>, key: string, platform: string, healthy: bool)
    ensures Stageable(h, r, bytes, key, platform)
            <==> Genuine(r, bytes, key, platform) && Newer(h.state, r.version) && Fits(h, r, bytes)
    ensures Activatable(h, key, platform, healthy)
            <==> h.state.pending.Some? && healthy && Newer(h.state, h.state.pending.value)
                 && h.state.pending.value in h.installed
                 && var i := h.installed[h.state.pending.value];
                    && i.release.version == h.state.pending.value && Genuine(i.release, i.bytes, key, platform)
                    && Less(Version(0, 0, 0, ""), i.release.version)
  {
  }

  /** A genuine, newer release can be staged, and if it starts, it is active afterwards and what was active before is
      kept for a rollback. */
  lemma UpdateCompletes(h: Home, r: Release, bytes: seq<bv8>, key: string, platform: string)
    requires Genuine(r, bytes, key, platform) && Newer(h.state, r.version) && Fits(h, r, bytes)
    ensures var staged := Next(h, Stage(r, bytes), key, platform);
            var t := Next(staged, Activate(true), key, platform);
            && staged.state.pending == Some(r.version) && staged.state.active == h.state.active
            && t.state.active == Some(r.version) && t.state.previous == h.state.active && t.state.pending == None
            && t.state.highwater == Some(r.version)
            && r.version in t.installed && t.installed[r.version].bytes == bytes
            && var back := Next(t, Rollback, key, platform);
               back.state.active == h.state.active && back.state.highwater == Some(r.version)
  {
    UpdatesExactly(h, r, bytes, key, platform, true);
    UpdatesExactly(Next(h, Stage(r, bytes), key, platform), r, bytes, key, platform, true);
  }

  // ---- the operations on the state directory ----

  class Updater {
    var state: UpdateState
    var installed: map<Version, Installed>

    constructor ()
      ensures state == UpdateState(None, None, None, None) && installed == map[]
    {
      state := UpdateState(None, None, None, None);
      installed := map[];
    }

    function View(): Home
      reads this
    {
      Home(state, installed)
    }

    method Stage(r: Release, bytes: seq<bv8>, key: string, platform: string) returns (ok: bool)
      modifies this
      ensures ok == Stageable(old(View()), r, bytes, key, platform)
      ensures View() == if ok then Staged(old(View()), r, bytes) else old(View())
      ensures ok <==> Genuine(r, bytes, key, platform) && Newer(old(state), r.version) && Fits(old(View()), r, bytes)
      ensures ok ==> state == old(state).(pending := Some(r.version))
      ensures ok ==> r.version in installed && installed == old(installed)[r.version := Installed(r, bytes)]
    {
      UpdatesExactly(View(), r, bytes, key, platform, true);
      if !Verified(r, key, platform, Floor(state)) || !Intact(r, bytes) {
        return false;
      }
      if r.version in installed {
        var existing := installed[r.version];
        if !Intact(r, existing.bytes) || existing.release != r {
          return false;
        }
      } else {
        installed := installed[r.version := Installed(r, bytes)];
      }
      state := state.(pending := Some(r.version));
      return true;
    }

    /** `healthy` is the outcome of starting the candidate. */
    method Activate(key: string, platform: string, healthy: bool) returns (ok: bool)
      modifies this`state
      ensures ok == (old(state).pending.None? || Activatable(old(View()), key, platform, healthy))
      ensures state == if old(state).pending.None? then old(state)
                       else if ok then Activated(old(state), old(state).pending.value)
                       else old(state).(pending := None)
      ensures ok && old(state).pending.Some? ==>
        && Newer(old(state), old(state).pending.value) && healthy && state.active == old(state).pending
        && state.previous == old(state).active && state.highwater == old(state).pending && state.pending == None
    {
      if state.pending.None? {
        return true;
      }
      var version := state.pending.value;
      ok := Less(Floor(state), version) && Sound(View(), version, key, platform) && healthy;
      state := state.(pending := None);
      if ok {
        state := state.(previous := state.active);
        state := state.(active := Some(version));
        state := state.(highwater := Some(version));
      }
    }

    method Rollback()
      modifies this`state
      ensures state == RolledBack(old(state))
    {
      state := state.(active := state.previous);
      state := state.(previous := None);
      state := state.(pending := None);
    }

    /** None stands for the bootstrap executable. */
    method ActiveExecutable(key: string, platform: string) returns (ok: bool, exe: Option<Installed>)
      ensures ok == (state.active.None? || Sound(View(), state.active.value, key, platform))
      ensures ok ==> exe == if state.active.None? then None else Some(installed[state.active.value])
    {
      if state.active.None? {
        return true, None;
      }
      ok := Sound(View(), state.active.value, key, platform);
      exe := if ok then Some(installed[state.active.value]) else None;
    }
  }

  // ---- runs ----

  /** Damage is any change to an installed file behind the updater's back. */
  datatype Step =
    | Stage(r: Release, bytes: seq<bv8>)
    | Activate(healthy: bool)
    | Rollback
    | Damage(v: Version, bytes: seq<bv8>)

  predicate Activates(h: Home, step: Step, key: string, platform: string) {
    step.Activate? && Activatable(h, key, platform, step.healthy)
  }

  function Next(h: Home, step: Step, key: string, platform: string): Home {
    match step
    case Stage(r, bytes) => if Stageable(h, r, bytes, key, platform) then Staged(h, r, bytes) else h
    case Activate(healthy) =>
      if h.state.pending.None? then h
      else if Activatable(h, key, platform, healthy) then h.(state := Activated(h.state, h.state.pending.value))
      else h.(state := h.state.(pending := None))
    case Rollback => h.(state := RolledBack(h.state))
    case Damage(v, bytes) =>
      if v in h.installed then h.(installed := h.installed[v := h.installed[v].(bytes := bytes)]) else h
  }

  predicate AtMost(v: Option<Version>, bound: Option<Version>) {
    v.Some? ==> bound.Some? && !Less(bound.value, v.value)
  }

  /** Pending exceeds every version ever active; previous < active <= high-water. */
  predicate Ordered(s: UpdateState) {
    && (s.pending.Some? ==> Less(Floor(s), s.pending.value) && Stable(s.pending.value))
    && (s.previous.Some? ==> s.active.Some? && Less(s.previous.value, s.active.value))
    && AtMost(s.active, s.highwater)
    && (s.highwater.Some? ==> Less(BUILT_IN, s.highwater.value) && Stable(s.highwater.value))
    && (s.active.Some? ==> Stable(s.active.value)) && (s.previous.Some? ==> Stable(s.previous.value))
  }

  lemma StepKeepsOrder(h: Home, step: Step, key: string, platform: string)
    requires Ordered(h.state)
    ensures Ordered(Next(h, step, key, platform).state)
  {
    match step
    case Stage(r, bytes) =>
    case Activate(healthy) =>
    case Rollback =>
    case Damage(v, bytes) =>
  }

  ghost predicate IsRun(run: seq<Home>, steps: seq<Step>, key: string, platform: string) {
    && |run| == |steps| + 1
    && run[0] == Home(UpdateState(None, None, None, None), map[])
    && forall k :: 0 <= k < |steps| ==> run[k + 1] == Next(run[k], steps[k], key, platform)
  }

  lemma {:induction false} EveryRunIsOrdered(run: seq<Home>, steps: seq<Step>, key: string, platform: string, k: nat)
    requires IsRun(run, steps, key, platform) && k < |run|
    ensures Ordered(run[k].state)
  {
    if k > 0 {
      EveryRunIsOrdered(run, steps, key, platform, k - 1);
      StepKeepsOrder(run[k - 1], steps[k - 1], key, platform);
    }
  }

  lemma {:induction false} HighwaterNeverFalls(run: seq<Home>, steps: seq<Step>, key: string, platform: string,
                                               i: nat, j: nat)
    requires IsRun(run, steps, key, platform) && i <= j < |run|
    ensures AtMost(run[i].state.highwater, run[j].state.highwater)
    decreases j
  {
    if i < j {
      HighwaterNeverFalls(run, steps, key, platform, i, j - 1);
      EveryRunIsOrdered(run, steps, key, platform, j - 1);
    }
  }

  /** Each activation raises the high-water mark, so no version is ever activated twice, rollbacks or not. */
  lemma NoVersionIsActivatedTwice(run: seq<Home>, steps: seq<Step>, key: string, platform: string, i: nat, j: nat)
    requires IsRun(run, steps, key, platform) && i < j < |steps|
    requires Activates(run[i], steps[i], key, platform) && Activates(run[j], steps[j], key, platform)
    ensures run[i + 1].state.active.Some? && run[j + 1].state.active.Some?
    ensures Less(run[i + 1].state.active.value, run[j + 1].state.active.value)
    ensures run[j + 1].state.highwater == run[j + 1].state.active
  {
    HighwaterNeverFalls(run, steps, key, platform, i + 1, j);
  }

  /** What is activated is the intact executable of a release signed with the key; a failed candidate
      changes neither the active nor the previous version. */
  lemma OnlySoundReleasesActivate(run: seq<Home>, steps: seq<Step>, key: string, platform: string, k: nat)
    requires IsRun(run, steps, key, platform) && k < |steps| && steps[k].Activate?
    ensures var before, after := run[k], run[k + 1];
            if Activates(before, steps[k], key, platform) then
              && after.state.active == before.state.pending && after.state.previous == before.state.active
              && var v := after.state.active.value;
                 && v in after.installed && after.installed[v].release.signer == key
                 && after.installed[v].bytes == after.installed[v].release.digest
                 && after.installed[v].release.version == v
            else
              after.state.active == before.state.active && after.state.previous == before.state.previous
              && after.state.highwater == before.state.highwater
  {
  }

  /** The test against the floor inside `activate` never fires: staging already saw to it. */
  lemma PendingIsNeverRejectedAsOld(run: seq<Home>, steps: seq<Step>, key: string, platform: string, k: nat,
                                    healthy: bool)
    requires IsRun(run, steps, key, platform) && k < |run| && run[k].state.pending.Some?
    ensures Activatable(run[k], key, platform, healthy)
            <==> Sound(run[k], run[k].state.pending.value, key, platform) && healthy
  {
    EveryRunIsOrdered(run, steps, key, platform, k);
  }

  lemma {:induction false} NoPreviousAfterRollback(run: seq<Home>, steps: seq<Step>, key: string, platform: string,
                                                   i: nat, j: nat)
    requires IsRun(run, steps, key, platform) && i < j < |run| && steps[i] == Rollback
    requires forall k :: i < k < j ==> !Activates(run[k], steps[k], key, platform)
    ensures run[j].state.previous == None
    decreases j
  {
    if i + 1 < j {
      NoPreviousAfterRollback(run, steps, key, platform, i, j - 1);
    }
  }

  /** Two rollbacks with no activation between them always reach the bootstrap executable. */
  lemma TwoRollbacksReachBootstrap(run: seq<Home>, steps: seq<Step>, key: string, platform: string, i: nat, j: nat)
    requires IsRun(run, steps, key, platform) && i < j < |steps| && steps[i] == Rollback && steps[j] == Rollback
    requires forall k :: i < k < j ==> !Activates(run[k], steps[k], key, platform)
    ensures run[j + 1].state.active == None
  {
    NoPreviousAfterRollback(run, steps, key, platform, i, j);
  }
}
