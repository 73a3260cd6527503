// Reading a whole WebDAV tree with one Depth 1 PROPFIND per folder. Nothing the server says is trusted.

module WebDav {
  import opened Options
  import opened Paths

  /** A resource of the tree; its path is also its remote id. */
  datatype Entry = Entry(path: Path, isDir: bool, size: nat, modified: int, etag: string)

  /** One `response` element. `path` is None for an href outside the configured root, `isDir` for a missing
      successful resourcetype, `length` for a missing or unreadable content length. */
  datatype Response = Response(path: Option<Path>, isDir: Option<bool>, length: Option<nat>, modified: int,
      etag: string)

  /** What the server says to `PROPFIND p`, Depth 1; p is absent when the request fails. A walk asks about
      a folder at most once, so a map covers every server, also one that changes while it is read. */
  type Answers = map<Path, seq<Response>>

  const MAX_ENTRIES: nat := 100_000

  function Quoted(etag: string): string {
    if etag == "" || "\"" <= etag || "W/" <= etag then etag else "\"" + etag + "\""
  }

  function Parsed(r: Response): (e: Option<Entry>)
    ensures e.Some? ==> r.path == Some(e.value.path)
  {
    if r.path.None? || r.isDir.None? then None
    else if r.isDir.value then Some(Entry(r.path.value, true, 0, r.modified, Quoted(r.etag)))
    else if r.length.None? then None
    else Some(Entry(r.path.value, false, r.length.value, r.modified, Quoted(r.etag)))
  }

  predicate Distinct(entries: seq<Entry>) {
    forall i, j :: 0 <= i < j < |entries| ==> entries[i].path != entries[j].path
  }

  function PathsOf(all: seq<Entry>): set<Path> {
    set e | e in all :: e.path
  }

  /** An answer the client accepts: not empty, every response complete, no resource twice. */
  predicate Complete(answer: seq<Response>) {
    && answer != []
    && (forall i :: 0 <= i < |answer| ==> Parsed(answer[i]).Some?)
    && (forall i, j :: 0 <= i < j < |answer| ==> Parsed(answer[i]).value.path != Parsed(answer[j]).value.path)
  }

  function Listing(answer: seq<Response>): seq<Entry>
    requires Complete(answer)
  {
    seq(|answer|, i requires 0 <= i < |answer| => Parsed(answer[i]).value)
  }

  /** The accepted answers, as entries. */
  type Listings = map<Path, seq<Entry>>

  function Accepted(answers: Answers): (said: Listings)
    ensures forall p :: p in said ==> Distinct(said[p])
  {
    map p | p in answers && Complete(answers[p]) :: Listing(answers[p])
  }

  lemma Repeated(answer: seq<Response>, i: nat, entries: seq<Entry>)
    requires |entries| == i < |answer| && forall k :: 0 <= k < i ==> Parsed(answer[k]) == Some(entries[k])
    requires answer[i].path.Some? && answer[i].path.value in PathsOf(entries)
    ensures !Complete(answer)
  {
    var k :| 0 <= k < i && entries[k].path == answer[i].path.value;
    assert Parsed(answer[k]).value.path == answer[i].path.value;
  }

  /** There is a response, each tells its path, its kind and, for a file, its length, and no path comes twice. */
  predicate Readable(answer: seq<Response>) {
    && answer != []
    && (forall i :: 0 <= i < |answer| ==>
          answer[i].path.Some? && answer[i].isDir.Some? && (!answer[i].isDir.value ==> answer[i].length.Some?))
    && (forall i, j :: 0 <= i < j < |answer| ==> answer[i].path != answer[j].path)
  }

  /** The entry says what the response says. A bare etag is put in quotes. */
  predicate Reads(r: Response, e: Entry) {
    && r.path == Some(e.path) && r.isDir == Some(e.isDir) && e.modified == r.modified
    && (if e.isDir then e.size == 0 else r.length == Some(e.size))
    && (if r.etag == "" || r.etag[0] == '"' || (|r.etag| >= 2 && r.etag[0] == 'W' && r.etag[1] == '/')
        then e.etag == r.etag
        else e.etag == "\"" + r.etag + "\"")
  }

  lemma ReadsExactly(r: Response)
    ensures Parsed(r).Some? <==> r.path.Some? && r.isDir.Some? && (!r.isDir.value ==> r.length.Some?)
    ensures Parsed(r).Some? ==> Reads(r, Parsed(r).value)
  {
    if r.etag != "" {
      assert ("\"" <= r.etag) <==> r.etag[0] == '"';
      assert ("W/" <= r.etag) <==> |r.etag| >= 2 && r.etag[0] == 'W' && r.etag[1] == '/';
    }
  }

  lemma ReadableExactly(answer: seq<Response>)
    ensures Complete(answer) <==> Readable(answer)
    ensures Complete(answer) ==> forall i :: 0 <= i < |answer| ==> Reads(answer[i], Listing(answer)[i])
  {
    forall i | 0 <= i < |answer|
      ensures Parsed(answer[i]).Some? <==> answer[i].path.Some? && answer[i].isDir.Some?
                                           && (!answer[i].isDir.value ==> answer[i].length.Some?)
      ensures Parsed(answer[i]).Some? ==> Reads(answer[i], Parsed(answer[i]).value) {
      ReadsExactly(answer[i]);
    }
  }

  method Propfind(answers: Answers, path: Path) returns (r: Option<seq<Entry>>)
    ensures r == if path in Accepted(answers) then Some(Accepted(answers)[path]) else None
    ensures r.Some? <==> path in answers && Readable(answers[path])
    ensures r.Some? ==>
      |r.value| == |answers[path]| && forall i :: 0 <= i < |r.value| ==> Reads(answers[path][i], r.value[i])
  {
    if path in answers {
      ReadableExactly(answers[path]);
    }
    if path !in answers {
      return None;
    }
    var answer := answers[path];
    var entries: seq<Entry> := [];
    var seen: set<Path> := {};
    for i := 0 to |answer|
      invariant |entries| == i
      invariant forall k :: 0 <= k < i ==> Parsed(answer[k]) == Some(entries[k])
      invariant Distinct(entries) && seen == PathsOf(entries)
    {
      var parsed := Parsed(answer[i]);
      if answer[i].path.None? {
        return None;
      }
      if answer[i].path.value in seen {
        Repeated(answer, i, entries);
        return None;
      }
      if parsed.None? {
        return None;
      }
      entries := entries + [parsed.value];
      seen := seen + {parsed.value.path};
    }
    if entries == [] {
      return None;
    }
    assert entries == Listing(answer);
    r := Some(entries);
  }

  predicate IsFolder(all: seq<Entry>, p: Path) {
    p == ROOT || exists e :: e in all && e.isDir && e.path == p
  }

  /** No path comes twice, and an entry comes after the folder that holds it. */
  predicate Ordered(all: seq<Entry>) {
    Distinct(all) && ParentsFirst(all)
  }

  predicate ParentsFirst(all: seq<Entry>) {
    all == [] ||
    var (before, e) := (all[..|all| - 1], all[|all| - 1]);
    e.path != ROOT && IsFolder(before, Parent(e.path)) && ParentsFirst(before)
  }

  lemma {:induction false} ParentBefore(all: seq<Entry>, i: nat)
    requires ParentsFirst(all) && i < |all|
    ensures all[i].path != ROOT
    ensures Parent(all[i].path) == ROOT || exists j :: 0 <= j < i && all[j].isDir && all[j].path == Parent(all[i].path)
  {
    var before := all[..|all| - 1];
    if i < |before| {
      ParentBefore(before, i);
    }
  }

  /** Folder p was read: all its answer names is p itself and members of p, and those are in `all`. */
  ghost predicate Read(said: Listings, all: seq<Entry>, p: Path) {
    p in said && forall e :: e in said[p] && e.path != p ==> e in all && Parent(e.path) == p
  }

  /** The folder that holds the entry named it. */
  predicate Said(said: Listings, e: Entry) {
    Parent(e.path) in said && e in said[Parent(e.path)]
  }

  /** What a successful walk returns, whatever the server: the root's members, theirs, and so on. */
  ghost predicate Walked(said: Listings, all: seq<Entry>) {
    && Ordered(all) && |all| <= MAX_ENTRIES
    && (forall e :: e in all ==> Said(said, e))
    && (forall p :: IsFolder(all, p) ==> Read(said, all, p))
  }

  /** A resource tree: every resource but the root lies in a folder (section 5.1 of RFC 4918). */
  ghost predicate Rooted(tree: map<Path, Entry>) {
    && ROOT in tree && tree[ROOT].isDir
    && (forall p :: p in tree ==> tree[p].path == p)
    && (forall p :: p in tree && p != ROOT ==> Parent(p) in tree && tree[Parent(p)].isDir)
  }

  /** A correct answer for folder p names p and its members (section 9.1 of RFC 4918). */
  ghost predicate FaithfulAt(said: Listings, tree: map<Path, Entry>, p: Path) {
    && p in said
    && (forall e :: e in said[p] ==>
          e.path in tree && e == tree[e.path] && (e.path == p || (e.path != ROOT && Parent(e.path) == p)))
    && (forall q :: q in tree && q != ROOT && Parent(q) == p ==> tree[q] in said[p])
  }

  /** The server shows this tree, though a request may fail. */
  ghost predicate Faithful(said: Listings, tree: map<Path, Entry>) {
    Rooted(tree) && forall p :: p in tree && p in said && tree[p].isDir ==> FaithfulAt(said, tree, p)
  }

  ghost predicate Answered(said: Listings, tree: map<Path, Entry>) {
    forall p :: p in tree && tree[p].isDir ==> p in said
  }

  lemma {:induction false} DistinctCount(all: seq<Entry>)
    requires Distinct(all)
    ensures |PathsOf(all)| == |all|
  {
    if all != [] {
      var last := |all| - 1;
      DistinctCount(all[..last]);
      assert PathsOf(all) == PathsOf(all[..last]) + {all[last].path} by {
        assert all == all[..last] + [all[last]];
      }
    }
  }

  /** Every resource of the tree is found, the deeper ones through their folders. */
  lemma {:induction false} EveryResourceFound(said: Listings, tree: map<Path, Entry>, all: seq<Entry>, q: Path)
    requires Faithful(said, tree) && Walked(said, all)
    requires q in tree && q != ROOT
    ensures tree[q] in all
    decreases |q|
  {
    var p := Parent(q);
    if p != ROOT {
      EveryResourceFound(said, tree, all, p);
    }
    assert IsFolder(all, p);
    assert Read(said, all, p) && FaithfulAt(said, tree, p);
  }

  /** Nothing is found that the tree does not have. */
  lemma {:induction false} OnlyResourcesFound(said: Listings, tree: map<Path, Entry>, all: seq<Entry>, i: nat)
    requires Faithful(said, tree) && Ordered(all) && i < |all|
    requires forall e :: e in all ==> Said(said, e)
    ensures all[i].path in tree && all[i].path != ROOT && all[i] == tree[all[i].path]
    decreases i
  {
    var p := Parent(all[i].path);
    ParentBefore(all, i);
    if p != ROOT {
      var j :| 0 <= j < i && all[j].isDir && all[j].path == p;
      OnlyResourcesFound(said, tree, all, j);
    }
    assert Said(said, all[i]);
    assert FaithfulAt(said, tree, p);
  }

  /** The entries are the resources below the root. */
  ghost predicate Names(entries: seq<Entry>, tree: map<Path, Entry>) {
    forall e :: e in entries <==> e.path in tree && e.path != ROOT && e == tree[e.path]
  }

  lemma NamedPaths(entries: seq<Entry>, tree: map<Path, Entry>)
    requires Rooted(tree) && Names(entries, tree)
    ensures PathsOf(entries) == tree.Keys - {ROOT}
  {
    forall p | p in tree && p != ROOT ensures p in PathsOf(entries) {
      assert tree[p] in entries;
    }
  }

  /** A walk of a faithful server returns its tree: every resource below the root, and each exactly once. */
  lemma WalkIsTheTree(said: Listings, tree: map<Path, Entry>, all: seq<Entry>)
    requires Faithful(said, tree) && Walked(said, all)
    ensures Names(all, tree) && |all| == |tree| - 1
    ensures Answered(said, tree)
  {
    forall e | e in all ensures e.path in tree && e == tree[e.path] && e.path != ROOT {
      var i :| 0 <= i < |all| && all[i] == e;
      OnlyResourcesFound(said, tree, all, i);
    }
    forall q | q in tree && q != ROOT ensures tree[q] in all {
      EveryResourceFound(said, tree, all, q);
    }
    DistinctCount(all);
    NamedPaths(all, tree);
    forall p | p in tree && tree[p].isDir ensures p in said {
      assert IsFolder(all, p);
      assert Read(said, all, p);
    }
  }

  /** The walk so far has not found more than the tree has. */
  lemma FoundFewEnough(said: Listings, tree: map<Path, Entry>, all: seq<Entry>)
    requires Faithful(said, tree) && Ordered(all)
    requires forall e :: e in all ==> Said(said, e)
    ensures |all| <= |tree| - 1
  {
    forall p | p in PathsOf(all) ensures p in tree.Keys - {ROOT} {
      var i :| 0 <= i < |all| && all[i].path == p;
      OnlyResourcesFound(said, tree, all, i);
    }
    DistinctCount(all);
    Fits(PathsOf(all), tree.Keys - {ROOT});
  }

  lemma {:induction false} Fits<T>(a: set<T>, b: set<T>)
    requires a <= b
    ensures |a| <= |b|
  {
    if a != {} {
      var x :| x in a;
      Fits(a - {x}, b - {x});
    }
  }

  /** Between two folders: every folder known is either read or waits in the queue, once. */
  ghost predicate Progress(said: Listings, queue: seq<Path>, visited: set<Path>, all: seq<Entry>) {
    && Ordered(all) && |all| <= MAX_ENTRIES
    && (forall e :: e in all ==> Said(said, e) && Parent(e.path) in visited)
    && (forall p :: IsFolder(all, p) <==> p in visited || p in queue)
    && (forall p :: p in visited ==> Read(said, all, p) && p !in queue)
    && (forall i, j :: 0 <= i < j < |queue| ==> queue[i] != queue[j])
  }

  lemma Popped(parent: Path, queue: seq<Path>)
    requires forall i, j :: 0 <= i < j < |[parent] + queue| ==> ([parent] + queue)[i] != ([parent] + queue)[j]
    ensures parent !in queue
    ensures forall p :: p in [parent] + queue <==> p == parent || p in queue
    ensures forall k :: 0 <= k < |queue| ==> ([parent] + queue)[k + 1] == queue[k]
  {
    forall k | 0 <= k < |queue| ensures queue[k] != parent {
      assert ([parent] + queue)[0] != ([parent] + queue)[k + 1];
    }
  }

  /** The tree can be walked: every folder answers and the listing fits. */
  ghost predicate Walkable(said: Listings, tree: map<Path, Entry>) {
    Answered(said, tree) && |tree| - 1 <= MAX_ENTRIES
  }

  /** Nothing to go on with at folder p: no accepted answer, or one naming a stranger. */
  ghost predicate Stuck(said: Listings, p: Path) {
    p in said ==> exists e :: e in said[p] && e.path != p && Parent(e.path) != p
  }

  /** On a faithful server a walk that cannot go on lacks an answer, or the tree is too large. */
  lemma OnlyThenStuck(said: Listings, tree: map<Path, Entry>, all: seq<Entry>, p: Path)
    requires Ordered(all) && forall e :: e in all ==> Said(said, e)
    requires |all| > MAX_ENTRIES || (IsFolder(all, p) && Stuck(said, p))
    ensures Faithful(said, tree) ==> !Walkable(said, tree)
  {
    if Faithful(said, tree) {
      FoundFewEnough(said, tree, all);
    }
    if Faithful(said, tree) && IsFolder(all, p) && Stuck(said, p) {
      if p != ROOT {
        var i :| 0 <= i < |all| && all[i].isDir && all[i].path == p;
        OnlyResourcesFound(said, tree, all, i);
      }
      assert p in tree && tree[p].isDir;
      assert p in said ==> FaithfulAt(said, tree, p);
    }
  }

  /** A member of a known folder may follow when its path is new. */
  lemma Appended(all: seq<Entry>, entry: Entry)
    requires Ordered(all) && entry.path != ROOT && IsFolder(all, Parent(entry.path))
    requires forall e :: e in all ==> e.path != entry.path
    ensures Ordered(all + [entry])
    ensures forall p :: IsFolder(all + [entry], p) <==> IsFolder(all, p) || (entry.isDir && p == entry.path)
    ensures forall e :: e in all + [entry] <==> e in all || e == entry
  {
    var more := all + [entry];
    assert more[..|all|] == all;
    assert forall e :: e in more <==> e in all || e == entry;
  }

  /** The listing has of `parent`'s members exactly those among its first `i` entries. */
  ghost predicate LookedAt(parent: Path, entries: seq<Entry>, i: nat, more: seq<Entry>)
    requires i <= |entries|
  {
    && (forall e :: e in more && Parent(e.path) == parent ==> exists k :: 0 <= k < i && entries[k] == e)
    && (forall k :: 0 <= k < i && entries[k].path != parent ==> entries[k] in more && Parent(entries[k].path) == parent)
  }

  ghost predicate AllRead(said: Listings, visited: set<Path>, more: seq<Entry>) {
    forall p :: p in visited ==> Read(said, more, p)
  }

  /** Folder `parent` is being read: its first `i` entries are looked at, and those below it are in the listing. */
  ghost predicate Members(said: Listings, parent: Path, entries: seq<Entry>, i: nat, visited: set<Path>,
                          more: seq<Entry>)
    requires i <= |entries|
  {
    && Ordered(more) && |more| <= MAX_ENTRIES
    && (forall e :: e in more ==> Said(said, e) && Parent(e.path) in visited + {parent})
    && LookedAt(parent, entries, i, more) && AllRead(said, visited, more)
  }

  /** The folders of the listing are those read or waiting, and none waits twice. */
  ghost predicate Frontier(parent: Path, visited: set<Path>, rest: seq<Path>, more: seq<Entry>) {
    && (forall p :: IsFolder(more, p) <==> p in visited || p == parent || p in rest)
    && (forall p :: p in visited + {parent} ==> p !in rest)
    && (forall j, k :: 0 <= j < k < |rest| ==> rest[j] != rest[k])
  }

  ghost predicate Visiting(said: Listings, parent: Path, entries: seq<Entry>, i: nat, visited: set<Path>,
                           rest: seq<Path>, more: seq<Entry>)
    requires i <= |entries|
  {
    Members(said, parent, entries, i, visited, more) && Frontier(parent, visited, rest, more)
  }

  lemma MemberIsNew(said: Listings, parent: Path, entries: seq<Entry>, i: nat, visited: set<Path>, rest: seq<Path>,
                    more: seq<Entry>)
    requires parent in said && said[parent] == entries && Distinct(entries) && i < |entries|
    requires Visiting(said, parent, entries, i, visited, rest, more)
    requires entries[i].path != parent && Parent(entries[i].path) == parent
    ensures entries[i].path != ROOT && forall e :: e in more ==> e.path != entries[i].path
    ensures Said(said, entries[i]) && IsFolder(more, parent) && !IsFolder(more, entries[i].path)
  {
  }

  lemma FrontierGrows(parent: Path, visited: set<Path>, rest: seq<Path>, more: seq<Entry>, entry: Entry)
    requires Frontier(parent, visited, rest, more) && Ordered(more) && IsFolder(more, Parent(entry.path))
    requires entry.path != ROOT && !IsFolder(more, entry.path) && forall e :: e in more ==> e.path != entry.path
    ensures Frontier(parent, visited, if entry.isDir then rest + [entry.path] else rest, more + [entry])
  {
    Appended(more, entry);
  }

  /** What was read stays read when the listing grows. */
  lemma ReadStays(said: Listings, visited: set<Path>, more: seq<Entry>, entry: Entry)
    requires AllRead(said, visited, more)
    ensures AllRead(said, visited, more + [entry])
  {
    forall p | p in visited ensures Read(said, more + [entry], p) {
      assert Read(said, more, p);
    }
  }

  lemma LookedAtOneMore(parent: Path, entries: seq<Entry>, i: nat, more: seq<Entry>)
    requires i < |entries| && LookedAt(parent, entries, i, more) && Parent(entries[i].path) == parent
    ensures LookedAt(parent, entries, i + 1, more + [entries[i]])
  {
    var grown := more + [entries[i]];
    assert forall e :: e in grown <==> e in more || e == entries[i];
  }

  lemma MembersGrow(said: Listings, parent: Path, entries: seq<Entry>, i: nat, visited: set<Path>, rest: seq<Path>,
                    more: seq<Entry>)
    requires parent in said && said[parent] == entries && Distinct(entries) && i < |entries| && |more| < MAX_ENTRIES
    requires Visiting(said, parent, entries, i, visited, rest, more)
    requires entries[i].path != parent && Parent(entries[i].path) == parent
    ensures Members(said, parent, entries, i + 1, visited, more + [entries[i]])
  {
    MemberIsNew(said, parent, entries, i, visited, rest, more);
    Appended(more, entries[i]);
    ReadStays(said, visited, more, entries[i]);
    LookedAtOneMore(parent, entries, i, more);
  }

  lemma VisitedAll(said: Listings, parent: Path, entries: seq<Entry>, visited: set<Path>, rest: seq<Path>,
                   more: seq<Entry>)
    requires parent in said && said[parent] == entries && Distinct(entries)
    requires Visiting(said, parent, entries, |entries|, visited, rest, more)
    ensures Progress(said, rest, visited + {parent}, more)
  {
  }

  /** The members of `parent` join the listing. Fails on a non-child, or at one entry too many. */
  method Visit(ghost said: Listings, parent: Path, entries: seq<Entry>, ghost visited: set<Path>, queue: seq<Path>,
               all: seq<Entry>)
    returns (ok: bool, rest: seq<Path>, more: seq<Entry>)
    requires Progress(said, [parent] + queue, visited, all) && parent !in visited
    requires parent in said && said[parent] == entries && Distinct(entries)
    ensures Ordered(more) && forall e :: e in more ==> Said(said, e)
    ensures ok ==> Progress(said, rest, visited + {parent}, more)
    ensures |more| > |all| || (more == all && rest == queue)
    ensures !ok ==> |more| > MAX_ENTRIES || (IsFolder(more, parent) && Stuck(said, parent))
  {
    rest, more := queue, all;
    Popped(parent, queue);
    for i := 0 to |entries|
      invariant |more| > |all| || (more == all && rest == queue)
      invariant Visiting(said, parent, entries, i, visited, rest, more)
    {
      var entry := entries[i];
      if entry.path != parent {
        if Parent(entry.path) != parent {
          return false, rest, more;
        }
        MemberIsNew(said, parent, entries, i, visited, rest, more);
        if |more| < MAX_ENTRIES {
          MembersGrow(said, parent, entries, i, visited, rest, more);
        }
        FrontierGrows(parent, visited, rest, more, entry);
        Appended(more, entry);
        if entry.isDir {
          rest := rest + [entry.path];
        }
        more := more + [entry];
        if |more| > MAX_ENTRIES {
          return false, rest, more;
        }
      }
    }
    VisitedAll(said, parent, entries, visited, rest, more);
    ok := true;
  }

  lemma NothingWaits(said: Listings, tree: map<Path, Entry>, visited: set<Path>, all: seq<Entry>)
    requires Progress(said, [], visited, all)
    ensures Walked(said, all) && (Faithful(said, tree) ==> Walkable(said, tree))
  {
    if Faithful(said, tree) {
      WalkIsTheTree(said, tree, all);
    }
  }

  /** The walk ends for every server. What it returns was named by the folder that holds it, and every folder
      was read in full. On a faithful server it succeeds exactly when every folder answers and the tree fits;
      `WalkIsTheTree` says what it then returns. */
  method ListAll(answers: Answers, ghost tree: map<Path, Entry>) returns (r: Option<seq<Entry>>)
    ensures r.Some? ==> Walked(Accepted(answers), r.value)
    ensures Faithful(Accepted(answers), tree) ==> (r.Some? <==> Walkable(Accepted(answers), tree))
  {
    ghost var said := Accepted(answers);
    var queue: seq<Path> := [ROOT];
    var visited: set<Path> := {};
    var all: seq<Entry> := [];
    while queue != []
      invariant Progress(said, queue, visited, all)
      decreases MAX_ENTRIES - |all|, |queue|
    {
      var parent := queue[0];
      assert queue == [parent] + queue[1..];
      queue := queue[1..];
      if parent in visited {
        return None;
      }
      var entries := Propfind(answers, parent);
      if entries.None? {
        OnlyThenStuck(said, tree, all, parent);
        return None;
      }
      var ok;
      ok, queue, all := Visit(said, parent, entries.value, visited, queue, all);
      if !ok {
        OnlyThenStuck(said, tree, all, parent);
        return None;
      }
      visited := visited + {parent};
    }
    NothingWaits(said, tree, visited, all);
    r := Some(all);
  }

  /** A cursor holds the ids of an earlier listing; any other text is refused. */
  datatype Cursor = Snapshot(ids: set<Path>) | Foreign

  datatype Delta = Delta(entries: seq<Entry>, deleted: set<Path>, link: Cursor)

  /** The delta names the resources of the tree and drops what only the cursor had. */
  ghost predicate Shows(d: Delta, cursor: Option<Cursor>, tree: map<Path, Entry>) {
    && cursor != Some(Foreign) && Rooted(tree)
    && Names(d.entries, tree)
    && d.link == Snapshot(tree.Keys - {ROOT})
    && d.deleted == (if cursor.None? then {} else cursor.value.ids) - (tree.Keys - {ROOT})
  }

  method ListDelta(answers: Answers, cursor: Option<Cursor>, ghost tree: map<Path, Entry>) returns (r: Option<Delta>)
    ensures r.Some? ==> Walked(Accepted(answers), r.value.entries)
    ensures Faithful(Accepted(answers), tree) ==>
              (r.Some? <==> Walkable(Accepted(answers), tree) && cursor != Some(Foreign))
    ensures Faithful(Accepted(answers), tree) && r.Some? ==> Shows(r.value, cursor, tree)
  {
    var entries := ListAll(answers, tree);
    if entries.None? || cursor == Some(Foreign) {
      return None;
    }
    if Faithful(Accepted(answers), tree) {
      WalkIsTheTree(Accepted(answers), tree, entries.value);
      NamedPaths(entries.value, tree);
    }
    var current := PathsOf(entries.value);
    var previous: set<Path> := if cursor.None? then {} else cursor.value.ids;
    r := Some(Delta(entries.value, previous - current, Snapshot(current)));
  }

  /** A client that keeps one row per remote id takes a delta over. */
  ghost function Updated(rows: map<Path, Entry>, d: Delta): map<Path, Entry> {
    map p | p in (rows.Keys - d.deleted) + PathsOf(d.entries) ::
      if p in PathsOf(d.entries) then var e :| e in d.entries && e.path == p; e else rows[p]
  }

  lemma UpdatedIsTheTree(rows: map<Path, Entry>, d: Delta, cursor: Option<Cursor>, tree: map<Path, Entry>)
    requires Shows(d, cursor, tree)
    requires rows.Keys == if cursor.None? then {} else cursor.value.ids
    ensures Updated(rows, d) == tree - {ROOT}
  {
    NamedPaths(d.entries, tree);
    var keys := tree.Keys - {ROOT};
    assert (rows.Keys - d.deleted) + keys == keys;
    forall p | p in keys ensures Updated(rows, d)[p] == tree[p] {
      assert forall e :: e in d.entries && e.path == p ==> e == tree[p];
    }
  }

  /** The client starts without a cursor and then hands back the last link. */
  function NextCursor(deltas: seq<Delta>): Option<Cursor> {
    if deltas == [] then None else Some(deltas[|deltas| - 1].link)
  }

  ghost function Followed(deltas: seq<Delta>): map<Path, Entry> {
    if deltas == [] then map[] else Updated(Followed(deltas[..|deltas| - 1]), deltas[|deltas| - 1])
  }

  ghost predicate Chained(deltas: seq<Delta>, trees: seq<map<Path, Entry>>) {
    && |deltas| == |trees|
    && (deltas != [] ==>
          var last := |deltas| - 1;
          Chained(deltas[..last], trees[..last]) && Shows(deltas[last], NextCursor(deltas[..last]), trees[last]))
  }

  /** Following the deltas of a faithful server leaves exactly its last tree, whatever the trees before it. */
  lemma {:induction false} FollowedIsTheLastTree(deltas: seq<Delta>, trees: seq<map<Path, Entry>>)
    requires Chained(deltas, trees) && deltas != []
    ensures Followed(deltas) == trees[|trees| - 1] - {ROOT}
  {
    var last := |deltas| - 1;
    if last > 0 {
      FollowedIsTheLastTree(deltas[..last], trees[..last]);
    }
    UpdatedIsTheTree(Followed(deltas[..last]), deltas[last], NextCursor(deltas[..last]), trees[last]);
  }
}
