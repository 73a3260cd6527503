// Renaming a folder: its descendants are rewritten row by row, against the unique index on paths.

module Renames {
  import opened Options
  import opened Paths
  import opened Rows

  /** The order in which a query returns its rows. */
  type Scan = map<string, Path> -> seq<string>

  ghost predicate IsScan(scan: Scan) {
    forall rows :: Enumerates(scan(rows), rows.Keys)
  }

  ghost predicate Enumerates(order: seq<string>, ids: set<string>) {
    && (forall i :: 0 <= i < |order| ==> order[i] in ids)
    && (forall id :: id in ids ==> id in order)
    && (forall i, j :: 0 <= i < j < |order| ==> order[i] != order[j])
  }

  function Descendants(files: Files, folder: Path): map<string, Path> {
    map i | i in files && folder < files[i].path :: files[i].path
  }

  predicate PathTaken(files: Files, path: Path, id: string) {
    exists i :: i in files && i != id && files[i].path == path
  }

  predicate Rebasable(files: Files, rows: map<string, Path>, order: seq<string>, before: Path) {
    forall i :: 0 <= i < |order| ==> order[i] in rows && order[i] in files && before < rows[order[i]]
  }

  /** One UPDATE per descendant, each checked against the unique index on paths. */
  function RebasedInOrder(files: Files, rows: map<string, Path>, order: seq<string>, before: Path,
                          after: Path): (r: Option<Files>)
    requires before == ROOT ==> after != ROOT
    requires Rebasable(files, rows, order, before)
    ensures r.Some? ==> r.value.Keys == files.Keys
    ensures r.Some? ==> forall i :: i in files ==> r.value[i] == files[i].(
              path := if i in order then Rebase(before, after, rows[i]) else files[i].path)
  {
    if order == [] then Some(files)
    else
      var last := order[|order| - 1];
      assert forall i :: i in order <==> i in order[..|order| - 1] || i == last;
      match RebasedInOrder(files, rows, order[..|order| - 1], before, after)
      case None => None
      case Some(done) =>
        var p := Rebase(before, after, rows[last]);
        if PathTaken(done, p, last) then None else Some(done[last := done[last].(path := p)])
  }

  lemma RenamedKeepsPaths(files: Files, id: string, path: Path)
    requires UniquePaths(files) && id in files && !PathTaken(files, path, id)
    ensures UniquePaths(files[id := files[id].(path := path)])
  {
  }

  lemma {:induction false} RebasedKeepsPaths(files: Files, rows: map<string, Path>, order: seq<string>, before: Path,
                                             after: Path)
    requires before == ROOT ==> after != ROOT
    requires Rebasable(files, rows, order, before) && UniquePaths(files)
    ensures var r := RebasedInOrder(files, rows, order, before, after); r.Some? ==> UniquePaths(r.value)
  {
    if order != [] {
      var last := order[|order| - 1];
      var prior := RebasedInOrder(files, rows, order[..|order| - 1], before, after);
      RebasedKeepsPaths(files, rows, order[..|order| - 1], before, after);
      if prior.Some? && !PathTaken(prior.value, Rebase(before, after, rows[last]), last) {
        RenamedKeepsPaths(prior.value, last, Rebase(before, after, rows[last]));
      }
    }
  }

  lemma RebasedKeepsSchema(files: Files, rows: map<string, Path>, order: seq<string>, before: Path, after: Path)
    requires before == ROOT ==> after != ROOT
    requires Rebasable(files, rows, order, before) && Schema(files)
    ensures var r := RebasedInOrder(files, rows, order, before, after); r.Some? ==> Schema(r.value)
  {
    var r := RebasedInOrder(files, rows, order, before, after);
    RebasedKeepsPaths(files, rows, order, before, after);
    if r.Some? {
      assert forall i :: i in files ==> r.value[i].cloudId == files[i].cloudId;
      assert UniqueClouds(r.value);
    }
  }

  lemma RebaseNext(files: Files, rows: map<string, Path>, order: seq<string>, i: nat, before: Path, after: Path)
    requires before == ROOT ==> after != ROOT
    requires Rebasable(files, rows, order, before) && i < |order|
    ensures RebasedInOrder(files, rows, order[..i + 1], before, after) ==
            match RebasedInOrder(files, rows, order[..i], before, after)
            case None => None
            case Some(done) =>
              var p := Rebase(before, after, rows[order[i]]);
              if PathTaken(done, p, order[i]) then None else Some(done[order[i] := done[order[i]].(path := p)])
  {
    assert order[..i + 1][..i] == order[..i];
  }

  lemma {:induction false} FailedRebaseFails(files: Files, rows: map<string, Path>, order: seq<string>, i: nat,
                                             before: Path, after: Path)
    requires before == ROOT ==> after != ROOT
    requires Rebasable(files, rows, order, before)
    requires i <= |order|
    requires RebasedInOrder(files, rows, order[..i], before, after) == None
    ensures RebasedInOrder(files, rows, order, before, after) == None
  {
    if i == |order| {
      assert order[..i] == order;
    } else {
      assert order[..|order| - 1][..i] == order[..i];
      FailedRebaseFails(files, rows, order[..|order| - 1], i, before, after);
    }
  }

  /** Rebasing in any order rewrites exactly the paths below `before`. */
  lemma RebasedRows(files: Files, before: Path, after: Path, scan: Scan)
    requires IsScan(scan) && before != after
    ensures var rows := Descendants(files, before);
            Rebasable(files, rows, scan(rows), before)
    ensures var rows := Descendants(files, before);
            var r := RebasedInOrder(files, rows, scan(rows), before, after);
            r.Some? ==> r.value.Keys == files.Keys && forall i :: i in files ==>
              r.value[i] == files[i].(path := if before < files[i].path
                  then Rebase(before, after, files[i].path) else files[i].path)
  {
    var rows := Descendants(files, before);
    assert Enumerates(scan(rows), rows.Keys);
  }

  // ---- when a rename succeeds ----

  /** Before row n is rewritten, another row that is still to come, or none of the subtree, holds its new path. */
  ghost predicate Blocked(files: Files, order: seq<string>, n: nat, before: Path, after: Path)
    requires before == ROOT ==> after != ROOT
    requires n < |order| && order[n] in files && before < files[order[n]].path
  {
    exists j :: j in files && j != order[n] && files[j].path == Rebase(before, after, files[order[n]].path)
                && (forall m :: 0 <= m < n ==> order[m] != j)
  }

  lemma RebaseIsInjective(before: Path, after: Path, p: Path, q: Path)
    requires before < p && before < q && (before == ROOT ==> after != ROOT)
    requires Rebase(before, after, p) == Rebase(before, after, q)
    ensures p == q
  {
    var r := Rebase(before, after, p);
    if before == ROOT {
      var last := |after| - 1;
      assert r[last][|after[last]|..] == p[0] == q[0];
      assert r[last + 1..] == p[1..] == q[1..];
      assert p == [p[0]] + p[1..] && q == [q[0]] + q[1..];
    } else {
      assert r[|after|..] == p[|before|..] == q[|before|..];
      assert p == before + p[|before|..] && q == before + q[|before|..];
    }
  }

  /** The order names descendants only, and none twice. */
  ghost predicate Lists(files: Files, order: seq<string>, before: Path) {
    && UniquePaths(files) && Rebasable(files, Descendants(files, before), order, before)
    && (forall n :: 0 <= n < |order| ==> order[n] in files && before < files[order[n]].path)
    && (forall n, m :: 0 <= n < m < |order| ==> order[n] != order[m])
  }

  /** It names every descendant. */
  ghost predicate Covers(files: Files, order: seq<string>, before: Path) {
    forall i :: i in files && before < files[i].path ==> exists n :: 0 <= n < |order| && order[n] == i
  }

  lemma ScanLists(files: Files, before: Path, scan: Scan)
    requires IsScan(scan) && UniquePaths(files)
    ensures Lists(files, scan(Descendants(files, before)), before)
    ensures Covers(files, scan(Descendants(files, before)), before)
  {
    var rows := Descendants(files, before);
    assert Enumerates(scan(rows), rows.Keys);
    forall i | i in files && before < files[i].path ensures exists n :: 0 <= n < |scan(rows)| && scan(rows)[n] == i {
      assert i in rows.Keys;
    }
  }

  lemma TakenIsBlocked(files: Files, order: seq<string>, n: nat, before: Path, after: Path, done: Files)
    requires before == ROOT ==> after != ROOT
    requires Lists(files, order, before) && n < |order|
    requires RebasedInOrder(files, Descendants(files, before), order[..n], before, after) == Some(done)
    ensures PathTaken(done, Rebase(before, after, files[order[n]].path), order[n])
            <==> Blocked(files, order, n, before, after)
  {
    var rows := Descendants(files, before);
    var p := Rebase(before, after, files[order[n]].path);
    forall j | j in files && j != order[n]
      ensures done[j].path == p <==> files[j].path == p && (forall m :: 0 <= m < n ==> order[m] != j)
    {
      if j in order[..n] {
        var m :| 0 <= m < n && order[m] == j;
        if done[j].path == p {
          RebaseIsInjective(before, after, files[j].path, files[order[n]].path);
        }
      }
    }
  }

  ghost predicate NoneBlocked(files: Files, order: seq<string>, k: nat, before: Path, after: Path)
    requires before == ROOT ==> after != ROOT
    requires Lists(files, order, before) && k <= |order|
  {
    k == 0 || (NoneBlocked(files, order, k - 1, before, after) && !Blocked(files, order, k - 1, before, after))
  }

  lemma {:induction false} NoneBlockedMeansEach(files: Files, order: seq<string>, k: nat, before: Path, after: Path)
    requires before == ROOT ==> after != ROOT
    requires Lists(files, order, before) && k <= |order|
    ensures NoneBlocked(files, order, k, before, after)
            <==> forall n :: 0 <= n < k ==> !Blocked(files, order, n, before, after)
  {
    if k > 0 {
      NoneBlockedMeansEach(files, order, k - 1, before, after);
    }
  }

  lemma OneMoreRow(files: Files, order: seq<string>, k: nat, before: Path, after: Path)
    requires before == ROOT ==> after != ROOT
    requires Lists(files, order, before) && k < |order|
    ensures RebasedInOrder(files, Descendants(files, before), order[..k + 1], before, after).Some?
            <==> RebasedInOrder(files, Descendants(files, before), order[..k], before, after).Some?
                 && !Blocked(files, order, k, before, after)
  {
    var rows := Descendants(files, before);
    RebaseNext(files, rows, order, k, before, after);
    var prior := RebasedInOrder(files, rows, order[..k], before, after);
    if prior.Some? {
      TakenIsBlocked(files, order, k, before, after, prior.value);
    }
  }

  /** In any order, a rename gets through exactly when no row is blocked at its turn. */
  lemma {:induction false} RebaseSucceedsExactly(files: Files, order: seq<string>, k: nat, before: Path, after: Path)
    requires before == ROOT ==> after != ROOT
    requires Lists(files, order, before) && k <= |order|
    ensures RebasedInOrder(files, Descendants(files, before), order[..k], before, after).Some?
            <==> NoneBlocked(files, order, k, before, after)
  {
    if k == 0 {
      assert order[..k] == [];
    } else {
      var m := k - 1;
      assert order[..m + 1] == order[..k];
      RebaseSucceedsExactly(files, order, m, before, after);
      OneMoreRow(files, order, m, before, after);
    }
  }

  // ---- names apart from each other ----

  predicate Apart(before: Path, after: Path) {
    !(before <= after) && !(after <= before)
  }

  /** No row outside the subtree holds the new path of one inside. */
  ghost predicate NoOutsiderHolds(files: Files, before: Path, after: Path)
    requires before == ROOT ==> after != ROOT
  {
    forall i, j :: !OutsiderHolds(files, before, after, i, j)
  }

  /** Row j is no descendant and holds the new path of row i. */
  ghost predicate OutsiderHolds(files: Files, before: Path, after: Path, i: string, j: string)
    requires before == ROOT ==> after != ROOT
  {
    && i in files && j in files && before < files[i].path && !(before < files[j].path)
    && files[j].path == Rebase(before, after, files[i].path)
  }

  lemma BlockedByAnOutsider(files: Files, order: seq<string>, n: nat, before: Path, after: Path)
    requires Apart(before, after) && Lists(files, order, before) && n < |order|
    ensures Blocked(files, order, n, before, after) <==> exists j :: OutsiderHolds(files, before, after, order[n], j)
  {
    var p := Rebase(before, after, files[order[n]].path);
    assert after <= p && !(before < p);
    forall j | j in files && files[j].path == p ensures OutsiderHolds(files, before, after, order[n], j) {
    }
    forall j | OutsiderHolds(files, before, after, order[n], j) ensures Blocked(files, order, n, before, after) {
      assert j !in Descendants(files, before);
      assert j !in order && j != order[n];
    }
  }

  /** Between names apart from each other, a rename succeeds in every order exactly when no outsider holds a new
      path. */
  lemma ApartRenameSucceedsExactly(files: Files, order: seq<string>, before: Path, after: Path)
    requires Apart(before, after) && Lists(files, order, before) && Covers(files, order, before)
    ensures RebasedInOrder(files, Descendants(files, before), order, before, after).Some?
            <==> NoOutsiderHolds(files, before, after)
  {
    RebaseSucceedsExactly(files, order, |order|, before, after);
    NoneBlockedMeansEach(files, order, |order|, before, after);
    assert order[..|order|] == order;
    forall n | 0 <= n < |order|
      ensures Blocked(files, order, n, before, after)
              <==> exists j :: OutsiderHolds(files, before, after, order[n], j) {
      BlockedByAnOutsider(files, order, n, before, after);
    }
  }

  // ---- the order of the query ----

  /** The path as the database stores it. */
  function Text(p: Path): string {
    if p == ROOT then "" else Text(p[..|p| - 1]) + "/" + p[|p| - 1]
  }

  /** The order of texts: the first character that differs decides. */
  predicate Less(a: string, b: string) {
    b != "" && (a == "" || a[0] < b[0] || (a[0] == b[0] && Less(a[1..], b[1..])))
  }

  lemma {:induction false} LessIsTotal(a: string, b: string)
    ensures a != b ==> Less(a, b) || Less(b, a)
    ensures !(Less(a, b) && Less(b, a))
  {
    if a != "" && b != "" {
      LessIsTotal(a[1..], b[1..]);
      assert a == [a[0]] + a[1..] && b == [b[0]] + b[1..];
    }
  }

  lemma {:induction false} LessIsTransitive(a: string, b: string, c: string)
    requires !Less(b, a) && !Less(c, b)
    ensures !Less(c, a)
  {
    if a != "" && b != "" && c != "" {
      if a[0] == b[0] == c[0] {
        LessIsTransitive(a[1..], b[1..], c[1..]);
      }
    }
  }

  /** `ORDER BY path`. */
  ghost predicate InPathOrder(rows: map<string, Path>, order: seq<string>) {
    forall i, j :: 0 <= i < j < |order| && order[i] in rows && order[j] in rows ==>
      !Less(Text(rows[order[j]]), Text(rows[order[i]]))
  }

  ghost predicate IsPathScan(scan: Scan) {
    IsScan(scan) && forall rows :: InPathOrder(rows, scan(rows))
  }

  lemma {:induction false} TextOfConcat(a: Path, b: Path)
    ensures Text(a + b) == Text(a) + Text(b)
  {
    if b == ROOT {
      assert a + b == a;
    } else {
      assert (a + b)[..|a + b| - 1] == a + b[..|b| - 1];
      TextOfConcat(a, b[..|b| - 1]);
    }
  }

  lemma LongerText(a: Path, b: Path)
    requires a < b
    ensures |Text(a)| < |Text(b)|
  {
    assert b == a + b[|a|..];
    TextOfConcat(a, b[|a|..]);
  }

  lemma GluedText(after: Path, p: Path)
    requires after != ROOT && p != ROOT && Rebase(ROOT, after, p) != p
    ensures |Text(Rebase(ROOT, after, p))| > |Text(p)|
  {
    var last := |after| - 1;
    var head, glued := after[..last], after[last] + p[0];
    assert Rebase(ROOT, after, p) == (head + [glued]) + p[1..] && p == [p[0]] + p[1..];
    TextOfConcat(head + [glued], p[1..]);
    TextOfConcat([p[0]], p[1..]);
    assert (head + [glued])[..last] == head && [p[0]][..0] == ROOT;
    assert Text(head + [glued]) == Text(head) + "/" + glued && Text([p[0]]) == "/" + p[0];
    if head != ROOT {
      LongerText(ROOT, head);
    }
    assert head == ROOT ==> head + [glued] == [glued];
    assert |after[last]| == 0 ==> glued == p[0];
  }

  /** A new path inside the old subtree has a text of another length. */
  lemma NewTextDiffers(before: Path, after: Path, p: Path)
    requires before != after && before < p && before < Rebase(before, after, p) && Rebase(before, after, p) != p
    ensures Text(Rebase(before, after, p)) != Text(p)
  {
    if before == ROOT {
      GluedText(after, p);
    } else {
      var q := Rebase(before, after, p);
      assert p == before + p[|before|..];
      TextOfConcat(before, p[|before|..]);
      TextOfConcat(after, p[|before|..]);
      if |before| < |after| {
        assert before < after by { assert before == q[..|before|] == after[..|before|]; }
        LongerText(before, after);
      } else {
        assert after < before by { assert after == q[..|after|] == before[..|after|]; }
        LongerText(after, before);
      }
    }
  }

  /** Row j stands in the way of row i: it holds the new path, and it is outside the subtree or comes later. */
  ghost predicate InTheWay(files: Files, before: Path, after: Path, i: string, j: string)
    requires before == ROOT ==> after != ROOT
  {
    && i in files && j in files && i != j && before < files[i].path
    && files[j].path == Rebase(before, after, files[i].path)
    && (before < files[j].path ==> Less(Text(files[i].path), Text(files[j].path)))
  }

  ghost predicate NothingInTheWay(files: Files, before: Path, after: Path)
    requires before == ROOT ==> after != ROOT
  {
    forall i, j :: !InTheWay(files, before, after, i, j)
  }

  lemma BlockedIsInTheWay(files: Files, order: seq<string>, before: Path, after: Path, n: nat, j: string)
    requires before != after && Lists(files, order, before)
    requires Covers(files, order, before) && InPathOrder(Descendants(files, before), order)
    requires n < |order| && j in files && j != order[n]
    requires files[j].path == Rebase(before, after, files[order[n]].path)
    ensures (forall m :: 0 <= m < n ==> order[m] != j) <==> InTheWay(files, before, after, order[n], j)
  {
    var i := order[n];
    if before < files[j].path {
      NewTextDiffers(before, after, files[i].path);
      LessIsTotal(Text(files[i].path), Text(files[j].path));
      assert j in Descendants(files, before);
      var m :| 0 <= m < |order| && order[m] == j;
    } else {
      assert j !in Descendants(files, before);
    }
  }

  lemma BlockedInPathOrder(files: Files, order: seq<string>, n: nat, before: Path, after: Path)
    requires before != after && Lists(files, order, before)
    requires Covers(files, order, before) && InPathOrder(Descendants(files, before), order)
    requires n < |order|
    ensures Blocked(files, order, n, before, after) <==> exists j :: InTheWay(files, before, after, order[n], j)
  {
    forall j | j in files && j != order[n] && files[j].path == Rebase(before, after, files[order[n]].path)
      ensures (forall m :: 0 <= m < n ==> order[m] != j) <==> InTheWay(files, before, after, order[n], j)
    {
      BlockedIsInTheWay(files, order, before, after, n, j);
    }
  }

  /** In path order, a rename succeeds if and only if nothing stands in the way. */
  lemma RenameSucceedsExactly(files: Files, order: seq<string>, before: Path, after: Path)
    requires before != after && Lists(files, order, before)
    requires Covers(files, order, before) && InPathOrder(Descendants(files, before), order)
    ensures RebasedInOrder(files, Descendants(files, before), order, before, after).Some?
            <==> NothingInTheWay(files, before, after)
  {
    RebaseSucceedsExactly(files, order, |order|, before, after);
    NoneBlockedMeansEach(files, order, |order|, before, after);
    assert order[..|order|] == order;
    forall n | 0 <= n < |order|
      ensures Blocked(files, order, n, before, after) <==> exists j :: InTheWay(files, before, after, order[n], j) {
      BlockedInPathOrder(files, order, n, before, after);
    }
  }

  // ---- the order exists, and nested names ----

  ghost predicate Least(rows: map<string, Path>, id: string) {
    id in rows && forall j :: j in rows ==> !Less(Text(rows[j]), Text(rows[id]))
  }

  lemma OneRowLess(rows: map<string, Path>, x: string)
    requires x in rows
    ensures |rows - {x}| < |rows| && forall j :: j in rows <==> j == x || j in rows - {x}
  {
    var rest := rows - {x};
    assert rows.Keys == rest.Keys + {x};
    assert |rows.Keys| == |rows| && |rest.Keys| == |rest|;
  }

  lemma {:induction false} LeastExists(rows: map<string, Path>)
    requires rows != map[]
    ensures exists id :: Least(rows, id)
    decreases |rows|
  {
    var x :| x in rows;
    var rest := rows - {x};
    OneRowLess(rows, x);
    LessIsTotal(Text(rows[x]), Text(rows[x]));
    if rest == map[] {
      assert Least(rows, x);
    } else {
      LeastExists(rest);
      var y :| Least(rest, y);
      LessIsTotal(Text(rows[x]), Text(rows[y]));
      if Less(Text(rows[x]), Text(rows[y])) {
        forall j | j in rest ensures !Less(Text(rows[j]), Text(rows[x])) {
          LessIsTransitive(Text(rows[x]), Text(rows[y]), Text(rows[j]));
        }
        assert Least(rows, x);
      } else {
        assert Least(rows, y);
      }
    }
  }

  /** The query's own order. */
  ghost function PathOrder(rows: map<string, Path>): seq<string>
    decreases |rows|
  {
    if rows == map[] then []
    else
      LeastExists(rows);
      var id :| Least(rows, id);
      OneRowLess(rows, id);
      [id] + PathOrder(rows - {id})
  }

  lemma LeastComesFirst(rows: map<string, Path>, id: string, rest: seq<string>)
    requires Least(rows, id) && Enumerates(rest, (rows - {id}).Keys) && InPathOrder(rows - {id}, rest)
    ensures Enumerates([id] + rest, rows.Keys) && InPathOrder(rows, [id] + rest)
  {
    var order := [id] + rest;
    forall i | i in rows ensures i in order {
      assert i == id || i in (rows - {id}).Keys;
    }
    forall i, j | 0 <= i < j < |order| ensures order[i] != order[j]
        && !Less(Text(rows[order[j]]), Text(rows[order[i]])) {
      assert order[j] == rest[j - 1] && order[j] in (rows - {id}).Keys;
    }
  }

  lemma {:induction false} PathOrderSorts(rows: map<string, Path>)
    ensures Enumerates(PathOrder(rows), rows.Keys) && InPathOrder(rows, PathOrder(rows))
    decreases |rows|
  {
    if rows != map[] {
      LeastExists(rows);
      var id :| Least(rows, id) && PathOrder(rows) == [id] + PathOrder(rows - {id});
      OneRowLess(rows, id);
      PathOrderSorts(rows - {id});
      LeastComesFirst(rows, id, PathOrder(rows - {id}));
    }
  }

  lemma PathOrderIsAScan()
    ensures IsPathScan(PathOrder)
  {
    forall rows ensures Enumerates(PathOrder(rows), rows.Keys) && InPathOrder(rows, PathOrder(rows)) {
      PathOrderSorts(rows);
    }
  }

  /** The table a rename is meant to leave. */
  function FinalFiles(files: Files, before: Path, after: Path): Files
    requires before == ROOT ==> after != ROOT
  {
    map i | i in files ::
      if before < files[i].path then files[i].(path := Rebase(before, after, files[i].path)) else files[i]
  }

  /** Folder F has moved from /a/b up to /a. Of the rows /a/b/b, /a/b/b/c and /a/b/c below it the second gets the name
      of the third while that is still there, so the rename fails in path order, though all final paths are distinct. */
  lemma NestedRenameFails(f: Row, scan: Scan)
    requires IsPathScan(scan)
    ensures var files := map["F" := f.(path := ["a"]), "D" := f.(path := ["a", "b", "b"]),
                             "E" := f.(path := ["a", "b", "b", "c"]), "G" := f.(path := ["a", "b", "c"])];
            var rows := Descendants(files, ["a", "b"]);
            && UniquePaths(files) && UniquePaths(FinalFiles(files, ["a", "b"], ["a"]))
            && Rebasable(files, rows, scan(rows), ["a", "b"])
            && RebasedInOrder(files, rows, scan(rows), ["a", "b"], ["a"]) == None
  {
    var files := map["F" := f.(path := ["a"]), "D" := f.(path := ["a", "b", "b"]),
                     "E" := f.(path := ["a", "b", "b", "c"]), "G" := f.(path := ["a", "b", "c"])];
    NestedTexts();
    NestedFinalPaths(files, f);
    PathScanFails(files, ["a", "b"], ["a"], "E", "G", scan);
  }

  lemma PathScanFails(files: Files, before: Path, after: Path, i: string, j: string, scan: Scan)
    requires before != after && UniquePaths(files) && IsPathScan(scan) && InTheWay(files, before, after, i, j)
    ensures var rows := Descendants(files, before);
            Rebasable(files, rows, scan(rows), before) && RebasedInOrder(files, rows, scan(rows), before, after) == None
  {
    var rows := Descendants(files, before);
    ScanLists(files, before, scan);
    assert InPathOrder(rows, scan(rows));
    RenameSucceedsExactly(files, scan(rows), before, after);
  }

  lemma SameFinalPath(files: Files, before: Path, after: Path, i: string, j: string)
    requires before != after && UniquePaths(files) && i in files && j in files && i != j
    ensures var final := FinalFiles(files, before, after);
            (final[i].path == final[j].path)
            <==> (OutsiderHolds(files, before, after, i, j) || OutsiderHolds(files, before, after, j, i))
  {
    if before < files[i].path && before < files[j].path
       && Rebase(before, after, files[i].path) == Rebase(before, after, files[j].path) {
      RebaseIsInjective(before, after, files[i].path, files[j].path);
    }
  }

  /** The final paths are distinct exactly when no outsider holds one of them. */
  lemma FinalPathsDistinctExactly(files: Files, before: Path, after: Path)
    requires before != after && UniquePaths(files)
    ensures UniquePaths(FinalFiles(files, before, after)) <==> NoOutsiderHolds(files, before, after)
  {
    forall i, j | i in files && j in files && i != j
      ensures FinalFiles(files, before, after)[i].path == FinalFiles(files, before, after)[j].path
              <==> OutsiderHolds(files, before, after, i, j) || OutsiderHolds(files, before, after, j, i) {
      SameFinalPath(files, before, after, i, j);
    }
  }

  lemma NestedFinalPaths(files: Files, f: Row)
    requires files == map["F" := f.(path := ["a"]), "D" := f.(path := ["a", "b", "b"]),
                          "E" := f.(path := ["a", "b", "b", "c"]), "G" := f.(path := ["a", "b", "c"])]
    ensures UniquePaths(files) && UniquePaths(FinalFiles(files, ["a", "b"], ["a"]))
    ensures Rebase(["a", "b"], ["a"], files["E"].path) == files["G"].path
  {
    var before, after := ["a", "b"], ["a"];
    assert files["D"].path[2] == "b" && files["G"].path[2] == "c";
    assert UniquePaths(files);
    assert Rebase(before, after, files["E"].path) == files["G"].path;
    forall i, j ensures !OutsiderHolds(files, before, after, i, j) {
      if i in files && j in files && before < files[i].path && !(before < files[j].path) {
        assert files[j].path == ["a"];
        assert |Rebase(before, after, files[i].path)| == |files[i].path| - 1;
      }
    }
    FinalPathsDistinctExactly(files, before, after);
  }

  lemma NestedTexts()
    ensures Less(Text(["a", "b", "b", "c"]), Text(["a", "b", "c"]))
  {
    TextOfConcat(["a", "b"], ["b", "c"]);
    TextOfConcat(["a", "b"], ["c"]);
    assert ["a", "b"] + ["b", "c"] == ["a", "b", "b", "c"] && ["a", "b"] + ["c"] == ["a", "b", "c"];
    assert Text(["a", "b"]) == "/a/b" && Text(["b", "c"]) == "/b/c" && Text(["c"]) == "/c" by {
      assert ["a", "b"][..1] == ["a"] && ["a"][..0] == [];
      assert ["b", "c"][..1] == ["b"] && ["b"][..0] == [] && ["c"][..0] == [];
    }
    SamePrefix("/a/b/", "b/c", "c");
    assert "/a/b" + "/b/c" == "/a/b/" + "b/c" && "/a/b" + "/c" == "/a/b/" + "c";
  }

  lemma {:induction false} SamePrefix(a: string, b: string, c: string)
    ensures Less(a + b, a + c) <==> Less(b, c)
  {
    if a == "" {
      assert a + b == b && a + c == c;
    } else {
      SamePrefix(a[1..], b, c);
      assert (a + b)[1..] == a[1..] + b && (a + c)[1..] == a[1..] + c;
    }
  }

  method RebaseRows(files: Files, rows: map<string, Path>, order: seq<string>, before: Path, after: Path)
    returns (r: Option<Files>)
    requires before == ROOT ==> after != ROOT
    requires Rebasable(files, rows, order, before)
    ensures r == RebasedInOrder(files, rows, order, before, after)
  {
    var work := files;
    for i := 0 to |order|
      invariant work.Keys == files.Keys
      invariant RebasedInOrder(files, rows, order[..i], before, after) == Some(work)
    {
      RebaseNext(files, rows, order, i, before, after);
      var path := Rebase(before, after, rows[order[i]]);
      if PathTaken(work, path, order[i]) {
        FailedRebaseFails(files, rows, order, i + 1, before, after);
        return None;
      }
      work := work[order[i] := work[order[i]].(path := path)];
    }
    assert order[..|order|] == order;
    return Some(work);
  }

  method RebaseDescendants(files: Files, before: Path, after: Path, scan: Scan) returns (r: Option<Files>)
    requires IsScan(scan) && before != after
    ensures r == RebasedInOrder(files, Descendants(files, before), scan(Descendants(files, before)), before, after)
    ensures UniquePaths(files) && IsPathScan(scan) ==> (r.Some? <==> NothingInTheWay(files, before, after))
    ensures UniquePaths(files) && Apart(before, after) ==> (r.Some? <==> NoOutsiderHolds(files, before, after))
  {
    var rows := Descendants(files, before);
    assert Enumerates(scan(rows), rows.Keys);
    if UniquePaths(files) {
      ScanLists(files, before, scan);
    }
    if UniquePaths(files) && IsPathScan(scan) {
      assert InPathOrder(rows, scan(rows));
      RenameSucceedsExactly(files, scan(rows), before, after);
    }
    if UniquePaths(files) && Apart(before, after) {
      ApartRenameSucceedsExactly(files, scan(rows), before, after);
    }
    r := RebaseRows(files, rows, scan(rows), before, after);
  }
}
