// The inode table: numbers for paths, records for numbers, children by parent number.

module Inodes {
  import opened Options
  import opened Paths

  /** What the table needs of a file record. */
  datatype Record = Record(remoteId: string, path: Path, isDir: bool, size: nat)

  const ROOT_INO: nat := 1

  type Listing = seq<(nat, Record)>

  function Lookup(inoByPath: map<Path, nat>, path: Path): Option<nat> {
    if path in inoByPath then Some(inoByPath[path]) else None
  }

  function ParentIno(inoByPath: map<Path, nat>, path: Path): nat {
    if path == ROOT then ROOT_INO
    else if Parent(path) in inoByPath then inoByPath[Parent(path)]
    else ROOT_INO
  }

  function Without(children: Listing, ino: nat): (r: Listing)
    ensures forall i :: 0 <= i < |r| ==> r[i] in children && r[i].0 != ino
    ensures forall c :: c in children && c.0 != ino ==> c in r
    ensures forall other :: !Listed(children, other) ==> !Listed(r, other)
  {
    if children == [] then []
    else
      var rest := Without(children[..|children| - 1], ino);
      var last := children[|children| - 1];
      assert children == children[..|children| - 1] + [last];
      if last.0 == ino then rest else rest + [last]
  }

  function WithoutAll(lists: map<nat, Listing>, ino: nat): (r: map<nat, Listing>)
    ensures r.Keys == lists.Keys
    ensures forall parent :: parent in r ==> !Listed(r[parent], ino)
    ensures forall parent, other :: parent in r && !Listed(lists[parent], other) ==> !Listed(r[parent], other)
    ensures forall parent, bound :: parent in r && NumbersOf(lists[parent], bound) ==> NumbersOf(r[parent], bound)
  {
    map parent | parent in lists :: Without(lists[parent], ino)
  }

  predicate Listed(listing: Listing, ino: nat) {
    exists i :: 0 <= i < |listing| && listing[i].0 == ino
  }

  predicate NumbersOf(listing: Listing, bound: nat) {
    forall i :: 0 <= i < |listing| ==> listing[i].0 < bound
  }

  predicate BelowRoot(records: seq<Record>) {
    forall i :: 0 <= i < |records| ==> records[i].path != ROOT
  }

  predicate Distinct(records: seq<Record>) {
    forall i, j :: 0 <= i < j < |records| ==> records[i].path != records[j].path
  }

  function ListingOf(lists: map<nat, Listing>, ino: nat): Listing {
    if ino in lists then lists[ino] else []
  }

  class InodeTable {
    var nextIno: nat
    var pathByIno: map<nat, Path>
    var inoByPath: map<Path, nat>
    var recordByIno: map<nat, Record>
    var children: map<nat, Listing>

    /** A mapped path is its inode's recorded path, and, but for "/", its record's path. */
    ghost predicate PathsAgree()
      reads this
    {
      && (forall p :: p in inoByPath ==> inoByPath[p] in pathByIno && pathByIno[inoByPath[p]] == p)
      && (forall p :: p in inoByPath && p != ROOT ==>
            inoByPath[p] in recordByIno && recordByIno[inoByPath[p]].path == p)
    }

    ghost predicate ListingsBelow()
      reads this
    {
      forall parent :: parent in children ==> parent < nextIno && NumbersOf(children[parent], nextIno)
    }

    /** Every number in use is below the next one. */
    ghost predicate NumbersBelow()
      reads this
    {
      && ROOT_INO < nextIno && ListingsBelow()
      && (forall ino :: ino in pathByIno ==> ino < nextIno)
      && (forall ino :: ino in recordByIno ==> ino < nextIno)
    }

    ghost predicate Valid()
      reads this
    {
      PathsAgree() && NumbersBelow()
    }

    /** The root number is that of "/", and no record or listing has it. Records at "/" would break this. */
    ghost predicate Rooted()
      reads this
    {
      && ROOT in inoByPath && inoByPath[ROOT] == ROOT_INO && ROOT_INO !in recordByIno
      && forall parent :: parent in children ==> !Listed(children[parent], ROOT_INO)
    }

    /** The table of "/" alone. */
    constructor Empty()
      ensures Valid() && Rooted() && inoByPath == map[ROOT := ROOT_INO] && recordByIno == map[] && children == map[]
    {
      nextIno := ROOT_INO + 1;
      pathByIno := map[ROOT_INO := ROOT];
      inoByPath := map[ROOT := ROOT_INO];
      recordByIno, children := map[], map[];
    }

    /** `InodeTable::new`, on records sorted by path. */
    constructor FromRecords(records: seq<Record>)
      ensures Valid() && nextIno == |records| + ROOT_INO + 1 && Numbered(records, |records|)
      ensures BelowRoot(records) ==> Rooted()
      ensures forall i :: 0 <= i < |records| ==> Shown(Number(i), records[i])
    {
      nextIno := |records| + ROOT_INO + 1;
      pathByIno := map[ROOT_INO := ROOT];
      inoByPath := map[ROOT := ROOT_INO];
      recordByIno, children := map[], map[];
      new;
      NumberAll(records);
      ListAll();
    }

    /** The first `n` records have the numbers after the root's, and own their paths when these are distinct. */
    ghost predicate Numbered(records: seq<Record>, n: nat)
      requires n <= |records|
      reads this
    {
      forall i :: 0 <= i < n ==>
        && Number(i) in recordByIno && recordByIno[Number(i)] == records[i]
        && records[i].path in inoByPath
        && (Distinct(records) ==> inoByPath[records[i].path] == Number(i))
    }

    function Number(i: nat): nat {
      ROOT_INO + 1 + i
    }

    method NumberAll(records: seq<Record>)
      requires Valid() && Rooted() && nextIno == |records| + ROOT_INO + 1 && inoByPath == map[ROOT := ROOT_INO]
      modifies this`pathByIno, this`inoByPath, this`recordByIno
      ensures Valid() && Numbered(records, |records|) && (BelowRoot(records) ==> Rooted())
    {
      for n := 0 to |records|
        invariant Valid() && Numbered(records, n) && (BelowRoot(records) ==> Rooted())
        invariant forall p :: p in inoByPath ==> inoByPath[p] < Number(n)
      {
        Bind(Number(n), records[n]);
      }
    }

    /** The folder of the record lists it. */
    ghost predicate Shown(ino: nat, record: Record)
      reads this
    {
      (ino, record) in ListingOf(children, ParentIno(inoByPath, record.path))
    }

    method ListAll()
      requires Valid()
      modifies this`children
      ensures Valid() && (old(Rooted()) ==> Rooted())
      ensures forall ino :: ino in recordByIno ==> Shown(ino, recordByIno[ino])
    {
      var todo := recordByIno.Keys;
      while todo != {}
        invariant todo <= recordByIno.Keys && Valid() && (old(Rooted()) ==> Rooted())
        invariant forall ino :: ino in recordByIno && ino !in todo ==> Shown(ino, recordByIno[ino])
        decreases todo
      {
        var ino :| ino in todo;
        AddChild(ino, recordByIno[ino]);
        todo := todo - {ino};
      }
    }

    /** Appends to the listing of the record's parent. */
    method AddChild(ino: nat, record: Record)
      modifies this`children
      ensures var parent := ParentIno(inoByPath, record.path);
              children == old(children)[parent := ListingOf(old(children), parent) + [(ino, record)]]
      ensures old(Valid()) && ino < nextIno ==> Valid()
      ensures old(Rooted()) && ino != ROOT_INO ==> Rooted()
      ensures Shown(ino, record)
      ensures forall parent, c :: c in ListingOf(old(children), parent) ==> c in ListingOf(children, parent)
    {
      var parent := ParentIno(inoByPath, record.path);
      children := children[parent := ListingOf(children, parent) + [(ino, record)]];
    }

    /** Maps the record's path to `ino` in all three tables. No other path has this number. */
    method Bind(ino: nat, record: Record)
      requires PathsAgree() && forall p :: p in inoByPath && inoByPath[p] == ino ==> p == record.path
      modifies this`pathByIno, this`inoByPath, this`recordByIno
      ensures PathsAgree() && (old(NumbersBelow()) && ino < nextIno ==> NumbersBelow())
      ensures old(Rooted()) && ino != ROOT_INO && record.path != ROOT ==> Rooted()
      ensures inoByPath == old(inoByPath)[record.path := ino] && recordByIno == old(recordByIno)[ino := record]
      ensures pathByIno == old(pathByIno)[ino := record.path]
    {
      pathByIno := pathByIno[ino := record.path];
      inoByPath := inoByPath[record.path := ino];
      recordByIno := recordByIno[ino := record];
    }

    /** The path's inode, when it still stands for the same cloud item. */
    function SameItem(record: Record): Option<nat>
      reads this
    {
      var ino := Lookup(inoByPath, record.path);
      if ino.Some? && ino.value in recordByIno && recordByIno[ino.value].remoteId == record.remoteId then ino else None
    }

    /** One record of a refreshed folder gets its number, the old one while the path still stands for the same item. */
    method BindOne(record: Record) returns (ino: nat)
      requires Valid()
      modifies this`nextIno, this`pathByIno, this`inoByPath, this`recordByIno
      ensures Valid() && nextIno >= old(nextIno) && ino < nextIno
      ensures old(Rooted()) && record.path != ROOT ==> Rooted() && ino != ROOT_INO
      ensures inoByPath == old(inoByPath)[record.path := ino] && recordByIno == old(recordByIno)[ino := record]
      ensures if old(SameItem(record)).Some? then ino == old(SameItem(record)).value else ino == old(nextIno)
      ensures forall other: Record :: other.path != record.path ==> SameItem(other) == old(SameItem(other))
    {
      var same := SameItem(record);
      ino := nextIno;
      if same.Some? {
        ino := same.value;
      } else {
        nextIno := nextIno + 1;
      }
      Bind(ino, record);
    }

    /** The listing of the records, in their order, where the paths lead to the numbers. */
    ghost predicate Lists(listing: Listing, records: seq<Record>)
      reads this
    {
      && |listing| == |records|
      && (forall i :: 0 <= i < |records| ==> listing[i].1 == records[i])
      && (Distinct(records) ==> forall i :: 0 <= i < |records| ==>
            Lookup(inoByPath, records[i].path) == Some(listing[i].0))
    }

    /** A path that stood for the same item keeps its number, any other gets a fresh one. */
    twostate predicate KeepsNumbers(listing: Listing, records: seq<Record>)
      reads this
    {
      && |listing| <= |records|
      && forall i :: 0 <= i < |listing| ==>
           if old(SameItem(records[i])).Some? then listing[i].0 == old(SameItem(records[i])).value
           else listing[i].0 >= old(nextIno)
    }

    method BindAll(records: seq<Record>) returns (listing: Listing)
      requires Valid()
      modifies this`nextIno, this`pathByIno, this`inoByPath, this`recordByIno
      ensures Valid() && nextIno >= old(nextIno)
      ensures Lists(listing, records) && NumbersOf(listing, nextIno)
      ensures old(Rooted()) && BelowRoot(records) ==> Rooted() && !Listed(listing, ROOT_INO)
      ensures Distinct(records) ==> KeepsNumbers(listing, records)
    {
      listing := [];
      for n := 0 to |records|
        invariant Valid() && nextIno >= old(nextIno) && NumbersOf(listing, nextIno)
        invariant |listing| == n && forall i :: 0 <= i < n ==> listing[i].1 == records[i]
        invariant Distinct(records) ==> forall i :: 0 <= i < n ==>
                    Lookup(inoByPath, records[i].path) == Some(listing[i].0)
        invariant old(Rooted()) && BelowRoot(records) ==> Rooted() && !Listed(listing, ROOT_INO)
        invariant Distinct(records) ==> forall j :: n <= j < |records| ==>
                    SameItem(records[j]) == old(SameItem(records[j]))
        invariant Distinct(records) ==> KeepsNumbers(listing, records)
      {
        var ino := BindOne(records[n]);
        listing := listing + [(ino, records[n])];
      }
    }

    /** The children that are no longer listed give up their paths. */
    method UnbindMissing(previous: Listing, listing: Listing)
      requires Valid()
      modifies this`inoByPath
      ensures Valid() && (old(Rooted()) && !Listed(previous, ROOT_INO) ==> Rooted())
      ensures forall p :: p in inoByPath ==> p in old(inoByPath) && inoByPath[p] == old(inoByPath)[p]
      ensures forall p :: p in old(inoByPath) && Listed(listing, old(inoByPath)[p]) ==> p in inoByPath
      ensures forall c :: c in previous && !Listed(listing, c.0) ==> Lookup(inoByPath, c.1.path) != Some(c.0)
    {
      for n := 0 to |previous|
        invariant Valid() && (old(Rooted()) && !Listed(previous, ROOT_INO) ==> Rooted())
        invariant forall p :: p in inoByPath ==> p in old(inoByPath) && inoByPath[p] == old(inoByPath)[p]
        invariant forall p :: p in old(inoByPath) && Listed(listing, old(inoByPath)[p]) ==> p in inoByPath
        invariant forall i :: 0 <= i < n && !Listed(listing, previous[i].0) ==>
                    Lookup(inoByPath, previous[i].1.path) != Some(previous[i].0)
      {
        var (ino, record) := previous[n];
        assert Listed(previous, ino) by { assert previous[n].0 == ino; }
        if !Listed(listing, ino) && Lookup(inoByPath, record.path) == Some(ino) {
          inoByPath := inoByPath - {record.path};
        }
      }
    }

    /** The dropped children have given up their paths. */
    ghost predicate Dropped(previous: Listing, listing: Listing)
      reads this
    {
      forall c :: c in previous && !Listed(listing, c.0) ==> Lookup(inoByPath, c.1.path) != Some(c.0)
    }

    method RefreshChildren(parentPath: Path, records: seq<Record>)
      requires Valid()
      modifies this
      ensures Valid() && nextIno >= old(nextIno) && (old(Rooted()) && BelowRoot(records) ==> Rooted())
      ensures parentPath !in old(inoByPath) ==> inoByPath == old(inoByPath) && children == old(children)
      ensures parentPath in old(inoByPath) ==>
        var parent := old(inoByPath)[parentPath];
        && parent in children && children == old(children)[parent := children[parent]]
        && Lists(children[parent], records) && Dropped(ListingOf(old(children), parent), children[parent])
      ensures parentPath in old(inoByPath) && Distinct(records) ==>
        KeepsNumbers(ListingOf(children, old(inoByPath)[parentPath]), records)
    {
      if parentPath !in inoByPath {
        return;
      }
      var parent := inoByPath[parentPath];
      var listing := BindAll(records);
      var previous := ListingOf(children, parent);
      ghost var bound := inoByPath;
      UnbindMissing(previous, listing);
      StillLists(listing, records, bound);
      children := children[parent := listing];
    }

    /** Paths that led to listed numbers still do. */
    lemma StillLists(listing: Listing, records: seq<Record>, bound: map<Path, nat>)
      requires |listing| == |records|
      requires forall p :: p in inoByPath ==> p in bound && inoByPath[p] == bound[p]
      requires forall p :: p in bound && Listed(listing, bound[p]) ==> p in inoByPath
      requires forall i :: 0 <= i < |records| ==> listing[i].1 == records[i]
      requires Distinct(records) ==> forall i :: 0 <= i < |records| ==>
                 Lookup(bound, records[i].path) == Some(listing[i].0)
      ensures Lists(listing, records)
    {
      if Distinct(records) {
        forall i | 0 <= i < |records| ensures records[i].path in inoByPath {
          assert Listed(listing, listing[i].0);
        }
      }
    }

    method InsertOrUpdate(record: Record) returns (ino: nat)
      requires Valid()
      modifies this
      ensures Valid() && record.path in inoByPath && inoByPath[record.path] == ino
      ensures old(Rooted()) && record.path != ROOT ==> Rooted()
      ensures ino in recordByIno && recordByIno[ino] == record
      ensures if old(SameItem(record)).Some? then ino == old(SameItem(record)).value && nextIno == old(nextIno)
              else ino == old(nextIno) && nextIno == ino + 1
      ensures Shown(ino, record) && OwnsItsPath(ino)
      ensures forall parent, c :: c in ListingOf(old(children), parent) && c.0 != ino ==>
                c in ListingOf(children, parent)
    {
      var same := SameItem(record);
      if same.Some? {
        ReplaceInoRecord(same.value, record);
        return same.value;
      }
      ino := nextIno;
      nextIno := nextIno + 1;
      Bind(ino, record);
      AddChild(ino, record);
    }

    /** The number leaves its old path and the listing of the folder there. */
    method LeavePath(ino: nat)
      requires Valid()
      modifies this`inoByPath, this`children
      ensures Valid() && (old(Rooted()) && ino != ROOT_INO ==> Rooted())
      ensures forall p :: (p in inoByPath <==> p in old(inoByPath) && old(inoByPath)[p] != ino)
                          && (p in inoByPath ==> inoByPath[p] == old(inoByPath)[p])
      ensures forall parent, c :: c in ListingOf(old(children), parent) && c.0 != ino ==>
                c in ListingOf(children, parent)
      ensures ino in pathByIno ==> !Listed(ListingOf(children, ParentIno(old(inoByPath), pathByIno[ino])), ino)
    {
      if ino in pathByIno {
        var previous := pathByIno[ino];
        var parent := ParentIno(inoByPath, previous);
        if parent in children {
          children := children[parent := Without(children[parent], ino)];
        }
        if previous in inoByPath && inoByPath[previous] == ino {
          inoByPath := inoByPath - {previous};
        }
      }
    }

    /** The number leaves its old path for the record's. A number the table has never given out keeps the paths in
        order, but not the numbers below the next one. */
    method ReplaceInoRecord(ino: nat, record: Record)
      requires Valid()
      modifies this
      ensures PathsAgree() && nextIno == old(nextIno) && (ino < nextIno ==> Valid())
      ensures old(Rooted()) && ino != ROOT_INO && record.path != ROOT ==> Rooted()
      ensures record.path in inoByPath && inoByPath[record.path] == ino
      ensures recordByIno == old(recordByIno)[ino := record]
      ensures forall p :: p != record.path ==>
                (p in inoByPath <==> p in old(inoByPath) && old(inoByPath)[p] != ino)
                && (p in inoByPath ==> inoByPath[p] == old(inoByPath)[p])
      ensures Shown(ino, record) && OwnsItsPath(ino)
      ensures forall parent, c :: c in ListingOf(old(children), parent) && c.0 != ino ==>
                c in ListingOf(children, parent)
    {
      LeavePath(ino);
      Bind(ino, record);
      AddChild(ino, record);
    }

    /** The size only grows, as after a write. */
    method SetSize(ino: nat, size: nat)
      requires Valid()
      modifies this`recordByIno
      ensures Valid() && recordByIno.Keys == old(recordByIno).Keys
      ensures forall i :: i in recordByIno && i != ino ==> recordByIno[i] == old(recordByIno)[i]
      ensures ino in recordByIno ==>
        && recordByIno[ino] == old(recordByIno)[ino].(size := recordByIno[ino].size)
        && recordByIno[ino].size >= size && recordByIno[ino].size >= old(recordByIno)[ino].size
        && recordByIno[ino].size in {size, old(recordByIno)[ino].size}
    {
      if ino in recordByIno && size > recordByIno[ino].size {
        recordByIno := recordByIno[ino := recordByIno[ino].(size := size)];
      }
    }

    method ReplaceSize(ino: nat, size: nat)
      requires Valid()
      modifies this`recordByIno
      ensures Valid()
      ensures recordByIno == if ino in old(recordByIno)
          then old(recordByIno)[ino := old(recordByIno)[ino].(size := size)]
                             else old(recordByIno)
    {
      if ino in recordByIno {
        recordByIno := recordByIno[ino := recordByIno[ino].(size := size)];
      }
    }

    method RemoveIno(ino: nat)
      requires Valid()
      modifies this
      ensures Valid() && nextIno == old(nextIno) && (old(Rooted()) && ino != ROOT_INO ==> Rooted())
      ensures ino !in pathByIno && ino !in recordByIno && ino !in children
      ensures forall p :: (p in inoByPath <==> p in old(inoByPath) && old(inoByPath)[p] != ino)
                          && (p in inoByPath ==> inoByPath[p] == old(inoByPath)[p])
      ensures forall parent :: parent in children ==> !Listed(children[parent], ino)
    {
      if ino in pathByIno {
        var path := pathByIno[ino];
        if path in inoByPath && inoByPath[path] == ino {
          inoByPath := inoByPath - {path};
        }
        pathByIno := pathByIno - {ino};
      }
      recordByIno := recordByIno - {ino};
      children := WithoutAll(children - {ino}, ino);
    }

    /** The number is the current owner of the path of its record. */
    predicate OwnsItsPath(ino: nat)
      reads this
    {
      ino in recordByIno && Lookup(inoByPath, recordByIno[ino].path) == Some(ino)
    }

    /** Each listed child is the current owner of its path; the source then sorts the listing. */
    method ChildrenForIno(ino: nat) returns (r: Listing)
      requires Valid()
      ensures forall c :: c in r ==>
        && c.0 in recordByIno && c.1 == recordByIno[c.0]
        && c.1.path in inoByPath && inoByPath[c.1.path] == c.0
      ensures forall c :: c in ListingOf(children, ino) && OwnsItsPath(c.0) ==> (c.0, recordByIno[c.0]) in r
    {
      r := [];
      var listing := ListingOf(children, ino);
      for n := 0 to |listing|
        invariant forall c :: c in r ==>
          && c.0 in recordByIno && c.1 == recordByIno[c.0]
          && c.1.path in inoByPath && inoByPath[c.1.path] == c.0
        invariant forall i :: 0 <= i < n && OwnsItsPath(listing[i].0) ==> (listing[i].0, recordByIno[listing[i].0]) in r
      {
        var child := listing[n].0;
        if child in recordByIno {
          var record := recordByIno[child];
          if Lookup(inoByPath, record.path) == Some(child) {
            r := r + [(child, record)];
          }
        }
      }
    }

    /** No two paths share an inode. */
    lemma PathsAreInjective(p: Path, q: Path)
      requires Valid() && p in inoByPath && q in inoByPath && inoByPath[p] == inoByPath[q]
      ensures p == q
    {
    }

    /** A fresh number collides with none that any table, or anyone who got it from one, holds. */
    lemma FreshNumbersAreFree()
      requires Valid()
      ensures nextIno !in pathByIno && nextIno !in recordByIno && nextIno !in children
      ensures forall p :: p in inoByPath ==> inoByPath[p] != nextIno
      ensures forall parent :: parent in children ==> !Listed(children[parent], nextIno)
    {
    }
  }
}
