// The read-only cloud index: staged delta pages, published with their cursor in one transaction.

module CloudIndex {
  import opened Options

  datatype Identity = Identity(account: string, drive: string)

  datatype Item = Item(parent: Option<string>, name: string, kind: string, size: nat, etag: string, deleted: bool)

  /** The rows of one identity, by item id. */
  type Table = map<string, Item>

  function RowsOf(tables: map<Identity, Table>, who: Identity): Table {
    if who in tables then tables[who] else map[]
  }

  function Live(table: Table): Table {
    map id | id in table && !table[id].deleted :: table[id]
  }

  predicate HasChild(table: Table, id: string) {
    exists c :: c in table && table[c].parent == Some(id)
  }

  // ---- staging ----

  /** Later occurrences of an id replace earlier ones. */
  function Staged(stage: Table, items: seq<(string, Item)>): Table {
    if items == [] then stage
    else Staged(stage, items[..|items| - 1])[items[|items| - 1].0 := items[|items| - 1].1]
  }

  // ---- committing ----

  /** The table once moves are applied and deletions are marked. */
  function Merged(table: Table, stage: Table): Table {
    map id | id in table.Keys + Live(stage).Keys ::
      if id in stage && !stage[id].deleted then stage[id]
      else if id in stage then table[id].(deleted := true)
      else table[id]
  }

  /** The rows one DELETE removes: tombstones nothing in the table hangs under. */
  function Removable(table: Table): set<string> {
    set id | id in table && table[id].deleted && !HasChild(table, id)
  }

  function Swept(table: Table): (r: Table)
    ensures r.Keys <= table.Keys && forall id :: id in r ==> r[id] == table[id]
    ensures Removable(r) == {}
    ensures forall id :: id in table && !table[id].deleted ==> id in r
    decreases |table|
  {
    if Removable(table) == {} then table
    else
      SweepShrinks(table);
      Swept(table - Removable(table))
  }

  lemma SweepShrinks(table: Table)
    requires Removable(table) != {}
    ensures |table - Removable(table)| < |table|
  {
    var rest := table - Removable(table);
    assert rest.Keys == table.Keys - Removable(table);
    assert rest.Keys < table.Keys;
    SmallerKeys(rest.Keys, table.Keys);
    assert |rest.Keys| == |rest| && |table.Keys| == |table|;
  }

  lemma SmallerKeys(a: set<string>, b: set<string>)
    requires a < b
    ensures |a| < |b|
  {
    assert b == a + (b - a);
    assert b - a != {};
  }

  /** Deletes until nothing more goes. */
  method Sweep(start: Table) returns (table: Table)
    ensures table == Swept(start)
  {
    table := start;
    while true
      invariant Swept(table) == Swept(start)
      decreases |table|
    {
      var gone := set id | id in table && table[id].deleted && !HasChild(table, id);
      if gone == {} {
        return;
      }
      SweepShrinks(table);
      table := table - gone;
    }
  }

  /** The rows after a commit. An item the stage has live is shown as staged; one it has deleted keeps the name and
      parent it was committed with; any other stays as it is. No live item goes, no row is left under one that has
      gone, and every tombstone that stays has a row under it. */
  ghost predicate Commits(base: Table, staged: Table, after: Table) {
    && (forall id :: id in after ==>
          if id in staged && !staged[id].deleted then after[id] == staged[id]
          else id in base && after[id] == if id in staged then base[id].(deleted := true) else base[id])
    && (forall id :: id in staged && !staged[id].deleted ==> id in after)
    && (forall id :: id in base && id !in staged && !base[id].deleted ==> id in after)
    && (forall id, c :: id in base && c in after && after[c].parent == Some(id) ==> id in after)
    && (forall id :: id in after && after[id].deleted ==> HasChild(after, id))
  }

  lemma {:induction false} ParentsStay(table: Table, id: string, c: string)
    requires id in table && c in Swept(table) && table[c].parent == Some(id)
    ensures id in Swept(table)
    decreases |table|
  {
    if Removable(table) != {} {
      SweepShrinks(table);
      assert HasChild(table, id);
      ParentsStay(table - Removable(table), id, c);
    }
  }

  lemma CommitsExactly(base: Table, staged: Table)
    ensures Commits(base, staged, Swept(Merged(base, staged)))
  {
    var merged := Merged(base, staged);
    var after := Swept(merged);
    forall id, c | id in base && c in after && after[c].parent == Some(id) ensures id in after {
      ParentsStay(merged, id, c);
    }
    forall id | id in after && after[id].deleted ensures HasChild(after, id) {
      assert id !in Removable(after);
    }
  }

  class Index {
    var items: map<Identity, Table>
    var stage: map<Identity, Table>
    var links: map<Identity, string>

    constructor ()
      ensures items == map[] && stage == map[] && links == map[]
    {
      items, stage, links := map[], map[], map[];
    }

    method Begin(who: Identity)
      modifies this`stage
      ensures stage == old(stage) - {who}
    {
      stage := stage - {who};
    }

    method Stage(who: Identity, page: seq<(string, Item)>)
      modifies this`stage
      ensures stage == old(stage)[who := Staged(RowsOf(old(stage), who), page)]
    {
      var rows := RowsOf(stage, who);
      for i := 0 to |page|
        invariant rows == Staged(RowsOf(old(stage), who), page[..i])
        invariant stage == old(stage)
      {
        assert page[..i + 1][..i] == page[..i];
        rows := rows[page[i].0 := page[i].1];
      }
      assert page[..|page|] == page;
      stage := stage[who := rows];
    }

    /** Items and cursor change together, or not at all. */
    method Commit(who: Identity, link: string, replace: bool) returns (ok: bool)
      modifies this
      ensures ok == (link != "")
      ensures !ok ==> items == old(items) && stage == old(stage) && links == old(links)
      ensures ok ==>
        && links == old(links)[who := link]
        && stage == old(stage) - {who}
        && items == old(items)[who := Swept(Merged(if replace
            then map[] else RowsOf(old(items), who), RowsOf(old(stage), who)))]
      ensures ok ==>
        && who in items
        && Commits(if replace then map[] else RowsOf(old(items), who), RowsOf(old(stage), who), items[who])
    {
      if link == "" {
        return false;
      }
      var staged := RowsOf(stage, who);
      var table := if replace then map[] else RowsOf(items, who);
      ghost var base := table;
      table := table + Live(staged);
      table := map id | id in table :: if id in staged
          && staged[id].deleted then table[id].(deleted := true) else table[id];
      assert table == Merged(base, staged);
      CommitsExactly(base, staged);
      table := Sweep(table);
      items, links, stage := items[who := table], links[who := link], stage - {who};
      return true;
    }

    /** `cloud_items`: the committed rows, with the tombstones a commit has kept. */
    method Items(who: Identity) returns (rows: Table)
      ensures rows == RowsOf(items, who)
    {
      rows := RowsOf(items, who);
    }
  }

  // ---- which tombstones stay ----

  /** A chain of parent links, each end in the table, from `id` down to a live item. */
  ghost predicate LiveChain(table: Table, id: string, chain: seq<string>) {
    && |chain| >= 2 && chain[0] == id
    && (forall k :: 0 < k < |chain| ==> chain[k] in table && table[chain[k]].parent == Some(chain[k - 1]))
    && !table[chain[|chain| - 1]].deleted
  }

  ghost predicate HoldsLive(table: Table, id: string) {
    exists chain :: LiveChain(table, id, chain)
  }

  /** Parent links climb a finite ladder. */
  ghost predicate Climbs(table: Table, rank: map<string, nat>) {
    && table.Keys <= rank.Keys
    && forall c :: c in table && table[c].parent.Some? && table[c].parent.value in table ==>
        rank[c] < rank[table[c].parent.value]
  }

  ghost predicate Acyclic(table: Table) {
    exists rank :: Climbs(table, rank)
  }

  lemma {:induction false} SweepKeepsHolders(table: Table, id: string, chain: seq<string>)
    requires id in table && LiveChain(table, id, chain)
    ensures id in Swept(table) && LiveChain(Swept(table), id, chain)
    decreases |table|
  {
    if Removable(table) != {} {
      SweepShrinks(table);
      var rest := table - Removable(table);
      forall k | 0 <= k < |chain| ensures chain[k] in rest {
        if k + 1 < |chain| {
          assert table[chain[k + 1]].parent == Some(chain[k]);
        }
      }
      SweepKeepsHolders(rest, id, chain);
    }
  }

  /** At the fixpoint every tombstone still holds a live item. */
  lemma {:induction false} FixpointHoldsLive(table: Table, rank: map<string, nat>, id: string)
    returns (chain: seq<string>)
    requires Removable(table) == {} && Climbs(table, rank)
    requires id in table && table[id].deleted
    ensures LiveChain(table, id, chain)
    decreases rank[id]
  {
    assert HasChild(table, id) by { assert id !in Removable(table); }
    var c :| c in table && table[c].parent == Some(id);
    if table[c].deleted {
      var below := FixpointHoldsLive(table, rank, c);
      chain := [id] + below;
    } else {
      chain := [id, c];
    }
  }

  /** The loop leaves a tombstone exactly when a live item lies below it, and never removes a live one. */
  lemma SweepIsExact(table: Table, id: string)
    requires id in table && Acyclic(table)
    ensures id in Swept(table) <==> !table[id].deleted || HoldsLive(table, id)
  {
    var rank :| Climbs(table, rank);
    var rest := Swept(table);
    if HoldsLive(table, id) {
      var chain :| LiveChain(table, id, chain);
      SweepKeepsHolders(table, id, chain);
    }
    if id in rest && table[id].deleted {
      assert Climbs(rest, rank);
      var chain := FixpointHoldsLive(rest, rank, id);
      assert LiveChain(table, id, chain);
    }
  }

  predicate HasChildIn(table: Table, id: string, ids: set<string>)
    requires ids <= table.Keys
  {
    exists c :: c in ids && table[c].parent == Some(id)
  }

  /** Items of the table that hold one another: each has another of them under it. */
  ghost predicate Propped(table: Table, ids: set<string>) {
    ids <= table.Keys && forall id {:trigger HasChildIn(table, id, ids)} :: id in ids ==> HasChildIn(table, id, ids)
  }

  /** Tombstones that hold one another, and none of them a live item. */
  ghost predicate Knot(table: Table, ids: set<string>) {
    Propped(table, ids) && forall id :: id in ids ==> table[id].deleted && !HoldsLive(table, id)
  }

  lemma {:induction false} ProppedStay(table: Table, ids: set<string>)
    requires Propped(table, ids)
    ensures ids <= Swept(table).Keys
    decreases |table|
  {
    if Removable(table) != {} {
      SweepShrinks(table);
      var rest := table - Removable(table);
      forall id | id in ids ensures id in rest {
        assert HasChildIn(table, id, ids);
      }
      forall id | id in ids ensures HasChildIn(rest, id, ids) {
        assert HasChildIn(table, id, ids);
      }
      ProppedStay(rest, ids);
    }
  }

  /** The tombstones a sweep keeps although they hold nothing live are a knot. */
  lemma IdleKeptAreAKnot(table: Table)
    ensures Knot(table, set id | id in Swept(table) && table[id].deleted && !HoldsLive(table, id))
  {
    var rest := Swept(table);
    var idle := set id | id in rest && table[id].deleted && !HoldsLive(table, id);
    forall id | id in idle ensures HasChildIn(table, id, idle) {
      assert HasChild(rest, id) by { assert id !in Removable(rest); }
      var c :| c in rest && rest[c].parent == Some(id);
      if !table[c].deleted {
        assert LiveChain(table, id, [id, c]);
      } else if HoldsLive(table, c) {
        var chain :| LiveChain(table, c, chain);
        assert LiveChain(table, id, [id] + chain);
      }
    }
  }

  /** Whatever the parent links: an item stays exactly when it is live, holds a live item, or is in a knot. */
  lemma SweptExactly(table: Table, id: string)
    requires id in table
    ensures id in Swept(table)
            <==> !table[id].deleted || HoldsLive(table, id) || exists ids :: id in ids && Knot(table, ids)
  {
    if HoldsLive(table, id) {
      var chain :| LiveChain(table, id, chain);
      SweepKeepsHolders(table, id, chain);
    }
    forall ids | id in ids && Knot(table, ids) ensures id in Swept(table) {
      ProppedStay(table, ids);
    }
    IdleKeptAreAKnot(table);
  }

  /** The sweep keeps no tombstone in vain if and only if the table has no knot. */
  lemma SweepIsExactWithoutKnots(table: Table)
    ensures (forall id :: id in Swept(table) ==> !table[id].deleted || HoldsLive(table, id))
            <==> forall ids :: Knot(table, ids) ==> ids == {}
  {
    forall ids | Knot(table, ids) ensures ids <= Swept(table).Keys {
      ProppedStay(table, ids);
    }
    IdleKeptAreAKnot(table);
    var idle := set id | id in Swept(table) && table[id].deleted && !HoldsLive(table, id);
    assert idle == {} ==> forall id :: id in Swept(table) ==> id !in idle;
  }

  /** Two tombstones that are each other's parent are a knot. */
  lemma CyclicTombstonesStay(a: string, b: string, item: Item)
    requires a != b && item.deleted
    ensures var table := map[a := item.(parent := Some(b)), b := item.(parent := Some(a))];
            Knot(table, {a, b}) && Swept(table) == table && !Acyclic(table)
  {
    var table := map[a := item.(parent := Some(b)), b := item.(parent := Some(a))];
    assert table[a].parent.value == b && table[b].parent.value == a;
    forall rank ensures !Climbs(table, rank) {
    }
    assert HasChildIn(table, a, {a, b}) && HasChildIn(table, b, {a, b});
    ProppedStay(table, {a, b});
    forall id, chain | id in table ensures !LiveChain(table, id, chain) {
    }
  }

  // ---- fetching the pages of a delta ----

  datatype Continuation = More(url: string) | Done(link: string) | Missing

  datatype Reply = Expired | Failure | Page(items: seq<(string, Item)>, next: Continuation)

  datatype Exchange = Exchange(url: string, reply: Reply)

  /** The delta endpoint: any reply to any request, and a caller that may cancel at any check. */
  class Feed {
    ghost var log: seq<Exchange>
    /** Whether the caller has cancelled. */
    ghost var stopped: bool

    method Get(url: string) returns (reply: Reply)
      modifies this`log
      ensures log == old(log) + [Exchange(url, reply)]
    {
      reply := *;
      log := log + [Exchange(url, reply)];
    }

    method Check() returns (ok: bool)
      modifies this`stopped
      ensures stopped == (old(stopped) || !ok)
    {
      ok := *;
      stopped := stopped || !ok;
    }
  }

  function ItemsOf(log: seq<Exchange>): seq<(string, Item)> {
    if log == [] then []
    else
      var last := log[|log| - 1].reply;
      ItemsOf(log[..|log| - 1]) + if last.Page? then last.items else []
  }

  /** Where the next request goes. */
  function NextUrl(log: seq<Exchange>, start: string): string {
    if log == [] then start
    else
      var last := log[|log| - 1].reply;
      if last.Page? && last.next.More? then last.next.url else ""
  }

  /** Pages that continue one another from `start`. */
  predicate Chained(log: seq<Exchange>, start: string) {
    log == [] ||
    (var init, last := log[..|log| - 1], log[|log| - 1];
     last.reply.Page? && last.url == NextUrl(init, start) && Chained(init, start))
  }

  lemma ChainedExtends(log: seq<Exchange>, start: string, items: seq<(string, Item)>, next: Continuation)
    requires Chained(log, start)
    ensures var more := log + [Exchange(NextUrl(log, start), Page(items, next))];
            && Chained(more, start) && ItemsOf(more) == ItemsOf(log) + items
            && NextUrl(more, start) == if next.More? then next.url else ""
  {
    assert (log + [Exchange(NextUrl(log, start), Page(items, next))])[..|log|] == log;
  }

  predicate EndsExpired(log: seq<Exchange>) {
    log != [] && log[|log| - 1].reply.Expired?
  }

  const MAX_PAGES := 100000

  datatype Delta = Delta(link: string, replace: bool, pages: nat)

  method StagePage(index: Index, who: Identity, url: string, body: Reply, ghost session: seq<Exchange>,
                   ghost start: string)
    requires body.Page? && Chained(session, start) && url == NextUrl(session, start)
    requires RowsOf(index.stage, who) == Staged(map[], ItemsOf(session))
    modifies index`stage
    ensures forall other :: other != who ==> RowsOf(index.stage, other) == RowsOf(old(index.stage), other)
    ensures var more := session + [Exchange(url, body)];
            && Chained(more, start) && RowsOf(index.stage, who) == Staged(map[], ItemsOf(more))
            && NextUrl(more, start) == if body.next.More? then body.next.url else ""
  {
    index.Stage(who, body.items);
    StagedAppend(map[], ItemsOf(session), body.items);
    ChainedExtends(session, start, body.items, body.next);
    assert Exchange(url, body) == Exchange(url, Page(body.items, body.next));
  }

  predicate DistinctUrls(session: seq<Exchange>) {
    forall i, j :: 0 <= i < j < |session| ==> session[i].url != session[j].url
  }

  /** The exchanges of one listing: no url twice, none untrusted, and not more than the limit. */
  ghost predicate Orderly(session: seq<Exchange>, trusted: string -> bool) {
    && DistinctUrls(session) && |session| <= MAX_PAGES
    && (forall i :: 0 <= i < |session| ==> trusted(session[i].url))
  }

  /** The log grew by nothing, or by one request that keeps the session orderly. */
  ghost predicate AskedOnce(before: seq<Exchange>, after: seq<Exchange>, session: seq<Exchange>,
                            trusted: string -> bool) {
    after == before || exists e :: after == before + [e] && Orderly(session + [e], trusted)
  }

  function UrlsOf(session: seq<Exchange>): set<string> {
    set i | 0 <= i < |session| :: session[i].url
  }

  /** The url is not asked: it was asked before, or is past the limit, or not to be trusted. */
  predicate Refused(session: seq<Exchange>, url: string, trusted: string -> bool) {
    (exists i :: 0 <= i < |session| && session[i].url == url) || |session| >= MAX_PAGES || !trusted(url)
  }

  /** Why a listing ends without a cursor: the last page has none to be trusted, or the next url is refused, or the
      server fails on it, or has expired even a full listing. */
  ghost predicate Stuck(past: seq<Exchange>, log: seq<Exchange>, session: seq<Exchange>, start: string, full: bool,
                        trusted: string -> bool) {
    if session != [] && session[|session| - 1].reply.Page? && !session[|session| - 1].reply.next.More? then
      var next := session[|session| - 1].reply.next;
      log == past + session && (next.Missing? || next.link == "" || !trusted(next.link))
    else
      var url := NextUrl(session, start);
      || (log == past + session && Refused(session, url, trusted))
      || log == past + session + [Exchange(url, Failure)]
      || (full && log == past + session + [Exchange(url, Expired)])
  }

  lemma OneMoreIsOrderly(session: seq<Exchange>, e: Exchange, seen: set<string>, trusted: string -> bool)
    requires Orderly(session, trusted) && |session| < MAX_PAGES && trusted(e.url) && e.url !in seen
    requires seen == UrlsOf(session)
    ensures Orderly(session + [e], trusted)
  {
  }

  /** One guarded request: no url twice, none past the limit, none untrusted, and a check before and after. */
  method Request(feed: Feed, url: string, seen: set<string>, trusted: string -> bool, ghost session: seq<Exchange>)
    returns (body: Reply)
    requires Orderly(session, trusted) && |session| == |seen| && seen == UrlsOf(session)
    modifies feed
    ensures body.Failure? ==>
      || feed.stopped || (feed.log == old(feed.log) && Refused(session, url, trusted))
      || feed.log == old(feed.log) + [Exchange(url, Failure)]
    ensures old(feed.stopped) ==> feed.stopped
    ensures AskedOnce(old(feed.log), feed.log, session, trusted)
    ensures !body.Failure? ==> feed.log == old(feed.log) + [Exchange(url, body)] && url !in seen && |seen| < MAX_PAGES
    ensures !body.Failure? ==> Orderly(session + [Exchange(url, body)], trusted)
  {
    var ok := feed.Check();
    if !ok || url in seen || |seen| >= MAX_PAGES || !trusted(url) {
      return Failure;
    }
    body := feed.Get(url);
    OneMoreIsOrderly(session, Exchange(url, body), seen, trusted);
    if body.Page? {
      ok := feed.Check();
      if !ok {
        return Failure;
      }
    }
  }

  /** What the exchanges of a `stage_delta` look like: at most one listing that ended expired, then one more. */
  ghost predicate Logged(before: seq<Exchange>, after: seq<Exchange>, expired: seq<Exchange>, session: seq<Exchange>,
                         trusted: string -> bool) {
    && AskedOnce(before + expired + session, after, session, trusted)
    && Orderly(expired, trusted) && Orderly(session, trusted) && (expired != [] ==> EndsExpired(expired))
  }

  /** Between two requests: all that was asked is the expired listing and the session, whose next url is `url`. */
  ghost predicate Staging(past: seq<Exchange>, log: seq<Exchange>, expired: seq<Exchange>, session: seq<Exchange>,
                          seen: set<string>, url: string, start: string, trusted: string -> bool) {
    && log == past + expired + session && Logged(past, log, expired, session, trusted)
    && Chained(session, start) && url == NextUrl(session, start)
    && |session| == |seen| <= MAX_PAGES && seen == UrlsOf(session)
    && (session != [] ==> session[|session| - 1].reply.Page? && session[|session| - 1].reply.next.More?)
  }

  lemma PageKeepsStaging(past: seq<Exchange>, log: seq<Exchange>, expired: seq<Exchange>, session: seq<Exchange>,
                         seen: set<string>, url: string, start: string, trusted: string -> bool, body: Reply,
                             next: string)
    requires Staging(past, log, expired, session, seen, url, start, trusted)
    requires url !in seen && |seen| < MAX_PAGES && Orderly(session + [Exchange(url, body)], trusted)
    requires Chained(session + [Exchange(url, body)], start) && next == NextUrl(session + [Exchange(url, body)], start)
    requires body.Page? && body.next.More?
    ensures Staging(past, log + [Exchange(url, body)], expired, session + [Exchange(url, body)], seen + {url},
        next, start, trusted)
  {
    LastPageIsLogged(past, log, expired, session, Exchange(url, body), seen, url, start, trusted);
    OneMoreUrl(session, Exchange(url, body));
    var more := session + [Exchange(url, body)];
    assert more[|more| - 1].reply == body && |seen + {url}| == |more|;
  }

  lemma OneMoreUrl(session: seq<Exchange>, e: Exchange)
    ensures UrlsOf(session + [e]) == UrlsOf(session) + {e.url}
  {
    var more := session + [e];
    forall u | u in UrlsOf(session) ensures u in UrlsOf(more) {
      var i :| 0 <= i < |session| && session[i].url == u;
      assert more[i].url == u;
    }
    assert more[|session|].url == e.url;
  }

  lemma RequestFailed(past: seq<Exchange>, log: seq<Exchange>, after: seq<Exchange>, expired: seq<Exchange>,
                      session: seq<Exchange>, seen: set<string>, url: string, start: string, full: bool,
                      trusted: string -> bool)
    requires Staging(past, log, expired, session, seen, url, start, trusted)
    requires || (after == log && Refused(session, url, trusted)) || after == log + [Exchange(url, Failure)]
             || (full && after == log + [Exchange(url, Expired)])
    ensures Stuck(past + expired, after, session, start, full, trusted)
  {
  }

  lemma NoCursor(past: seq<Exchange>, log: seq<Exchange>, session: seq<Exchange>, start: string, full: bool,
                 trusted: string -> bool)
    requires session != [] && session[|session| - 1].reply.Page? && log == past + session
    requires var next := session[|session| - 1].reply.next;
             next.Missing? || (next.Done? && (next.link == "" || !trusted(next.link)))
    ensures Stuck(past, log, session, start, full, trusted)
  {
  }

  lemma LastPageIsLogged(past: seq<Exchange>, log: seq<Exchange>, expired: seq<Exchange>, session: seq<Exchange>,
                         e: Exchange, seen: set<string>, url: string, start: string, trusted: string -> bool)
    requires Staging(past, log, expired, session, seen, url, start, trusted)
    requires Orderly(session + [e], trusted)
    ensures log + [e] == past + expired + (session + [e])
    ensures Logged(past, log + [e], expired, session + [e], trusted)
  {
    assert log + [e] == past + expired + (session + [e]);
  }

  lemma StagingEnds(past: seq<Exchange>, log: seq<Exchange>, after: seq<Exchange>, expired: seq<Exchange>,
                    session: seq<Exchange>,
                    seen: set<string>, url: string, start: string, trusted: string -> bool)
    requires Staging(past, log, expired, session, seen, url, start, trusted) && AskedOnce(log, after, session, trusted)
    ensures Logged(past, after, expired, session, trusted)
  {
  }

  lemma StagingStarts(past: seq<Exchange>, start: string, trusted: string -> bool)
    ensures Staging(past, past, [], [], {}, start, start, trusted)
  {
    assert past + [] + [] == past;
  }

  lemma RestartKeepsStaging(past: seq<Exchange>, log: seq<Exchange>, session: seq<Exchange>,
                            seen: set<string>, url: string, start: string, trusted: string -> bool, first: string)
    requires Staging(past, log, [], session, seen, url, start, trusted)
    requires Orderly(session + [Exchange(url, Expired)], trusted)
    ensures Staging(past, log + [Exchange(url, Expired)], session + [Exchange(url, Expired)], [], {}, first, first,
        trusted)
  {
    assert past + [] + session == past + session;
    assert past + (session + [Exchange(url, Expired)]) + [] == past + session + [Exchange(url, Expired)];
  }

  /** What one turn of the loop over the pages comes to. */
  datatype Turn = GoOn(url: string) | Finish(link: string) | StartOver | GiveUp

  /** One request and its page. */
  method TakeTurn(index: Index, feed: Feed, who: Identity, url: string, seen: set<string>, full: bool,
                  trusted: string -> bool, ghost past: seq<Exchange>, ghost expired: seq<Exchange>,
                  ghost session: seq<Exchange>, ghost start: string)
    returns (turn: Turn, ghost asked: seq<Exchange>)
    requires Staging(past, feed.log, expired, session, seen, url, start, trusted)
    requires RowsOf(index.stage, who) == Staged(map[], ItemsOf(session))
    modifies index`stage, feed
    ensures forall other :: other != who ==> RowsOf(index.stage, other) == RowsOf(old(index.stage), other)
    ensures (old(feed.stopped) ==> feed.stopped) && Logged(past, feed.log, expired, asked, trusted)
    ensures turn.GoOn? ==>
      && Staging(past, feed.log, expired, asked, seen + {url}, turn.url, start, trusted)
      && |seen + {url}| == |seen| + 1 && RowsOf(index.stage, who) == Staged(map[], ItemsOf(asked))
    ensures turn.Finish? ==>
      && turn.link != "" && trusted(turn.link) && feed.log == past + expired + asked && Chained(asked, start)
      && asked != [] && asked[|asked| - 1].reply.next == Done(turn.link)
      && RowsOf(index.stage, who) == Staged(map[], ItemsOf(asked))
    ensures turn.StartOver? ==>
      && !full && asked == session && feed.log == old(feed.log) + [Exchange(url, Expired)]
      && Orderly(session + [Exchange(url, Expired)], trusted)
    ensures turn.GiveUp? ==> feed.stopped || Stuck(past + expired, feed.log, asked, start, full, trusted)
  {
    ghost var log := feed.log;
    var body := Request(feed, url, seen, trusted, session);
    StagingEnds(past, log, feed.log, expired, session, seen, url, start, trusted);
    asked := session;
    if body.Expired? && !full {
      return StartOver, asked;
    }
    if !body.Page? {
      if !feed.stopped {
        RequestFailed(past, log, feed.log, expired, session, seen, url, start, full, trusted);
      }
      return GiveUp, asked;
    }
    StagePage(index, who, url, body, session, start);
    LastPageIsLogged(past, log, expired, session, Exchange(url, body), seen, url, start, trusted);
    asked := session + [Exchange(url, body)];
    match body.next
    case More(nextUrl) =>
      PageKeepsStaging(past, log, expired, session, seen, url, start, trusted, body, nextUrl);
      return GoOn(nextUrl), asked;
    case Done(link) =>
      var ok := feed.Check();
      if link == "" || !trusted(link) {
        NoCursor(past + expired, feed.log, asked, start, full, trusted);
      }
      return if link != "" && trusted(link) && ok then Finish(link) else GiveUp, asked;
    case Missing =>
      NoCursor(past + expired, feed.log, asked, start, full, trusted);
      return GiveUp, asked;
  }

  /** `stage_delta`: stages the chained pages of one delta and publishes nothing. `first` is the url of a full
      listing, `trusted` the test every continuation must pass; `session` are the exchanges whose pages are staged. */
  method StageDelta(index: Index, feed: Feed, who: Identity, first: string, trusted: string -> bool)
    returns (r: Option<Delta>, ghost expired: seq<Exchange>, ghost session: seq<Exchange>)
    modifies index`stage, feed
    ensures forall other :: other != who ==> RowsOf(index.stage, other) == RowsOf(old(index.stage), other)
    ensures Logged(old(feed.log), feed.log, expired, session, trusted)
    ensures r.Some? ==>
      && feed.log == old(feed.log) + expired + session
      && r.value.link != "" && trusted(r.value.link)
      && r.value.replace == (who !in index.links || expired != [])
      && session != [] && Chained(session, if r.value.replace then first else index.links[who])
      && session[|session| - 1].reply.next == Done(r.value.link)
      && RowsOf(index.stage, who) == Staged(map[], ItemsOf(session))
    ensures r.None? && !feed.stopped ==>
      var full := who !in index.links || expired != [];
      Stuck(old(feed.log) + expired, feed.log, session, if full then first else index.links[who], full, trusted)
    ensures old(feed.stopped) ==> feed.stopped
  {
    var replace := who !in index.links;
    ghost var start := if replace then first else index.links[who];
    var url := if replace then first else index.links[who];
    var seen: set<string> := {};
    var pages := 0;
    expired, session := [], [];
    index.Begin(who);
    ghost var past := feed.log;
    StagingStarts(past, url, trusted);
    while true
      invariant forall other :: other != who ==> RowsOf(index.stage, other) == RowsOf(old(index.stage), other)
      invariant replace == (who !in index.links || expired != []) && (!replace ==> expired == [])
      invariant start == if replace then first else index.links[who]
      invariant Staging(past, feed.log, expired, session, seen, url, start, trusted)
      invariant RowsOf(index.stage, who) == Staged(map[], ItemsOf(session))
      invariant old(feed.stopped) ==> feed.stopped
      decreases !replace, MAX_PAGES - |seen|
    {
      ghost var log := feed.log;
      var turn;
      ghost var asked;
      turn, asked := TakeTurn(index, feed, who, url, seen, replace, trusted, past, expired, session, start);
      match turn
      case GoOn(next) =>
        seen, url, pages, session := seen + {url}, next, pages + 1, asked;
      case Finish(link) =>
        return Some(Delta(link, replace, pages + 1)), expired, asked;
      case StartOver =>
        RestartKeepsStaging(past, log, session, seen, url, start, trusted, first);
        index.Begin(who);
        expired, session := session + [Exchange(url, Expired)], [];
        replace, start, seen, url := true, first, {}, first;
      case GiveUp =>
        return None, expired, asked;
    }
  }

  lemma {:induction false} StagedAppend(stage: Table, a: seq<(string, Item)>, b: seq<(string, Item)>)
    ensures Staged(stage, a + b) == Staged(Staged(stage, a), b)
  {
    if b == [] {
      assert a + b == a;
    } else {
      assert (a + b)[..|a + b| - 1] == a + b[..|b| - 1];
      StagedAppend(stage, a, b[..|b| - 1]);
    }
  }

  // ---- a faithful feed ----

  ghost predicate LastAt(feed: seq<(string, Item)>, k: int) {
    0 <= k < |feed| && forall j :: k < j < |feed| ==> feed[j].0 != feed[k].0
  }

  /** The feed takes a client that holds `base` to `target`: the last word on an id is its state in the
      target, and an id it never mentions is the same in both. */
  ghost predicate Faithful(base: Table, target: Table, feed: seq<(string, Item)>) {
    && (forall id :: id in target ==> !target[id].deleted)
    && (forall k :: LastAt(feed, k) ==>
          if feed[k].1.deleted then feed[k].0 !in target
          else feed[k].0 in target && target[feed[k].0] == feed[k].1)
    && (forall id :: (forall k :: 0 <= k < |feed| ==> feed[k].0 != id) ==>
          if id in base then id in target && target[id] == base[id] else id !in target)
  }

  /** The stage holds exactly the last word on every id mentioned. */
  lemma {:induction false} StagedIsLastWord(feed: seq<(string, Item)>, id: string)
    ensures if id in Staged(map[], feed)
            then exists k :: LastAt(feed, k) && feed[k].0 == id && feed[k].1 == Staged(map[], feed)[id]
            else forall k :: 0 <= k < |feed| ==> feed[k].0 != id
  {
    if feed != [] {
      var n := |feed| - 1;
      var init := feed[..n];
      if feed[n].0 == id {
        assert LastAt(feed, n);
      } else {
        StagedIsLastWord(init, id);
        if id in Staged(map[], init) {
          var k :| LastAt(init, k) && init[k].0 == id && init[k].1 == Staged(map[], init)[id];
          assert LastAt(feed, k);
        }
      }
    }
  }

  lemma MergedAt(base: Table, target: Table, feed: seq<(string, Item)>, id: string)
    requires Faithful(Live(base), target, feed)
    ensures var live := Live(Merged(base, Staged(map[], feed)));
            if id in target then id in live && live[id] == target[id] else id !in live
  {
    StagedIsLastWord(feed, id);
  }

  /** Committing a faithful delta turns the live rows into the remote tree at its cursor. */
  lemma CommitRefinesRemote(table: Table, replace: bool, target: Table, feed: seq<(string, Item)>)
    requires Faithful(if replace then map[] else Live(table), target, feed)
    ensures Live(Swept(Merged(if replace then map[] else table, Staged(map[], feed)))) == target
  {
    var base: Table := if replace then map[] else table;
    assert Live(map[]) == map[];
    var merged := Merged(base, Staged(map[], feed));
    forall id ensures if id in target then id in Live(merged)
        && Live(merged)[id] == target[id] else id !in Live(merged) {
      MergedAt(base, target, feed, id);
    }
    assert Live(merged) == target;
    assert Live(Swept(merged)) == Live(merged);
  }

  lemma OtherRowsStay(items: map<Identity, Table>, stage: map<Identity, Table>, who: Identity, table: Table)
    ensures forall other :: other != who ==>
      RowsOf(items[who := table], other) == RowsOf(items, other) && RowsOf(stage - {who}, other) == RowsOf(stage, other)
  {
  }

  /** `refresh_index`: a staged delta is committed unless the caller stops in between. `names(link)` is the remote
      tree at the cursor `link`. When the pages lead from the live rows, or from nothing, to the tree at the new
      cursor, the live rows are that tree afterwards; a refresh that stops shows nothing new. */
  method RefreshIndex(index: Index, feed: Feed, who: Identity, first: string, trusted: string -> bool,
                      ghost names: string -> Table)
    returns (r: Option<Delta>, ghost expired: seq<Exchange>, ghost session: seq<Exchange>)
    modifies index, feed
    ensures forall other :: other != who ==>
      && RowsOf(index.items, other) == RowsOf(old(index.items), other)
      && RowsOf(index.stage, other) == RowsOf(old(index.stage), other)
    ensures r.None? ==> index.items == old(index.items) && index.links == old(index.links)
    ensures r.None? && !feed.stopped ==>
      var full := who !in old(index.links) || expired != [];
      Stuck(old(feed.log) + expired, feed.log, session, if full then first else old(index.links)[who], full, trusted)
    ensures r.Some? ==>
      && (who !in old(index.links) ==> r.value.replace) && index.links == old(index.links)[who := r.value.link]
      && Chained(session, if r.value.replace then first else old(index.links)[who])
    ensures r.Some? ==>
      var base := if r.value.replace then map[] else Live(RowsOf(old(index.items), who));
      Faithful(base, names(r.value.link), ItemsOf(session)) ==> Live(RowsOf(index.items, who)) == names(r.value.link)
  {
    r, expired, session := StageDelta(index, feed, who, first, trusted);
    if r.None? {
      return;
    }
    var ok := feed.Check();
    if !ok {
      return None, expired, session;
    }
    ghost var table := RowsOf(index.items, who);
    if Faithful(if r.value.replace then map[] else Live(table), names(r.value.link), ItemsOf(session)) {
      CommitRefinesRemote(table, r.value.replace, names(r.value.link), ItemsOf(session));
    }
    ghost var items, stage := index.items, index.stage;
    ok := index.Commit(who, r.value.link, r.value.replace);
    OtherRowsStay(items, stage, who, index.items[who]);
  }

  // ---- runs ----

  /** A session stages the feed of one delta; `full` after a missing or expired cursor. */
  datatype Session = Session(full: bool, feed: seq<(string, Item)>)

  datatype State = State(
    items: map<Identity, Table>,
    stage: map<Identity, Table>,
    links: map<Identity, string>,
    sessions: map<Identity, Session>)

  datatype Step =
    | Start(who: Identity)
    | Receive(who: Identity, page: seq<(string, Item)>)
    | Restart(who: Identity)
    | Interrupt(who: Identity)
    | Publish(who: Identity, link: string)

  /** `names(link)` is the remote tree at the cursor `link`. The server is faithful: what it fed a session
      that ends in `link` leads from the client's tree to the tree there. */
  ghost predicate Can(s: State, step: Step, names: string -> Table) {
    match step
    case Start(_) => true
    case Receive(who, _) => who in s.sessions
    case Restart(who) => who in s.sessions && !s.sessions[who].full
    case Interrupt(who) => true
    case Publish(who, link) =>
      && link != "" && who in s.sessions
      && var session := s.sessions[who];
         && (!session.full ==> who in s.links)
         && Faithful(if session.full then map[] else names(s.links[who]), names(link), session.feed)
  }

  function Next(s: State, step: Step): State {
    match step
    case Start(who) => s.(stage := s.stage - {who}, sessions := s.sessions[who := Session(who !in s.links, [])])
    case Receive(who, page) =>
      if who !in s.sessions then s else
      s.(stage := s.stage[who := Staged(RowsOf(s.stage, who), page)],
         sessions := s.sessions[who := s.sessions[who].(feed := s.sessions[who].feed + page)])
    case Restart(who) => s.(stage := s.stage - {who}, sessions := s.sessions[who := Session(true, [])])
    case Interrupt(who) => s.(sessions := s.sessions - {who})
    case Publish(who, link) =>
      if who !in s.sessions then s else
      var base := if s.sessions[who].full then map[] else RowsOf(s.items, who);
      s.(items := s.items[who := Swept(Merged(base, RowsOf(s.stage, who)))],
         links := s.links[who := link], stage := s.stage - {who}, sessions := s.sessions - {who})
  }

  /** The visible rows of every identity are the remote tree at its committed cursor. */
  ghost predicate Refines(s: State, names: string -> Table) {
    forall who :: Live(RowsOf(s.items, who)) == if who in s.links then names(s.links[who]) else map[]
  }

  ghost predicate Inv(s: State, names: string -> Table) {
    && Refines(s, names)
    && (forall who :: Removable(RowsOf(s.items, who)) == {})
    && (forall who :: who in s.sessions ==> RowsOf(s.stage, who) == Staged(map[], s.sessions[who].feed))
    && (forall who :: who in s.sessions && !s.sessions[who].full ==> who in s.links)
  }

  lemma ReceiveKeepsInv(s: State, who: Identity, page: seq<(string, Item)>, names: string -> Table)
    requires Inv(s, names) && who in s.sessions
    ensures Inv(Next(s, Receive(who, page)), names)
  {
    StagedAppend(map[], s.sessions[who].feed, page);
  }

  lemma CommittedKeepsInv(s: State, who: Identity, link: string, table: Table, names: string -> Table)
    requires Inv(s, names) && Live(table) == names(link) && Removable(table) == {}
    ensures Inv(State(s.items[who := table], s.stage - {who}, s.links[who := link], s.sessions - {who}), names)
  {
    var x := State(s.items[who := table], s.stage - {who}, s.links[who := link], s.sessions - {who});
    forall other | other != who
      ensures RowsOf(x.items, other) == RowsOf(s.items, other) && RowsOf(x.stage, other) == RowsOf(s.stage, other) {
    }
    assert Refines(x, names);
  }

  lemma PublishKeepsInv(s: State, who: Identity, link: string, names: string -> Table)
    requires Inv(s, names) && Can(s, Publish(who, link), names)
    ensures Inv(Next(s, Publish(who, link)), names)
  {
    var session := s.sessions[who];
    CommitRefinesRemote(RowsOf(s.items, who), session.full, names(link), session.feed);
    var base := if session.full then map[] else RowsOf(s.items, who);
    CommittedKeepsInv(s, who, link, Swept(Merged(base, RowsOf(s.stage, who))), names);
  }

  lemma StartKeepsInv(s: State, who: Identity, full: bool, names: string -> Table)
    requires Inv(s, names) && (!full ==> who in s.links)
    ensures Inv(s.(stage := s.stage - {who}, sessions := s.sessions[who := Session(full, [])]), names)
  {
  }

  lemma StepKeepsInv(s: State, step: Step, names: string -> Table)
    requires Inv(s, names) && Can(s, step, names)
    ensures Inv(Next(s, step), names)
  {
    match step
    case Start(who) => StartKeepsInv(s, who, who !in s.links, names);
    case Receive(who, page) => ReceiveKeepsInv(s, who, page, names);
    case Restart(who) => StartKeepsInv(s, who, true, names);
    case Interrupt(_) =>
    case Publish(who, link) => PublishKeepsInv(s, who, link, names);
  }

  /** Nothing but a whole commit is ever visible, and no step touches the rows, cursor or stage of another identity. */
  lemma OnlyCommitsShow(s: State, step: Step, who: Identity)
    ensures var x := Next(s, step);
            && (!(step.Publish? && step.who == who) ==>
                  && RowsOf(x.items, who) == RowsOf(s.items, who)
                  && (who in x.links <==> who in s.links) && (who in s.links ==> x.links[who] == s.links[who]))
            && (step.who != who ==> RowsOf(x.stage, who) == RowsOf(s.stage, who))
  {
  }

  /** Over any run of sessions, interruptions, restarts and commits the visible rows are the remote tree at
      the committed cursor. */
  lemma {:induction false} IndexRefinesRemote(run: seq<State>, steps: seq<Step>, names: string -> Table, k: nat)
    requires |run| == |steps| + 1 && k < |run| && Inv(run[0], names)
    requires forall i :: 0 <= i < |steps| ==> Can(run[i], steps[i], names) && run[i + 1] == Next(run[i], steps[i])
    ensures Inv(run[k], names) && Refines(run[k], names)
  {
    if k > 0 {
      IndexRefinesRemote(run, steps, names, k - 1);
      StepKeepsInv(run[k - 1], steps[k - 1], names);
    }
  }

  /** What `cloud_items` returns over any run: committed rows, whose live part is the remote tree at the committed
      cursor; every other row is a tombstone that holds a live item or is in a knot. */
  lemma ShownRowsAreExplained(run: seq<State>, steps: seq<Step>, names: string -> Table, k: nat, who: Identity)
    requires |run| == |steps| + 1 && k < |run| && Inv(run[0], names)
    requires forall i :: 0 <= i < |steps| ==> Can(run[i], steps[i], names) && run[i + 1] == Next(run[i], steps[i])
    ensures var rows := RowsOf(run[k].items, who);
            && Live(rows) == (if who in run[k].links then names(run[k].links[who]) else map[])
            && forall id :: id in rows && rows[id].deleted ==>
                HoldsLive(rows, id) || exists ids :: id in ids && Knot(rows, ids)
  {
    IndexRefinesRemote(run, steps, names, k);
    var rows := RowsOf(run[k].items, who);
    forall id | id in rows ensures !rows[id].deleted || HoldsLive(rows, id)
        || exists ids :: id in ids && Knot(rows, ids) {
      SweptExactly(rows, id);
    }
  }
}
