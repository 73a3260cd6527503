// Resumable upload sessions: fragments of one source file, against a server that may lose replies.

module UploadSession {
  import opened Options

  type Bytes = seq<bv8>

  const FRAGMENT: nat := 10 * 1024 * 1024

  /** A PUT of `content` at bytes `start..start + |content|` of `total`. */
  datatype Put = Put(start: nat, content: Bytes, total: nat)

  /** Stored: 200 or 201 with the item. Next: 202 with the ranges still expected, by their first bytes. */
  datatype Reply =
    | Stored(withItem: bool)
    | Next(expected: seq<Option<nat>>)
    | RangeNotSatisfiable
    | Busy
    | Rejected
    | Lost
    | Garbled

  /** Status: 2xx. Gone: 404 or 410. Unavailable: no answer, or any other status. */
  datatype Query = Status(expected: seq<Option<nat>>) | Gone | Unavailable

  /** The first range whose start can be read. */
  function FirstExpectedOffset(expected: seq<Option<nat>>): (r: Option<nat>)
    ensures r.Some? <==> exists i :: 0 <= i < |expected| && expected[i].Some?
    ensures r.Some? ==> exists i :: 0 <= i < |expected| && expected[i] == r && forall j :: 0 <= j < i ==>
              expected[j] == None
    ensures forall i :: 0 <= i < |expected| && expected[i].Some? && (forall j :: 0 <= j < i ==> expected[j] == None) ==>
              r == expected[i]
  {
    if expected == [] then None
    else if expected[0].Some? then expected[0]
    else
      var rest := FirstExpectedOffset(expected[1..]);
      assert forall i :: 0 <= i < |expected[1..]| ==> expected[1..][i] == expected[i + 1];
      rest
  }

  /** The server of one session. `faithful`: it keeps an exact received prefix, extends it only by a fragment
      that starts where the prefix ends, reports its length, and answers Stored only when it is complete. It
      may lose replies, throttle, answer 416, and forget the session. Otherwise it may answer anything. `calm`: it is
      faithful and does none of these to a fragment that starts where the prefix ends. */
  class Server {
    const faithful: bool
    const calm: bool
    var held: Bytes
    ghost var log: seq<Put>
    /** The last answer to a query. */
    ghost var answer: Query
    /** Whether the caller has stopped the upload. */
    ghost var stopped: bool

    constructor (faithful: bool, calm: bool, held: Bytes)
      ensures this.faithful == faithful && this.calm == calm && this.held == held && log == [] && !stopped
    {
      this.faithful, this.calm, this.held, log, answer := faithful, calm, held, [], Unavailable;
      stopped := false;
    }

    /** A progress report; the caller may stop the upload here. */
    method Report() returns (go: bool)
      modifies this`stopped
      ensures stopped == (old(stopped) || !go)
    {
      go := *;
      stopped := stopped || !go;
    }

    ghost predicate Extended(before: Bytes, put: Put)
      reads this
    {
      held == before || (put.start == |before| && held == before + put.content)
    }

    method Receive(put: Put) returns (reply: Reply)
      modifies this`held, this`log
      ensures log == old(log) + [put]
      ensures faithful ==> Extended(old(held), put)
      ensures faithful && reply.Stored? ==> |held| == put.total
      ensures faithful && reply.Next? ==> reply.expected == [Some(|held|)] && |held| < put.total
      ensures calm && faithful && put.start == |old(held)| && put.start + |put.content| <= put.total ==>
        && held == old(held) + put.content
        && reply == if |held| == put.total then Stored(true) else Next([Some(|held|)])
    {
      log := log + [put];
      if calm && faithful && put.start == |held| && put.start + |put.content| <= put.total {
        held := held + put.content;
        return if |held| == put.total then Stored(true) else Next([Some(|held|)]);
      }
      var accepts := *;
      if put.start == |held| && accepts {
        held := held + put.content;
      }
      reply := *;
      if faithful && reply.Stored? && |held| != put.total {
        reply := Lost;
      }
      if faithful && reply.Next? {
        reply := if |held| < put.total then Next([Some(|held|)]) else Lost;
      }
    }

    method Ask() returns (q: Query)
      modifies this`answer
      ensures answer == q
      ensures faithful && q.Status? ==> q.expected == [Some(|held|)]
    {
      q := *;
      if faithful && q.Status? {
        q := Status([Some(|held|)]);
      }
      answer := q;
    }
  }

  /** `query_upload_offset`: Ok(None) for a session that is gone, an error for no usable answer. */
  method QueryUploadOffset(server: Server) returns (ok: bool, offset: Option<nat>)
    modifies server`answer
    ensures ok == !server.answer.Unavailable?
    ensures offset == if server.answer.Status? then FirstExpectedOffset(server.answer.expected) else None
    ensures server.faithful && offset.Some? ==> offset.value == |server.held|
  {
    var q := server.Ask();
    match q
    case Gone => return true, None;
    case Unavailable => return false, None;
    case Status(expected) => return true, FirstExpectedOffset(expected);
  }

  datatype Fragment = Finished(withItem: bool) | Continue(next: nat) | Failed

  /** The PUT carries exactly the source bytes of an in-bounds range. */
  predicate Exact(put: Put, source: Bytes) {
    && put.total == |source| && 0 < |put.content| <= FRAGMENT
    && put.start + |put.content| <= |source|
    && put.content == source[put.start..put.start + |put.content|]
  }

  /** Every PUT of the log from `from` on is exact. */
  ghost predicate PutsMatch(log: seq<Put>, from: nat, source: Bytes) {
    forall i :: from <= i < |log| ==> Exact(log[i], source)
  }

  /** Nothing logged before is touched. */
  ghost predicate Extends(before: seq<Put>, log: seq<Put>) {
    |before| <= |log| && forall i :: 0 <= i < |before| ==> log[i] == before[i]
  }

  /** From `from` on the PUTs start at or after `low`, never move backwards, and none starts beyond `high`. */
  ghost predicate Advances(log: seq<Put>, from: nat, low: nat, high: nat) {
    && (forall i, j :: from <= i <= j < |log| ==> log[i].start <= log[j].start)
    && (forall i :: from <= i < |log| ==> low <= log[i].start <= high)
  }

  lemma AdvancesFurther(before: seq<Put>, log: seq<Put>, from: nat, low: nat, offset: nat)
    requires from <= |before| && Extends(before, log) && Advances(before, from, low, offset) && low <= offset
    requires forall i :: |before| <= i < |log| ==> log[i].start == offset
    ensures Advances(log, from, low, offset)
  {
    forall i | from <= i < |log| ensures low <= log[i].start <= offset {
      if i < |before| {
        assert log[i] == before[i];
      }
    }
    forall i, j | from <= i <= j < |log| ensures log[i].start <= log[j].start {
      if j < |before| {
        assert log[i] == before[i] && log[j] == before[j];
      }
    }
  }

  /** What was sent since `past`: exact pieces of the source that start between `low` and `high` and never move back. */
  ghost predicate Sent(past: seq<Put>, log: seq<Put>, source: Bytes, low: nat, high: nat) {
    Extends(past, log) && PutsMatch(log, |past|, source) && Advances(log, |past|, low, high)
  }

  lemma SentFurther(past: seq<Put>, before: seq<Put>, log: seq<Put>, source: Bytes, low: nat, offset: nat)
    requires Sent(past, before, source, low, offset) && low <= offset
    requires Extends(before, log) && PutsMatch(log, |before|, source)
    requires forall i :: |before| <= i < |log| ==> log[i].start == offset
    ensures forall high :: offset <= high ==> Sent(past, log, source, low, high)
  {
    AdvancesFurther(before, log, |past|, low, offset);
    forall i | |past| <= i < |log| ensures Exact(log[i], source) {
      if i < |before| {
        assert log[i] == before[i];
      }
    }
  }

  /** The server holds at least what it held, and nothing but a prefix of the source. */
  ghost predicate Holds(held: Bytes, low: Bytes, source: Bytes) {
    low <= held && held <= source
  }

  lemma ReceivedPart(before: Bytes, held: Bytes, put: Put, source: Bytes)
    requires Exact(put, source) && before <= source
    requires held == before || (put.start == |before| && held == before + put.content)
    ensures Holds(held, before, source)
    ensures |held| == |source| ==> held == source
  {
  }

  predicate Calm(server: Server)
    reads {}
  {
    server.calm && server.faithful
  }

  /** One PUT, and what the reply means: None to try again. */
  method Attempt(server: Server, source: Bytes, put: Put) returns (r: Option<Fragment>)
    requires Exact(put, source)
    modifies server
    ensures server.log == old(server.log) + [put]
    ensures server.faithful && old(server.held) <= source ==> Holds(server.held, old(server.held), source)
    ensures server.faithful && old(server.held) <= source && r.Some? && r.value.Finished? ==> server.held == source
    ensures server.faithful && r.Some? && r.value.Continue? ==> r.value.next == |server.held|
    ensures Calm(server) && |old(server.held)| == put.start ==>
      r == Some(if |server.held| == |source| then Finished(true) else Continue(put.start + |put.content|))
    ensures server.stopped == old(server.stopped)
  {
    var reply := server.Receive(put);
    if server.faithful && old(server.held) <= source {
      ReceivedPart(old(server.held), server.held, put, source);
    }
    match reply
    case Stored(withItem) =>
      return Some(Finished(withItem));
    case Next(expected) =>
      var next := FirstExpectedOffset(expected);
      return Some(if next.Some? then Continue(next.value) else Failed);
    case RangeNotSatisfiable =>
      var ok, next := QueryUploadOffset(server);
      return Some(if ok && next.Some? then Continue(next.value) else Failed);
    case Busy =>
      var ok, next := QueryUploadOffset(server);
      return if ok && next.Some? && next.value > put.start then Some(Continue(next.value)) else None;
    case Lost =>
      var ok, next := QueryUploadOffset(server);
      return if ok && next.Some? && next.value > put.start then Some(Continue(next.value)) else None;
    case Rejected =>
      return Some(Failed);
    case Garbled =>
      return Some(Failed);
  }

  /** Up to three attempts to send the fragment at `offset`. */
  method SendFragment(server: Server, source: Bytes, offset: nat) returns (r: Fragment)
    requires offset < |source|
    modifies server
    ensures Extends(old(server.log), server.log) && |server.log| <= |old(server.log)| + 3
    ensures PutsMatch(server.log, |old(server.log)|, source)
    ensures forall i, j :: |old(server.log)| <= i <= j < |server.log| ==>
              server.log[i] == server.log[j] && server.log[i].start == offset
    ensures server.faithful && old(server.held) <= source ==> Holds(server.held, old(server.held), source)
    ensures server.faithful && old(server.held) <= source && r.Finished? ==> server.held == source
    ensures server.faithful && r.Continue? ==> r.next == |server.held|
    ensures Calm(server) && |old(server.held)| == offset ==>
      r == Finished(true) || (r.Continue? && offset < r.next < |source|)
    ensures server.stopped == old(server.stopped)
  {
    var length := if |source| - offset <= FRAGMENT then |source| - offset else FRAGMENT;
    var put := Put(offset, source[offset..offset + length], |source|);
    assert Exact(put, source);
    for attempt := 0 to 3
      invariant Extends(old(server.log), server.log) && |server.log| == |old(server.log)| + attempt
      invariant forall i :: |old(server.log)| <= i < |server.log| ==> server.log[i] == put
      invariant (Calm(server) && |old(server.held)| == offset ==> attempt == 0) && server.stopped == old(server.stopped)
      invariant attempt == 0 ==> server.held == old(server.held)
      invariant server.faithful && old(server.held) <= source ==> Holds(server.held, old(server.held), source)
    {
      var fragment := Attempt(server, source, put);
      if fragment.Some? {
        return fragment.value;
      }
    }
    return Failed;
  }

  /** `upload_session_file`. It ends whatever the server answers: bytes left, then stalls left, decrease.
      Fragments never move backwards, and each is an exact piece of the source. */
  method UploadSessionFile(server: Server, source: Bytes, initial: nat) returns (ok: bool)
    modifies server
    ensures Sent(old(server.log), server.log, source, initial, |source|)
    ensures server.faithful && old(server.held) <= source ==> Holds(server.held, old(server.held), source)
    ensures server.faithful && old(server.held) <= source && ok ==> server.held == source
    ensures Calm(server) && old(server.held) <= source && initial == |old(server.held)| < |source| ==>
      ok || server.stopped
  {
    ghost var past := server.log;
    var total := |source|;
    var offset := if initial <= total then initial else total;
    if offset > 0 {
      var go := server.Report();
      if !go {
        return false;
      }
    }
    var stalled := 0;
    while offset < total
      invariant offset <= total && stalled <= 2 && (initial <= offset || offset == total)
      invariant Sent(past, server.log, source, initial, offset)
      invariant server.faithful && old(server.held) <= source ==> Holds(server.held, old(server.held), source)
      invariant Calm(server) && old(server.held) <= source && initial == |old(server.held)| < |source| ==>
                  server.stopped || (offset == |server.held| < total)
      decreases total - offset, 3 - stalled
    {
      ghost var before := server.log;
      var fragment := SendFragment(server, source, offset);
      SentFurther(past, before, server.log, source, initial, offset);
      match fragment
      case Finished(withItem) =>
        var go := server.Report();
        return go && withItem;
      case Failed =>
        return false;
      case Continue(next) =>
        if next <= offset {
          stalled := stalled + 1;
          if stalled >= 3 {
            return false;
          }
        } else {
          stalled := 0;
          offset := if next <= total then next else total;
          var go := server.Report();
          if !go {
            return false;
          }
        }
    }
    return false;
  }
}
