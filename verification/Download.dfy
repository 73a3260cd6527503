// Resumable download of one cloud version into a partial file, while the remote may change at any moment.

module Download {
  import opened Options

  type Bytes = seq<bv8>

  datatype Item = Item(etag: string, size: nat)

  /** The parts of a response the download looks at. The body is what arrives before the connection ends,
      cleanly or not. A range is `first-last/total`. */
  datatype Response = Response(status: nat, range: Option<(nat, nat, nat)>, patient: bool, body: Bytes, clean: bool)

  /** One cloud item: its current version and every version it ever had. Any call may find it changed, to a
      version with an etag never used before. A calm remote does not change, and answers every request in full. */
  class Remote {
    const calm: bool
    var etag: string
    var content: Bytes
    var history: map<string, Bytes>
    /** Whether the caller has stopped the transfer. */
    ghost var stopped: bool
    /** The number of downloads asked for. */
    ghost var asked: nat

    ghost predicate Valid()
      reads this
    {
      etag in history && history[etag] == content
    }

    /** Nothing of the past is lost, and a version that was left never returns. */
    twostate predicate Moved()
      reads this
    {
      && Valid()
      && (forall e :: e in old(history) ==> e in history && history[e] == old(history)[e])
      && (etag == old(etag) || etag !in old(history))
      && (calm ==> etag == old(etag) && content == old(content)) && (old(stopped) ==> stopped)
    }

    method Drift()
      requires Valid()
      modifies this
      ensures Moved() && stopped == old(stopped) && asked == old(asked)
    {
      var changes := *;
      if changes && !calm {
        var e: string := *;
        var c: Bytes := *;
        if e !in history {
          etag, content, history := e, c, history[e := c];
        }
      }
    }

    /** Cancellation and progress reports: the caller may stop the transfer here. */
    method Check() returns (ok: bool)
      requires Valid()
      modifies this
      ensures Moved() && stopped == (old(stopped) || !ok) && asked == old(asked)
    {
      Drift();
      ok := *;
      stopped := stopped || !ok;
    }

    /** Etag and size of the current version, unless the request fails. */
    method Metadata() returns (r: Option<Item>)
      requires Valid()
      modifies this
      ensures Moved() && stopped == old(stopped) && asked == old(asked)
      ensures r.Some? ==> r.value == Item(etag, |content|)
      ensures calm ==> r.Some?
    {
      Drift();
      var fails := *;
      r := if fails && !calm then None else Some(Item(etag, |content|));
    }

    /** A GET with `Range: bytes=offset-`. Sections 14.2, 14.4 and 15.3.7 of RFC 9110: a 200 carries the whole
        version, a 206 the part its Content-Range names; either may break off early. */
    method Get(offset: nat) returns (r: Option<Response>)
      requires Valid()
      modifies this
      ensures Moved() && stopped == old(stopped) && asked == old(asked) + 1
      ensures r.Some? ==> Serves(r.value, content)
      ensures calm && offset < |content| ==> r.Some? && ServesAll(r.value, content, offset)
    {
      Drift();
      asked := asked + 1;
      if calm && offset < |content| {
        var whole := *;
        assert content[offset..] == content[offset..|content| - 1 + 1];
        return Some(if whole then Response(200, None, true, content, true)
                    else Response(206, Some((offset, |content| - 1, |content|)), true, content[offset..], true));
      }
      var status: nat := *;
      var first: nat, last: nat, cut: nat := *, *, *;
      var lost, patient, clean := *, *, *;
      if lost {
        return None;
      }
      if status == 200 {
        return Some(Response(200, None, patient, content[..if cut <= |content| then cut else |content|], clean));
      }
      if status == 206 && first <= last < |content| {
        var part := content[first..last + 1];
        return Some(Response(206, Some((first, last, |content|)), patient, part[..if cut <= |part|
            then cut else |part|], clean));
      }
      return Some(Response(status, None, patient, [], clean));
    }
  }

  /** A 200 carries a prefix of the content, a 206 a prefix of the part that it names. */
  predicate Serves(response: Response, content: Bytes) {
    && (response.status == 200 ==> response.body <= content)
    && (response.status == 206 && response.range.Some? ==>
          var (first, last, total) := response.range.value;
          first <= last < total == |content| && response.body <= content[first..last + 1])
  }

  /** The response ends cleanly with the whole content, or with all of it from `offset` on. */
  predicate ServesAll(response: Response, content: Bytes, offset: nat)
    requires offset < |content|
  {
    && response.clean
    && if response.status == 200 then response.body == content
       else response.status == 206 && response.range == Some((offset, |content| - 1, |content|))
            && response.body == content[offset..]
  }

  class PartialFile {
    var bytes: Bytes

    constructor (bytes: Bytes)
      ensures this.bytes == bytes
    {
      this.bytes := bytes;
    }
  }

  datatype Failure = Retryable | Fatal

  /** While the remote still has the item's version, the file is a prefix of it. */
  ghost predicate Prefixed(remote: Remote, file: PartialFile, item: Item)
    reads remote, file
  {
    && remote.Valid() && item.etag in remote.history
    && (remote.etag == item.etag ==> file.bytes <= remote.content)
  }

  const BUFFER: nat := 128 * 1024

  lemma PartOfPrefix(a: Bytes, b: Bytes, n: nat, source: Bytes)
    requires a + b <= source && n <= |b|
    ensures a + b[..n] <= source
  {
    assert a + b == (a + b[..n]) + b[n..];
  }

  lemma Grown(base: Bytes, body: Bytes, read: nat, n: nat)
    requires read + n <= |body|
    ensures (base + body[..read]) + body[read..read + n] == base + body[..read + n]
  {
  }

  lemma NextPiece(base: Bytes, body: Bytes, read: nat, n: nat, source: Bytes, live: bool)
    requires read + n <= |body| && (live ==> base + body <= source)
    ensures (base + body[..read]) + body[read..read + n] == base + body[..read + n]
    ensures live ==> base + body[..read + n] <= source
  {
    Grown(base, body, read, n);
    if live {
      PartOfPrefix(base, body, read + n, source);
    }
  }

  /** The body is appended piece by piece. `source` is the version it came from, `live` whether that was the item's. */
  method CopyBody(remote: Remote, file: PartialFile, item: Item, body: Bytes, ghost source: Bytes, ghost live: bool)
    returns (r: Option<Failure>)
    requires remote.Valid() && item.etag in remote.history && |file.bytes| <= item.size
    requires remote.etag == item.etag ==> live && remote.content == source
    requires live ==> file.bytes + body <= source
    modifies remote, file
    ensures Prefixed(remote, file, item) && remote.Moved() && |file.bytes| <= item.size
    ensures r == None ==> file.bytes == old(file.bytes) + body
    ensures r.Some? ==> remote.stopped || |old(file.bytes)| + |body| > item.size
    ensures remote.asked == old(remote.asked)
  {
    ghost var base := file.bytes;
    var read := 0;
    while true
      invariant remote.Moved() && item.etag in remote.history
      invariant remote.etag == item.etag ==> live && remote.content == source
      invariant read <= |body| && file.bytes == base + body[..read] && |file.bytes| <= item.size
      invariant remote.asked == old(remote.asked)
      invariant live ==> file.bytes <= source
      decreases |body| - read
    {
      var ok := remote.Check();
      if !ok {
        return Some(Fatal);
      }
      if read == |body| {
        assert body[..read] == body;
        return None;
      }
      var n: nat := *;
      n := if 1 <= n <= BUFFER then n else BUFFER;
      n := if n <= |body| - read then n else |body| - read;
      if |file.bytes| + n > item.size {
        return Some(Fatal);
      }
      NextPiece(base, body, read, n, source, live);
      file.bytes := file.bytes + body[read..read + n];
      read := read + n;
      ok := remote.Check();
      if !ok {
        return Some(Fatal);
      }
    }
  }

  /** What a 206 that continues at `offset` brings. */
  lemma Continued(bytes: Bytes, body: Bytes, source: Bytes)
    requires bytes <= source && body <= source[|bytes|..]
    ensures bytes + body <= source
  {
    assert source == source[..|bytes|] + source[|bytes|..];
  }

  /** The remote has the item's version and keeps it, and the connection is good. */
  predicate Calm(remote: Remote, item: Item)
    reads remote
  {
    remote.calm && remote.etag == item.etag && |remote.content| == item.size && item.etag != ""
  }

  /** The body of a 200 replaces the file, that of a 206 must continue exactly at its end. */
  method TakeBody(remote: Remote, file: PartialFile, item: Item, response: Response, ghost source: Bytes,
                  ghost live: bool) returns (r: Option<Failure>)
    requires Prefixed(remote, file, item) && |file.bytes| < item.size
    requires response.status == 200 || response.status == 206
    requires remote.etag == item.etag ==> live && remote.content == source
    requires live ==> file.bytes <= source && Serves(response, source)
    modifies remote, file
    ensures Prefixed(remote, file, item) && |file.bytes| <= item.size
    ensures remote.Moved() && remote.asked == old(remote.asked)
    ensures r == None ==> |file.bytes| == item.size
    ensures live && |source| == item.size && ServesAll(response, source, |old(file.bytes)|) ==>
      r == None || remote.stopped
  {
    if response.status == 200 {
      file.bytes := [];
      var ok := remote.Check();
      if !ok {
        return Some(Fatal);
      }
      assert file.bytes + response.body == response.body;
    } else if response.range != Some((|file.bytes|, item.size - 1, item.size)) {
      return Some(Fatal);
    } else if live {
      Continued(file.bytes, response.body, source);
    }
    r := CopyBody(remote, file, item, response.body, source, live);
    if r == None && (!response.clean || |file.bytes| != item.size) {
      return Some(Retryable);
    }
  }

  /** One request and its body. */
  method Transfer(remote: Remote, file: PartialFile, item: Item) returns (r: Option<Failure>)
    requires Prefixed(remote, file, item) && |file.bytes| < item.size
    modifies remote, file
    ensures Prefixed(remote, file, item) && |file.bytes| <= item.size
    ensures remote.Moved() && remote.asked == old(remote.asked) + 1
    ensures r == None ==> |file.bytes| == item.size
    ensures Calm(remote, item) ==> r == None || remote.stopped
  {
    var offset := |file.bytes|;
    var reply := remote.Get(offset);
    ghost var live, source := remote.etag == item.etag && file.bytes <= remote.content, remote.content;
    var ok := remote.Check();
    if !ok {
      return Some(Fatal);
    }
    if reply == None {
      return Some(Retryable);
    }
    var response := reply.value;
    if response.status == 429 || response.status == 503 {
      ok := remote.Check();
      return Some(if response.patient && ok then Retryable else Fatal);
    }
    if response.status != 200 && response.status != 206 {
      return Some(Retryable);
    }
    r := TakeBody(remote, file, item, response, source, live);
  }

  /** The remote still serves exactly the item's version. */
  method SameVersion(remote: Remote, item: Item) returns (same: bool)
    requires remote.Valid()
    modifies remote
    ensures remote.Moved() && remote.asked == old(remote.asked) && remote.stopped == old(remote.stopped)
    ensures same ==> remote.etag == item.etag && |remote.content| == item.size
    ensures Calm(remote, item) ==> same
  {
    var meta := remote.Metadata();
    same := meta.Some? && item.etag != "" && meta.value == item;
  }

  /** As long as the remote has the item's version, a file of the item's size is that version. */
  lemma FullPrefix(remote: Remote, file: PartialFile, item: Item)
    requires Prefixed(remote, file, item) && remote.etag == item.etag && |remote.content| == item.size
    ensures |file.bytes| == item.size ==> file.bytes == remote.history[item.etag]
  {
  }

  datatype Attempted = Complete | Again | Over

  /** One turn of the loop: the version is checked, the rest is fetched, and the version is checked again. */
  method Attempt(remote: Remote, file: PartialFile, item: Item) returns (r: Attempted)
    requires Prefixed(remote, file, item) && |file.bytes| <= item.size
    modifies remote, file
    ensures Prefixed(remote, file, item) && remote.Moved() && |file.bytes| <= item.size
    ensures r.Complete? ==> |file.bytes| == item.size && file.bytes == remote.history[item.etag]
    ensures Calm(remote, item) ==> r.Complete? || remote.stopped
    ensures remote.asked <= old(remote.asked) + 1
  {
    var go := remote.Check();
    if !go {
      return Over;
    }
    var same := SameVersion(remote, item);
    if !same {
      return Over;
    }
    FullPrefix(remote, file, item);
    go := remote.Check();
    if !go {
      return Over;
    }
    if |file.bytes| == item.size {
      return Complete;
    }
    var failure := Transfer(remote, file, item);
    go := remote.Check();
    if !go {
      return Over;
    }
    match failure
    case None =>
      same := SameVersion(remote, item);
      if same {
        FullPrefix(remote, file, item);
      }
      return if same then Complete else Over;
    case Some(Fatal) =>
      return Over;
    case Some(Retryable) =>
      return Again;
  }

  /** `download_partial`: at every exit the file is a prefix of the item's version as long as the remote has it,
      and success means the file is that whole version. */
  method DownloadPartial(remote: Remote, file: PartialFile, item: Item) returns (ok: bool)
    requires Prefixed(remote, file, item)
    modifies remote, file
    ensures Prefixed(remote, file, item) && remote.Moved()
    ensures old(|file.bytes|) > item.size ==> !ok && file.bytes == old(file.bytes)
    ensures old(|file.bytes|) <= item.size ==> |file.bytes| <= item.size
    ensures ok ==> |file.bytes| == item.size && file.bytes == remote.history[item.etag]
    ensures Calm(remote, item) && old(|file.bytes|) <= item.size ==> ok || remote.stopped
    ensures remote.asked <= old(remote.asked) + 3
  {
    if |file.bytes| > item.size {
      return false;
    }
    for attempt := 0 to 3
      invariant Prefixed(remote, file, item) && remote.Moved() && |file.bytes| <= item.size
      invariant remote.asked <= old(remote.asked) + attempt
      invariant Calm(remote, item) ==> attempt == 0 || remote.stopped
    {
      var r := Attempt(remote, file, item);
      if !r.Again? {
        return r.Complete?;
      }
      if attempt < 2 {
        var go := remote.Check();
        if !go {
          return false;
        }
      }
    }
    return false;
  }
}
