// Agreement of the handshake between engines over a network that drops, replays, reorders and forges.

module PeerHandshake {
  import opened Options
  import opened PeerCrypto
  import opened PeerProtocol

  datatype Event =
    | Challenged(session: string, peer: string, challenge: string)
    | Sealed(session: string, env: Envelope)
    | Took(session: string, env: Envelope)

  /** All engines that ever ran, by session; a restarted device appears again under a new session. `log` is
      everything that happened, `honest` the devices whose keys only these engines use. */
  datatype World = World(engines: map<string, Engine>, log: seq<Event>, honest: set<string>)

  datatype Action =
    | Start(session: string, identity: string, trusted: set<string>)
    | Act(session: string, step: PeerProtocol.Step, now: int)
    | Hail(session: string, id: string, now: int, nonce: string, contributory: bool)

  predicate Mentions(event: Event, challenge: string) {
    match event
    case Challenged(_, _, c) => c == challenge
    case Sealed(_, env) => (env.message.Hello? || env.message.HelloAck?) && env.message.challenge == challenge
    case Took(_, env) => (env.message.Hello? || env.message.HelloAck?) && env.message.challenge == challenge
  }

  /** No event before position `n` mentions the challenge. */
  ghost predicate Unheard(log: seq<Event>, n: int, challenge: string) {
    forall k :: 0 <= k < n && k < |log| ==> !Mentions(log[k], challenge)
  }

  ghost predicate WasSealed(log: seq<Event>, env: Envelope) {
    exists k :: 0 <= k < |log| && log[k].Sealed? && log[k].env == env
  }

  /** Sessions and challenges are fresh, and nobody forges an honest signature. */
  ghost predicate Can(w: World, a: Action) {
    match a
    case Start(session, _, _) => session !in w.engines
    case Act(session, step, _) =>
      && session in w.engines
      && (step.Discover? ==> Unheard(w.log, |w.log|, step.nonce))
      && (step.Receive? ==> step.env.signer in w.honest ==> WasSealed(w.log, step.env))
    case Hail(session, _, _, _, _) => session in w.engines
  }

  function Output(session: string, env: Option<Envelope>): seq<Event> {
    if env.Some? then [Sealed(session, env.value)] else []
  }

  /** What the step shows to the log, in order. */
  function Events(e: Engine, step: PeerProtocol.Step, now: int): seq<Event> {
    match step
    case Discover(p, nonce) =>
      if Discovered(e, p, now, nonce) == Done(Discovered(e, p, now, nonce).engine, true)
         && Resets(if p.device in e.peers then e.peers[p.device] else Peer(None, "", false), p)
      then [Challenged(e.session, p.device, nonce)] else []
    case Send(id, message, nonce, contributory) =>
      (match SentTo(e, id, message, now, nonce, contributory)
       case Done(_, env) => [Sealed(e.session, env)]
       case Refused(_) => [])
    case Receive(env, nonce, contributory) =>
      if !Accepts(e, env, now) then []
      else
        [Took(e.session, env)] +
        (match Received(e, env, now, nonce, contributory)
         case Done(_, answer) => Output(e.session, answer)
         case Refused(_) => [])
    case _ => []
  }

  function Next(w: World, a: Action): World {
    match a
    case Start(session, identity, trusted) => w.(engines := w.engines[session := Fresh(identity, session, trusted)])
    case Act(session, step, now) =>
      if session !in w.engines then w else
      w.(engines := w.engines[session := PeerProtocol.Next(w.engines[session], step, now)],
         log := w.log + Events(w.engines[session], step, now))
    case Hail(session, id, now, nonce, contributory) =>
      if session !in w.engines then w else
      w.(log := w.log + Output(session, HelloTo(w.engines[session], id, now, nonce, contributory)))
  }

  // ---- the invariant ----

  /** The engine of session `s` took, before position `i`, a hello with this challenge from the engine `(device,
      session)`. */
  ghost predicate TookHello(w: World, i: int, s: string, challenge: string, device: string, session: string) {
    exists j :: 0 <= j < i && j < |w.log| && IsHello(w, j, s, challenge, device, session)
  }

  predicate IsHello(w: World, j: int, s: string, challenge: string, device: string, session: string)
    requires 0 <= j < |w.log|
  {
    var event := w.log[j];
    && event.Took? && event.session == s && event.env.message == Hello(challenge)
    && event.env.header.from == device && event.env.header.fromSession == session
    && event.env.signer == device
  }

  /** An engine signs as itself, and answers a challenge only after taking it. */
  ghost predicate SealedOk(w: World, i: int)
    requires 0 <= i < |w.log| && w.log[i].Sealed?
  {
    var s, env := w.log[i].session, w.log[i].env;
    && s in w.engines && env.header.fromSession == s
    && env.header.from == w.engines[s].identity && env.signer == w.engines[s].identity
    && (env.message.HelloAck? ==>
          TookHello(w, i, s, env.message.challenge, env.header.to, env.header.toSession))
  }

  ghost predicate TookOk(w: World, i: int)
    requires 0 <= i < |w.log| && w.log[i].Took?
  {
    w.log[i].env.signer in w.honest ==> exists k :: 0 <= k < i && w.log[k].Sealed? && w.log[k].env == w.log[i].env
  }

  /** The engine of `peer` in session `s` sealed an answer to the challenge, meant for `(device, session)`. */
  predicate IsAnswer(w: World, i: int, s: string, peer: string, challenge: string, device: string, session: string)
    requires 0 <= i < |w.log|
  {
    var event := w.log[i];
    && event.Sealed? && event.session == s && s in w.engines && w.engines[s].identity == peer
    && event.env.message == HelloAck(challenge) && event.env.header.to == device
    && event.env.header.toSession == session
  }

  /** Agreement: after this engine drew its current challenge, the peer's engine in the recorded session took
      a hello with it from this very session and then answered it to this very session. */
  ghost predicate Agreed(w: World, session: string, id: string)
    requires session in w.engines && id in w.engines[session].peers
  {
    var e := w.engines[session];
    var peer := e.peers[id];
    && peer.presence.Some?
    && exists k, j, i :: 0 <= k < j < i < |w.log|
         && w.log[k] == Challenged(session, id, peer.challenge)
         && IsHello(w, j, peer.presence.value.session, peer.challenge, e.identity, session)
         && IsAnswer(w, i, peer.presence.value.session, id, peer.challenge, e.identity, session)
  }

  /** The challenge on record was drawn for this peer, and nobody had heard of it before. */
  ghost predicate ChallengeDrawn(w: World, session: string, id: string)
    requires session in w.engines && id in w.engines[session].peers
  {
    var c := w.engines[session].peers[id].challenge;
    exists k :: 0 <= k < |w.log| && w.log[k] == Challenged(session, id, c) && Unheard(w.log, k, c)
  }

  ghost predicate EngineOk(w: World, session: string)
    requires session in w.engines
  {
    var e := w.engines[session];
    && e.session == session
    && forall id :: id in e.peers ==>
         && e.peers[id].presence.Some? && e.peers[id].presence.value.device == id
         && ChallengeDrawn(w, session, id)
         && (e.peers[id].authenticated && id in w.honest ==> Agreed(w, session, id))
  }

  ghost predicate LogOk(w: World) {
    && (forall i :: 0 <= i < |w.log| && w.log[i].Sealed? ==> SealedOk(w, i))
    && (forall i :: 0 <= i < |w.log| && w.log[i].Took? ==> TookOk(w, i))
  }

  ghost predicate Inv(w: World) {
    LogOk(w) && forall s :: s in w.engines ==> EngineOk(w, s)
  }

  // ---- the past stays as it was ----

  ghost predicate Extends(w: World, x: World) {
    && w.log <= x.log && x.honest == w.honest
    && forall s :: s in w.engines ==> s in x.engines && x.engines[s].identity == w.engines[s].identity
  }

  lemma OldEventsStayOk(w: World, x: World)
    requires Extends(w, x) && LogOk(w)
    ensures forall i :: 0 <= i < |w.log| && x.log[i].Sealed? ==> SealedOk(x, i)
    ensures forall i :: 0 <= i < |w.log| && x.log[i].Took? ==> TookOk(x, i)
  {
    forall i | 0 <= i < |w.log| && x.log[i].Sealed? ensures SealedOk(x, i) {
      assert x.log[i] == w.log[i];
      assert SealedOk(w, i);
      var env := w.log[i].env;
      if env.message.HelloAck? {
        TookHelloStays(w, x, i, w.log[i].session, env.message.challenge, env.header.to, env.header.toSession);
      }
    }
    forall i | 0 <= i < |w.log| && x.log[i].Took? ensures TookOk(x, i) {
      assert x.log[i] == w.log[i];
      assert TookOk(w, i);
      if w.log[i].env.signer in w.honest {
        var k :| 0 <= k < i && w.log[k].Sealed? && w.log[k].env == w.log[i].env;
        assert x.log[k] == w.log[k];
      }
    }
  }

  lemma TookHelloStays(w: World, x: World, i: int, s: string, challenge: string, device: string, session: string)
    requires Extends(w, x) && TookHello(w, i, s, challenge, device, session)
    ensures TookHello(x, i, s, challenge, device, session)
  {
    var j :| 0 <= j < i && j < |w.log| && IsHello(w, j, s, challenge, device, session);
    assert x.log[j] == w.log[j];
    assert IsHello(x, j, s, challenge, device, session);
  }

  /** A record that keeps its session and challenge keeps what is known about them. */
  lemma RecordStaysOk(w: World, x: World, session: string, id: string)
    requires Extends(w, x) && session in w.engines && id in w.engines[session].peers && id in x.engines[session].peers
    requires ChallengeDrawn(w, session, id)
    requires var a, b := w.engines[session].peers[id], x.engines[session].peers[id];
             && a.presence.Some? && b.presence.Some? && b.challenge == a.challenge
             && b.presence.value.session == a.presence.value.session
    ensures ChallengeDrawn(x, session, id)
    ensures Agreed(w, session, id) ==> Agreed(x, session, id)
  {
    var peer := w.engines[session].peers[id];
    var k :| 0 <= k < |w.log| && w.log[k] == Challenged(session, id, peer.challenge)
        && Unheard(w.log, k, peer.challenge);
    assert x.log[k] == w.log[k] && Unheard(x.log, k, peer.challenge);
    if Agreed(w, session, id) {
      var k, j, i :| 0 <= k < j < i < |w.log|
        && w.log[k] == Challenged(session, id, peer.challenge)
        && IsHello(w, j, peer.presence.value.session, peer.challenge, w.engines[session].identity, session)
        && IsAnswer(w, i, peer.presence.value.session, id, peer.challenge, w.engines[session].identity, session);
      assert x.log[k] == w.log[k] && x.log[j] == w.log[j] && x.log[i] == w.log[i];
      assert IsHello(x, j, peer.presence.value.session, peer.challenge, w.engines[session].identity, session);
      assert IsAnswer(x, i, peer.presence.value.session, id, peer.challenge, w.engines[session].identity, session);
    }
  }

  lemma OtherEngineStaysOk(w: World, x: World, session: string)
    requires Extends(w, x) && session in w.engines && EngineOk(w, session) && x.engines[session] == w.engines[session]
    ensures EngineOk(x, session)
  {
    forall id | id in w.engines[session].peers ensures ChallengeDrawn(x, session, id)
      && (Agreed(w, session, id) ==> Agreed(x, session, id))
    {
      RecordStaysOk(w, x, session, id);
    }
  }

  // ---- one engine acts ----

  /** The acting engine keeps its name, and each record is kept, new, or newly authenticated. */
  lemma ActKeepsInv(w: World, x: World, session: string, e: Engine, events: seq<Event>)
    requires Inv(w) && session in w.engines
    requires e.identity == w.engines[session].identity && e.session == session
    requires x == w.(engines := w.engines[session := e], log := w.log + events)
    requires forall i :: |w.log| <= i < |x.log| && x.log[i].Sealed? ==> SealedOk(x, i)
    requires forall i :: |w.log| <= i < |x.log| && x.log[i].Took? ==> TookOk(x, i)
    requires EngineOk(x, session)
    ensures Inv(x)
  {
    assert Extends(w, x);
    OldEventsStayOk(w, x);
    forall s | s in x.engines ensures EngineOk(x, s) {
      if s != session { OtherEngineStaysOk(w, x, s); }
    }
  }

  /** Records that keep session, challenge and handshake state stay ok while the log grows. */
  lemma SameRecordsStayOk(w: World, x: World, session: string)
    requires Extends(w, x) && session in w.engines && EngineOk(w, session)
    requires x.engines[session].session == session
    requires forall id :: id in x.engines[session].peers ==>
      && id in w.engines[session].peers && x.engines[session].peers[id].presence.Some?
      && var a, b := w.engines[session].peers[id], x.engines[session].peers[id];
         && b.challenge == a.challenge && b.presence.value.device == id
         && a.presence.Some? && b.presence.value.session == a.presence.value.session
         && (b.authenticated && id in w.honest ==> a.authenticated || Agreed(w, session, id))
    ensures EngineOk(x, session)
  {
    forall id | id in x.engines[session].peers
      ensures ChallengeDrawn(x, session, id) && (Agreed(w, session, id) ==> Agreed(x, session, id))
    {
      RecordStaysOk(w, x, session, id);
    }
  }

  /** Trusting, greeting and sending at most forget peers, and seal at most one message that is no handshake. */
  lemma QuietStep(e: Engine, step: PeerProtocol.Step, now: int)
    requires step.Trust? || step.Greet? || step.Send?
    ensures var f := PeerProtocol.Next(e, step, now);
            && f.identity == e.identity && f.session == e.session
            && forall id :: id in f.peers ==> id in e.peers && f.peers[id] == e.peers[id]
    ensures var events := Events(e, step, now);
            |events| <= 1 && forall k :: 0 <= k < |events| ==>
              && events[k].Sealed? && events[k].session == e.session
              && var env := events[k].env;
                 env.header.from == e.identity && env.header.fromSession == e.session
                     && env.signer == e.identity && !env.message.HelloAck?
  {
  }

  lemma QuietStepKeepsInv(w: World, session: string, step: PeerProtocol.Step, now: int)
    requires Inv(w) && session in w.engines && (step.Trust? || step.Greet? || step.Send?)
    ensures Inv(Next(w, Act(session, step, now)))
  {
    var e := w.engines[session];
    var x := Next(w, Act(session, step, now));
    assert EngineOk(w, session);
    QuietStep(e, step, now);
    assert x == w.(engines := w.engines[session := x.engines[session]], log := w.log + Events(e, step, now));
    SameRecordsStayOk(w, x, session);
    ActKeepsInv(w, x, session, x.engines[session], Events(e, step, now));
  }

  lemma HailKeepsInv(w: World, session: string, id: string, now: int, nonce: string, contributory: bool)
    requires Inv(w) && session in w.engines
    ensures Inv(Next(w, Hail(session, id, now, nonce, contributory)))
  {
    var e := w.engines[session];
    var x := Next(w, Hail(session, id, now, nonce, contributory));
    assert EngineOk(w, session);
    SameRecordsStayOk(w, x, session);
    assert x == w.(engines := w.engines[session := e], log := x.log);
    ActKeepsInv(w, x, session, e, Output(session, HelloTo(e, id, now, nonce, contributory)));
  }

  lemma StartKeepsInv(w: World, session: string, identity: string, trusted: set<string>)
    requires Inv(w) && session !in w.engines
    ensures Inv(Next(w, Start(session, identity, trusted)))
  {
    var x := Next(w, Start(session, identity, trusted));
    assert Extends(w, x);
    OldEventsStayOk(w, x);
    forall s | s in x.engines ensures EngineOk(x, s) {
      if s != session { OtherEngineStaysOk(w, x, s); }
    }
  }

  /** A freshly drawn challenge is on record, and not authenticated. */
  lemma NewRecordIsOk(w: World, x: World, session: string, id: string, nonce: string)
    requires Extends(w, x) && x.log == w.log + [Challenged(session, id, nonce)] && Unheard(w.log, |w.log|, nonce)
    requires session in x.engines && id in x.engines[session].peers && x.engines[session].peers[id].challenge == nonce
    ensures ChallengeDrawn(x, session, id)
  {
    assert x.log[|w.log|] == Challenged(session, id, nonce);
    assert Unheard(x.log, |w.log|, nonce);
  }

  /** The record has the same challenge and session, with a presence of the same device. */
  predicate Renewed(a: Peer, b: Peer, device: string) {
    && b == a.(presence := b.presence)
    && (a.presence.Some? ==>
          && b.presence.Some? && b.presence.value.session == a.presence.value.session
          && (b.presence == a.presence || b.presence.value.device == device))
  }

  /** What discovering does to the records: one is new, or one has its presence renewed. */
  lemma DiscoveredPeers(e: Engine, p: Presence, now: int, nonce: string)
    ensures var f := PeerProtocol.Next(e, Discover(p, nonce), now);
            && f.identity == e.identity && f.session == e.session
            && (forall i :: i in f.peers && i != p.device ==> i in e.peers && f.peers[i] == e.peers[i])
    ensures var f := PeerProtocol.Next(e, Discover(p, nonce), now);
            if Events(e, Discover(p, nonce), now) == [] then
              p.device in f.peers ==> p.device in e.peers && Renewed(e.peers[p.device], f.peers[p.device], p.device)
            else
              && Events(e, Discover(p, nonce), now) == [Challenged(e.session, p.device, nonce)]
              && p.device in f.peers && f.peers[p.device] == Peer(Some(p), nonce, false)
  {
  }

  lemma DiscoverKeepsInv(w: World, session: string, p: Presence, now: int, nonce: string)
    requires Inv(w) && Can(w, Act(session, Discover(p, nonce), now))
    ensures Inv(Next(w, Act(session, Discover(p, nonce), now)))
  {
    var e := w.engines[session];
    var x := Next(w, Act(session, Discover(p, nonce), now));
    var f, events := x.engines[session], Events(e, Discover(p, nonce), now);
    assert EngineOk(w, session);
    assert x == w.(engines := w.engines[session := f], log := w.log + events);
    DiscoveredPeers(e, p, now, nonce);
    forall i | i in f.peers
      ensures f.peers[i].presence.Some? && f.peers[i].presence.value.device == i && ChallengeDrawn(x, session, i)
      ensures f.peers[i].authenticated && i in w.honest ==> Agreed(x, session, i)
    {
      if i == p.device && events != [] {
        NewRecordIsOk(w, x, session, i, nonce);
      } else {
        RecordStaysOk(w, x, session, i);
      }
    }
    ActKeepsInv(w, x, session, f, events);
  }

  /** A hello-ack that an honest peer signed proves the agreement. */
  lemma AckProvesAgreement(w: World, session: string, env: Envelope, now: int)
    requires Inv(w) && session in w.engines && Accepts(w.engines[session], env, now) && env.message.HelloAck?
    requires env.header.from in w.honest && WasSealed(w.log, env)
    ensures Agreed(w, session, env.header.from)
  {
    var e := w.engines[session];
    var peer := e.peers[env.header.from];
    assert EngineOk(w, session) && ChallengeDrawn(w, session, env.header.from);
    var i :| 0 <= i < |w.log| && w.log[i].Sealed? && w.log[i].env == env;
    assert SealedOk(w, i) && w.log[i].session == peer.presence.value.session;
    AnswerProvesAgreement(w, session, env.header.from, i);
  }

  /** The answer in the log follows the hello it answers, and that follows the drawing of its challenge. */
  lemma AnswerProvesAgreement(w: World, session: string, id: string, i: nat)
    requires session in w.engines && id in w.engines[session].peers && w.engines[session].peers[id].presence.Some?
    requires ChallengeDrawn(w, session, id) && i < |w.log| && w.log[i].Sealed? && SealedOk(w, i)
    requires var e, peer := w.engines[session], w.engines[session].peers[id];
             IsAnswer(w, i, peer.presence.value.session, id, peer.challenge, e.identity, session)
    ensures Agreed(w, session, id)
  {
    var e, peer := w.engines[session], w.engines[session].peers[id];
    var s := peer.presence.value.session;
    assert TookHello(w, i, s, peer.challenge, e.identity, session);
    var j :| 0 <= j < i && j < |w.log| && IsHello(w, j, s, peer.challenge, e.identity, session);
    var k :| 0 <= k < |w.log| && w.log[k] == Challenged(session, id, peer.challenge)
        && Unheard(w.log, k, peer.challenge);
    assert Mentions(w.log[j], peer.challenge);
  }

  lemma ReceivedPeers(e: Engine, env: Envelope, nonce: string, contributory: bool, now: int)
    ensures var f := PeerProtocol.Next(e, Receive(env, nonce, contributory), now);
            && f.identity == e.identity && f.session == e.session
            && f.peers == if Accepts(e, env, now) && env.message.HelloAck?
                          then e.peers[env.header.from := e.peers[env.header.from].(authenticated := true)] else e.peers
  {
  }

  /** Authenticating one agreed peer keeps the records ok. */
  lemma AuthenticatedRecordsStayOk(w: World, x: World, session: string, id: string, acked: bool)
    requires Extends(w, x) && session in w.engines && EngineOk(w, session)
    requires x.engines[session].session == session
    requires acked ==> id in w.engines[session].peers && (id in w.honest ==> Agreed(w, session, id))
    requires x.engines[session].peers == if acked
             then w.engines[session].peers[id := w.engines[session].peers[id].(authenticated := true)]
                 else w.engines[session].peers
    ensures EngineOk(x, session)
  {
    SameRecordsStayOk(w, x, session);
  }

  lemma ReceivedRecordsStayOk(w: World, session: string, env: Envelope, nonce: string, contributory: bool, now: int)
    requires Inv(w) && Can(w, Act(session, Receive(env, nonce, contributory), now))
    ensures EngineOk(Next(w, Act(session, Receive(env, nonce, contributory), now)), session)
  {
    assert EngineOk(w, session);
    var x := Next(w, Act(session, Receive(env, nonce, contributory), now));
    var acked := Accepts(w.engines[session], env, now) && env.message.HelloAck?;
    if acked && env.header.from in w.honest {
      AckProvesAgreement(w, session, env, now);
    }
    ReceivedPeers(w.engines[session], env, nonce, contributory, now);
    AuthenticatedRecordsStayOk(w, x, session, env.header.from, acked);
  }

  lemma ReceivedIsGenuine(w: World, session: string, env: Envelope, nonce: string, contributory: bool, now: int)
    requires Inv(w) && Can(w, Act(session, Receive(env, nonce, contributory), now))
    requires Accepts(w.engines[session], env, now)
    ensures var x := Next(w, Act(session, Receive(env, nonce, contributory), now));
            |x.log| > |w.log| && x.log[|w.log|] == Took(session, env) && TookOk(x, |w.log|)
  {
    assert EngineOk(w, session);
    var x := Next(w, Act(session, Receive(env, nonce, contributory), now));
    if env.signer in w.honest {
      var k :| 0 <= k < |w.log| && w.log[k].Sealed? && w.log[k].env == env;
      assert x.log[k] == w.log[k];
    }
  }

  lemma ReceivedEvents(e: Engine, env: Envelope, nonce: string, contributory: bool, now: int)
    ensures var events := Events(e, Receive(env, nonce, contributory), now);
            if Accepts(e, env, now) then 1 <= |events| <= 2 && events[0] == Took(e.session, env)
                && (|events| == 2 ==> events[1].Sealed?)
            else events == []
  {
  }

  lemma ReceiveKeepsInv(w: World, session: string, env: Envelope, nonce: string, contributory: bool, now: int)
    requires Inv(w) && Can(w, Act(session, Receive(env, nonce, contributory), now))
    ensures Inv(Next(w, Act(session, Receive(env, nonce, contributory), now)))
  {
    var step := Receive(env, nonce, contributory);
    var x := Next(w, Act(session, step, now));
    var e := w.engines[session];
    assert x == w.(engines := w.engines[session := x.engines[session]], log := w.log + Events(e, step, now));
    assert EngineOk(w, session);
    ReceivedPeers(e, env, nonce, contributory, now);
    ReceivedEvents(e, env, nonce, contributory, now);
    ReceivedRecordsStayOk(w, session, env, nonce, contributory, now);
    if Accepts(e, env, now) {
      ReceivedIsGenuine(w, session, env, nonce, contributory, now);
      if |x.log| > |w.log| + 1 {
        AnswerIsOk(w, x, session, env, nonce, contributory, now);
      }
    }
    NewEventsKeepInv(w, x, session, x.engines[session], Events(e, step, now));
  }

  lemma NewEventsKeepInv(w: World, x: World, session: string, f: Engine, events: seq<Event>)
    requires Inv(w) && session in w.engines
    requires f.identity == w.engines[session].identity && f.session == session
    requires x == w.(engines := w.engines[session := f], log := w.log + events) && |events| <= 2
    requires |events| > 0 ==> x.log[|w.log|].Took? && TookOk(x, |w.log|)
    requires |events| > 1 ==> x.log[|w.log| + 1].Sealed? && SealedOk(x, |w.log| + 1)
    requires EngineOk(x, session)
    ensures Inv(x)
  {
    ActKeepsInv(w, x, session, f, events);
  }

  /** The answer follows the message it answers, back to the engine that sent it. */
  lemma AnswerIsOk(w: World, x: World, session: string, env: Envelope, nonce: string, contributory: bool, now: int)
    requires Inv(w) && session in w.engines && Accepts(w.engines[session], env, now)
    requires x == Next(w, Act(session, Receive(env, nonce, contributory), now)) && |x.log| > |w.log| + 1
    ensures |x.log| == |w.log| + 2 && x.log[|w.log| + 1].Sealed? && SealedOk(x, |w.log| + 1)
  {
    var n := |w.log|;
    assert EngineOk(w, session);
    var answer := x.log[n + 1].env;
    if answer.message.HelloAck? {
      assert IsHello(x, n, session, answer.message.challenge, answer.header.to, answer.header.toSession);
    }
  }

  lemma StepKeepsInv(w: World, a: Action)
    requires Inv(w) && Can(w, a)
    ensures Inv(Next(w, a))
  {
    match a
    case Start(session, identity, trusted) => StartKeepsInv(w, session, identity, trusted);
    case Hail(session, id, now, nonce, contributory) => HailKeepsInv(w, session, id, now, nonce, contributory);
    case Act(session, step, now) =>
      match step
      case Discover(p, nonce) => DiscoverKeepsInv(w, session, p, now, nonce);
      case Receive(env, nonce, contributory) => ReceiveKeepsInv(w, session, env, nonce, contributory, now);
      case _ => QuietStepKeepsInv(w, session, step, now);
  }

  // ---- runs ----

  ghost predicate IsRun(run: seq<World>, actions: seq<Action>) {
    && |run| == |actions| + 1 && run[0].engines == map[] && run[0].log == []
    && forall k :: 0 <= k < |actions| ==> Can(run[k], actions[k]) && run[k + 1] == Next(run[k], actions[k])
  }

  lemma {:induction false} EveryRunKeepsInv(run: seq<World>, actions: seq<Action>, k: nat)
    requires IsRun(run, actions) && k < |run|
    ensures Inv(run[k])
  {
    if k > 0 {
      EveryRunKeepsInv(run, actions, k - 1);
      StepKeepsInv(run[k - 1], actions[k - 1]);
    }
  }

  /** Whenever an engine has an honest peer authenticated, that peer's engine, in the session on record, took a
      hello with the engine's current challenge after that challenge was drawn, and answered it to the
      engine's current session. */
  lemma AuthenticatedMeansAgreed(run: seq<World>, actions: seq<Action>, k: nat, session: string, id: string, now: int)
    requires IsRun(run, actions) && k < |run|
    requires session in run[k].engines && Authenticated(run[k].engines[session], id, now) && id in run[k].honest
    ensures Agreed(run[k], session, id)
  {
    EveryRunKeepsInv(run, actions, k);
    assert EngineOk(run[k], session);
  }

  /** And when the engine's own device is honest, one of its engines sealed the very hello that was taken. */
  lemma HelloWasGenuine(run: seq<World>, actions: seq<Action>, k: nat, j: nat)
    requires IsRun(run, actions) && k < |run| && j < |run[k].log| && run[k].log[j].Took?
    requires run[k].log[j].env.signer in run[k].honest
    ensures exists i :: 0 <= i < j && run[k].log[i].Sealed? && run[k].log[i].env == run[k].log[j].env
              && run[k].log[i].session == run[k].log[j].env.header.fromSession
  {
    EveryRunKeepsInv(run, actions, k);
    assert TookOk(run[k], j);
    var i :| 0 <= i < j && run[k].log[i].Sealed? && run[k].log[i].env == run[k].log[j].env;
    assert SealedOk(run[k], i);
  }
}
