// Two peers that trust each other get through: the handshake completes, and a ping is answered.

module PeerDialogue {
  import opened Options
  import opened PeerCrypto
  import opened PeerProtocol

  /** The presence that an engine shows to others. */
  predicate Shows(e: Engine, p: Presence, now: int) {
    p.device == e.identity && p.session == e.session && PresenceOk(p, now)
  }

  /** A message id that the engine does not remember, with room for it in the replay window. */
  predicate Room(e: Engine, id: string, now: int) {
    ValidId(id) && (id !in e.seen || e.seen[id] <= now) && |LiveSeen(e.seen, now)| < MAX_SEEN
  }

  /** The engine can take the other up as a new peer. */
  predicate CanMeet(e: Engine, p: Presence) {
    p.device != e.identity && p.device in e.trusted && p.device !in e.peers && |e.peers| < MAX_PEERS
  }

  /** The peer as the engine has it on record. */
  predicate OnRecord(e: Engine, p: Presence, challenge: string) {
    p.device in e.peers && e.peers[p.device].presence == Some(p) && e.peers[p.device].challenge == challenge
  }

  lemma Meets(e: Engine, p: Presence, now: int, challenge: string)
    requires CanMeet(e, p) && PresenceOk(p, now)
    ensures var d := Discovered(e, p, now, challenge);
            d.Done? && d.value && OnRecord(d.engine, p, challenge)
            && d.engine == e.(peers := e.peers[p.device := Peer(Some(p), challenge, false)])
  {
  }

  lemma GreetingOf(e: Engine, p: Presence, challenge: string, now: int, nonce: string)
    requires OnRecord(e, p, challenge) && PresenceOk(p, now)
    ensures var hello := HelloTo(e, p.device, now, nonce, true);
            hello == Some(Envelope(Header(1, nonce, e.identity, p.device, e.session, p.session, now, now + 120),
                                   Hello(challenge), e.identity))
  {
  }

  /** A sealed envelope between engines that have each other on record opens, as long as it is in time. */
  lemma Arrives(to: Engine, from: Presence, env: Envelope, sent: int, now: int, challenge: string)
    requires OnRecord(to, from, challenge) && PresenceOk(from, now) && ValidId(env.header.id)
    requires env.header ==
      Header(1, env.header.id, from.device, to.identity, from.session, to.session, sent, sent + 120)
    requires env.signer == from.device && sent <= now < sent + 120
    ensures Opens(to, env, now)
  {
  }

  /** The hello of a peer on record is accepted and answered with its challenge. */
  lemma HelloIsAnswered(e: Engine, p: Presence, mine: string, theirs: string, m: string, sent: int, now: int, n: string)
    requires OnRecord(e, p, mine) && PresenceOk(p, now) && ValidId(theirs) && Room(e, m, now)
    requires sent <= now < sent + 120
    ensures var env := Envelope(Header(1, m, p.device, e.identity, p.session, e.session, sent, sent + 120),
                                Hello(theirs), p.device);
            var r := Received(e, env, now, n, true);
            r.Done? && r.engine.peers == e.peers && r.engine.identity == e.identity && r.engine.session == e.session
            && r.value == Some(Envelope(Header(1, n, e.identity, p.device, e.session, p.session, now, now + 120),
                                        HelloAck(theirs), e.identity))
  {
    var env := Envelope(Header(1, m, p.device, e.identity, p.session, e.session, sent, sent + 120),
                        Hello(theirs), p.device);
    Arrives(e, p, env, sent, now, mine);
  }

  /** The answer with the challenge on record authenticates the peer. */
  lemma AnswerAuthenticates(e: Engine, p: Presence, mine: string, m: string, sent: int, now: int, n: string)
    requires OnRecord(e, p, mine) && mine != "" && PresenceOk(p, now) && Room(e, m, now) && sent <= now < sent + 120
    ensures var env := Envelope(Header(1, m, p.device, e.identity, p.session, e.session, sent, sent + 120),
                                HelloAck(mine), p.device);
            var r := Received(e, env, now, n, true);
            r.Done? && r.value == None && Authenticated(r.engine, p.device, now)
  {
    var env := Envelope(Header(1, m, p.device, e.identity, p.session, e.session, sent, sent + 120),
                        HelloAck(mine), p.device);
    Arrives(e, p, env, sent, now, mine);
  }

  /** Engines a and b that trust each other and see each other's presence at time t: b accepts the hello of a and
      answers it, and the answer authenticates b to a, when both arrive in time. */
  lemma HandshakeCompletes(a: Engine, b: Engine, pa: Presence, pb: Presence, t: int, u: int, v: int,
                           ca: string, cb: string, hello: string, answer: string, unused: string)
    requires a.identity == pa.device && a.session == pa.session && b.identity == pb.device && b.session == pb.session
    requires PresenceOk(pa, t) && PresenceOk(pb, t) && t <= u < t + 120 && u <= v < u + 120
    requires PresenceOk(pa, u) && PresenceOk(pb, v)
    requires CanMeet(a, pb) && CanMeet(b, pa) && ValidId(ca) && ValidId(cb)
    requires Room(b, hello, u) && Room(a, answer, v)
    ensures var a1, b1 := Discovered(a, pb, t, ca).engine, Discovered(b, pa, t, cb).engine;
            var greeting := HelloTo(a1, b.identity, t, hello, true);
            greeting.Some?
            && var taken := Received(b1, greeting.value, u, answer, true);
               taken.Done? && taken.value.Some?
               && var done := Received(a1, taken.value.value, v, unused, true);
                  done.Done? && Authenticated(done.engine, b.identity, v)
  {
    Meets(a, pb, t, ca);
    Meets(b, pa, t, cb);
    var a1, b1 := Discovered(a, pb, t, ca).engine, Discovered(b, pa, t, cb).engine;
    GreetingOf(a1, pb, ca, t, hello);
    HelloIsAnswered(b1, pa, cb, ca, hello, t, u, answer);
    AnswerAuthenticates(a1, pb, ca, answer, u, v, unused);
  }

  /** A ping between authenticated peers is answered, and its pong is accepted once and uses it up. */
  lemma PingIsAnswered(a: Engine, b: Engine, pa: Presence, pb: Presence, t: int, u: int, v: int,
                       n: string, ping: string, pong: string, unused: string)
    requires a.identity == pa.device && a.session == pa.session && b.identity == pb.device && b.session == pb.session
    requires pb.device in a.peers && a.peers[pb.device].authenticated && a.peers[pb.device].presence == Some(pb)
    requires pa.device in b.peers && b.peers[pa.device].authenticated && b.peers[pa.device].presence == Some(pa)
    requires PresenceOk(pb, t) && PresenceOk(pa, u) && PresenceOk(pb, v) && t <= u <= v < t + 120
    requires ValidId(n) && |LivePings(a.pings, t)| < MAX_PINGS && Room(b, ping, u) && Room(a, pong, v)
    ensures var sent := SentTo(a, b.identity, Ping(n), t, ping, true);
            sent.Done? && n in sent.engine.pings
            && var taken := Received(b, sent.value, u, pong, true);
               taken.Done? && taken.value.Some? && taken.value.value.message == Pong(n)
               && var done := Received(sent.engine, taken.value.value, v, unused, true);
                  done.Done? && n !in done.engine.pings
  {
    var sent := SentTo(a, b.identity, Ping(n), t, ping, true);
    Arrives(b, pa, sent.value, t, u, b.peers[pa.device].challenge);
    AcceptsExactly(b, sent.value, u);
    var taken := Received(b, sent.value, u, pong, true);
    Arrives(sent.engine, pb, taken.value.value, u, v, a.peers[pb.device].challenge);
    AcceptsExactly(sent.engine, taken.value.value, v);
  }
}
