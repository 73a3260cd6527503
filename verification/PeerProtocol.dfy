// The peer control protocol: discovery, handshake and signed control messages over an untrusted mailbox.

/** Sealed envelopes with ideal cryptography: a signature verifies exactly for its signer. */
module PeerCrypto {
  import opened Options

  /** 64 lower-case hexadecimal digits. */
  predicate ValidId(s: string) {
    |s| == 64 && forall i :: 0 <= i < |s| ==> '0' <= s[i] <= '9' || 'a' <= s[i] <= 'f'
  }

  datatype Message =
    | Hello(challenge: string)
    | HelloAck(challenge: string)
    | Ping(nonce: string)
    | Pong(nonce: string)
    | StatusRequest
    | Status(version: string, platform: string, selectedRoots: nat)
    | UpdateAvailable(validTag: bool)

  /** `signer` is the device whose key made the signature, `wellFormed` the test of version and platform. */
  datatype Presence = Presence(
    protocol: nat, device: string, encryption: string, session: string,
    issued: int, expires: int, wellFormed: bool, signer: string)

  predicate PresenceOk(p: Presence, now: int) {
    && p.protocol == 1 && ValidId(p.device) && ValidId(p.session)
    && p.issued <= now + 30 && p.expires > now && p.expires <= now + 210 && p.expires - p.issued == 180
    && p.wellFormed && p.signer == p.device
  }

  datatype Header = Header(
    protocol: nat, id: string, from: string, to: string, fromSession: string, toSession: string, issued: int,
        expires: int)

  datatype Envelope = Envelope(header: Header, message: Message, signer: string)

  /** `nonce` is the drawn message id; `contributory` whether the recipient's key is usable. */
  function Seal(identity: string, session: string, peer: Presence, message: Message, now: int, nonce: string,
                contributory: bool): Option<Envelope> {
    if !PresenceOk(peer, now) || !contributory then None
    else Some(Envelope(Header(1, nonce, identity, peer.device, session, peer.session, now, now + 120), message,
        identity))
  }

  function Open(identity: string, session: string, peer: Presence, env: Envelope, now: int): Option<Message> {
    var h := env.header;
    if h.protocol == 1 && ValidId(h.id)
       && h.to == identity && h.from == peer.device && h.toSession == session && h.fromSession == peer.session
       && h.issued <= now + 30 && h.expires > now && h.expires <= now + 150 && h.expires - h.issued == 120
       && env.signer == peer.device
    then Some(env.message)
    else None
  }

  /** A presence counts in the 180 seconds after it was issued, and up to 30 before. */
  lemma PresenceWindow(p: Presence, now: int)
    ensures PresenceOk(p, now)
            <==> p.protocol == 1 && ValidId(p.device) && ValidId(p.session) && p.wellFormed && p.signer == p.device
                 && p.expires == p.issued + 180 && p.issued - 30 <= now < p.issued + 180
  {
  }

  /** An envelope opens exactly for its recipient, from its signer, in both sessions, and in the 120 seconds after it
      was issued or up to 30 before. */
  lemma OpensExactly(identity: string, session: string, peer: Presence, env: Envelope, now: int)
    ensures var h := env.header;
            Open(identity, session, peer, env, now) ==
              if h.protocol == 1 && ValidId(h.id) && h.to == identity && h.toSession == session
                 && h.from == peer.device && h.fromSession == peer.session && env.signer == peer.device
                 && h.expires == h.issued + 120 && h.issued - 30 <= now < h.issued + 120
              then Some(env.message) else None
  {
  }

  /** What one engine seals, the engine it is meant for opens, in the same sessions and until it expires. */
  lemma SealedOpens(identity: string, session: string, peer: Presence, self: Presence, message: Message, now: int,
                    later: int, nonce: string)
    requires PresenceOk(peer, now) && ValidId(nonce)
    requires self.device == identity && self.session == session
    ensures var env := Seal(identity, session, peer, message, now, nonce, true);
            env.Some? && (Open(peer.device, peer.session, self, env.value, later) == Some(message)
                <==> now - 30 <= later < now + 120)
  {
  }
}

module PeerProtocol {
  import opened Options
  import opened PeerCrypto

  const MAX_PEERS := 64
  const MAX_SEEN := 2048
  const MAX_PINGS := 256

  datatype Peer = Peer(presence: Option<Presence>, challenge: string, authenticated: bool)

  datatype Engine = Engine(
    identity: string,
    session: string,
    trusted: set<string>,
    peers: map<string, Peer>,
    seen: map<string, int>,
    pings: map<string, (string, int)>,
    selectedRoots: nat)

  function Fresh(identity: string, session: string, trusted: set<string>): Engine {
    Engine(identity, session, trusted, map[], map[], map[], 0)
  }

  // ---- the operations on values ----

  function Trusting(e: Engine, trusted: set<string>): Engine {
    e.(trusted := trusted, peers := map id | id in e.peers && id in trusted :: e.peers[id])
  }

  datatype Outcome<T> = Refused(engine: Engine) | Done(engine: Engine, value: T)

  /** A new session or key starts the handshake over. */
  predicate Resets(peer: Peer, p: Presence) {
    peer.presence.None? || peer.presence.value.session != p.session || peer.presence.value.encryption != p.encryption
  }

  function Discovered(e: Engine, p: Presence, now: int, nonce: string): Outcome<bool> {
    if !PresenceOk(p, now) || p.device == e.identity then Refused(e)
    else if p.device !in e.trusted then Done(e, false)
    else if |e.peers| >= MAX_PEERS && p.device !in e.peers then Refused(e)
    else
      var peer := if p.device in e.peers then e.peers[p.device] else Peer(None, "", false);
      var next := if Resets(peer, p) then Peer(Some(p), nonce, false) else peer.(presence := Some(p));
      Done(e.(peers := e.peers[p.device := next]), true)
  }

  predicate Authenticated(e: Engine, id: string, now: int) {
    && id in e.peers && e.peers[id].authenticated
    && e.peers[id].presence.Some? && PresenceOk(e.peers[id].presence.value, now)
  }

  function Wrap(e: Engine, id: string, message: Message, now: int, nonce: string,
                contributory: bool): Option<Envelope> {
    if id in e.peers && e.peers[id].presence.Some?
    then Seal(e.identity, e.session, e.peers[id].presence.value, message, now, nonce, contributory)
    else None
  }

  function HelloTo(e: Engine, id: string, now: int, nonce: string, contributory: bool): Option<Envelope> {
    if id in e.peers then Wrap(e, id, Hello(e.peers[id].challenge), now, nonce, contributory) else None
  }

  function LivePings(pings: map<string, (string, int)>, now: int): map<string, (string, int)> {
    map n | n in pings && pings[n].1 > now :: pings[n]
  }

  function LiveSeen(seen: map<string, int>, now: int): map<string, int> {
    map i | i in seen && seen[i] > now :: seen[i]
  }

  /** A ping is registered before it is sealed; purged pings stay purged when the send is refused. */
  function SentTo(e: Engine, id: string, message: Message, now: int, nonce: string,
                  contributory: bool): Outcome<Envelope> {
    if !Authenticated(e, id, now) || message.Hello? || message.HelloAck? then Refused(e)
    else
      var e := if message.Ping? then e.(pings := LivePings(e.pings, now)) else e;
      if message.Ping? && (!ValidId(message.nonce) || |e.pings| >= MAX_PINGS) then Refused(e)
      else
        var e := if message.Ping? then e.(pings := e.pings[message.nonce := (id, now + 120)]) else e;
        match Wrap(e, id, message, now, nonce, contributory)
        case None => Refused(e)
        case Some(env) => Done(e, env)
  }

  /** The sender is known and alive, and the envelope is its own, for this session and in time. */
  predicate Opens(e: Engine, env: Envelope, now: int) {
    var id := env.header.from;
    && id in e.peers && e.peers[id].presence.Some?
    && PresenceOk(e.peers[id].presence.value, now)
    && Open(e.identity, e.session, e.peers[id].presence.value, env, now).Some?
  }

  /** The message is acceptable in the engine's current state. */
  predicate Admissible(e: Engine, env: Envelope, now: int)
    requires env.header.from in e.peers
  {
    var id := env.header.from;
    match env.message
    case Hello(challenge) => ValidId(challenge)
    case HelloAck(challenge) => e.peers[id].challenge != "" && challenge == e.peers[id].challenge
    case _ =>
      Authenticated(e, id, now) &&
      (match env.message
       case Ping(n) => ValidId(n)
       case Pong(n) => n in e.pings && e.pings[n].0 == id && e.pings[n].1 > now
       case Status(version, platform, roots) => |version| <= 40 && |platform| <= 40 && roots <= 1024
       case UpdateAvailable(valid) => valid
       case _ => true)
  }

  predicate Accepts(e: Engine, env: Envelope, now: int) {
    && Opens(e, env, now)
    && var seen := LiveSeen(e.seen, now);
       env.header.id !in seen && |seen| < MAX_SEEN && Admissible(e, env, now)
  }

  function Response(e: Engine, message: Message): Option<Message> {
    match message
    case Hello(challenge) => Some(HelloAck(challenge))
    case Ping(n) => Some(Pong(n))
    case StatusRequest => Some(Status("0.1.1", "linux-x86_64", e.selectedRoots))
    case _ => None
  }

  /** The engine after accepting; only the handshake and the ping table depend on the message. */
  function Accepted(e: Engine, env: Envelope, now: int): Engine
    requires Accepts(e, env, now)
  {
    var id := env.header.from;
    e.(seen := LiveSeen(e.seen, now)[env.header.id := env.header.expires],
       peers := if env.message.HelloAck? then e.peers[id := e.peers[id].(authenticated := true)] else e.peers,
       pings := if env.message.Pong? then e.pings - {env.message.nonce} else e.pings)
  }

  /** A refusal after the envelope opened has purged the replay window; an answer that cannot be sealed is
      an error too, but by then the envelope has been accepted. */
  function Received(e: Engine, env: Envelope, now: int, nonce: string, contributory: bool): Outcome<Option<Envelope>> {
    if !Opens(e, env, now) then Refused(e)
    else if !Accepts(e, env, now) then Refused(e.(seen := LiveSeen(e.seen, now)))
    else
      var next := Accepted(e, env, now);
      match Response(e, env.message)
      case None => Done(next, None)
      case Some(m) =>
        match Wrap(next, env.header.from, m, now, nonce, contributory)
        case None => Refused(next)
        case Some(answer) => Done(next, Some(answer))
  }

  // ---- what is accepted, and how it is answered ----

  /** The peer has passed the handshake and is present. */
  predicate Known(e: Engine, id: string, now: int) {
    && id in e.peers && e.peers[id].authenticated
    && e.peers[id].presence.Some? && PresenceOk(e.peers[id].presence.value, now)
  }

  /** The sender is on record and present, the envelope is its own for this session, in time and not replayed, there is
      room in the replay window, and the message is one the sender may send now. */
  ghost predicate Welcome(e: Engine, env: Envelope, now: int) {
    var id := env.header.from;
    && id in e.peers && e.peers[id].presence.Some? && PresenceOk(e.peers[id].presence.value, now)
    && Open(e.identity, e.session, e.peers[id].presence.value, env, now) == Some(env.message)
    && (env.header.id in e.seen ==> e.seen[env.header.id] <= now)
    && |map i | i in e.seen && e.seen[i] > now :: e.seen[i]| < 2048
    && match env.message
       case Hello(challenge) => ValidId(challenge)
       case HelloAck(challenge) => challenge != "" && challenge == e.peers[id].challenge
       case Ping(n) => Known(e, id, now) && ValidId(n)
       case Pong(n) => Known(e, id, now) && n in e.pings && e.pings[n].0 == id && e.pings[n].1 > now
       case StatusRequest => Known(e, id, now)
       case Status(version, platform, roots) =>
         Known(e, id, now) && |version| <= 40 && |platform| <= 40 && roots <= 1024
       case UpdateAvailable(valid) => Known(e, id, now) && valid
  }

  /** A ping is answered with its own nonce, a hello with its own challenge and a status request with the status, from
      this session to the sender's; anything else is not answered. */
  predicate Answers(e: Engine, env: Envelope, response: Option<Envelope>, now: int) {
    match env.message
    case Hello(challenge) => response.Some? && Replies(e, env, response.value, HelloAck(challenge), now)
    case Ping(n) => response.Some? && Replies(e, env, response.value, Pong(n), now)
    case StatusRequest =>
      response.Some? && Replies(e, env, response.value, Status("0.1.1", "linux-x86_64", e.selectedRoots), now)
    case _ => response == None
  }

  predicate Replies(e: Engine, env: Envelope, reply: Envelope, message: Message, now: int) {
    && reply.message == message && reply.signer == e.identity
    && reply.header.from == e.identity && reply.header.fromSession == e.session
    && reply.header.to == env.header.from && reply.header.toSession == env.header.fromSession
    && reply.header.issued == now && reply.header.expires == now + 120
  }

  /** The envelope is remembered until it expires, a handshake answer authenticates its sender, and a pong uses its
      ping up; nothing else changes. */
  ghost predicate Takes(e: Engine, next: Engine, env: Envelope, now: int) {
    var id := env.header.from;
    && env.header.id in next.seen && next.seen[env.header.id] == env.header.expires
    && (forall i :: i != env.header.id ==> (i in next.seen <==> i in e.seen && e.seen[i] > now))
    && (forall i :: i in next.seen && i != env.header.id ==> next.seen[i] == e.seen[i])
    && next.peers.Keys == e.peers.Keys
    && (forall i :: i in e.peers ==>
          next.peers[i] == if i == id && env.message.HelloAck? then e.peers[i].(authenticated := true) else e.peers[i])
    && (forall n :: n in next.pings <==> n in e.pings && env.message != Pong(n))
    && (forall n :: n in next.pings ==> next.pings[n] == e.pings[n])
    && next == e.(seen := next.seen, peers := next.peers, pings := next.pings)
  }

  lemma AcceptsExactly(e: Engine, env: Envelope, now: int)
    ensures Accepts(e, env, now) <==> Welcome(e, env, now)
  {
    assert LiveSeen(e.seen, now) == map i | i in e.seen && e.seen[i] > now :: e.seen[i];
  }

  lemma AcceptedTakes(e: Engine, env: Envelope, now: int)
    requires Accepts(e, env, now)
    ensures Takes(e, Accepted(e, env, now), env, now)
  {
  }

  lemma AnsweredExactly(e: Engine, env: Envelope, now: int, nonce: string, contributory: bool)
    requires Accepts(e, env, now)
    ensures match Received(e, env, now, nonce, contributory)
            case Refused(next) =>
              next == Accepted(e, env, now) && !contributory
              && (env.message.Hello? || env.message.Ping? || env.message.StatusRequest?)
            case Done(next, response) =>
              next == Accepted(e, env, now) && Answers(e, env, response, now)
              && (contributory || !(env.message.Hello? || env.message.Ping? || env.message.StatusRequest?))
  {
  }

  // ---- the engine object ----

  class ControlEngine {
    const identity: string
    const session: string
    var trusted: set<string>
    var peers: map<string, Peer>
    var seen: map<string, int>
    var pings: map<string, (string, int)>
    var selectedRoots: nat

    constructor (identity: string, session: string, trusted: set<string>)
      ensures View() == Fresh(identity, session, trusted)
    {
      this.identity, this.session, this.trusted := identity, session, trusted;
      peers, seen, pings, selectedRoots := map[], map[], map[], 0;
    }

    function View(): Engine
      reads this
    {
      Engine(identity, session, trusted, peers, seen, pings, selectedRoots)
    }

    method Trust(trusted: set<string>)
      modifies this
      ensures View() == Trusting(old(View()), trusted)
    {
      peers := map id | id in peers && id in trusted :: peers[id];
      this.trusted := trusted;
    }

    method Discover(p: Presence, now: int, nonce: string) returns (ok: bool, known: bool)
      modifies this
      ensures match Discovered(old(View()), p, now, nonce)
              case Refused(e) => !ok && View() == e
              case Done(e, value) => ok && known == value && View() == e
      ensures ok <==> PresenceOk(p, now) && p.device != identity
                      && (p.device !in old(trusted) || p.device in old(peers) || |old(peers)| < 64)
      ensures ok && known <==> ok && p.device in old(trusted)
      ensures View() == old(View()).(peers := peers) && (!(ok && known) ==> peers == old(peers))
      ensures ok && known ==>
        && p.device in peers && peers == old(peers)[p.device := peers[p.device]]
        && peers[p.device].presence == Some(p)
        && var renewed := p.device !in old(peers) || old(peers)[p.device].presence.None?
             || old(peers)[p.device].presence.value.session != p.session
             || old(peers)[p.device].presence.value.encryption != p.encryption;
           && peers[p.device].challenge == (if renewed then nonce else old(peers)[p.device].challenge)
           && peers[p.device].authenticated == (!renewed && old(peers)[p.device].authenticated)
    {
      if !PresenceOk(p, now) || p.device == identity {
        return false, false;
      }
      if p.device !in trusted {
        return true, false;
      }
      if !(|peers| < MAX_PEERS || p.device in peers) {
        return false, false;
      }
      var peer := if p.device in peers then peers[p.device] else Peer(None, "", false);
      if Resets(peer, p) {
        peer := peer.(authenticated := false, challenge := nonce);
      }
      peer := peer.(presence := Some(p));
      peers := peers[p.device := peer];
      return true, true;
    }

    /** A hello exists exactly for a peer on record that is present and has a usable key. It carries the peer's
        current challenge, from this session to the peer's, signed by this device. */
    method Greet(id: string, now: int, nonce: string, contributory: bool) returns (env: Option<Envelope>)
      ensures env == HelloTo(View(), id, now, nonce, contributory)
      ensures env.Some?
              <==> id in peers && peers[id].presence.Some? && PresenceOk(peers[id].presence.value, now) && contributory
      ensures env.Some? ==>
        && env.value.message == Hello(peers[id].challenge) && env.value.signer == identity
        && env.value.header.from == identity && env.value.header.fromSession == session
        && env.value.header.to == peers[id].presence.value.device
        && env.value.header.toSession == peers[id].presence.value.session
        && env.value.header.issued == now && env.value.header.expires == now + 120
    {
      if id !in peers {
        return None;
      }
      env := Wrap(View(), id, Hello(peers[id].challenge), now, nonce, contributory);
    }

    method Send(id: string, message: Message, now: int, nonce: string, contributory: bool)
      returns (env: Option<Envelope>)
      modifies this`pings
      ensures match SentTo(old(View()), id, message, now, nonce, contributory)
              case Refused(e) => env == None && View() == e
              case Done(e, value) => env == Some(value) && View() == e
      ensures env.Some? <==>
        && Known(old(View()), id, now) && !message.Hello? && !message.HelloAck? && contributory
        && (message.Ping? ==> ValidId(message.nonce) && |LivePings(old(pings), now)| < 256)
      ensures env.Some? ==>
        && env.value.message == message && env.value.signer == identity
        && env.value.header.from == identity && env.value.header.fromSession == session
        && env.value.header.to == peers[id].presence.value.device
        && env.value.header.toSession == peers[id].presence.value.session
        && env.value.header.id == nonce && env.value.header.issued == now && env.value.header.expires == now + 120
      ensures env.Some? && message.Ping? ==> message.nonce in pings && pings[message.nonce] == (id, now + 120)
      ensures forall n :: n in pings && message != Ping(n) ==> n in old(pings) && pings[n] == old(pings)[n]
      ensures forall n :: n in old(pings) && message != Ping(n) ==>
        (!message.Ping? || old(pings)[n].1 > now ==> n in pings)
    {
      if !Authenticated(View(), id, now) {
        return None;
      }
      if message.Hello? || message.HelloAck? {
        return None;
      }
      if message.Ping? {
        pings := LivePings(pings, now);
        if !(ValidId(message.nonce) && |pings| < MAX_PINGS) {
          return None;
        }
        pings := pings[message.nonce := (id, now + 120)];
      }
      env := Wrap(View(), id, message, now, nonce, contributory);
    }

    method Receive(env: Envelope, now: int, nonce: string, contributory: bool)
      returns (ok: bool, response: Option<Envelope>)
      modifies this
      ensures ok <==> Welcome(old(View()), env, now)
                      && (contributory || !(env.message.Hello? || env.message.Ping? || env.message.StatusRequest?))
      ensures ok ==> Answers(old(View()), env, response, now)
      ensures Welcome(old(View()), env, now) ==> Takes(old(View()), View(), env, now)
      ensures !Welcome(old(View()), env, now) ==>
        && !ok && View() == old(View()).(seen := seen)
        && (seen == old(seen) || seen == LiveSeen(old(seen), now))
      ensures match Received(old(View()), env, now, nonce, contributory)
              case Refused(e) => !ok && View() == e
              case Done(e, value) => ok && response == value && View() == e
    {
      AcceptsExactly(View(), env, now);
      if Accepts(View(), env, now) {
        AcceptedTakes(View(), env, now);
        AnsweredExactly(View(), env, now, nonce, contributory);
      }
      var id := env.header.from;
      if id !in peers || peers[id].presence.None? {
        return false, None;
      }
      var presence := peers[id].presence.value;
      if !PresenceOk(presence, now) || Open(identity, session, presence, env, now).None? {
        return false, None;
      }
      seen := LiveSeen(seen, now);
      if env.header.id in seen || |seen| >= MAX_SEEN || !Admissible(View(), env, now) {
        return false, None;
      }
      var answer := Response(View(), env.message);
      match env.message {
        case HelloAck(_) => peers := peers[id := peers[id].(authenticated := true)];
        case Pong(n) => pings := pings - {n};
        case _ =>
      }
      seen := seen[env.header.id := env.header.expires];
      response := if answer.None? then None else Wrap(View(), id, answer.value, now, nonce, contributory);
      return answer.None? || response.Some?, response;
    }
  }

  // ---- bounded tables ----

  predicate Bounded(e: Engine) {
    |e.peers| <= MAX_PEERS && |e.seen| <= MAX_SEEN && |e.pings| <= MAX_PINGS
  }

  lemma Fewer<V>(some: map<string, V>, all: map<string, V>)
    requires some.Keys <= all.Keys
    ensures |some| <= |all|
  {
    assert |some| == |some.Keys| && |all| == |all.Keys|;
    assert all.Keys == some.Keys + (all.Keys - some.Keys);
  }

  lemma OneMore<V>(all: map<string, V>, key: string, value: V)
    ensures |all[key := value]| <= |all| + 1 && (key in all ==> |all[key := value]| == |all|)
  {
    assert |all[key := value]| == |all[key := value].Keys| && |all| == |all.Keys|;
    assert all[key := value].Keys == all.Keys + {key};
  }

  // ---- runs of one engine ----

  datatype Step =
    | Trust(trusted: set<string>)
    | Discover(p: Presence, nonce: string)
    | Greet(id: string)
    | Send(id: string, message: Message, nonce: string, contributory: bool)
    | Receive(env: Envelope, nonce: string, contributory: bool)

  function Next(e: Engine, step: Step, now: int): Engine {
    match step
    case Trust(trusted) => Trusting(e, trusted)
    case Discover(p, nonce) => Discovered(e, p, now, nonce).engine
    case Greet(_) => e
    case Send(id, message, nonce, contributory) => SentTo(e, id, message, now, nonce, contributory).engine
    case Receive(env, nonce, contributory) => Received(e, env, now, nonce, contributory).engine
  }

  lemma StepKeepsBounds(e: Engine, step: Step, now: int)
    requires Bounded(e)
    ensures Bounded(Next(e, step, now))
  {
    Fewer(LivePings(e.pings, now), e.pings);
    Fewer(LiveSeen(e.seen, now), e.seen);
    match step
    case Trust(trusted) => Fewer(Trusting(e, trusted).peers, e.peers);
    case Discover(p, nonce) => DiscoverKeepsBounds(e, p, now, nonce);
    case Greet(_) =>
    case Send(id, message, nonce, contributory) =>
      if message.Ping? { OneMore(LivePings(e.pings, now), message.nonce, (id, now + 120)); }
    case Receive(env, nonce, contributory) => ReceiveKeepsBounds(e, env, now, nonce, contributory);
  }

  lemma DiscoverKeepsBounds(e: Engine, p: Presence, now: int, nonce: string)
    requires Bounded(e)
    ensures Bounded(Discovered(e, p, now, nonce).engine)
  {
    var next := Discovered(e, p, now, nonce).engine;
    if p.device in next.peers {
      OneMore(e.peers, p.device, next.peers[p.device]);
    }
  }

  lemma ReceiveKeepsBounds(e: Engine, env: Envelope, now: int, nonce: string, contributory: bool)
    requires Bounded(e)
    ensures Bounded(Received(e, env, now, nonce, contributory).engine)
  {
    var seen := LiveSeen(e.seen, now);
    Fewer(seen, e.seen);
    OneMore(seen, env.header.id, env.header.expires);
    if Accepts(e, env, now) {
      if env.message.Pong? { Fewer(e.pings - {env.message.nonce}, e.pings); }
      if env.message.HelloAck? {
        OneMore(e.peers, env.header.from, e.peers[env.header.from].(authenticated := true));
      }
    }
  }

  /** Steps of one engine under a clock that never goes back. */
  ghost predicate IsRun(run: seq<Engine>, steps: seq<Step>, clock: seq<int>) {
    && |run| == |steps| + 1 && |clock| == |steps|
    && (forall k :: 0 <= k < |steps| ==> run[k + 1] == Next(run[k], steps[k], clock[k]))
    && (forall i, j :: 0 <= i <= j < |clock| ==> clock[i] <= clock[j])
  }

  lemma {:induction false} TablesStayBounded(run: seq<Engine>, steps: seq<Step>, clock: seq<int>, k: nat)
    requires IsRun(run, steps, clock) && k < |run| && Bounded(run[0])
    ensures Bounded(run[k])
  {
    if k > 0 {
      TablesStayBounded(run, steps, clock, k - 1);
      StepKeepsBounds(run[k - 1], steps[k - 1], clock[k - 1]);
    }
  }

  // ---- at most once ----

  predicate AcceptsAt(run: seq<Engine>, steps: seq<Step>, clock: seq<int>, k: nat)
    requires k < |steps| <= |run| && |steps| <= |clock|
  {
    steps[k].Receive? && Accepts(run[k], steps[k].env, clock[k])
  }

  /** Until it expires, the envelope stands in the replay window. */
  predicate Remembered(e: Engine, h: Header, now: int) {
    h.expires <= now || (h.id in e.seen && e.seen[h.id] == h.expires)
  }

  lemma StepRemembers(e: Engine, step: Step, before: int, now: int, h: Header)
    requires Remembered(e, h, before) && before <= now
    ensures Remembered(Next(e, step, now), h, now)
  {
    match step
    case Receive(env, nonce, contributory) =>
      if h.expires > now {
        assert h.id in LiveSeen(e.seen, now);
      }
    case _ =>
  }

  lemma {:induction false} AcceptedIsRemembered(run: seq<Engine>, steps: seq<Step>, clock: seq<int>, i: nat, j: nat)
    requires IsRun(run, steps, clock) && i < j <= |steps| && AcceptsAt(run, steps, clock, i)
    ensures Remembered(run[j], steps[i].env.header, clock[j - 1])
    decreases j
  {
    if i + 1 < j {
      AcceptedIsRemembered(run, steps, clock, i, j - 1);
      StepRemembers(run[j - 1], steps[j - 1], clock[j - 2], clock[j - 1], steps[i].env.header);
    }
  }

  /** Any one envelope is accepted at most once over a whole run, though the replay window is purged. */
  lemma DeliveredAtMostOnce(run: seq<Engine>, steps: seq<Step>, clock: seq<int>, i: nat, j: nat)
    requires IsRun(run, steps, clock) && i < j < |steps|
    requires AcceptsAt(run, steps, clock, i) && AcceptsAt(run, steps, clock, j)
    ensures steps[j].env != steps[i].env
  {
    AcceptedIsRemembered(run, steps, clock, i, j);
    var h := steps[i].env.header;
    assert clock[j - 1] <= clock[j];
    assert h.expires > clock[j] ==> h.id in LiveSeen(run[j].seen, clock[j]);
  }

  // ---- pings and pongs ----

  /** The send registered a ping with this nonce, whether or not it could then be sealed. */
  predicate Registers(e: Engine, step: Step, now: int, n: string) {
    && step.Send? && step.message == Ping(n)
    && Authenticated(e, step.id, now) && ValidId(n) && |LivePings(e.pings, now)| < MAX_PINGS
  }

  predicate TakesPong(e: Engine, step: Step, now: int, n: string) {
    step.Receive? && step.env.message == Pong(n) && Accepts(e, step.env, now)
  }

  function PingsSent(run: seq<Engine>, steps: seq<Step>, clock: seq<int>, k: nat, n: string): nat
    requires k <= |steps| <= |run| && |steps| <= |clock|
  {
    if k == 0 then 0
    else PingsSent(run, steps, clock, k - 1, n) + if Registers(run[k - 1], steps[k - 1], clock[k - 1], n) then 1 else 0
  }

  function PongsTaken(run: seq<Engine>, steps: seq<Step>, clock: seq<int>, k: nat, n: string): nat
    requires k <= |steps| <= |run| && |steps| <= |clock|
  {
    if k == 0 then 0
    else PongsTaken(run, steps, clock, k - 1, n) + if TakesPong(run[k - 1], steps[k - 1], clock[k - 1], n) then 1 else 0
  }

  function Outstanding(e: Engine, n: string): nat {
    if n in e.pings then 1 else 0
  }

  lemma StepBalancesPings(e: Engine, step: Step, now: int, n: string)
    ensures Outstanding(Next(e, step, now), n) + (if TakesPong(e, step, now, n) then 1 else 0)
            <= Outstanding(e, n) + (if Registers(e, step, now, n) then 1 else 0)
  {
    match step
    case Receive(env, nonce, contributory) =>
    case Send(id, message, nonce, contributory) =>
    case Discover(p, nonce) =>
    case _ =>
  }

  /** Each ping sent satisfies at most one pong: no nonce is answered more often than it was sent. */
  lemma {:induction false} PongsNeverExceedPings(run: seq<Engine>, steps: seq<Step>, clock: seq<int>, k: nat, n: string)
    requires IsRun(run, steps, clock) && k <= |steps| && run[0].pings == map[]
    ensures PongsTaken(run, steps, clock, k, n) + Outstanding(run[k], n) <= PingsSent(run, steps, clock, k, n)
  {
    if k > 0 {
      PongsNeverExceedPings(run, steps, clock, k - 1, n);
      StepBalancesPings(run[k - 1], steps[k - 1], clock[k - 1], n);
    }
  }
}
