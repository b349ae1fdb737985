/**
 * Pairing a client, src/nvhttp.cpp: four phases of a session, kept in a map by the client's unique id. Ciphers, hashes
 * and certificates are uninterpreted functions; hexadecimal text arrives decoded.
 */
module Pairing {
  import opened Basics

  type Bytes = seq<Byte>

  type Secret = s: Bytes | |s| == 16 witness [0, 0, 0, 0, 0, 0, 0, 0, 0, 0, 0, 0, 0, 0, 0, 0]

  datatype Crypto = Crypto(
    genKey: (string, string) -> Bytes,
    decrypt: (Bytes, Bytes) -> Bytes,
    encrypt: (Bytes, Bytes) -> Bytes,
    hash: Bytes -> Bytes,
    valid: Bytes -> bool,
    signature: Bytes -> Bytes,
    verify: (Bytes, Bytes, Bytes) -> bool,
    sign: Bytes -> Bytes,
    serverCert: Bytes)

  datatype Phase = NONE | GETSERVERCERT | CLIENTCHALLENGE | SERVERCHALLENGERESP | CLIENTPAIRINGSECRET

  /** `serial` tells sessions apart that use the same unique id one after the other. */
  datatype Session = Session(
    serial: nat, uniqueID: string, cert: Bytes, name: string,
    cipherKey: Option<Bytes>, clienthash: Bytes, serversecret: Bytes, serverchallenge: Bytes,
    waiting: bool, salt: string, lastPhase: Phase)

  datatype Reply =
    | Answer(paired: bool, data: Bytes)
    | Error(status: nat, message: string)
    | Deferred
    | Exception

  const MISSING_KEY := "Cipher key not set"
  const MISSING_SECRET := "Cipher key or serversecret not set"

  // ----- what happens to a session -----

  datatype Event =
    | Created(serial: nat, id: string, cert: Bytes)
    | Keyed(serial: nat, salt: string, pin: string)
    | Challenged(serial: nat, secret: Bytes, challenge: Bytes)
    | Answered(serial: nat, response: Bytes)
    | Paired(serial: nat, name: string, cert: Bytes, proof: Bytes)
    | Rejected(serial: nat, proof: Bytes)
    | Failed(serial: nat)

  datatype Server = Server(sessions: map<string, Session>, authorised: seq<(string, Bytes)>, next: nat, log: seq<Event>)

  // ----- the four phases -----

  /** fail_pair: the session is deleted when something went wrong. */
  function FailPair(sv: Server, s: Session, message: string): (Server, Reply) {
    (sv.(sessions := sv.sessions - {s.uniqueID}, log := sv.log + [Failed(s.serial)]), Error(400, message))
  }

  function GetServerCert(sv: Server, c: Crypto, id: string, pin: string): (Server, Reply)
    requires id in sv.sessions
  {
    var s := sv.sessions[id];
    if s.lastPhase != NONE then FailPair(sv, s, "Out of order call to getservercert")
    else if |s.salt| < 32 then FailPair(sv, s, "Salt too short")
    else
      var s' := s.(lastPhase := GETSERVERCERT, cipherKey := Some(c.genKey(s.salt[..32], pin)));
      (sv.(sessions := sv.sessions[id := s'], log := sv.log + [Keyed(s.serial, s.salt[..32], pin)]),
        Answer(true, c.serverCert))
  }

  /** What the server answers to a client's challenge. */
  function ChallengeReply(c: Crypto, key: Bytes, challenge: Bytes, secret: Bytes, serverchallenge: Bytes): Bytes {
    c.encrypt(key, c.hash(c.decrypt(key, challenge) + c.signature(c.serverCert) + secret) + serverchallenge)
  }

  function ClientChallenge(sv: Server, c: Crypto, id: string, challenge: Bytes, secret: Secret,
                           serverchallenge: Secret): (Server, Reply)
    requires id in sv.sessions
  {
    var s := sv.sessions[id];
    if s.lastPhase != GETSERVERCERT then FailPair(sv, s, "Out of order call to clientchallenge")
    else if s.cipherKey.None? then FailPair(sv, s, MISSING_KEY)
    else
      var s' := s.(lastPhase := CLIENTCHALLENGE, serversecret := secret, serverchallenge := serverchallenge);
      (sv.(sessions := sv.sessions[id := s'], log := sv.log + [Challenged(s.serial, secret, serverchallenge)]),
       Answer(true, ChallengeReply(c, s.cipherKey.value, challenge, secret, serverchallenge)))
  }

  function ServerChallengeResp(sv: Server, c: Crypto, id: string, response: Bytes): (Server, Reply)
    requires id in sv.sessions
  {
    var s := sv.sessions[id];
    if s.lastPhase != CLIENTCHALLENGE then FailPair(sv, s, "Out of order call to serverchallengeresp")
    else if s.cipherKey.None? || s.serversecret == [] then FailPair(sv, s, MISSING_SECRET)
    else
      var s' := s.(lastPhase := SERVERCHALLENGERESP, clienthash := c.decrypt(s.cipherKey.value, response));
      (sv.(sessions := sv.sessions[id := s'], log := sv.log + [Answered(s.serial, response)]),
       Answer(true, s.serversecret + c.sign(s.serversecret)))
  }

  /** The client's proof: its secret and its signature of it. */
  predicate Proves(c: Crypto, cert: Bytes, challenge: Bytes, clienthash: Bytes, proof: Bytes) {
    && |proof| > 16 && c.valid(cert)
    && c.hash(challenge + c.signature(cert) + proof[..16]) == clienthash
    && c.verify(cert, proof[..16], proof[16..])
  }

  function ClientPairingSecret(sv: Server, c: Crypto, id: string, proof: Bytes): (Server, Reply)
    requires id in sv.sessions
  {
    var s := sv.sessions[id];
    if s.lastPhase != SERVERCHALLENGERESP then FailPair(sv, s, "Out of order call to clientpairingsecret")
    else if |proof| <= 16 then FailPair(sv, s, "Client pairing secret too short")
    else if !c.valid(s.cert) then FailPair(sv, s, "Invalid client certificate")
    else if Proves(c, s.cert, s.serverchallenge, s.clienthash, proof) then
      (Server(sv.sessions - {s.uniqueID}, sv.authorised + [(s.name, s.cert)], sv.next,
        sv.log + [Paired(s.serial, s.name, s.cert, proof)]),
       Answer(true, []))
    else
      (sv.(sessions := sv.sessions - {s.uniqueID}, log := sv.log + [Rejected(s.serial, proof)]), Answer(false, []))
  }

  // ----- requests -----

  datatype Request =
    | NoUniqueId
    | AskServerCert(id: string, cert: Option<Bytes>, salt: Option<string>)
    | PairChallenge(id: string)
    | ForSession(id: string, step: SessionStep)
    | Pin(pin: string, name: string)

  datatype SessionStep = Challenge(challenge: Bytes) | Response(response: Bytes) | Proof(proof: Bytes) | Unknown

  /** What is drawn at random, the PIN typed at the console, and the session that happens to be first in the map. */
  datatype Luck = Luck(secret: Secret, serverchallenge: Secret, typed: string, first: string)

  /** emplace: a session that is there already stays, with its certificate. */
  function Emplace(sv: Server, id: string, cert: Bytes): (sv': Server)
    ensures id in sv'.sessions
  {
    if id in sv.sessions then sv
    else
      var s := Session(sv.next, id, cert, "", None, [], [], [], false, "", NONE);
      Server(sv.sessions[id := s], sv.authorised, sv.next + 1, sv.log + [Created(sv.next, id, cert)])
  }

  function Update(sv: Server, id: string, s: Session): Server {
    sv.(sessions := sv.sessions[id := s])
  }

  function AskCert(sv: Server, c: Crypto, id: string, cert: Bytes, salt: Option<string>, stdin: bool,
                   typed: string): (Server, Reply) {
    var sv1 := Emplace(sv, id, cert);
    if salt.None? then (sv1, Exception)
    else
      var salted := sv1.sessions[id].(salt := salt.value);
      if stdin then GetServerCert(Update(sv1, id, salted), c, id, typed)
      else (Update(sv1, id, salted.(waiting := true)), Deferred)
  }

  predicate PinOk(pin: string) {
    |pin| == 4 && forall i :: 0 <= i < 4 ==> '0' <= pin[i] <= '9'
  }

  /** The result of `pin`: false also stands for a reply that nobody waits for. */
  function PinEntered(sv: Server, c: Crypto, pin: string, name: string, first: string): (Server, bool) {
    if first !in sv.sessions || !PinOk(pin) then (sv, false)
    else
      var waiting := sv.sessions[first].waiting;
      var sv1 := GetServerCert(sv, c, first, pin).0;
      if first !in sv1.sessions then (sv1, waiting)
      else (Update(sv1, first, sv1.sessions[first].(name := name, waiting := false)), waiting)
  }

  function Handle(sv: Server, c: Crypto, stdin: bool, r: Request, luck: Luck): (Server, Reply) {
    match r
    case NoUniqueId => (sv, Error(400, "Missing uniqueid parameter"))
    case AskServerCert(id, cert, salt) =>
      if cert.None? then (sv, Exception) else AskCert(sv, c, id, cert.value, salt, stdin, luck.typed)
    case PairChallenge(_) => (sv, Answer(true, []))
    case Pin(pin, name) =>
      var (sv', ok) := PinEntered(sv, c, pin, name, luck.first);
      (sv', Answer(ok, []))
    case ForSession(id, step) =>
      if id in sv.sessions then OnSession(sv, c, id, step, luck) else (sv, Error(400, "Invalid uniqueid"))
  }

  function OnSession(sv: Server, c: Crypto, id: string, step: SessionStep, luck: Luck): (Server, Reply)
    requires id in sv.sessions
  {
    match step
    case Challenge(challenge) => ClientChallenge(sv, c, id, challenge, luck.secret, luck.serverchallenge)
    case Response(response) => ServerChallengeResp(sv, c, id, response)
    case Proof(proof) => ClientPairingSecret(sv, c, id, proof)
    case Unknown => (sv, Error(404, "Invalid pairing request"))
  }

  // ----- the invariant -----

  /** What happened to session number `n`, in order. */
  function History(log: seq<Event>, n: nat): seq<Event> {
    if log == [] then []
    else
      var last := log[|log| - 1];
      History(log[..|log| - 1], n) + if last.serial == n then [last] else []
  }

  /** The history of a live session is its creation and the phases up to the last one, with the values it keeps. */
  ghost predicate Follows(h: seq<Event>, s: Session, c: Crypto) {
    var phases := match s.lastPhase case NONE => 0 case GETSERVERCERT => 1 case CLIENTCHALLENGE => 2 case _ => 3;
    && s.lastPhase != CLIENTPAIRINGSECRET && |h| == 1 + phases && h[0] == Created(s.serial, s.uniqueID, s.cert)
    && (phases == 0 ==> s.cipherKey.None?)
    && (phases >= 1 ==> h[1].Keyed? && |h[1].salt| == 32 && s.cipherKey == Some(c.genKey(h[1].salt, h[1].pin)))
    && (phases >= 2 ==> h[2] == Challenged(s.serial, s.serversecret, s.serverchallenge) && |s.serversecret| == 16)
    && (phases >= 3 ==> h[3].Answered? && s.clienthash == c.decrypt(s.cipherKey.value, h[3].response))
  }

  /**
   * A client is authorised by a session whose whole history is its creation and the four phases in order, and whose
   * proof answers that session's own challenge with the certificate the session was created with.
   */
  ghost predicate Genuine(h: seq<Event>, c: Crypto) {
    && |h| == 5 && h[0].Created? && h[1].Keyed? && h[2].Challenged? && h[3].Answered? && h[4].Paired?
    && h[4].cert == h[0].cert
    && Proves(c, h[0].cert, h[2].challenge, c.decrypt(c.genKey(h[1].salt, h[1].pin), h[3].response), h[4].proof)
  }

  ghost predicate SessionOk(sv: Server, c: Crypto, id: string)
    requires id in sv.sessions
  {
    var s := sv.sessions[id];
    s.uniqueID == id && s.serial < sv.next && Follows(History(sv.log, s.serial), s, c)
  }

  ghost predicate Pairs(log: seq<Event>, n: nat) {
    exists e :: e in log && e.Paired? && e.serial == n
  }

  /** The clients that the log says were paired, in order. */
  function Clients(log: seq<Event>): seq<(string, Bytes)> {
    if log == [] then []
    else
      var last := log[|log| - 1];
      Clients(log[..|log| - 1]) + if last.Paired? then [(last.name, last.cert)] else []
  }

  ghost predicate Inv(sv: Server, c: Crypto) {
    && (forall id :: id in sv.sessions ==> SessionOk(sv, c, id))
    && (forall id, id' :: id in sv.sessions && id' in sv.sessions && id != id' ==>
      sv.sessions[id].serial != sv.sessions[id'].serial)
    && (forall e :: e in sv.log ==> e.serial < sv.next)
    && (forall n :: Pairs(sv.log, n) ==> Genuine(History(sv.log, n), c))
    && sv.authorised == Clients(sv.log)
  }

  lemma Logged(log: seq<Event>, e: Event, n: nat)
    ensures History(log + [e], n) == History(log, n) + if e.serial == n then [e] else []
    ensures Clients(log + [e]) == Clients(log) + if e.Paired? then [(e.name, e.cert)] else []
    ensures Pairs(log + [e], n) <==> Pairs(log, n) || (e.Paired? && e.serial == n)
  {
    assert (log + [e])[..|log|] == log;
    if Pairs(log, n) {
      var p :| p in log && p.Paired? && p.serial == n;
      assert p in log + [e];
    }
    if e.Paired? && e.serial == n {
      assert e in log + [e];
    }
  }

  lemma {:induction false} NoHistory(log: seq<Event>, n: nat)
    requires forall e :: e in log ==> e.serial < n
    ensures History(log, n) == []
  {
    if log != [] {
      assert log[|log| - 1] in log;
      NoHistory(log[..|log| - 1], n);
    }
  }

  /** A live session has not paired: its history is too short. */
  lemma LiveIsNotPaired(sv: Server, c: Crypto, id: string)
    requires Inv(sv, c) && id in sv.sessions
    ensures !Pairs(sv.log, sv.sessions[id].serial)
  {
    assert SessionOk(sv, c, id);
  }

  // ----- the ways a session changes -----

  /** A phase passed: one more event, and the session moved on. */
  lemma Advance(sv: Server, c: Crypto, id: string, s': Session, e: Event)
    requires Inv(sv, c) && id in sv.sessions && e.serial == sv.sessions[id].serial == s'.serial && !e.Paired?
    requires s'.uniqueID == id && Follows(History(sv.log, e.serial) + [e], s', c)
    ensures Inv(sv.(sessions := sv.sessions[id := s'], log := sv.log + [e]), c)
  {
    var sv' := sv.(sessions := sv.sessions[id := s'], log := sv.log + [e]);
    LiveIsNotPaired(sv, c, id);
    assert SessionOk(sv, c, id);
    forall id' | id' in sv'.sessions
      ensures SessionOk(sv', c, id')
    {
      Logged(sv.log, e, sv'.sessions[id'].serial);
      assert SessionOk(sv, c, id');
    }
    AfterEvent(sv, c, e);
  }

  /** What an event of a session that has not paired leaves of the invariant. */
  lemma AfterEvent(sv: Server, c: Crypto, e: Event)
    requires Inv(sv, c) && e.serial < sv.next && !Pairs(sv.log, e.serial)
    requires e.Paired? ==> Genuine(History(sv.log, e.serial) + [e], c)
    ensures forall e' :: e' in sv.log + [e] ==> e'.serial < sv.next
    ensures forall n :: Pairs(sv.log + [e], n) ==> Genuine(History(sv.log + [e], n), c)
    ensures Clients(sv.log + [e]) == sv.authorised + if e.Paired? then [(e.name, e.cert)] else []
  {
    forall n | Pairs(sv.log + [e], n)
      ensures Genuine(History(sv.log + [e], n), c)
    {
      Logged(sv.log, e, n);
    }
    Logged(sv.log, e, 0);
  }

  /** A session that ends leaves the map, with one last event. */
  lemma Close(sv: Server, c: Crypto, id: string, e: Event)
    requires Inv(sv, c) && id in sv.sessions && e.serial == sv.sessions[id].serial
    requires e.Paired? ==> Genuine(History(sv.log, e.serial) + [e], c)
    ensures Inv(Server(sv.sessions - {id}, sv.authorised + (if e.Paired? then [(e.name, e.cert)] else []), sv.next,
      sv.log + [e]), c)
  {
    var sessions, log := sv.sessions - {id}, sv.log + [e];
    var sv' := Server(sessions, sv.authorised + (if e.Paired? then [(e.name, e.cert)] else []), sv.next, log);
    LiveIsNotPaired(sv, c, id);
    assert SessionOk(sv, c, id);
    forall id' | id' in sessions
      ensures SessionOk(sv', c, id')
    {
      Logged(sv.log, e, sessions[id'].serial);
      assert SessionOk(sv, c, id');
    }
    AfterEvent(sv, c, e);
  }

  /** Name, salt and whoever waits for the PIN do not matter to a history. */
  lemma Touch(sv: Server, c: Crypto, id: string, s': Session)
    requires Inv(sv, c) && id in sv.sessions
    requires s' == sv.sessions[id].(name := s'.name, salt := s'.salt, waiting := s'.waiting)
    ensures Inv(Update(sv, id, s'), c)
  {
    var sv' := Update(sv, id, s');
    forall id' | id' in sv'.sessions
      ensures SessionOk(sv', c, id')
    {
      assert SessionOk(sv, c, id');
    }
  }

  lemma EmplaceKeepsInv(sv: Server, c: Crypto, id: string, cert: Bytes)
    requires Inv(sv, c)
    ensures Inv(Emplace(sv, id, cert), c)
  {
    if id !in sv.sessions {
      var e, sv' := Created(sv.next, id, cert), Emplace(sv, id, cert);
      NoHistory(sv.log, sv.next);
      forall id' | id' in sv'.sessions
        ensures SessionOk(sv', c, id')
      {
        Logged(sv.log, e, sv'.sessions[id'].serial);
        assert id' != id ==> SessionOk(sv, c, id');
      }
      forall n | Pairs(sv'.log, n)
        ensures Genuine(History(sv'.log, n), c)
      {
        Logged(sv.log, e, n);
      }
      Logged(sv.log, e, 0);
    }
  }

  // ----- each handler -----

  /**
   * What every phase guarantees: an error reply removes the session, and the replies for missing keys are never given.
   */
  ghost predicate PhaseOk(sv': Server, reply: Reply, c: Crypto, id: string) {
    && Inv(sv', c) && (reply.Error? ==> id !in sv'.sessions)
    && reply != Error(400, MISSING_KEY) && reply != Error(400, MISSING_SECRET)
  }

  lemma FailPairKeepsInv(sv: Server, c: Crypto, id: string, message: string)
    requires Inv(sv, c) && id in sv.sessions
    ensures var (sv', reply) := FailPair(sv, sv.sessions[id], message);
      Inv(sv', c) && id !in sv'.sessions && reply == Error(400, message)
  {
    assert SessionOk(sv, c, id);
    Close(sv, c, id, Failed(sv.sessions[id].serial));
  }

  lemma GetServerCertKeepsInv(sv: Server, c: Crypto, id: string, pin: string)
    requires Inv(sv, c) && id in sv.sessions
    ensures var (sv', reply) := GetServerCert(sv, c, id, pin); PhaseOk(sv', reply, c, id)
  {
    var s := sv.sessions[id];
    assert SessionOk(sv, c, id);
    if s.lastPhase != NONE {
      FailPairKeepsInv(sv, c, id, "Out of order call to getservercert");
      OtherMessage("Out of order call to getservercert");
    } else if |s.salt| < 32 {
      FailPairKeepsInv(sv, c, id, "Salt too short");
      OtherMessage("Salt too short");
    } else {
      var s' := s.(lastPhase := GETSERVERCERT, cipherKey := Some(c.genKey(s.salt[..32], pin)));
      Advance(sv, c, id, s', Keyed(s.serial, s.salt[..32], pin));
    }
  }

  lemma OtherMessage(message: string)
    requires |message| > 0 && (message[0] != 'C' || message[1..] == "lient pairing secret too short")
    ensures message != MISSING_KEY && message != MISSING_SECRET
  {
    assert MISSING_KEY[0] == 'C' && MISSING_SECRET[0] == 'C';
    assert MISSING_KEY[1] == 'i' && MISSING_SECRET[1] == 'i';
    if message[0] == 'C' {
      assert message[1] == message[1..][0] == 'l';
    }
  }

  lemma ClientChallengeKeepsInv(sv: Server, c: Crypto, id: string, challenge: Bytes, secret: Secret,
                                serverchallenge: Secret)
    requires Inv(sv, c) && id in sv.sessions
    ensures var (sv', reply) := ClientChallenge(sv, c, id, challenge, secret, serverchallenge);
      PhaseOk(sv', reply, c, id)
  {
    var s := sv.sessions[id];
    assert SessionOk(sv, c, id);
    if s.lastPhase != GETSERVERCERT {
      FailPairKeepsInv(sv, c, id, "Out of order call to clientchallenge");
      OtherMessage("Out of order call to clientchallenge");
    } else {
      var s' := s.(lastPhase := CLIENTCHALLENGE, serversecret := secret, serverchallenge := serverchallenge);
      Advance(sv, c, id, s', Challenged(s.serial, secret, serverchallenge));
    }
  }

  lemma ServerChallengeRespKeepsInv(sv: Server, c: Crypto, id: string, response: Bytes)
    requires Inv(sv, c) && id in sv.sessions
    ensures var (sv', reply) := ServerChallengeResp(sv, c, id, response); PhaseOk(sv', reply, c, id)
  {
    var s := sv.sessions[id];
    assert SessionOk(sv, c, id);
    if s.lastPhase != CLIENTCHALLENGE {
      FailPairKeepsInv(sv, c, id, "Out of order call to serverchallengeresp");
      OtherMessage("Out of order call to serverchallengeresp");
    } else {
      var s' := s.(lastPhase := SERVERCHALLENGERESP, clienthash := c.decrypt(s.cipherKey.value, response));
      Advance(sv, c, id, s', Answered(s.serial, response));
    }
  }

  /** The last phase always ends the session, and authorises its client exactly if the proof is good. */
  lemma ClientPairingSecretKeepsInv(sv: Server, c: Crypto, id: string, proof: Bytes)
    requires Inv(sv, c) && id in sv.sessions
    ensures var (s, sv', reply) := (sv.sessions[id], ClientPairingSecret(sv, c, id, proof).0,
      ClientPairingSecret(sv, c, id, proof).1);
      && PhaseOk(sv', reply, c, id) && id !in sv'.sessions
      && (reply.Answer? && reply.paired <==>
            s.lastPhase == SERVERCHALLENGERESP && Proves(c, s.cert, s.serverchallenge, s.clienthash, proof))
      && sv'.authorised == sv.authorised + if reply.Answer? && reply.paired then [(s.name, s.cert)] else []
  {
    var s := sv.sessions[id];
    if s.lastPhase != SERVERCHALLENGERESP || |proof| <= 16 || !c.valid(s.cert) {
      BadProofFails(sv, c, id, proof);
    } else {
      ProofDecides(sv, c, id, proof);
    }
  }

  lemma BadProofFails(sv: Server, c: Crypto, id: string, proof: Bytes)
    requires Inv(sv, c) && id in sv.sessions
    requires var s := sv.sessions[id]; s.lastPhase != SERVERCHALLENGERESP || |proof| <= 16 || !c.valid(s.cert)
    ensures var (sv', reply) := ClientPairingSecret(sv, c, id, proof);
      PhaseOk(sv', reply, c, id) && reply.Error? && sv'.authorised == sv.authorised
  {
    var message := if sv.sessions[id].lastPhase != SERVERCHALLENGERESP then "Out of order call to clientpairingsecret"
      else if |proof| <= 16 then "Client pairing secret too short" else "Invalid client certificate";
    FailPairKeepsInv(sv, c, id, message);
    OtherMessage("Out of order call to clientpairingsecret");
    OtherMessage("Client pairing secret too short");
    OtherMessage("Invalid client certificate");
  }

  lemma ProofDecides(sv: Server, c: Crypto, id: string, proof: Bytes)
    requires Inv(sv, c) && id in sv.sessions && sv.sessions[id].lastPhase == SERVERCHALLENGERESP
    requires |proof| > 16 && c.valid(sv.sessions[id].cert)
    ensures var (s, sv', reply) := (sv.sessions[id], ClientPairingSecret(sv, c, id, proof).0,
      ClientPairingSecret(sv, c, id, proof).1);
      && Inv(sv', c) && id !in sv'.sessions
        && reply == Answer(Proves(c, s.cert, s.serverchallenge, s.clienthash, proof), [])
      && sv'.authorised == sv.authorised + if reply.paired then [(s.name, s.cert)] else []
  {
    var s := sv.sessions[id];
    assert SessionOk(sv, c, id);
    if Proves(c, s.cert, s.serverchallenge, s.clienthash, proof) {
      Close(sv, c, id, Paired(s.serial, s.name, s.cert, proof));
    } else {
      Close(sv, c, id, Rejected(s.serial, proof));
    }
  }

  lemma AskCertKeepsInv(sv: Server, c: Crypto, id: string, cert: Bytes, salt: Option<string>, stdin: bool,
                        typed: string)
    requires Inv(sv, c)
    ensures var (sv', reply) := AskCert(sv, c, id, cert, salt, stdin, typed); PhaseOk(sv', reply, c, id)
  {
    EmplaceKeepsInv(sv, c, id, cert);
    if salt.Some? {
      var sv1 := Emplace(sv, id, cert);
      var salted := sv1.sessions[id].(salt := salt.value);
      Touch(sv1, c, id, salted);
      if stdin {
        GetServerCertKeepsInv(Update(sv1, id, salted), c, id, typed);
      } else {
        Touch(sv1, c, id, salted.(waiting := true));
      }
    }
  }

  lemma PinKeepsInv(sv: Server, c: Crypto, pin: string, name: string, first: string)
    requires Inv(sv, c)
    ensures Inv(PinEntered(sv, c, pin, name, first).0, c)
  {
    if first in sv.sessions && PinOk(pin) {
      GetServerCertKeepsInv(sv, c, first, pin);
      var sv1 := GetServerCert(sv, c, first, pin).0;
      if first in sv1.sessions {
        Touch(sv1, c, first, sv1.sessions[first].(name := name, waiting := false));
      }
    }
  }

  lemma HandleKeepsInv(sv: Server, c: Crypto, stdin: bool, r: Request, luck: Luck)
    requires Inv(sv, c)
    ensures var (sv', reply) := Handle(sv, c, stdin, r, luck);
      && Inv(sv', c) && reply != Error(400, MISSING_KEY) && reply != Error(400, MISSING_SECRET)
  {
    match r {
      case NoUniqueId => OtherMessage("Missing uniqueid parameter");
      case AskServerCert(id, cert, salt) =>
        if cert.Some? {
          AskCertKeepsInv(sv, c, id, cert.value, salt, stdin, luck.typed);
        }
      case PairChallenge(_) =>
      case Pin(pin, name) => PinKeepsInv(sv, c, pin, name, luck.first);
      case ForSession(id, step) =>
        OtherMessage("Invalid uniqueid");
        if id in sv.sessions {
          OnSessionKeepsInv(sv, c, id, step, luck);
        }
    }
  }

  lemma OnSessionKeepsInv(sv: Server, c: Crypto, id: string, step: SessionStep, luck: Luck)
    requires Inv(sv, c) && id in sv.sessions
    ensures var (sv', reply) := OnSession(sv, c, id, step, luck);
      && Inv(sv', c) && reply != Error(400, MISSING_KEY) && reply != Error(400, MISSING_SECRET)
  {
    match step {
      case Challenge(challenge) => ClientChallengeKeepsInv(sv, c, id, challenge, luck.secret, luck.serverchallenge);
      case Response(response) => ServerChallengeRespKeepsInv(sv, c, id, response);
      case Proof(proof) => ClientPairingSecretKeepsInv(sv, c, id, proof);
      case Unknown =>
    }
  }

  /**
   * `pin` goes on to write the name into the session that its own first phase has just removed, exactly if that session
   * is past its first phase or has a short salt.
   */
  lemma PinOutlivesSession(sv: Server, c: Crypto, first: string, pin: string)
    requires Inv(sv, c) && first in sv.sessions
    ensures first !in GetServerCert(sv, c, first, pin).0.sessions
      <==> sv.sessions[first].lastPhase != NONE || |sv.sessions[first].salt| < 32
  {
    assert SessionOk(sv, c, first);
  }

  // ----- runs -----

  type Run = seq<(Request, Luck)>

  function AfterRun(run: Run, c: Crypto, stdin: bool): Server {
    if run == [] then Server(map[], [], 0, [])
    else
      var (r, luck) := run[|run| - 1];
      Handle(AfterRun(run[..|run| - 1], c, stdin), c, stdin, r, luck).0
  }

  lemma {:induction false} AlwaysInv(run: Run, c: Crypto, stdin: bool)
    ensures Inv(AfterRun(run, c, stdin), c)
    decreases |run|
  {
    if run != [] {
      AlwaysInv(run[..|run| - 1], c, stdin);
      var last := run[|run| - 1];
      HandleKeepsInv(AfterRun(run[..|run| - 1], c, stdin), c, stdin, last.0, last.1);
    }
  }

  lemma RunMore(run: Run, c: Crypto, stdin: bool, r: Request, luck: Luck)
    ensures AfterRun(run + [(r, luck)], c, stdin) == Handle(AfterRun(run, c, stdin), c, stdin, r, luck).0
  {
    assert (run + [(r, luck)])[..|run|] == run;
  }

  /** A client that asks once and a PIN that is entered twice are enough for that. */
  lemma SecondPinOutlivesSession(c: Crypto, id: string, cert: Bytes, salt: string, pin: string, name: string,
                                 luck: Luck)
    requires PinOk(pin) && luck.first == id && |salt| >= 32
    ensures var run := [(AskServerCert(id, Some(cert), Some(salt)), luck), (Pin(pin, name), luck)];
      && id in AfterRun(run, c, false).sessions
      && id !in GetServerCert(AfterRun(run, c, false), c, id, pin).0.sessions
  {
    var ask, enter := (AskServerCert(id, Some(cert), Some(salt)), luck), (Pin(pin, name), luck);
    AlwaysInv([ask], c, false);
    RunOne(c, false, ask);
    FirstAsk(c, id, cert, salt, luck);
    RunTwo(c, false, ask, enter);
    PinTwice(AfterRun([ask], c, false), c, pin, name, id);
  }

  lemma RunOne(c: Crypto, stdin: bool, one: (Request, Luck))
    ensures AfterRun([one], c, stdin) == Handle(AfterRun([], c, stdin), c, stdin, one.0, one.1).0
  {
    RunMore([], c, stdin, one.0, one.1);
    assert [] + [one] == [one];
  }

  lemma RunTwo(c: Crypto, stdin: bool, one: (Request, Luck), two: (Request, Luck))
    ensures AfterRun([one, two], c, stdin) == Handle(AfterRun([one], c, stdin), c, stdin, two.0, two.1).0
  {
    RunMore([one], c, stdin, two.0, two.1);
    assert [one] + [two] == [one, two];
  }

  lemma PinTwice(sv: Server, c: Crypto, pin: string, name: string, first: string)
    requires Inv(sv, c) && first in sv.sessions && sv.sessions[first].lastPhase == NONE
    requires |sv.sessions[first].salt| >= 32 && PinOk(pin)
    ensures var sv' := PinEntered(sv, c, pin, name, first).0;
      first in sv'.sessions && first !in GetServerCert(sv', c, first, pin).0.sessions
  {
    FirstPin(sv, c, pin, name, first);
    PinKeepsInv(sv, c, pin, name, first);
    PinOutlivesSession(PinEntered(sv, c, pin, name, first).0, c, first, pin);
  }

  lemma FirstAsk(c: Crypto, id: string, cert: Bytes, salt: string, luck: Luck)
    ensures var sv := Handle(AfterRun([], c, false), c, false, AskServerCert(id, Some(cert), Some(salt)), luck).0;
      id in sv.sessions && sv.sessions[id].lastPhase == NONE && sv.sessions[id].salt == salt
  {
  }

  lemma FirstPin(sv: Server, c: Crypto, pin: string, name: string, first: string)
    requires first in sv.sessions && sv.sessions[first].lastPhase == NONE && |sv.sessions[first].salt| >= 32
    requires PinOk(pin)
    ensures var sv' := PinEntered(sv, c, pin, name, first).0;
      first in sv'.sessions && sv'.sessions[first].lastPhase == GETSERVERCERT
  {
  }

  lemma {:induction false} InHistory(log: seq<Event>, e: Event)
    requires e in log
    ensures e in History(log, e.serial)
    decreases |log|
  {
    if log[|log| - 1] != e {
      InHistory(log[..|log| - 1], e);
    }
  }

  /**
   * Whatever requests come, in whatever order: every authorised client went through exactly the four phases of one
   * session, with the certificate that session was created with; its proof is a secret whose hash, with that session's
   * challenge and the signature of the certificate, is what it had sent before under the key of salt and PIN; and its
   * signature of the secret verifies.
   */
  lemma AuthorisedAreGenuine(run: Run, c: Crypto, stdin: bool, i: nat) returns (e: Event)
    requires i < |AfterRun(run, c, stdin).authorised|
    ensures e in AfterRun(run, c, stdin).log && e.Paired? && (e.name, e.cert) == AfterRun(run, c, stdin).authorised[i]
    ensures var h := History(AfterRun(run, c, stdin).log, e.serial);
      && |h| == 5 && h[0].Created? && h[0].cert == e.cert && h[1].Keyed? && h[2].Challenged?
      && h[3].Answered? && h[4] == e
      && |e.proof| > 16 && c.valid(e.cert)
      && c.hash(h[2].challenge + c.signature(e.cert) + e.proof[..16])
         == c.decrypt(c.genKey(h[1].salt, h[1].pin), h[3].response)
      && c.verify(e.cert, e.proof[..16], e.proof[16..])
  {
    var sv := AfterRun(run, c, stdin);
    AlwaysInv(run, c, stdin);
    e := ClientIsPaired(sv.log, i);
    assert Pairs(sv.log, e.serial);
    InHistory(sv.log, e);
    assert Genuine(History(sv.log, e.serial), c);
  }

  lemma {:induction false} ClientIsPaired(log: seq<Event>, i: nat) returns (e: Event)
    requires i < |Clients(log)|
    ensures e in log && e.Paired? && (e.name, e.cert) == Clients(log)[i]
    decreases |log|
  {
    var last := log[|log| - 1];
    if i < |Clients(log[..|log| - 1])| {
      e := ClientIsPaired(log[..|log| - 1], i);
    } else {
      e := last;
    }
  }

  /** The two replies for keys that are not set are never given. */
  lemma KeysAreAlwaysSet(run: Run, c: Crypto, stdin: bool, r: Request, luck: Luck)
    ensures var reply := Handle(AfterRun(run, c, stdin), c, stdin, r, luck).1;
      reply != Error(400, MISSING_KEY) && reply != Error(400, MISSING_SECRET)
  {
    AlwaysInv(run, c, stdin);
    HandleKeepsInv(AfterRun(run, c, stdin), c, stdin, r, luck);
  }

  // ----- the handlers -----

  class Host {
    const c: Crypto
    /** The flag PIN_STDIN. */
    const stdin: bool
    var sessions: map<string, Session>
    var authorised: seq<(string, Bytes)>
    var next: nat
    ghost var log: seq<Event>

    ghost function State(): Server
      reads this
    {
      Server(sessions, authorised, next, log)
    }

    constructor (c: Crypto, stdin: bool)
      ensures State() == AfterRun([], c, stdin) && this.c == c && this.stdin == stdin
    {
      this.c, this.stdin := c, stdin;
      sessions, authorised, next, log := map[], [], 0, [];
    }

    method FailSession(id: string, message: string) returns (reply: Reply)
      requires id in sessions && sessions[id].uniqueID == id
      modifies this`sessions, this`log
      ensures (State(), reply) == FailPair(old(State()), old(sessions[id]), message)
    {
      log := log + [Failed(sessions[id].serial)];
      sessions := sessions - {id};
      reply := Error(400, message);
    }

    method SetPhase(id: string, phase: Phase)
      requires id in sessions
      modifies this`sessions
      ensures sessions == old(sessions)[id := old(sessions[id]).(lastPhase := phase)]
    {
      sessions := sessions[id := sessions[id].(lastPhase := phase)];
    }

    method DoGetServerCert(id: string, pin: string) returns (reply: Reply)
      requires id in sessions && sessions[id].uniqueID == id
      modifies this`sessions, this`log
      ensures (State(), reply) == GetServerCert(old(State()), c, id, pin)
    {
      if sessions[id].lastPhase != NONE {
        reply := FailSession(id, "Out of order call to getservercert");
        return;
      }
      SetPhase(id, GETSERVERCERT);
      var s := sessions[id];
      if |s.salt| < 32 {
        reply := FailSession(id, "Salt too short");
        assert sessions == old(sessions) - {id};
        return;
      }
      var key := c.genKey(s.salt[..32], pin);
      sessions := sessions[id := s.(cipherKey := Some(key))];
      assert sessions == old(sessions)[id := s.(cipherKey := Some(key))];
      log := log + [Keyed(s.serial, s.salt[..32], pin)];
      reply := Answer(true, c.serverCert);
    }

    method DoClientChallenge(id: string, challenge: Bytes, rand: Secret, rand': Secret) returns (reply: Reply)
      requires id in sessions && sessions[id].uniqueID == id
      modifies this`sessions, this`log
      ensures (State(), reply) == ClientChallenge(old(State()), c, id, challenge, rand, rand')
    {
      if sessions[id].lastPhase != GETSERVERCERT {
        reply := FailSession(id, "Out of order call to clientchallenge");
        return;
      }
      SetPhase(id, CLIENTCHALLENGE);
      var s := sessions[id];
      if s.cipherKey.None? {
        reply := FailSession(id, MISSING_KEY);
        assert sessions == old(sessions) - {id};
        return;
      }
      var hash := c.hash(c.decrypt(s.cipherKey.value, challenge) + c.signature(c.serverCert) + rand);
      var encrypted := c.encrypt(s.cipherKey.value, hash + rand');
      sessions := sessions[id := s.(serversecret := rand, serverchallenge := rand')];
      assert sessions == old(sessions)[id := s.(serversecret := rand, serverchallenge := rand')];
      log := log + [Challenged(s.serial, rand, rand')];
      reply := Answer(true, encrypted);
    }

    method DoServerChallengeResp(id: string, response: Bytes) returns (reply: Reply)
      requires id in sessions && sessions[id].uniqueID == id
      modifies this`sessions, this`log
      ensures (State(), reply) == ServerChallengeResp(old(State()), c, id, response)
    {
      if sessions[id].lastPhase != CLIENTCHALLENGE {
        reply := FailSession(id, "Out of order call to serverchallengeresp");
        return;
      }
      SetPhase(id, SERVERCHALLENGERESP);
      var s := sessions[id];
      if s.cipherKey.None? || s.serversecret == [] {
        reply := FailSession(id, MISSING_SECRET);
        assert sessions == old(sessions) - {id};
        return;
      }
      sessions := sessions[id := s.(clienthash := c.decrypt(s.cipherKey.value, response))];
      assert sessions == old(sessions)[id := s.(clienthash := c.decrypt(s.cipherKey.value, response))];
      log := log + [Answered(s.serial, response)];
      reply := Answer(true, s.serversecret + c.sign(s.serversecret));
    }

    method DoClientPairingSecret(id: string, proof: Bytes) returns (reply: Reply)
      requires id in sessions && sessions[id].uniqueID == id
      modifies this`sessions, this`authorised, this`log
      ensures (State(), reply) == ClientPairingSecret(old(State()), c, id, proof)
    {
      if sessions[id].lastPhase != SERVERCHALLENGERESP {
        reply := FailSession(id, "Out of order call to clientpairingsecret");
        return;
      }
      SetPhase(id, CLIENTPAIRINGSECRET);
      var s := sessions[id];
      if |proof| <= 16 {
        reply := FailSession(id, "Client pairing secret too short");
        assert sessions == old(sessions) - {id};
        return;
      }
      if !c.valid(s.cert) {
        reply := FailSession(id, "Invalid client certificate");
        assert sessions == old(sessions) - {id};
        return;
      }
      var secret, sign := proof[..16], proof[16..];
      var sameHash := c.hash(s.serverchallenge + c.signature(s.cert) + secret) == s.clienthash;
      if sameHash && c.verify(s.cert, secret, sign) {
        authorised := authorised + [(s.name, s.cert)];
        log := log + [Paired(s.serial, s.name, s.cert, proof)];
        reply := Answer(true, []);
      } else {
        log := log + [Rejected(s.serial, proof)];
        reply := Answer(false, []);
      }
      sessions := sessions - {id};
      assert sessions == old(sessions) - {id};
    }

    /**
     * The request of the first phase: the session is made, or found, and waits for the PIN unless it is typed right
     * away.
     */
    method AskServerCert(id: string, cert: Bytes, salt: Option<string>, typed: string) returns (reply: Reply)
      requires id in sessions ==> sessions[id].uniqueID == id
      modifies this`sessions, this`next, this`log
      ensures (State(), reply) == AskCert(old(State()), c, id, cert, salt, stdin, typed)
    {
      if id !in sessions {
        sessions := sessions[id := Session(next, id, cert, "", None, [], [], [], false, "", NONE)];
        log, next := log + [Created(next, id, cert)], next + 1;
      }
      if salt.None? {
        return Exception;
      }
      ghost var found := sessions;
      sessions := sessions[id := sessions[id].(salt := salt.value)];
      if stdin {
        reply := DoGetServerCert(id, typed);
      } else {
        sessions := sessions[id := sessions[id].(waiting := true)];
        assert sessions == found[id := found[id].(salt := salt.value, waiting := true)];
        reply := Deferred;
      }
    }

    /** `pin`: the first session of the map gets the PIN. `gone` is whether the code then uses a session it removed. */
    method EnterPin(pin: string, name: string, first: string) returns (ok: bool, gone: bool)
      requires first in sessions ==> sessions[first].uniqueID == first
      modifies this`sessions, this`log
      ensures (State(), ok) == PinEntered(old(State()), c, pin, name, first)
      ensures gone <==>
        first in old(sessions) && PinOk(pin)
        && (old(sessions)[first].lastPhase != NONE || |old(sessions)[first].salt| < 32)
    {
      gone := false;
      if first !in sessions || !PinOk(pin) {
        return false, false;
      }
      ok := sessions[first].waiting;
      var _ := DoGetServerCert(first, pin);
      if first in sessions {
        sessions := sessions[first := sessions[first].(name := name, waiting := false)];
      } else {
        gone := true;
      }
    }

    /** A request of one of the later phases. */
    method Continue(id: string, step: SessionStep, luck: Luck) returns (reply: Reply)
      requires id in sessions ==> sessions[id].uniqueID == id
      modifies this`sessions, this`authorised, this`log
      ensures (State(), reply) == Handle(old(State()), c, stdin, ForSession(id, step), luck)
    {
      if id !in sessions {
        return Error(400, "Invalid uniqueid");
      }
      match step {
        case Challenge(challenge) => reply := DoClientChallenge(id, challenge, luck.secret, luck.serverchallenge);
        case Response(response) => reply := DoServerChallengeResp(id, response);
        case Proof(proof) => reply := DoClientPairingSecret(id, proof);
        case Unknown => reply := Error(404, "Invalid pairing request");
      }
    }
  }
}
