/**
 * Pairing as a client sees it, src/nvhttp.cpp: what the replies of the four phases let it check, and that a client that
 * follows the protocol is paired, whatever other clients do in between.
 */
module PairingClient {
  import opened Basics
  import opened Pairing

  /** What is relied on of ciphers without padding, hashes and signatures. */
  ghost predicate Lawful(c: Crypto) {
    && (forall k, x :: |x| % 16 == 0 ==> c.decrypt(k, c.encrypt(k, x)) == x)
    && (forall x :: |c.hash(x)| == 32)
    && (forall m :: c.verify(c.serverCert, m, c.sign(m)))
  }

  /** A client, the PIN it shows, and what it draws at random. */
  datatype Client = Client(id: string, name: string, cert: Bytes, salt: string, pin: string, challenge: Bytes,
                           secret: Bytes, signature: Bytes)

  /** Its certificate is valid, and its signature of its secret verifies under it. */
  ghost predicate Proper(c: Crypto, cl: Client) {
    && |cl.salt| >= 32 && PinOk(cl.pin) && |cl.challenge| == 16 && |cl.secret| == 16 && |cl.signature| > 0
    && c.valid(cl.cert) && c.verify(cl.cert, cl.secret, cl.signature)
  }

  // ----- the client's part -----

  function Key(c: Crypto, cl: Client): Bytes
    requires |cl.salt| >= 32
  {
    c.genKey(cl.salt[..32], cl.pin)
  }

  function Data(r: Reply): Bytes {
    if r.Answer? then r.data else []
  }

  /** The decrypted reply to the challenge: the server's hash, then its own challenge. */
  function Opened(c: Crypto, cl: Client, challenged: Reply): Bytes
    requires |cl.salt| >= 32
  {
    c.decrypt(Key(c, cl), Data(challenged))
  }

  function From(s: Bytes, i: nat): Bytes { if i <= |s| then s[i..] else [] }

  function Until(s: Bytes, i: nat): Bytes { if i <= |s| then s[..i] else s }

  function ChallengeStep(c: Crypto, cl: Client): SessionStep
    requires |cl.salt| >= 32
  {
    Challenge(c.encrypt(Key(c, cl), cl.challenge))
  }

  function ResponseStep(c: Crypto, cl: Client, challenged: Reply): SessionStep
    requires |cl.salt| >= 32
  {
    Response(c.encrypt(Key(c, cl), c.hash(From(Opened(c, cl, challenged), 32) + c.signature(cl.cert) + cl.secret)))
  }

  function ProofStep(cl: Client): SessionStep {
    Proof(cl.secret + cl.signature)
  }

  /**
   * The client's check of the server: the secret of phase three is signed by the server, and with the client's
   * challenge and the signature of the server's certificate it hashes to what phase two committed to.
   */
  predicate ServerProves(c: Crypto, cl: Client, challenged: Reply, responded: Reply)
    requires |cl.salt| >= 32
  {
    && challenged.Answer? && challenged.paired && responded.Answer? && responded.paired
    && |responded.data| >= 16 && c.verify(c.serverCert, responded.data[..16], responded.data[16..])
    && c.hash(cl.challenge + c.signature(c.serverCert) + responded.data[..16]) == Until(Opened(c, cl, challenged), 32)
    && |From(Opened(c, cl, challenged), 32)| == 16
  }

  // ----- other requests -----

  /** The request is not about the session of this id. */
  predicate Elsewhere(r: Request, luck: Luck, id: string) {
    match r
    case AskServerCert(other, _, _) => other != id
    case ForSession(other, _) => other != id
    case Pin(_, _) => luck.first != id
    case _ => true
  }

  function More(sv: Server, run: Run, c: Crypto, stdin: bool): Server
    decreases |run|
  {
    if run == [] then sv else More(Handle(sv, c, stdin, run[0].0, run[0].1).0, run[1..], c, stdin)
  }

  /** The session of `id` is the same, and whoever was authorised still is. */
  ghost predicate Kept(sv: Server, sv': Server, id: string) {
    && (id in sv.sessions <==> id in sv'.sessions)
    && (id in sv.sessions ==> sv'.sessions[id] == sv.sessions[id])
    && sv.authorised <= sv'.authorised
  }

  lemma FirstPhaseElsewhere(sv: Server, c: Crypto, other: string, pin: string, id: string)
    requires other in sv.sessions && sv.sessions[other].uniqueID == other && other != id
    ensures Kept(sv, GetServerCert(sv, c, other, pin).0, id)
  {
  }

  lemma LaterPhaseElsewhere(sv: Server, c: Crypto, other: string, step: SessionStep, luck: Luck, id: string)
    requires other in sv.sessions && SessionOk(sv, c, other) && other != id
    ensures Kept(sv, OnSession(sv, c, other, step, luck).0, id)
  {
    match step {
      case Challenge(challenge) =>
        assert Kept(sv, ClientChallenge(sv, c, other, challenge, luck.secret, luck.serverchallenge).0, id);
      case Response(response) => assert Kept(sv, ServerChallengeResp(sv, c, other, response).0, id);
      case Proof(proof) => assert Kept(sv, ClientPairingSecret(sv, c, other, proof).0, id);
      case Unknown =>
    }
  }

  lemma AskElsewhere(sv: Server, c: Crypto, stdin: bool, other: string, cert: Bytes, salt: Option<string>,
                     typed: string, id: string)
    requires Inv(sv, c) && other != id
    ensures Kept(sv, AskCert(sv, c, other, cert, salt, stdin, typed).0, id)
  {
    EmplaceElsewhere(sv, c, other, cert, id);
    if salt.Some? && stdin {
      SaltedElsewhere(Emplace(sv, other, cert), c, other, salt.value, typed, id);
    }
  }

  lemma EmplaceElsewhere(sv: Server, c: Crypto, other: string, cert: Bytes, id: string)
    requires Inv(sv, c) && other != id
    ensures Kept(sv, Emplace(sv, other, cert), id) && Emplace(sv, other, cert).sessions[other].uniqueID == other
  {
    if other in sv.sessions {
      assert SessionOk(sv, c, other);
    }
  }

  lemma SaltedElsewhere(sv: Server, c: Crypto, other: string, salt: string, typed: string, id: string)
    requires other in sv.sessions && sv.sessions[other].uniqueID == other && other != id
    ensures Kept(sv, GetServerCert(Update(sv, other, sv.sessions[other].(salt := salt)), c, other, typed).0, id)
  {
    FirstPhaseElsewhere(Update(sv, other, sv.sessions[other].(salt := salt)), c, other, typed, id);
  }

  lemma PinElsewhere(sv: Server, c: Crypto, pin: string, name: string, first: string, id: string)
    requires Inv(sv, c) && first != id
    ensures Kept(sv, PinEntered(sv, c, pin, name, first).0, id)
  {
    if first in sv.sessions && PinOk(pin) {
      assert SessionOk(sv, c, first);
      FirstPhaseElsewhere(sv, c, first, pin, id);
    }
  }

  lemma ElsewhereKeeps(sv: Server, c: Crypto, stdin: bool, r: Request, luck: Luck, id: string)
    requires Inv(sv, c) && Elsewhere(r, luck, id)
    ensures Kept(sv, Handle(sv, c, stdin, r, luck).0, id)
  {
    match r {
      case ForSession(other, step) =>
        if other in sv.sessions {
          assert SessionOk(sv, c, other);
          LaterPhaseElsewhere(sv, c, other, step, luck, id);
        }
      case Pin(pin, name) => PinElsewhere(sv, c, pin, name, luck.first, id);
      case AskServerCert(other, cert, salt) =>
        if cert.Some? {
          AskElsewhere(sv, c, stdin, other, cert.value, salt, luck.typed, id);
        }
      case _ =>
    }
  }

  ghost predicate AllElsewhere(run: Run, id: string) {
    forall i :: 0 <= i < |run| ==> Elsewhere(run[i].0, run[i].1, id)
  }

  lemma {:induction false} GapKeeps(sv: Server, run: Run, c: Crypto, stdin: bool, id: string)
    requires Inv(sv, c) && AllElsewhere(run, id)
    ensures Inv(More(sv, run, c, stdin), c) && Kept(sv, More(sv, run, c, stdin), id)
    decreases |run|
  {
    if run != [] {
      assert Elsewhere(run[0].0, run[0].1, id);
      HandleKeepsInv(sv, c, stdin, run[0].0, run[0].1);
      ElsewhereKeeps(sv, c, stdin, run[0].0, run[0].1, id);
      assert forall i :: 0 <= i < |run[1..]| ==> run[1..][i] == run[i + 1];
      GapKeeps(Handle(sv, c, stdin, run[0].0, run[0].1).0, run[1..], c, stdin, id);
    }
  }

  // ----- the four phases of one client -----

  /** Where the session of a client stands after each phase. */
  ghost predicate Asked(sv: Server, cl: Client) {
    cl.id in sv.sessions &&
    var s := sv.sessions[cl.id];
    s.lastPhase == NONE && s.cert == cl.cert && s.salt == cl.salt && s.waiting
  }

  ghost predicate Agreed(sv: Server, c: Crypto, cl: Client, name: string)
    requires |cl.salt| >= 32
  {
    cl.id in sv.sessions &&
    var s := sv.sessions[cl.id];
    s.lastPhase == GETSERVERCERT && s.cert == cl.cert && s.name == name && s.cipherKey == Some(Key(c, cl))
  }

  ghost predicate Challenging(sv: Server, c: Crypto, cl: Client, name: string, challenged: Reply)
    requires |cl.salt| >= 32
  {
    cl.id in sv.sessions &&
    var s := sv.sessions[cl.id];
    && s.lastPhase == CLIENTCHALLENGE && s.cert == cl.cert && s.name == name && s.cipherKey == Some(Key(c, cl))
    && |s.serversecret| == 16 && |s.serverchallenge| == 16 && challenged.Answer? && challenged.paired
    && Opened(c, cl, challenged)
       == c.hash(cl.challenge + c.signature(c.serverCert) + s.serversecret) + s.serverchallenge
  }

  ghost predicate Responding(sv: Server, c: Crypto, cl: Client, name: string) {
    cl.id in sv.sessions &&
    var s := sv.sessions[cl.id];
    && s.lastPhase == SERVERCHALLENGERESP && s.cert == cl.cert && s.name == name && s.uniqueID == cl.id
    && s.clienthash == c.hash(s.serverchallenge + c.signature(cl.cert) + cl.secret)
  }

  lemma AskPhase(sv: Server, c: Crypto, stdin: bool, cl: Client, luck: Luck)
    requires cl.id !in sv.sessions && |cl.salt| >= 32 && (stdin ==> luck.typed == cl.pin)
    ensures var (sv', reply) := Handle(sv, c, stdin, Ask(cl), luck);
      if stdin then Agreed(sv', c, cl, "") && reply == Answer(true, c.serverCert)
      else Asked(sv', cl) && reply == Deferred
  {
  }

  lemma PinPhase(sv: Server, c: Crypto, stdin: bool, cl: Client, luck: Luck)
    requires Asked(sv, cl) && |cl.salt| >= 32 && PinOk(cl.pin) && luck.first == cl.id
    ensures var (sv', reply) := Handle(sv, c, stdin, Pin(cl.pin, cl.name), luck);
      Agreed(sv', c, cl, cl.name) && reply == Answer(true, [])
    ensures GetServerCert(sv, c, cl.id, cl.pin).1 == Answer(true, c.serverCert)
  {
  }

  lemma ChallengePhase(sv: Server, c: Crypto, stdin: bool, cl: Client, name: string, luck: Luck)
    requires Lawful(c) && |cl.salt| >= 32 && |cl.challenge| == 16 && Agreed(sv, c, cl, name)
    ensures var (sv', reply) := Handle(sv, c, stdin, ForSession(cl.id, ChallengeStep(c, cl)), luck);
      Challenging(sv', c, cl, name, reply)
  {
    var key := Key(c, cl);
    assert c.decrypt(key, c.encrypt(key, cl.challenge)) == cl.challenge;
    var plain := c.hash(cl.challenge + c.signature(c.serverCert) + luck.secret) + luck.serverchallenge;
    assert |plain| == 48;
    assert c.decrypt(key, c.encrypt(key, plain)) == plain;
  }

  lemma ResponsePhase(sv: Server, c: Crypto, stdin: bool, cl: Client, name: string, challenged: Reply, luck: Luck)
    requires Lawful(c) && |cl.salt| >= 32 && Challenging(sv, c, cl, name, challenged) && SessionOk(sv, c, cl.id)
    ensures var (sv', reply) := Handle(sv, c, stdin, ForSession(cl.id, ResponseStep(c, cl, challenged)), luck);
      Responding(sv', c, cl, name) && ServerProves(c, cl, challenged, reply)
  {
    var s, key := sv.sessions[cl.id], Key(c, cl);
    var serverHash := c.hash(cl.challenge + c.signature(c.serverCert) + s.serversecret);
    var inside := Opened(c, cl, challenged);
    assert inside[..32] == serverHash && inside[32..] == s.serverchallenge;
    var plain := c.hash(s.serverchallenge + c.signature(cl.cert) + cl.secret);
    assert c.decrypt(key, c.encrypt(key, plain)) == plain;
    var data := s.serversecret + c.sign(s.serversecret);
    assert data[..16] == s.serversecret && data[16..] == c.sign(s.serversecret);
  }

  lemma ProofPhase(sv: Server, c: Crypto, stdin: bool, cl: Client, name: string, luck: Luck)
    requires Proper(c, cl) && Responding(sv, c, cl, name)
    ensures var (sv', reply) := Handle(sv, c, stdin, ForSession(cl.id, ProofStep(cl)), luck);
      && reply == Answer(true, []) && cl.id !in sv'.sessions
      && sv'.authorised == sv.authorised + [(name, cl.cert)]
  {
    var proof := cl.secret + cl.signature;
    assert proof[..16] == cl.secret && proof[16..] == cl.signature;
  }

  // ----- the whole conversation -----

  /**
   * What chance and others do while a client pairs: its luck with each of its requests, and what is asked in between.
   */
  datatype World = World(ask: Luck, pin: Luck, challenge: Luck, response: Luck, proof: Luck,
                         gap1: Run, gap2: Run, gap3: Run, gap4: Run)

  /** Others ask for nothing in the name of this client, and the PIN that is entered for it is its own. */
  ghost predicate Undisturbed(w: World, cl: Client, stdin: bool) {
    && AllElsewhere(w.gap1, cl.id) && AllElsewhere(w.gap2, cl.id)
    && AllElsewhere(w.gap3, cl.id) && AllElsewhere(w.gap4, cl.id)
    && if stdin then w.ask.typed == cl.pin else w.pin.first == cl.id
  }

  /** The replies a client gets, the certificate it is sent, and how the server ends. */
  datatype Talk = Talk(first: Beginning, rest: Phases)

  datatype Beginning = Beginning(asked: Reply, pinned: Reply, cert: Reply, end: Server)

  datatype Phases = Phases(challenged: Reply, responded: Reply, proved: Reply, end: Server)

  function CertReply(sv: Server, c: Crypto, cl: Client): Reply {
    if cl.id in sv.sessions then GetServerCert(sv, c, cl.id, cl.pin).1 else Exception
  }

  /** The last three phases, each step made from the replies so far, with other requests in the gaps between them. */
  function LastPhases(sv: Server, c: Crypto, stdin: bool, cl: Client, w: World): Phases
    requires |cl.salt| >= 32
  {
    var challenged := Handle(sv, c, stdin, ForSession(cl.id, ChallengeStep(c, cl)), w.challenge);
    var sv1 := More(challenged.0, w.gap3, c, stdin);
    var responded := Handle(sv1, c, stdin, ForSession(cl.id, ResponseStep(c, cl, challenged.1)), w.response);
    var sv2 := More(responded.0, w.gap4, c, stdin);
    var proved := Handle(sv2, c, stdin, ForSession(cl.id, ProofStep(cl)), w.proof);
    Phases(challenged.1, responded.1, proved.1, proved.0)
  }

  function Ask(cl: Client): Request {
    AskServerCert(cl.id, Some(cl.cert), Some(cl.salt))
  }

  /**
   * The first phase: with the PIN typed at the console the certificate is sent at once, otherwise when the PIN is
   * entered.
   */
  function Begin(sv: Server, c: Crypto, stdin: bool, cl: Client, w: World): Beginning {
    var asked := Handle(sv, c, stdin, Ask(cl), w.ask);
    var sv1 := More(asked.0, w.gap1, c, stdin);
    if stdin then Beginning(asked.1, asked.1, asked.1, sv1)
    else
      var pinned := Handle(sv1, c, stdin, Pin(cl.pin, cl.name), w.pin);
      Beginning(asked.1, pinned.1, CertReply(sv1, c, cl), pinned.0)
  }

  /** All four phases. */
  function Conversation(sv: Server, c: Crypto, stdin: bool, cl: Client, w: World): Talk
    requires |cl.salt| >= 32
  {
    var first := Begin(sv, c, stdin, cl, w);
    Talk(first, LastPhases(More(first.end, w.gap2, c, stdin), c, stdin, cl, w))
  }

  /**
   * The client could check the server, was told that it is paired, and is authorised by this name with its certificate.
   */
  ghost predicate Success(c: Crypto, cl: Client, name: string, p: Phases)
    requires |cl.salt| >= 32
  {
    && ServerProves(c, cl, p.challenged, p.responded)
    && p.proved == Answer(true, []) && cl.id !in p.end.sessions
    && p.end.authorised != [] && p.end.authorised[|p.end.authorised| - 1] == (name, cl.cert)
  }

  lemma LastThreePhases(sv: Server, c: Crypto, stdin: bool, cl: Client, name: string, w: World)
    requires Inv(sv, c) && Lawful(c) && Proper(c, cl) && Agreed(sv, c, cl, name) && Undisturbed(w, cl, stdin)
    ensures Success(c, cl, name, LastPhases(sv, c, stdin, cl, w))
  {
    var challenge := ForSession(cl.id, ChallengeStep(c, cl));
    ChallengePhase(sv, c, stdin, cl, name, w.challenge);
    HandleKeepsInv(sv, c, stdin, challenge, w.challenge);
    var challenged := Handle(sv, c, stdin, challenge, w.challenge);
    GapKeeps(challenged.0, w.gap3, c, stdin, cl.id);
    LastTwoPhases(More(challenged.0, w.gap3, c, stdin), c, stdin, cl, name, challenged.1, w.response, w.proof, w.gap4);
  }

  lemma LastTwoPhases(sv: Server, c: Crypto, stdin: bool, cl: Client, name: string, challenged: Reply, luck: Luck,
                      luck': Luck, gap: Run)
    requires Inv(sv, c) && Lawful(c) && Proper(c, cl)
    requires Challenging(sv, c, cl, name, challenged) && AllElsewhere(gap, cl.id)
    ensures var responded := Handle(sv, c, stdin, ForSession(cl.id, ResponseStep(c, cl, challenged)), luck);
      var proved := Handle(More(responded.0, gap, c, stdin), c, stdin, ForSession(cl.id, ProofStep(cl)), luck');
      Success(c, cl, name, Phases(challenged, responded.1, proved.1, proved.0))
  {
    var response := ForSession(cl.id, ResponseStep(c, cl, challenged));
    assert SessionOk(sv, c, cl.id);
    ResponsePhase(sv, c, stdin, cl, name, challenged, luck);
    HandleKeepsInv(sv, c, stdin, response, luck);
    var responded := Handle(sv, c, stdin, response, luck);
    GapKeeps(responded.0, gap, c, stdin, cl.id);
    ProofPhase(More(responded.0, gap, c, stdin), c, stdin, cl, name, luck');
  }

  /** The name comes with the PIN, unless that is typed at the console. */
  function NameOf(cl: Client, stdin: bool): string {
    if stdin then "" else cl.name
  }

  /** The client was sent the server's certificate, and with a PIN to enter, was told to wait. */
  predicate Sent(c: Crypto, stdin: bool, b: Beginning) {
    b.cert == Answer(true, c.serverCert) && (!stdin ==> b.asked == Deferred && b.pinned == Answer(true, []))
  }

  /** After the first phase the session has its key. */
  lemma FirstPhase(sv: Server, c: Crypto, stdin: bool, cl: Client, w: World)
    requires Inv(sv, c) && Proper(c, cl) && cl.id !in sv.sessions && Undisturbed(w, cl, stdin)
    ensures var b := Begin(sv, c, stdin, cl, w);
      && Inv(b.end, c) && Agreed(b.end, c, cl, NameOf(cl, stdin)) && Sent(c, stdin, b)
  {
    AskPhase(sv, c, stdin, cl, w.ask);
    HandleKeepsInv(sv, c, stdin, Ask(cl), w.ask);
    var asked := Handle(sv, c, stdin, Ask(cl), w.ask);
    GapKeeps(asked.0, w.gap1, c, stdin, cl.id);
    if !stdin {
      PinPhase(More(asked.0, w.gap1, c, stdin), c, stdin, cl, w.pin);
      HandleKeepsInv(More(asked.0, w.gap1, c, stdin), c, stdin, Pin(cl.pin, cl.name), w.pin);
    }
  }

  lemma NewClientPairs(sv: Server, c: Crypto, stdin: bool, cl: Client, w: World)
    requires Inv(sv, c) && Lawful(c) && Proper(c, cl) && cl.id !in sv.sessions && Undisturbed(w, cl, stdin)
    ensures var talk := Conversation(sv, c, stdin, cl, w);
      Sent(c, stdin, talk.first) && Success(c, cl, NameOf(cl, stdin), talk.rest)
  {
    FirstPhase(sv, c, stdin, cl, w);
    var begun := Begin(sv, c, stdin, cl, w).end;
    GapKeeps(begun, w.gap2, c, stdin, cl.id);
    LastThreePhases(More(begun, w.gap2, c, stdin), c, stdin, cl, NameOf(cl, stdin), w);
  }

  /**
   * Whatever was done before and whatever others do in between: a client with a new id that follows the protocol, whose
   * PIN is the one that is entered for it, can check the server with what it is sent, is told that it is paired, and is
   * authorised with its own certificate.
   */
  lemma RightPinPairs(run: Run, c: Crypto, stdin: bool, cl: Client, w: World)
    requires Lawful(c) && Proper(c, cl) && cl.id !in AfterRun(run, c, stdin).sessions && Undisturbed(w, cl, stdin)
    ensures var talk := Conversation(AfterRun(run, c, stdin), c, stdin, cl, w);
      Sent(c, stdin, talk.first) && Success(c, cl, NameOf(cl, stdin), talk.rest)
  {
    AlwaysInv(run, c, stdin);
    NewClientPairs(AfterRun(run, c, stdin), c, stdin, cl, w);
  }
}
