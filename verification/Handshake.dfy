/** The handshake (db/net/connection.cpp, db/net/handshake.cpp, db/net/auth_helpers.h): each side decides on its
    own whether it trusts the other's address; the decisions meet in a lightweight exchange, a KEM exchange, or a
    KEM exchange the responder asks for. Each coroutine sends and then waits for one message, so a side is a
    state and what it does with the next raw frame. */
module Handshake {
  import opened Basics
  import opened Octets
  import opened Frames
  import opened MessageStream

  const KEM_PUBKEY: byte := 1
  const KEM_CIPHERTEXT: byte := 2
  const AUTH_SIGNATURE: byte := 3
  const TRUSTED_HELLO: byte := 23
  const PQ_REQUIRED: byte := 24

  const SIGNING_PK_SIZE: nat := 2592
  const KEM_PK_SIZE: nat := 1568
  const KEM_CT_SIZE: nat := 1568
  const HELLO_NONCE_SIZE: nat := 32

  const INIT_TO_RESP: string := "chromatin-init-to-resp-v1"
  const RESP_TO_INIT: string := "chromatin-resp-to-init-v1"

  /** The primitives. Sealing takes key, nonce and text; extraction takes salt and key material. */
  datatype Kit = Kit(
    codec: Codec,
    seal: (Bytes, Bytes, Bytes) -> Bytes,
    open: (Bytes, Bytes, Bytes) -> Option<Bytes>,
    extract: (Bytes, Bytes) -> Bytes,
    expand: (Bytes, string) -> Bytes,
    sha3: Bytes -> Bytes,
    kemPublic: Bytes -> Bytes,
    encaps: (Bytes, Bytes) -> (Bytes, Bytes),
    decaps: (Bytes, Bytes) -> Bytes,
    public: Bytes -> Bytes,
    sign: (Bytes, Bytes) -> Bytes,
    verify: (Bytes, Bytes, Bytes) -> bool)

  ghost predicate KitLaw(k: Kit) {
    && CodecLaw(k.codec)
    && (forall key, n, m :: k.open(key, n, k.seal(key, n, m)) == Some(m))
    && (forall sk, coins :: k.decaps(sk, k.encaps(k.kemPublic(sk), coins).0) == k.encaps(k.kemPublic(sk), coins).1)
    && (forall sk, m :: k.verify(m, k.sign(sk, m), k.public(sk)))
    && (forall sk :: |k.kemPublic(sk)| == KEM_PK_SIZE && |k.public(sk)| == SIGNING_PK_SIZE)
    && (forall pk, coins :: |k.encaps(pk, coins).0| == KEM_CT_SIZE)
  }

  function Zeros(n: nat): (r: Bytes)
    ensures |r| == n
  {
    seq(n, _ => 0)
  }

  /** The laws can be met together, with a sealed text 16 bytes longer than the text. */
  lemma KitLawConsistent() returns (k: Kit)
    ensures KitLaw(k) && forall key, n, m :: |k.seal(key, n, m)| == |m| + TAG_SIZE
  {
    var codec := CodecLawConsistent();
    k := Kit(codec, (key, n, m: Bytes) => m + Zeros(TAG_SIZE),
             (key, n, c: Bytes) => if |c| < TAG_SIZE then None else Some(c[..|c| - TAG_SIZE]),
             (salt, ikm) => [], (prk, context) => [], x => x,
             sk => Zeros(KEM_PK_SIZE), (pk, coins) => (Zeros(KEM_CT_SIZE), []), (sk, ct) => [],
             sk => Zeros(SIGNING_PK_SIZE), (sk, m) => [], (m, sig, pk) => true);
    assert forall key, n, m :: k.seal(key, n, m)[..|m|] == m;
  }

  /** Directional keys and the session fingerprint. */
  datatype Keys = Keys(send: Bytes, recv: Bytes, fingerprint: Bytes)

  function Directed(k: Kit, prk: Bytes, fingerprint: Bytes, initiator: bool): Keys {
    var ir, ri := k.expand(prk, INIT_TO_RESP), k.expand(prk, RESP_TO_INIT);
    if initiator then Keys(ir, ri, fingerprint) else Keys(ri, ir, fingerprint)
  }

  function SessionKeys(k: Kit, secret: Bytes, initPk: Bytes, respPk: Bytes, initiator: bool): Keys {
    Directed(k, k.extract([], secret), k.sha3(secret + initPk + respPk), initiator)
  }

  function LightweightKeys(k: Kit, initNonce: Bytes, respNonce: Bytes, initPk: Bytes, respPk: Bytes, initiator: bool):
    Keys
  {
    var nonces, pks := initNonce + respNonce, initPk + respPk;
    Directed(k, k.extract(pks, nonces), k.sha3(nonces + pks), initiator)
  }

  // The authentication payload.

  datatype Auth = Auth(role: byte, pubkey: Bytes, signature: Bytes)

  /** Peer and client; the other role values are reserved. */
  predicate ImplementedRole(role: byte) {
    role == 0 || role == 1
  }

  function EncodeAuth(a: Auth): Bytes {
    [a.role] + BigEndian(|a.pubkey|, 4) + a.pubkey + a.signature
  }

  function DecodeAuth(data: Bytes): Option<Auth> {
    if |data| < 5 || !ImplementedRole(data[0]) then None
    else if ReadBigEndian(data[1..5]) != SIGNING_PK_SIZE || SIGNING_PK_SIZE > |data| - 5 then None
    else Some(Auth(data[0], data[5..5 + SIGNING_PK_SIZE], data[5 + SIGNING_PK_SIZE..]))
  }

  /** An authentication payload reads back exactly when its role is implemented. */
  lemma AuthRoundTripIff(a: Auth)
    requires |a.pubkey| == SIGNING_PK_SIZE
    ensures DecodeAuth(EncodeAuth(a)) == if ImplementedRole(a.role) then Some(a) else None
  {
    SpanValues();
    BigEndianRoundTrip(SIGNING_PK_SIZE, 4);
    var data := EncodeAuth(a);
    assert data[1..5] == BigEndian(|a.pubkey|, 4);
    assert data[5..5 + SIGNING_PK_SIZE] == a.pubkey && data[5 + SIGNING_PK_SIZE..] == a.signature;
  }

  // One side.

  /** `trusts` is the side's own decision about the other's address. The rest is its identity, its role and
      what it draws at random. */
  datatype Side = Side(initiator: bool, trusts: bool, secret: Bytes, role: byte, nonce: Bytes, kemSecret: Bytes,
                       coins: Bytes)

  /** `announced` is the key the other side gave in its hello, where the path checks it. */
  datatype Pc =
    | AwaitFirst | AwaitHello | AwaitKemPubkey | AwaitCiphertext
    | AwaitAuth(announced: Option<Bytes>)
    | Done | Failed

  datatype Session = Session(pc: Pc, keys: Keys, peerPk: Bytes, peerRole: byte, authenticated: bool,
                             sendCounter: nat, recvCounter: nat)

  datatype Turn = Turn(session: Session, out: seq<Bytes>)

  const NO_KEYS: Keys := Keys([], [], [])
  const FRESH: Session := Session(AwaitFirst, NO_KEYS, [], 0, false, 0, 0)

  function Fail(s: Session): Turn {
    Turn(s.(pc := Failed), [])
  }

  function Plain(k: Kit, ty: byte, payload: Bytes): Bytes {
    k.codec.encode(Message(ty, 0, payload))
  }

  function Hello(k: Kit, me: Side): Bytes {
    Plain(k, TRUSTED_HELLO, me.nonce + k.public(me.secret))
  }

  function KemHello(k: Kit, me: Side): Bytes {
    Plain(k, KEM_PUBKEY, k.kemPublic(me.kemSecret) + k.public(me.secret))
  }

  /** The signature over the fingerprint, sealed as the side's next frame. */
  function SealedAuth(k: Kit, me: Side, s: Session): Bytes {
    var auth := Auth(me.role, k.public(me.secret), k.sign(me.secret, s.keys.fingerprint));
    k.seal(s.keys.send, MakeNonce(s.sendCounter), Plain(k, AUTH_SIGNATURE, EncodeAuth(auth)))
  }

  function SendAuth(k: Kit, me: Side, s: Session): Turn {
    Turn(s.(sendCounter := s.sendCounter + 1), [SealedAuth(k, me, s)])
  }

  function Begin(k: Kit, me: Side): Turn {
    if !me.initiator then Turn(FRESH, [])
    else if me.trusts then Turn(FRESH.(pc := AwaitHello), [Hello(k, me)])
    else Turn(FRESH.(pc := AwaitCiphertext), [KemHello(k, me)])
  }

  /** The initiator's turn after its hello. */
  function OnHelloReply(k: Kit, me: Side, s: Session, m: Message): Turn {
    if m.ty == TRUSTED_HELLO then
      if |m.payload| != HELLO_NONCE_SIZE + SIGNING_PK_SIZE then Fail(s)
      else
        var peer := m.payload[HELLO_NONCE_SIZE..];
        var keys := LightweightKeys(k, me.nonce, m.payload[..HELLO_NONCE_SIZE], k.public(me.secret), peer, true);
        SendAuth(k, me, s.(pc := AwaitAuth(Some(peer)), keys := keys))
    else if m.ty == PQ_REQUIRED then Turn(s.(pc := AwaitCiphertext), [KemHello(k, me)])
    else Fail(s)
  }

  function OnCiphertext(k: Kit, me: Side, s: Session, m: Message): Turn {
    if m.ty != KEM_CIPHERTEXT || |m.payload| != KEM_CT_SIZE + SIGNING_PK_SIZE then Fail(s)
    else
      var secret := k.decaps(me.kemSecret, m.payload[..KEM_CT_SIZE]);
      var keys := SessionKeys(k, secret, k.public(me.secret), m.payload[KEM_CT_SIZE..], true);
      SendAuth(k, me, s.(pc := AwaitAuth(None), keys := keys))
  }

  function OnKemPubkey(k: Kit, me: Side, s: Session, m: Message): Turn {
    if m.ty != KEM_PUBKEY || |m.payload| != KEM_PK_SIZE + SIGNING_PK_SIZE then Fail(s)
    else
      var (ct, secret) := k.encaps(m.payload[..KEM_PK_SIZE], me.coins);
      var keys := SessionKeys(k, secret, m.payload[KEM_PK_SIZE..], k.public(me.secret), false);
      Turn(s.(pc := AwaitAuth(None), keys := keys), [Plain(k, KEM_CIPHERTEXT, ct + k.public(me.secret))])
  }

  /** The responder's first message decides the path. */
  function OnFirst(k: Kit, me: Side, s: Session, m: Message): Turn {
    if m.ty == TRUSTED_HELLO then
      if !me.trusts then Turn(s.(pc := AwaitKemPubkey), [Plain(k, PQ_REQUIRED, [])])
      else if |m.payload| != HELLO_NONCE_SIZE + SIGNING_PK_SIZE then Fail(s)
      else
        var peer := m.payload[HELLO_NONCE_SIZE..];
        var keys := LightweightKeys(k, m.payload[..HELLO_NONCE_SIZE], me.nonce, peer, k.public(me.secret), false);
        Turn(s.(pc := AwaitAuth(Some(peer)), keys := keys), [Hello(k, me)])
    else if m.ty == KEM_PUBKEY then OnKemPubkey(k, me, s, m)
    else Fail(s)
  }

  /** The authentication payload in a sealed frame. */
  function ReadAuth(k: Kit, key: Bytes, counter: nat, raw: Bytes): Option<Auth> {
    match k.open(key, MakeNonce(counter), raw)
    case None => None
    case Some(text) =>
      match k.codec.decode(text)
      case None => None
      case Some(m) => if m.ty == AUTH_SIGNATURE then DecodeAuth(m.payload) else None
  }

  /** The other side's signature. The responder answers with its own; the initiator has sent its already. */
  function OnAuth(k: Kit, me: Side, s: Session, raw: Bytes): Turn
    requires s.pc.AwaitAuth?
  {
    var s' := s.(recvCounter := s.recvCounter + 1);
    match ReadAuth(k, s.keys.recv, s.recvCounter, raw)
    case None => Fail(s')
    case Some(a) =>
      if s.pc.announced.Some? && a.pubkey != s.pc.announced.value then Fail(s')
      else if !k.verify(s.keys.fingerprint, a.signature, a.pubkey) then Fail(s')
      else
        var done := s'.(pc := Done, peerPk := a.pubkey, peerRole := a.role, authenticated := true);
        if me.initiator then Turn(done, []) else SendAuth(k, me, done)
  }

  /** One raw frame arrives. */
  function Receive(k: Kit, me: Side, s: Session, raw: Bytes): Turn {
    if s.pc.Done? || s.pc.Failed? then Turn(s, [])
    else if s.pc.AwaitAuth? then OnAuth(k, me, s, raw)
    else
      match k.codec.decode(raw)
      case None => Fail(s)
      case Some(m) =>
        match s.pc
        case AwaitFirst => OnFirst(k, me, s, m)
        case AwaitHello => OnHelloReply(k, me, s, m)
        case AwaitKemPubkey => OnKemPubkey(k, me, s, m)
        case AwaitCiphertext => OnCiphertext(k, me, s, m)
  }

  // Two honest sides and a channel each way.

  datatype World = World(init: Session, resp: Session, toResp: seq<Bytes>, toInit: seq<Bytes>)

  /** Which side is scheduled to read; with an empty channel it goes on waiting. */
  datatype Schedule = InitReads | RespReads

  function Initial(k: Kit, i: Side, r: Side): World {
    World(Begin(k, i).session, Begin(k, r).session, Begin(k, i).out, Begin(k, r).out)
  }

  function Step(k: Kit, i: Side, r: Side, w: World, e: Schedule): World {
    match e
    case RespReads =>
      if w.toResp == [] then w
      else
        var t := Receive(k, r, w.resp, w.toResp[0]);
        w.(resp := t.session, toResp := w.toResp[1..], toInit := w.toInit + t.out)
    case InitReads =>
      if w.toInit == [] then w
      else
        var t := Receive(k, i, w.init, w.toInit[0]);
        w.(init := t.session, toInit := w.toInit[1..], toResp := w.toResp + t.out)
  }

  function Run(k: Kit, i: Side, r: Side, evs: seq<Schedule>): World {
    if evs == [] then Initial(k, i, r) else Step(k, i, r, Run(k, i, r, evs[..|evs| - 1]), evs[|evs| - 1])
  }

  // The agreement.

  ghost predicate Honest(k: Kit, i: Side, r: Side) {
    KitLaw(k) && i.initiator && !r.initiator && |i.nonce| == HELLO_NONCE_SIZE && |r.nonce| == HELLO_NONCE_SIZE
  }

  predicate Mirrored(a: Keys, b: Keys) {
    a.send == b.recv && a.recv == b.send && a.fingerprint == b.fingerprint
  }

  /** The keys are shared and each side waits for the other's signature, checking it if the hello announced a key. */
  predicate Keyed(k: Kit, i: Side, r: Side, w: World) {
    && Mirrored(w.init.keys, w.resp.keys)
    && w.resp.recvCounter == 0 && w.init.recvCounter == 0 && w.init.sendCounter == 1 && w.resp.sendCounter == 0
    && w.init.pc.AwaitAuth? && w.init.pc.announced in {None, Some(k.public(r.secret))}
    && w.resp.pc.AwaitAuth? && w.resp.pc.announced in {None, Some(k.public(i.secret))}
    && !w.init.authenticated && !w.resp.authenticated
  }

  predicate Knows(k: Kit, s: Session, other: Side) {
    s.pc.Done? && s.authenticated && s.peerPk == k.public(other.secret) && s.peerRole == other.role
  }

  /** Both are authenticated, with equal fingerprints, mirrored keys, each other's key and role, counters at 1. */
  predicate Agreed(k: Kit, i: Side, r: Side, w: World) {
    && Knows(k, w.init, r) && Knows(k, w.resp, i) && Mirrored(w.init.keys, w.resp.keys)
    && w.init.sendCounter == 1 && w.init.recvCounter == 1 && w.resp.sendCounter == 1 && w.resp.recvCounter == 1
  }

  datatype Stage = Greeting | FallingBack | Offering | Encapsulated | HelloBack | InitSigned | RespSigned | Over

  /** What the world looks like at each stage. */
  predicate At(k: Kit, i: Side, r: Side, w: World, stage: Stage) {
    match stage
    case Greeting => i.trusts && w == World(FRESH.(pc := AwaitHello), FRESH, [Hello(k, i)], [])
    case FallingBack =>
      w == World(FRESH.(pc := AwaitHello), FRESH.(pc := AwaitKemPubkey), [], [Plain(k, PQ_REQUIRED, [])])
    case Offering =>
      && w.init == FRESH.(pc := AwaitCiphertext) && w.toResp == [KemHello(k, i)] && w.toInit == []
      && w.resp in {FRESH, FRESH.(pc := AwaitKemPubkey)}
    case Encapsulated =>
      var (ct, secret) := k.encaps(k.kemPublic(i.kemSecret), r.coins);
      var keys := SessionKeys(k, secret, k.public(i.secret), k.public(r.secret), false);
      w == World(FRESH.(pc := AwaitCiphertext), FRESH.(pc := AwaitAuth(None), keys := keys), [],
                 [Plain(k, KEM_CIPHERTEXT, ct + k.public(r.secret))])
    case HelloBack =>
      var keys := LightweightKeys(k, i.nonce, r.nonce, k.public(i.secret), k.public(r.secret), false);
      w == World(FRESH.(pc := AwaitHello), FRESH.(pc := AwaitAuth(Some(k.public(i.secret))), keys := keys), [],
                 [Hello(k, r)])
    case InitSigned =>
      Keyed(k, i, r, w) && w.toInit == [] && w.toResp == [SealedAuth(k, i, w.init.(sendCounter := 0))]
    case RespSigned =>
      && Mirrored(w.init.keys, w.resp.keys) && Knows(k, w.resp, i) && ImplementedRole(i.role)
      && w.init.pc.AwaitAuth? && w.init.pc.announced in {None, Some(k.public(r.secret))} && !w.init.authenticated
      && w.init.sendCounter == 1 && w.init.recvCounter == 0 && w.resp.sendCounter == 1 && w.resp.recvCounter == 1
      && w.toResp == [] && w.toInit == [SealedAuth(k, r, w.resp.(sendCounter := 0))]
    case Over =>
      && w.toResp == [] && w.toInit == []
      && (w.init.authenticated ==> Agreed(k, i, r, w))
      && (Agreed(k, i, r, w) <==> ImplementedRole(i.role) && ImplementedRole(r.role))
  }

  function Rank(stage: Stage): nat {
    match stage
    case Greeting => 0
    case FallingBack => 1
    case Offering => 2
    case Encapsulated => 3
    case HelloBack => 3
    case InitSigned => 4
    case RespSigned => 5
    case Over => 6
  }

  lemma Decodes(k: Kit, ty: byte, payload: Bytes)
    requires KitLaw(k)
    ensures k.codec.decode(Plain(k, ty, payload)) == Some(Message(ty, 0, payload))
  {
  }

  /** Reading a sealed signature of the other side, with the keys shared. */
  lemma AuthAccepted(k: Kit, me: Side, s: Session, other: Side, o: Session)
    requires KitLaw(k) && s.pc.AwaitAuth? && s.pc.announced in {None, Some(k.public(other.secret))}
    requires s.keys.recv == o.keys.send && s.keys.fingerprint == o.keys.fingerprint && s.recvCounter == o.sendCounter
    ensures var s' := s.(recvCounter := s.recvCounter + 1);
      var done := s'.(pc := Done, peerPk := k.public(other.secret), peerRole := other.role, authenticated := true);
      Receive(k, me, s, SealedAuth(k, other, o)) ==
        if !ImplementedRole(other.role) then Fail(s')
        else if me.initiator then Turn(done, [])
        else SendAuth(k, me, done)
  {
    var auth := Auth(other.role, k.public(other.secret), k.sign(other.secret, o.keys.fingerprint));
    AuthRoundTripIff(auth);
    Decodes(k, AUTH_SIGNATURE, EncodeAuth(auth));
  }

  lemma GreetingRead(k: Kit, i: Side, r: Side, w: World)
    requires Honest(k, i, r) && At(k, i, r, w, Greeting)
    ensures At(k, i, r, Step(k, i, r, w, RespReads), if r.trusts then HelloBack else FallingBack)
  {
    var payload := i.nonce + k.public(i.secret);
    Decodes(k, TRUSTED_HELLO, payload);
    assert payload[..HELLO_NONCE_SIZE] == i.nonce && payload[HELLO_NONCE_SIZE..] == k.public(i.secret);
  }

  lemma FallbackRead(k: Kit, i: Side, r: Side, w: World)
    requires Honest(k, i, r) && At(k, i, r, w, FallingBack)
    ensures At(k, i, r, Step(k, i, r, w, InitReads), Offering)
  {
    Decodes(k, PQ_REQUIRED, []);
  }

  lemma OfferRead(k: Kit, i: Side, r: Side, w: World)
    requires Honest(k, i, r) && At(k, i, r, w, Offering)
    ensures At(k, i, r, Step(k, i, r, w, RespReads), Encapsulated)
  {
    var payload := k.kemPublic(i.kemSecret) + k.public(i.secret);
    Decodes(k, KEM_PUBKEY, payload);
    assert payload[..KEM_PK_SIZE] == k.kemPublic(i.kemSecret) && payload[KEM_PK_SIZE..] == k.public(i.secret);
  }

  lemma CiphertextRead(k: Kit, i: Side, r: Side, w: World)
    requires Honest(k, i, r) && At(k, i, r, w, Encapsulated)
    ensures At(k, i, r, Step(k, i, r, w, InitReads), InitSigned)
  {
    var ct := k.encaps(k.kemPublic(i.kemSecret), r.coins).0;
    var payload := ct + k.public(r.secret);
    Decodes(k, KEM_CIPHERTEXT, payload);
    assert payload[..KEM_CT_SIZE] == ct && payload[KEM_CT_SIZE..] == k.public(r.secret);
  }

  lemma HelloBackRead(k: Kit, i: Side, r: Side, w: World)
    requires Honest(k, i, r) && At(k, i, r, w, HelloBack)
    ensures At(k, i, r, Step(k, i, r, w, InitReads), InitSigned)
  {
    var payload := r.nonce + k.public(r.secret);
    Decodes(k, TRUSTED_HELLO, payload);
    assert payload[..HELLO_NONCE_SIZE] == r.nonce && payload[HELLO_NONCE_SIZE..] == k.public(r.secret);
  }

  lemma InitSignatureRead(k: Kit, i: Side, r: Side, w: World)
    requires Honest(k, i, r) && At(k, i, r, w, InitSigned)
    ensures At(k, i, r, Step(k, i, r, w, RespReads), if ImplementedRole(i.role) then RespSigned else Over)
  {
    AuthAccepted(k, r, w.resp, i, w.init.(sendCounter := 0));
  }

  lemma RespSignatureRead(k: Kit, i: Side, r: Side, w: World)
    requires Honest(k, i, r) && At(k, i, r, w, RespSigned)
    ensures At(k, i, r, Step(k, i, r, w, InitReads), Over)
  {
    AuthAccepted(k, i, w.init, r, w.resp.(sendCounter := 0));
  }

  predicate Waits(w: World, e: Schedule) {
    if e.RespReads? then w.toResp == [] else w.toInit == []
  }

  /** Whichever side is scheduled, the world stays at its stage or moves to a later one. */
  lemma StepAdvances(k: Kit, i: Side, r: Side, w: World, stage: Stage, e: Schedule) returns (stage': Stage)
    requires Honest(k, i, r) && At(k, i, r, w, stage)
    ensures At(k, i, r, Step(k, i, r, w, e), stage')
    ensures if Waits(w, e) then stage' == stage else Rank(stage) < Rank(stage')
  {
    if Waits(w, e) {
      return stage;
    }
    match stage
    case Greeting => GreetingRead(k, i, r, w); stage' := if r.trusts then HelloBack else FallingBack;
    case FallingBack => FallbackRead(k, i, r, w); stage' := Offering;
    case Offering => OfferRead(k, i, r, w); stage' := Encapsulated;
    case Encapsulated => CiphertextRead(k, i, r, w); stage' := InitSigned;
    case HelloBack => HelloBackRead(k, i, r, w); stage' := InitSigned;
    case InitSigned => InitSignatureRead(k, i, r, w); stage' := if ImplementedRole(i.role) then RespSigned else Over;
    case RespSigned => RespSignatureRead(k, i, r, w); stage' := Over;
  }

  lemma {:induction false} EveryRunStaged(k: Kit, i: Side, r: Side, evs: seq<Schedule>) returns (stage: Stage)
    requires Honest(k, i, r)
    ensures At(k, i, r, Run(k, i, r, evs), stage)
    decreases |evs|
  {
    if evs == [] {
      stage := if i.trusts then Greeting else Offering;
    } else {
      var before := EveryRunStaged(k, i, r, evs[..|evs| - 1]);
      stage := StepAdvances(k, i, r, Run(k, i, r, evs[..|evs| - 1]), before, evs[|evs| - 1]);
    }
  }

  /** Agreement, for every pair of trust decisions and every schedule: an initiator that is authenticated agrees
      with its responder in everything, and once no message is under way both agree exactly when both declared
      an implemented role. */
  lemma Agreement(k: Kit, i: Side, r: Side, evs: seq<Schedule>)
    requires Honest(k, i, r)
    ensures var w := Run(k, i, r, evs);
      && (w.init.authenticated ==> Agreed(k, i, r, w))
      && (w.toResp == [] && w.toInit == [] ==>
            (Agreed(k, i, r, w) <==> ImplementedRole(i.role) && ImplementedRole(r.role)))
  {
    var stage := EveryRunStaged(k, i, r, evs);
  }

  /** Until it is over, a message is under way, and reading it brings the end nearer. */
  lemma OneRead(k: Kit, i: Side, r: Side, evs: seq<Schedule>, stage: Stage) returns (e: Schedule, stage': Stage)
    requires Honest(k, i, r) && At(k, i, r, Run(k, i, r, evs), stage) && stage != Over
    ensures At(k, i, r, Run(k, i, r, evs + [e]), stage') && Rank(stage) < Rank(stage')
  {
    var w := Run(k, i, r, evs);
    e := if w.toResp != [] then RespReads else InitReads;
    var all := evs + [e];
    assert all[..|all| - 1] == evs;
    stage' := StepAdvances(k, i, r, w, stage, e);
  }

  /** And it comes to that: at most six reads settle any run. */
  lemma {:induction false} RunsSettle(k: Kit, i: Side, r: Side, evs: seq<Schedule>, stage: Stage)
    returns (more: seq<Schedule>)
    requires Honest(k, i, r) && At(k, i, r, Run(k, i, r, evs), stage)
    ensures |more| <= 6 - Rank(stage)
    ensures var w := Run(k, i, r, evs + more); w.toResp == [] && w.toInit == []
    decreases 6 - Rank(stage)
  {
    if stage == Over {
      more := [];
      assert evs + more == evs;
    } else {
      var e, stage' := OneRead(k, i, r, evs, stage);
      var rest := RunsSettle(k, i, r, evs + [e], stage');
      more := [e] + rest;
      Regroup(evs, [e], rest);
    }
  }
}
