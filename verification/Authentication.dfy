/** What it takes to be authenticated by one side of a handshake, whatever frames the other side sends
    (db/net/connection.cpp). */
module Authentication {
  import opened Octets
  import opened Frames
  import opened MessageStream
  import opened Handshake

  /** The session after some raw frames have arrived. */
  function Fed(k: Kit, me: Side, raws: seq<Bytes>): Session {
    if raws == [] then Begin(k, me).session
    else Receive(k, me, Fed(k, me, raws[..|raws| - 1]), raws[|raws| - 1]).session
  }

  // The exchange that comes before the signature, read off the frames.

  /** Frame `i` holds a message of type `ty`. */
  predicate Holds(k: Kit, raws: seq<Bytes>, i: nat, ty: byte) {
    i < |raws| && k.codec.decode(raws[i]).Some? && k.codec.decode(raws[i]).value.ty == ty
  }

  predicate Lightweight(k: Kit, me: Side, raws: seq<Bytes>) {
    me.trusts && Holds(k, raws, 0, TRUSTED_HELLO)
  }

  /** One side trusts the other and is not trusted. */
  predicate FallsBack(k: Kit, me: Side, raws: seq<Bytes>) {
    if me.initiator then me.trusts && Holds(k, raws, 0, PQ_REQUIRED)
    else !me.trusts && Holds(k, raws, 0, TRUSTED_HELLO)
  }

  /** The keys it settles on, the key that the signature is compared with, and how many frames it takes. */
  datatype Exchange = Exchange(keys: Keys, announced: Option<Bytes>, frames: nat)

  function LightweightExchange(k: Kit, me: Side, payload: Bytes): Option<Exchange> {
    if |payload| != HELLO_NONCE_SIZE + SIGNING_PK_SIZE then None
    else
      var nonce, pk, mine := payload[..HELLO_NONCE_SIZE], payload[HELLO_NONCE_SIZE..], k.public(me.secret);
      Some(Exchange(if me.initiator then LightweightKeys(k, me.nonce, nonce, mine, pk, true)
                    else LightweightKeys(k, nonce, me.nonce, pk, mine, false), Some(pk), 1))
  }

  /** The key in the other side's half goes into the fingerprint; it is not compared with anything. */
  function KemExchange(k: Kit, me: Side, payload: Bytes, frames: nat): Option<Exchange> {
    var size := if me.initiator then KEM_CT_SIZE else KEM_PK_SIZE;
    if |payload| != size + SIGNING_PK_SIZE then None
    else
      var half, pk, mine := payload[..size], payload[size..], k.public(me.secret);
      Some(Exchange(if me.initiator then SessionKeys(k, k.decaps(me.kemSecret, half), mine, pk, true)
                    else SessionKeys(k, k.encaps(half, me.coins).1, pk, mine, false), None, frames))
  }

  function Exchanged(k: Kit, me: Side, raws: seq<Bytes>): Option<Exchange> {
    var at := if FallsBack(k, me, raws) then 1 else 0;
    if Lightweight(k, me, raws) then LightweightExchange(k, me, k.codec.decode(raws[0]).value.payload)
    else if me.initiator && me.trusts && at == 0 then None
    else if !Holds(k, raws, at, if me.initiator then KEM_CIPHERTEXT else KEM_PUBKEY) then None
    else KemExchange(k, me, k.codec.decode(raws[at]).value.payload, at + 1)
  }

  /** The frame after the exchange opens under its key with the first nonce and holds a key, an implemented role and a
      signature by that key over its fingerprint. */
  predicate Signs(k: Kit, x: Exchange, raw: Bytes) {
    var a := ReadAuth(k, x.keys.recv, 0, raw);
    && a.Some? && (x.announced.Some? ==> a.value.pubkey == x.announced.value)
    && k.verify(x.keys.fingerprint, a.value.signature, a.value.pubkey)
  }

  predicate Earned(k: Kit, me: Side, raws: seq<Bytes>) {
    && Exchanged(k, me, raws).Some?
    && var x := Exchanged(k, me, raws).value; x.frames < |raws| && Signs(k, x, raws[x.frames])
  }

  // The session follows the exchange.

  lemma FedOneMore(k: Kit, me: Side, raws: seq<Bytes>, n: nat)
    requires n < |raws|
    ensures Fed(k, me, raws[..n + 1]) == Receive(k, me, Fed(k, me, raws[..n]), raws[n]).session
  {
    assert raws[..n + 1][..n] == raws[..n];
  }

  /** A session that is over stays as it is. */
  lemma {:induction false} OverStays(k: Kit, me: Side, raws: seq<Bytes>, n: nat)
    requires n <= |raws|
    requires Fed(k, me, raws[..n]).pc.Done? || Fed(k, me, raws[..n]).pc.Failed?
    ensures Fed(k, me, raws) == Fed(k, me, raws[..n])
    decreases |raws| - n
  {
    if n == |raws| {
      assert raws[..n] == raws;
    } else {
      FedOneMore(k, me, raws, n);
      OverStays(k, me, raws, n + 1);
    }
  }

  lemma OverAfter(k: Kit, me: Side, raws: seq<Bytes>, n: nat, s: Session)
    requires n < |raws| && s == Receive(k, me, Fed(k, me, raws[..n]), raws[n]).session && (s.pc.Done? || s.pc.Failed?)
    ensures Fed(k, me, raws) == s
  {
    FedOneMore(k, me, raws, n);
    OverStays(k, me, raws, n + 1);
  }

  /** Where the session is after the frames of the exchange. */
  predicate Awaits(s: Session, x: Exchange) {
    s.pc == AwaitAuth(x.announced) && s.keys == x.keys && s.recvCounter == 0 && !s.authenticated
  }

  /** Frame `n` has settled the exchange or ended the session. */
  predicate Decided(s: Session, x: Option<Exchange>, n: nat) {
    if x.Some? then x.value.frames == n && Awaits(s, x.value) else s.pc == Failed && !s.authenticated
  }

  /** The first frame settles the exchange, or asks for the other path, or ends the session. */
  lemma FirstFrame(k: Kit, me: Side, raws: seq<Bytes>)
    requires |raws| >= 1
    ensures var s := Fed(k, me, raws[..1]);
      if FallsBack(k, me, raws) then s == FRESH.(pc := if me.initiator then AwaitCiphertext else AwaitKemPubkey)
      else Decided(s, Exchanged(k, me, raws), 1)
  {
    FedOneMore(k, me, raws, 0);
    assert Fed(k, me, raws[..0]) == Begin(k, me).session;
  }

  lemma SecondFrame(k: Kit, me: Side, raws: seq<Bytes>)
    requires |raws| >= 2 && FallsBack(k, me, raws)
    ensures Decided(Fed(k, me, raws[..2]), Exchanged(k, me, raws), 2)
  {
    FirstFrame(k, me, raws);
    FedOneMore(k, me, raws, 1);
  }

  lemma SignatureFrame(k: Kit, me: Side, s: Session, x: Exchange, raw: Bytes)
    requires Awaits(s, x)
    ensures var s' := Receive(k, me, s, raw).session;
      && (s'.authenticated <==> Signs(k, x, raw)) && s'.pc == (if Signs(k, x, raw) then Done else Failed)
      && (s'.authenticated ==> Holder(k, x, raw, s'))
  {
  }

  /** The session's keys are those of the exchange and its peer is the one in the frame. */
  predicate Holder(k: Kit, x: Exchange, raw: Bytes, s: Session) {
    s.keys == x.keys && ReadAuth(k, x.keys.recv, 0, raw).Some? &&
    var a := ReadAuth(k, x.keys.recv, 0, raw).value; s.peerPk == a.pubkey && s.peerRole == a.role
  }

  lemma AfterExchange(k: Kit, me: Side, raws: seq<Bytes>, x: Exchange)
    requires x.frames <= |raws| && Awaits(Fed(k, me, raws[..x.frames]), x)
    ensures var s := Fed(k, me, raws);
      && (s.authenticated <==> x.frames < |raws| && Signs(k, x, raws[x.frames]))
      && (s.authenticated ==> Holder(k, x, raws[x.frames], s))
  {
    var s := Fed(k, me, raws[..x.frames]);
    if x.frames == |raws| {
      assert raws[..x.frames] == raws;
    } else {
      var s' := Receive(k, me, s, raws[x.frames]).session;
      SignatureFrame(k, me, s, x, raws[x.frames]);
      OverAfter(k, me, raws, x.frames, s');
    }
  }

  /** For every sequence of frames, from an honest side or not: a session is authenticated exactly if the exchange and
      the signature after it are among them, and then its keys are those of the exchange and its peer's key and role
      those that were signed for. On the lightweight path, and only there, the hello announced that key. */
  lemma AuthenticationEarned(k: Kit, me: Side, raws: seq<Bytes>)
    ensures var s := Fed(k, me, raws);
      && (s.authenticated <==> Earned(k, me, raws))
      && (s.authenticated ==>
            var x := Exchanged(k, me, raws).value;
            && Holder(k, x, raws[x.frames], s) && (x.announced.Some? <==> Lightweight(k, me, raws))
            && (x.announced.Some? ==> s.peerPk == x.announced.value))
  {
    if raws != [] {
      FirstFrame(k, me, raws);
      if !FallsBack(k, me, raws) {
        Settles(k, me, raws, 1);
      } else if |raws| == 1 {
        assert raws[..1] == raws;
      } else {
        SecondFrame(k, me, raws);
        Settles(k, me, raws, 2);
      }
    }
  }

  lemma Settles(k: Kit, me: Side, raws: seq<Bytes>, n: nat)
    requires n <= |raws|
    requires Decided(Fed(k, me, raws[..n]), Exchanged(k, me, raws), n)
    ensures var s := Fed(k, me, raws);
      && (s.authenticated <==> Earned(k, me, raws))
      && (s.authenticated ==> Holder(k, Exchanged(k, me, raws).value, raws[n], s))
  {
    if Exchanged(k, me, raws).Some? {
      AfterExchange(k, me, raws, Exchanged(k, me, raws).value);
    } else {
      OverStays(k, me, raws, n);
    }
  }

  // Counters.

  /** How often a session has sealed and opened a frame, at every point. */
  predicate Counted(me: Side, s: Session) {
    && (s.authenticated <==> s.pc.Done?) && (s.authenticated ==> s.recvCounter == 1)
    && s.sendCounter == (if s.authenticated || (me.initiator && (s.pc.AwaitAuth? || s.recvCounter == 1)) then 1 else 0)
    && (!s.pc.Done? && !s.pc.Failed? ==> s.recvCounter == 0) && (s.pc.Failed? ==> s.recvCounter <= 1)
    && (s.pc.AwaitFirst? || s.pc.AwaitKemPubkey? ==> !me.initiator)
    && (s.pc.AwaitHello? || s.pc.AwaitCiphertext? ==> me.initiator)
  }

  lemma ReceiveCounted(k: Kit, me: Side, s: Session, raw: Bytes)
    requires Counted(me, s)
    ensures Counted(me, Receive(k, me, s, raw).session)
  {
  }

  /** It seals and opens at most one frame, so the connection goes on from counters of 1. */
  lemma {:induction false} CountersAtOne(k: Kit, me: Side, raws: seq<Bytes>)
    ensures Counted(me, Fed(k, me, raws))
    decreases |raws|
  {
    if raws != [] {
      CountersAtOne(k, me, raws[..|raws| - 1]);
      ReceiveCounted(k, me, Fed(k, me, raws[..|raws| - 1]), raws[|raws| - 1]);
    }
  }

  // The key in a KEM half.

  /** Any key may stand in the KEM half: the responder authenticates the key that signs, whichever that is. */
  lemma KemKeyNotCompared(k: Kit, me: Side, half: Bytes, pk: Bytes, other: Side)
    requires KitLaw(k) && !me.initiator && |half| == KEM_PK_SIZE && |pk| == SIGNING_PK_SIZE
    requires ImplementedRole(other.role)
    ensures var hello := Plain(k, KEM_PUBKEY, half + pk);
      var mine := Fed(k, me, [hello]).keys;
      var theirs := FRESH.(keys := Keys(mine.recv, mine.send, mine.fingerprint));
      var s := Fed(k, me, [hello, SealedAuth(k, other, theirs)]);
      s.authenticated && s.peerPk == k.public(other.secret) && s.peerRole == other.role
  {
    var hello := Plain(k, KEM_PUBKEY, half + pk);
    var s := Fed(k, me, [hello]);
    var theirs := FRESH.(keys := Keys(s.keys.recv, s.keys.send, s.keys.fingerprint));
    var raws := [hello, SealedAuth(k, other, theirs)];
    assert raws[..1] == [hello] && raws[..2] == raws;
    Decodes(k, KEM_PUBKEY, half + pk);
    FirstFrame(k, me, raws);
    AuthAccepted(k, me, s, other, theirs);
    FedOneMore(k, me, raws, 1);
  }
}
