/** The handshake and the transport together: what one side of an authenticated connection sends, the other side
    receives (db/net/connection.cpp). */
module SecureSession {
  import opened Octets
  import opened Frames
  import opened MessageStream
  import opened Handshake

  function Channel(k: Kit, key: Bytes): Aead {
    Aead((n: Bytes, m: Bytes) => k.seal(key, n, m), (n: Bytes, c: Bytes) => k.open(key, n, c))
  }

  ghost predicate TagLaw(k: Kit) {
    forall key, n, m :: |k.seal(key, n, m)| == |m| + TAG_SIZE
  }

  lemma ChannelLaw(k: Kit, key: Bytes)
    requires KitLaw(k) && TagLaw(k)
    ensures AeadLaw(Channel(k, key))
  {
    var c := Channel(k, key);
    forall n: Bytes, m: Bytes
      ensures |c.seal(n, m)| == |m| + TAG_SIZE && c.open(n, c.seal(n, m)) == Some(m)
    {
      assert k.open(key, n, k.seal(key, n, m)) == Some(m);
    }
  }

  /** What a receiver with session `to` gets out of the first `n` bytes of frames sealed by a sender with session
      `from`, each starting where the handshake left its counter. */
  function Received(reader: Reader, k: Kit, from: Session, to: Session, frames: seq<Bytes>, n: nat): seq<Inbound>
    requires n <= |Wire(Channel(k, from.keys.send), frames, from.sendCounter)|
  {
    var stream := Wire(Channel(k, from.keys.send), frames, from.sendCounter);
    Parsed(reader, k.codec, Opened(Channel(k, to.keys.recv), stream[..n], to.recvCounter))
  }

  lemma AlignedDelivers(reader: Reader, k: Kit, from: Session, to: Session, msgs: seq<Message>, frames: seq<Bytes>,
                        n: nat)
    requires KitLaw(k) && TagLaw(k) && from.keys.send == to.keys.recv && from.sendCounter == to.recvCounter == 1
    requires (forall m :: m in msgs ==> Sendable(m)) && frames <= AllFrames(k.codec, msgs) && |frames| < NONCE_LIMIT
    requires n <= |Wire(Channel(k, from.keys.send), frames, from.sendCounter)|
    ensures Received(reader, k, from, to, frames, n) == Arrived(k.codec, msgs, n)
  {
    ChannelLaw(k, from.keys.send);
    StreamDelivers(reader, Channel(k, from.keys.send), k.codec, msgs, frames, 1, n);
  }

  /** After every honest handshake that has come to rest with implemented roles, whatever the two trust decisions
      and the schedule were, each direction delivers: of any run of messages, cut off at any byte, exactly those
      that lie whole before the cut, up to the first over the limit. */
  lemma SessionDelivers(k: Kit, i: Side, r: Side, evs: seq<Schedule>, reader: Reader, msgs: seq<Message>,
                        frames: seq<Bytes>, n: nat)
    requires Honest(k, i, r) && TagLaw(k) && ImplementedRole(i.role) && ImplementedRole(r.role)
    requires var w := Run(k, i, r, evs); w.toResp == [] && w.toInit == []
    requires (forall m :: m in msgs ==> Sendable(m)) && frames <= AllFrames(k.codec, msgs) && |frames| < NONCE_LIMIT
    ensures var w := Run(k, i, r, evs);
      n <= |Wire(Channel(k, w.init.keys.send), frames, 1)| ==>
        w.init.sendCounter == 1 && Received(reader, k, w.init, w.resp, frames, n) == Arrived(k.codec, msgs, n)
    ensures var w := Run(k, i, r, evs);
      n <= |Wire(Channel(k, w.resp.keys.send), frames, 1)| ==>
        w.resp.sendCounter == 1 && Received(reader, k, w.resp, w.init, frames, n) == Arrived(k.codec, msgs, n)
  {
    Agreement(k, i, r, evs);
    var w := Run(k, i, r, evs);
    if n <= |Wire(Channel(k, w.init.keys.send), frames, 1)| {
      AlignedDelivers(reader, k, w.init, w.resp, msgs, frames, n);
    }
    if n <= |Wire(Channel(k, w.resp.keys.send), frames, 1)| {
      AlignedDelivers(reader, k, w.resp, w.init, msgs, frames, n);
    }
  }
}
