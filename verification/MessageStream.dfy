/** Messages over encrypted frames: a small one is one encoded frame; one of 1 MiB or more is a 14-byte header
    frame, its payload in 1 MiB frames and an empty frame (db/net/connection.cpp, cli/src/connection.cpp). */
module MessageStream {
  import opened Octets
  import opened Frames

  const STREAMING_THRESHOLD: nat := 1048576
  const ENVELOPE_MARGIN: nat := 64
  const CHUNKED_HEADER_SIZE: nat := 14
  const CHUNKED_BEGIN: byte := 1
  const MAX_CHUNKED_WIRE_PAYLOAD: nat := 68157440 // 64 MiB of blob data and 1 MiB of envelope

  datatype Message = Message(ty: byte, rid: nat, payload: Bytes)

  /** The generated transport codec: it reads back what it writes, adds less than the margin, and never starts
      with the byte that marks a chunked header. */
  datatype Codec = Codec(encode: Message -> Bytes, decode: Bytes -> Option<Message>)

  ghost predicate CodecLaw(c: Codec) {
    forall m: Message :: m.rid < TWO_32 ==>
      && c.decode(c.encode(m)) == Some(m) && 0 < |c.encode(m)| < |m.payload| + ENVELOPE_MARGIN
      && c.encode(m)[0] != CHUNKED_BEGIN
  }

  function ToyDecode(b: Bytes): Option<Message> {
    if |b| < 6 then None else Some(Message(b[1], ReadBigEndian(b[2..6]), b[6..]))
  }

  /** The law can be met. */
  lemma CodecLawConsistent() returns (c: Codec)
    ensures CodecLaw(c)
  {
    c := Codec((m: Message) => [0, m.ty] + BigEndian(m.rid, 4) + m.payload, ToyDecode);
    SpanValues();
    forall m: Message | m.rid < TWO_32
      ensures c.decode(c.encode(m)) == Some(m)
    {
      var b := c.encode(m);
      assert b[2..6] == BigEndian(m.rid, 4) && b[6..] == m.payload;
      BigEndianRoundTrip(m.rid, 4);
    }
  }

  /** The two readers differ in three places, none of which an honest stream reaches. */
  datatype Reader = Node | Cli

  predicate Sendable(m: Message) {
    m.rid < TWO_32 && |m.payload| < TWO_64
  }

  predicate Large(m: Message) {
    |m.payload| >= STREAMING_THRESHOLD
  }

  predicate Oversized(m: Message) {
    |m.payload| > MAX_CHUNKED_WIRE_PAYLOAD
  }

  function ChunkedHeader(m: Message): (r: Bytes)
    ensures |r| == CHUNKED_HEADER_SIZE
  {
    [CHUNKED_BEGIN, m.ty] + BigEndian(m.rid, 4) + BigEndian(|m.payload|, 8)
  }

  /** The payload in pieces of 1 MiB; only the last may be shorter. */
  function Slices(p: Bytes): seq<Bytes> {
    if |p| <= STREAMING_THRESHOLD then (if p == [] then [] else [p])
    else [p[..STREAMING_THRESHOLD]] + Slices(p[STREAMING_THRESHOLD..])
  }

  function FramesOf(c: Codec, m: Message): (r: seq<Bytes>)
    ensures r != []
  {
    if Large(m) then [ChunkedHeader(m)] + Slices(m.payload) + [[]] else [c.encode(m)]
  }

  function AllFrames(c: Codec, msgs: seq<Message>): seq<Bytes> {
    if msgs == [] then [] else FramesOf(c, msgs[0]) + AllFrames(c, msgs[1..])
  }

  /** Collects frames up to an empty one. None: the frames ran out, or the node's size check failed. */
  function Reassemble(r: Reader, frames: seq<Bytes>, total: nat, got: Bytes): (o: Option<(Bytes, seq<Bytes>)>)
    ensures o.Some? ==> |o.value.1| < |frames|
  {
    if frames == [] then None
    else if frames[0] == [] then Some((got, frames[1..]))
    else if r.Node? && |got + frames[0]| > total + 64 then None
    else Reassemble(r, frames[1..], total, got + frames[0])
  }

  predicate Chunked(r: Reader, frame: Bytes) {
    frame != [] && frame[0] == CHUNKED_BEGIN && (r.Cli? ==> |frame| >= CHUNKED_HEADER_SIZE)
  }

  /** The message that starts at the first frame, and the frames after it. */
  function ReadChunked(r: Reader, frames: seq<Bytes>): (o: Option<(Message, seq<Bytes>)>)
    requires frames != []
    ensures o.Some? ==> |o.value.1| < |frames|
  {
    var h := frames[0];
    if |h| < CHUNKED_HEADER_SIZE then None
    else
      var total := ReadBigEndian(h[6..14]);
      if total > MAX_CHUNKED_WIRE_PAYLOAD then None
      else
        match Reassemble(r, frames[1..], total, h[14..])
        case None => None
        case Some((payload, rest)) => Some((Message(h[1], ReadBigEndian(h[2..6]), payload), rest))
  }

  /** A message as it is handed up: a chunked one bypasses the node's control-message switch. */
  datatype Inbound = Inbound(msg: Message, chunked: bool)

  /** Every message read before the reader gives up. The node skips a frame it cannot decode; the client
      stops there. */
  function Parsed(r: Reader, c: Codec, frames: seq<Bytes>): seq<Inbound>
    decreases |frames|
  {
    if frames == [] then []
    else if Chunked(r, frames[0]) then
      match ReadChunked(r, frames)
      case None => []
      case Some((m, rest)) => [Inbound(m, true)] + Parsed(r, c, rest)
    else
      match c.decode(frames[0])
      case None => if r.Node? then Parsed(r, c, frames[1..]) else []
      case Some(m) => [Inbound(m, false)] + Parsed(r, c, frames[1..])
  }

  // Reading back what was sent.

  function AsSent(m: Message): Inbound {
    Inbound(m, Large(m))
  }

  /** A header frame that announces `total` bytes. */
  predicate Announces(h: Bytes, ty: byte, rid: nat, total: nat) {
    && |h| == CHUNKED_HEADER_SIZE && h[0] == CHUNKED_BEGIN && h[1] == ty && ReadBigEndian(h[2..6]) == rid
    && ReadBigEndian(h[6..14]) == total && h[14..] == []
  }

  lemma HeaderAnnounces(m: Message)
    requires Sendable(m)
    ensures Announces(ChunkedHeader(m), m.ty, m.rid, |m.payload|)
  {
    SpanValues();
    var h := ChunkedHeader(m);
    assert h[2..6] == BigEndian(m.rid, 4) && h[6..14] == BigEndian(|m.payload|, 8);
    BigEndianRoundTrip(m.rid, 4);
    BigEndianRoundTrip(|m.payload|, 8);
  }

  lemma {:induction false} SlicesReassemble(r: Reader, p: Bytes, rest: seq<Bytes>, total: nat, got: Bytes)
    requires |got| + |p| <= total
    ensures Reassemble(r, Slices(p) + [[]] + rest, total, got) == Some((got + p, rest))
    decreases |p|
  {
    var frames := Slices(p) + [[]] + rest;
    if p == [] {
      assert frames[1..] == rest && got + p == got;
    } else if |p| <= STREAMING_THRESHOLD {
      assert frames[1..] == [[]] + rest;
      assert ([[]] + rest)[1..] == rest;
    } else {
      var head, tail := p[..STREAMING_THRESHOLD], p[STREAMING_THRESHOLD..];
      assert frames[1..] == Slices(tail) + [[]] + rest;
      SlicesReassemble(r, tail, rest, total, got + head);
      assert got + head + tail == got + p by { assert head + tail == p; }
    }
  }

  /** Without the empty frame nothing comes out. */
  lemma {:induction false} PartNotReassembled(r: Reader, p: Bytes, n: nat, total: nat, got: Bytes)
    requires n <= |Slices(p)|
    ensures Reassemble(r, Slices(p)[..n], total, got) == None
    decreases |p|
  {
    var frames := Slices(p)[..n];
    if n > 0 {
      if |p| > STREAMING_THRESHOLD {
        var tail := p[STREAMING_THRESHOLD..];
        assert frames[1..] == Slices(tail)[..n - 1];
        PartNotReassembled(r, tail, n - 1, total, got + frames[0]);
      }
    }
  }

  /** What follows a header is read as far as it can be put together. */
  lemma HeaderRead(r: Reader, c: Codec, h: Bytes, ty: byte, rid: nat, total: nat, rest: seq<Bytes>)
    requires Announces(h, ty, rid, total)
    ensures var o := Reassemble(r, rest, total, []);
      Parsed(r, c, [h] + rest) ==
        if total > MAX_CHUNKED_WIRE_PAYLOAD || o.None? then []
        else [Inbound(Message(ty, rid, o.value.0), true)] + Parsed(r, c, o.value.1)
  {
    assert ([h] + rest)[1..] == rest;
  }

  lemma LargeRead(r: Reader, c: Codec, m: Message, rest: seq<Bytes>)
    requires Sendable(m) && Large(m)
    ensures Parsed(r, c, FramesOf(c, m) + rest) == if Oversized(m) then [] else [AsSent(m)] + Parsed(r, c, rest)
  {
    HeaderAnnounces(m);
    var h, body := ChunkedHeader(m), Slices(m.payload) + [[]] + rest;
    assert FramesOf(c, m) + rest == [h] + body;
    HeaderRead(r, c, h, m.ty, m.rid, |m.payload|, body);
    SlicesReassemble(r, m.payload, rest, |m.payload|, []);
    assert [] + m.payload == m.payload;
  }

  /** A whole message at the front is read, unless it is over the limit; then nothing is, from there on. */
  lemma FrontRead(r: Reader, c: Codec, m: Message, rest: seq<Bytes>)
    requires CodecLaw(c) && Sendable(m)
    ensures Parsed(r, c, FramesOf(c, m) + rest) == if Oversized(m) then [] else [AsSent(m)] + Parsed(r, c, rest)
  {
    if Large(m) {
      LargeRead(r, c, m, rest);
    } else {
      assert (FramesOf(c, m) + rest)[1..] == rest;
    }
  }

  /** Part of a message reads as nothing. */
  lemma PartUnread(r: Reader, c: Codec, m: Message, n: nat)
    requires Sendable(m) && n < |FramesOf(c, m)|
    ensures Parsed(r, c, FramesOf(c, m)[..n]) == []
  {
    if n > 0 {
      HeaderAnnounces(m);
      var h, body := ChunkedHeader(m), Slices(m.payload)[..n - 1];
      assert FramesOf(c, m)[..n] == [h] + body;
      HeaderRead(r, c, h, m.ty, m.rid, |m.payload|, body);
      PartNotReassembled(r, m.payload, n - 1, |m.payload|, []);
    }
  }

  /** The bytes one message takes on the wire. */
  function MessageLength(c: Codec, m: Message): nat {
    WireLength(FramesOf(c, m))
  }

  /** The messages that lie whole in the first `n` bytes, up to one over the limit. */
  function Arrived(c: Codec, msgs: seq<Message>, n: nat): seq<Inbound> {
    if msgs == [] || Oversized(msgs[0]) || n < MessageLength(c, msgs[0]) then []
    else [AsSent(msgs[0])] + Arrived(c, msgs[1..], n - MessageLength(c, msgs[0]))
  }

  function AllAsSent(msgs: seq<Message>): seq<Inbound> {
    if msgs == [] then [] else [AsSent(msgs[0])] + AllAsSent(msgs[1..])
  }

  lemma {:induction false} ParsesArrived(r: Reader, c: Codec, msgs: seq<Message>, n: nat)
    requires CodecLaw(c) && forall m :: m in msgs ==> Sendable(m)
    ensures Parsed(r, c, AllFrames(c, msgs)[..Whole(AllFrames(c, msgs), n)]) == Arrived(c, msgs, n)
  {
    if msgs != [] {
      var head, tail := FramesOf(c, msgs[0]), AllFrames(c, msgs[1..]);
      WholeSplits(head, tail, n);
      var k := Whole(head + tail, n);
      if n < WireLength(head) {
        assert (head + tail)[..k] == head[..k];
        PartUnread(r, c, msgs[0], k);
      } else {
        var n' := n - WireLength(head);
        assert (head + tail)[..k] == head + tail[..Whole(tail, n')];
        FrontRead(r, c, msgs[0], tail[..Whole(tail, n')]);
        ParsesArrived(r, c, msgs[1..], n');
      }
    }
  }

  lemma {:induction false} SlicesFit(p: Bytes)
    ensures forall s :: s in Slices(p) ==> Fits(s)
    decreases |p|
  {
    if |p| > STREAMING_THRESHOLD {
      SlicesFit(p[STREAMING_THRESHOLD..]);
    }
  }

  lemma {:induction false} AllFramesFit(c: Codec, msgs: seq<Message>)
    requires CodecLaw(c) && forall m :: m in msgs ==> Sendable(m)
    ensures forall f :: f in AllFrames(c, msgs) ==> Fits(f)
  {
    if msgs != [] {
      assert Sendable(msgs[0]);
      SlicesFit(msgs[0].payload);
      AllFramesFit(c, msgs[1..]);
    }
  }

  /** The transport law. The sender got some frames of a run of messages onto the stream and the receiver saw
      the stream up to some byte. Either reader then has exactly the messages that lie whole before that byte,
      in order and byte for byte, up to the first over the limit. */
  lemma StreamDelivers(r: Reader, a: Aead, c: Codec, msgs: seq<Message>, frames: seq<Bytes>, counter: nat, n: nat)
    requires AeadLaw(a) && CodecLaw(c) && forall m :: m in msgs ==> Sendable(m)
    requires frames <= AllFrames(c, msgs) && counter + |frames| <= NONCE_LIMIT && n <= |Wire(a, frames, counter)|
    ensures Parsed(r, c, Opened(a, Wire(a, frames, counter)[..n], counter)) == Arrived(c, msgs, n)
  {
    AllFramesFit(c, msgs);
    WireHasLength(a, frames, counter);
    OpensWhole(a, frames, counter, n);
    WholeOfPrefix(frames, AllFrames(c, msgs), n);
    ParsesArrived(r, c, msgs, n);
  }

  function StreamLength(c: Codec, msgs: seq<Message>): nat {
    if msgs == [] then 0 else MessageLength(c, msgs[0]) + StreamLength(c, msgs[1..])
  }

  lemma {:induction false} StreamHasLength(c: Codec, msgs: seq<Message>)
    ensures WireLength(AllFrames(c, msgs)) == StreamLength(c, msgs)
  {
    if msgs != [] {
      LengthAppends(FramesOf(c, msgs[0]), AllFrames(c, msgs[1..]));
      StreamHasLength(c, msgs[1..]);
    }
  }

  function Also(msgs: seq<Message>, next: Option<Message>): seq<Message> {
    if next.Some? then msgs + [next.value] else msgs
  }

  /** Where the next message is not whole, exactly the earlier ones have arrived, if none is over the limit. */
  lemma {:induction false} ArrivedUpTo(c: Codec, msgs: seq<Message>, next: Option<Message>, n: nat)
    requires StreamLength(c, msgs) <= n && (next.Some? ==> n < StreamLength(c, Also(msgs, next)))
    requires forall m :: m in msgs ==> !Oversized(m)
    ensures Arrived(c, Also(msgs, next), n) == AllAsSent(msgs)
  {
    if msgs != [] {
      assert Also(msgs, next)[1..] == Also(msgs[1..], next);
      ArrivedUpTo(c, msgs[1..], next, n - MessageLength(c, msgs[0]));
    }
  }

  /** One over the limit ends the stream for the receiver: fewer messages arrive than were sent. */
  lemma {:induction false} OversizedStops(c: Codec, msgs: seq<Message>, n: nat, i: nat)
    requires i < |msgs| && Oversized(msgs[i])
    ensures |Arrived(c, msgs, n)| <= i
  {
    if i > 0 && !Oversized(msgs[0]) && n >= MessageLength(c, msgs[0]) {
      OversizedStops(c, msgs[1..], n - MessageLength(c, msgs[0]), i - 1);
    }
  }
}
