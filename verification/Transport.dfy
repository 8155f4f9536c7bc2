/** The two ends of one direction of a connection as objects: the drain loop's sender and the node's message
    loop (db/net/connection.cpp). */
module Transport {
  import opened Basics
  import opened Octets
  import opened Frames
  import opened MessageStream

  const PING: byte := 5
  const PONG: byte := 6
  const GOODBYE: byte := 7

  function Cut(s: Bytes, n: nat): (r: Bytes)
    ensures |r| <= n && r <= s
    ensures |s| <= n ==> r == s
    ensures |s| > n ==> |r| == n
  {
    if |s| <= n then s else s[..n]
  }

  lemma WireExtends(a: Aead, frames: seq<Bytes>, text: Bytes, base: nat)
    ensures Wire(a, frames + [text], base) == Wire(a, frames, base) + FrameBytes(a, text, base + |frames|)
    ensures WireLength(frames + [text]) == WireLength(frames) + FrameLength(text)
  {
    WireAppends(a, frames, [text], base);
    LengthAppends(frames, [text]);
    assert Wire(a, [text], base + |frames|) == FrameBytes(a, text, base + |frames|) + [];
  }

  lemma LengthGrows(xs: seq<Bytes>, ys: seq<Bytes>)
    requires xs <= ys
    ensures WireLength(xs) <= WireLength(ys) && (|xs| < |ys| ==> WireLength(xs) < WireLength(ys))
  {
    var more := ys[|xs|..];
    assert ys == xs + more;
    LengthAppends(xs, more);
  }

  lemma {:induction false} AllFramesAppend(c: Codec, msgs: seq<Message>, m: Message)
    ensures AllFrames(c, msgs + [m]) == AllFrames(c, msgs) + FramesOf(c, m)
  {
    if msgs == [] {
      assert FramesOf(c, m) + AllFrames(c, []) == FramesOf(c, m);
    } else {
      assert (msgs + [m])[1..] == msgs[1..] + [m];
      AllFramesAppend(c, msgs[1..], m);
    }
  }

  /** The sending end. `room` is how many bytes the socket takes before it breaks; a write that does not fit
      leaves what fits and fails, and nothing gets through after that. */
  class Sender {
    const aead: Aead
    const codec: Codec
    const room: nat
    const base: nat
    var counter: nat
    var socket: Bytes
    var closed: bool
    ghost var frames: seq<Bytes>   // sealed onto the stream, up to the first failure
    ghost var done: seq<Message>   // reported as sent
    ghost var failed: Option<Message>

    ghost predicate OnWire()
      reads this
    {
      counter == base + |frames| <= NONCE_LIMIT && socket == Cut(Wire(aead, frames, base), room)
    }

    ghost predicate Unbroken()
      reads this
    {
      OnWire() && frames == AllFrames(codec, done) && WireLength(frames) <= room
    }

    /** Message `m` got stuck: the stream holds what was reported as sent and part of `m`. */
    ghost predicate Broken(m: Message)
      reads this
    {
      && base + |frames| <= NONCE_LIMIT && socket == Cut(Wire(aead, frames, base), room)
      && AllFrames(codec, done) <= frames <= AllFrames(codec, done + [m])
      && WireLength(AllFrames(codec, done)) <= |socket| < WireLength(AllFrames(codec, done + [m]))
      && (|socket| == room || closed)
    }

    ghost predicate Valid()
      reads this
    {
      AeadLaw(aead) && CodecLaw(codec) && if failed.None? then Unbroken() else Broken(failed.value)
    }

    constructor (aead: Aead, codec: Codec, room: nat, base: nat)
      requires AeadLaw(aead) && CodecLaw(codec) && base <= NONCE_LIMIT
      ensures Valid() && !closed && done == [] && failed == None
      ensures this.aead == aead && this.codec == codec && this.room == room && this.base == base
    {
      this.aead, this.codec, this.room, this.base := aead, codec, room, base;
      counter, socket, closed := base, [], false;
      frames, done, failed := [], [], None;
    }

    method Write(bytes: Bytes) returns (ok: bool)
      requires |socket| <= room
      modifies this`socket
      ensures socket == Cut(old(socket) + bytes, room)
      ensures ok <==> |old(socket)| + |bytes| <= room
    {
      ok := |socket| + |bytes| <= room;
      socket := if ok then socket + bytes else socket + bytes[..room - |socket|];
    }

    method SendRaw(data: Bytes) returns (ok: bool)
      requires |socket| <= room && |data| < TWO_32
      modifies this`socket
      ensures socket == Cut(old(socket) + BigEndian(|data|, 4) + data, room)
      ensures ok <==> |old(socket)| + 4 + |data| <= room
    {
      ok := Write(BigEndian(|data|, 4));
      if !ok {
        return;
      }
      ok := Write(data);
    }

    /** One frame under the next nonce. */
    method SendEncrypted(text: Bytes) returns (ok: bool)
      requires AeadLaw(aead) && |socket| <= room && Fits(text)
      modifies this`socket, this`counter, this`closed
      ensures old(counter) >= NONCE_LIMIT ==> !ok && closed && socket == old(socket) && counter == old(counter)
      ensures old(counter) < NONCE_LIMIT ==>
        && socket == Cut(old(socket) + FrameBytes(aead, text, old(counter)), room)
        && counter == old(counter) + 1 && closed == old(closed)
        && (ok <==> |old(socket)| + FrameLength(text) <= room)
    {
      if counter >= NONCE_LIMIT {
        closed := true;
        return false;
      }
      var ct := aead.seal(MakeNonce(counter), text);
      counter := counter + 1;
      ok := SendRaw(ct);
      assert old(socket) + BigEndian(|ct|, 4) + ct == old(socket) + FrameBytes(aead, text, old(counter));
    }

    /** The same with the frame added to the record, if the stream is unbroken. */
    method SendFrame(text: Bytes, ghost live: bool) returns (ok: bool)
      requires AeadLaw(aead) && Fits(text)
      requires if live then OnWire() && WireLength(frames) <= room else |socket| == room
      modifies this`socket, this`counter, this`closed, this`frames
      ensures live ==> OnWire()
      ensures live && ok ==> frames == old(frames) + [text] && WireLength(frames) <= room && closed == old(closed)
      ensures live && !ok ==>
        (frames == old(frames) && closed) || (frames == old(frames) + [text] && WireLength(frames) > room)
      ensures !live ==> !ok && socket == old(socket) && frames == old(frames) && counter >= old(counter)
    {
      WireHasLength(aead, frames, base);
      WireExtends(aead, frames, text, base);
      if live && counter < NONCE_LIMIT {
        frames := frames + [text];
      }
      ok := SendEncrypted(text);
    }

    /** A run of frames that was to follow `start` got stuck part of the way. */
    ghost predicate Stuck(start: seq<Bytes>, rest: seq<Bytes>)
      reads this
    {
      start <= frames <= start + rest && ((closed && |frames| < |start + rest|) || WireLength(frames) > room)
    }

    /** The payload of a large message, 1 MiB at a time. */
    method SendSlices(payload: Bytes) returns (ok: bool)
      requires AeadLaw(aead) && OnWire() && WireLength(frames) <= room
      modifies this`socket, this`counter, this`closed, this`frames
      ensures OnWire()
      ensures ok ==> frames == old(frames) + Slices(payload) && WireLength(frames) <= room && closed == old(closed)
      ensures !ok ==> Stuck(old(frames), Slices(payload))
    {
      ok := true;
      var offset := 0;
      ghost var sent: seq<Bytes> := [];
      while ok && offset < |payload|
        invariant offset <= |payload| && OnWire()
        invariant ok ==> frames == old(frames) + sent && sent + Slices(payload[offset..]) == Slices(payload)
        invariant ok ==> WireLength(frames) <= room && closed == old(closed)
        invariant !ok ==> Stuck(old(frames), Slices(payload))
        decreases |payload| - offset, ok
      {
        var len := if STREAMING_THRESHOLD < |payload| - offset then STREAMING_THRESHOLD else |payload| - offset;
        var piece := payload[offset..offset + len];
        FirstSlice(payload, offset, len);
        assert sent + [piece] + Slices(payload[offset + len..]) == Slices(payload);
        ok := SendFrame(piece, true);
        offset := offset + len;
        sent := sent + [piece];
      }
    }

    /** One queued message: one frame, or a header, the payload and an empty frame with nothing in between. */
    method SendFramesOf(m: Message, ghost live: bool) returns (ok: bool)
      requires AeadLaw(aead) && CodecLaw(codec) && Sendable(m)
      requires if live then OnWire() && WireLength(frames) <= room else |socket| == room
      modifies this`socket, this`counter, this`closed, this`frames
      ensures live ==> OnWire()
      ensures live && ok ==>
        frames == old(frames) + FramesOf(codec, m) && WireLength(frames) <= room && closed == old(closed)
      ensures live && !ok ==> Stuck(old(frames), FramesOf(codec, m))
      ensures !live ==> !ok && socket == old(socket) && frames == old(frames) && counter >= old(counter)
    {
      if !Large(m) {
        ok := SendFrame(codec.encode(m), live);
        return;
      }
      ok := SendFrame(ChunkedHeader(m), live);
      if ok {
        Regroup(old(frames), [ChunkedHeader(m)], Slices(m.payload) + [[]]);
        ok := SendBody(m.payload);
      }
    }

    method SendBody(payload: Bytes) returns (ok: bool)
      requires AeadLaw(aead) && OnWire() && WireLength(frames) <= room
      modifies this`socket, this`counter, this`closed, this`frames
      ensures OnWire()
      ensures ok ==>
        frames == old(frames) + (Slices(payload) + [[]]) && WireLength(frames) <= room && closed == old(closed)
      ensures !ok ==> Stuck(old(frames), Slices(payload) + [[]])
    {
      ok := SendSlices(payload);
      if ok {
        ok := SendFrame([], true);
      }
    }

    /** Sends one message and reports it. After a failure nothing more gets through. */
    method SendMessage(m: Message) returns (ok: bool)
      requires Valid() && !closed && Sendable(m)
      modifies this
      ensures Valid()
      ensures ok ==> old(failed).None? && failed.None? && done == old(done) + [m] && !closed
      ensures !ok ==> done == old(done) && failed == if old(failed).Some? then old(failed) else Some(m)
    {
      AllFramesAppend(codec, done, m);
      ok := SendFramesOf(m, failed.None?);
      if failed.None? {
        if ok {
          done := done + [m];
        } else {
          WireHasLength(aead, frames, base);
          LengthGrows(AllFrames(codec, done), frames);
          LengthGrows(frames, AllFrames(codec, done + [m]));
          failed := Some(m);
        }
      }
    }

    /** drain_send_queue over what is queued. `sent` messages are reported as sent; the first failure fails
        everything behind it. */
    method Drain(queue: seq<Message>) returns (sent: nat)
      requires Valid() && forall m :: m in queue ==> Sendable(m)
      modifies this
      ensures Valid()
      ensures sent <= |queue| && done == old(done) + queue[..sent]
      ensures sent < |queue| ==> failed.Some? || closed
      ensures old(failed).Some? ==> failed == old(failed) && sent == 0
    {
      sent := 0;
      var ok := true;
      while ok && sent < |queue| && !closed
        invariant Valid() && sent <= |queue| && done == old(done) + queue[..sent]
        invariant old(failed).Some? ==> failed == old(failed) && sent == 0
        invariant !ok ==> failed.Some?
        decreases |queue| - sent, ok
      {
        ok := SendMessage(queue[sent]);
        if ok {
          OneFurther(old(done), queue, sent);
          sent := sent + 1;
        }
      }
    }
  }

  lemma OneFurther(before: seq<Message>, queue: seq<Message>, n: nat)
    requires n < |queue|
    ensures before + queue[..n] + [queue[n]] == before + queue[..n + 1]
  {
  }

  lemma FirstSlice(payload: Bytes, offset: nat, len: nat)
    requires offset < |payload|
    requires len == if STREAMING_THRESHOLD < |payload| - offset then STREAMING_THRESHOLD else |payload| - offset
    ensures Slices(payload[offset..]) == [payload[offset..offset + len]] + Slices(payload[offset + len..])
  {
    var rest := payload[offset..];
    assert rest[..len] == payload[offset..offset + len] && rest[len..] == payload[offset + len..];
    if |rest| <= STREAMING_THRESHOLD {
      assert rest[..len] == rest && rest[len..] == [];
    }
  }

  /** What the sender put on the stream, read by either reader up to any byte, gives the messages that lie whole
      before that byte. Read to the end it gives exactly the messages the sender reported as sent. */
  lemma SentIsReceived(r: Reader, s: Sender, n: nat)
    requires s.Valid() && n <= |s.socket| && forall m :: m in Also(s.done, s.failed) ==> Sendable(m)
    ensures Parsed(r, s.codec, Opened(s.aead, s.socket[..n], s.base)) == Arrived(s.codec, Also(s.done, s.failed), n)
    ensures n == |s.socket| && (forall m :: m in s.done ==> !Oversized(m)) ==>
      Parsed(r, s.codec, Opened(s.aead, s.socket, s.base)) == AllAsSent(s.done)
  {
    var msgs := Also(s.done, s.failed);
    var wire := Wire(s.aead, s.frames, s.base);
    WireHasLength(s.aead, s.frames, s.base);
    assert s.socket[..n] == wire[..n];
    StreamDelivers(r, s.aead, s.codec, msgs, s.frames, s.base, n);
    if n == |s.socket| && forall m :: m in s.done ==> !Oversized(m) {
      assert s.socket[..n] == s.socket;
      StreamHasLength(s.codec, s.done);
      StreamHasLength(s.codec, msgs);
      LengthGrows(AllFrames(s.codec, s.done), s.frames);
      ArrivedUpTo(s.codec, s.done, s.failed, n);
    }
  }

  // The receiving end.

  /** What the message loop has done: the callback's messages in order, the pings answered, a goodbye seen. */
  datatype Heard = Heard(calls: seq<Message>, pongs: nat, goodbye: bool)

  function Handle(h: Heard, i: Inbound): Heard {
    if i.chunked then h.(calls := h.calls + [i.msg])
    else if i.msg.ty == PING then h.(pongs := h.pongs + 1)
    else if i.msg.ty == PONG then h
    else if i.msg.ty == GOODBYE then h.(goodbye := true)
    else h.(calls := h.calls + [i.msg])
  }

  function HandleAll(h: Heard, ins: seq<Inbound>): Heard
    decreases |ins|
  {
    if ins == [] || h.goodbye then h else HandleAll(Handle(h, ins[0]), ins[1..])
  }

  // How it ends.

  /** After the frames that open, a whole one is left and no counter for it. */
  predicate Dries(a: Aead, input: Bytes, counter: nat)
    decreases |input|
  {
    match TakeFrame(a, input, counter)
    case Some((_, rest)) => Dries(a, rest, counter + 1)
    case None =>
      && |input| >= FRAME_HEADER_SIZE && counter >= NONCE_LIMIT
      && var n := ReadBigEndian(input[..4]); n <= MAX_FRAME_SIZE && |input| >= 4 + n
  }

  datatype End = SaidGoodbye | OutOfFrames | Unreadable

  /** The frames run out before the message is whole, and not before a check fails. */
  predicate Starves(frames: seq<Bytes>, total: nat, got: Bytes) {
    frames == [] ||
    (frames[0] != [] && |got + frames[0]| <= total + 64 && Starves(frames[1..], total, got + frames[0]))
  }

  predicate ChunkStarves(frames: seq<Bytes>)
    requires frames != []
  {
    && |frames[0]| >= CHUNKED_HEADER_SIZE && ReadBigEndian(frames[0][6..14]) <= MAX_CHUNKED_WIRE_PAYLOAD
    && Starves(frames[1..], ReadBigEndian(frames[0][6..14]), frames[0][14..])
  }

  /** What the message loop stops at. */
  function LoopEnd(c: Codec, frames: seq<Bytes>): End
    decreases |frames|
  {
    if frames == [] then OutOfFrames
    else if Chunked(Node, frames[0]) then
      match ReadChunked(Node, frames)
      case None => if ChunkStarves(frames) then OutOfFrames else Unreadable
      case Some((_, rest)) => LoopEnd(c, rest)
    else
      match c.decode(frames[0])
      case None => LoopEnd(c, frames[1..])
      case Some(m) => if m.ty == GOODBYE then SaidGoodbye else LoopEnd(c, frames[1..])
  }

  /** It read a goodbye, or ran out of frames at a whole one that no counter was left for. */
  predicate LoopCloses(a: Aead, c: Codec, input: Bytes, counter: nat) {
    var end := LoopEnd(c, Opened(a, input, counter));
    end == SaidGoodbye || (end == OutOfFrames && Dries(a, input, counter))
  }

  /** `input` is what will arrive before the stream ends or breaks. */
  class Receiver {
    const aead: Aead
    const codec: Codec
    var input: Bytes
    var counter: nat
    var closed: bool

    constructor (aead: Aead, codec: Codec, input: Bytes, counter: nat)
      ensures this.aead == aead && this.codec == codec && this.input == input && this.counter == counter && !closed
    {
      this.aead, this.codec, this.input, this.counter, closed := aead, codec, input, counter, false;
    }

    ghost function Coming(): seq<Bytes>
      reads this
    {
      Opened(aead, input, counter)
    }

    ghost predicate Dry()
      reads this
    {
      Dries(aead, input, counter)
    }

    /** The next frame's text, or None: then nothing more can be read. A counter at its limit closes the connection. */
    method RecvEncrypted() returns (r: Option<Bytes>)
      modifies this
      ensures old(Coming()) == [] ==> r.None?
      ensures old(Coming()) != [] ==>
        r == Some(old(Coming())[0]) && Coming() == old(Coming())[1..] && |input| < |old(input)|
      ensures r.Some? ==> Dry() == old(Dry()) && closed == old(closed)
      ensures r.None? ==> closed == (old(closed) || old(Dry()))
    {
      if |input| < FRAME_HEADER_SIZE {
        return None;
      }
      var n := ReadBigEndian(input[..4]);
      if n > MAX_FRAME_SIZE || |input| < 4 + n {
        return None;
      }
      if counter >= NONCE_LIMIT {
        closed := true;
        return None;
      }
      r := aead.open(MakeNonce(counter), input[4..4 + n]);
      if r.Some? {
        input := input[4 + n..];
        counter := counter + 1;
      }
    }

    /** The rest of a chunked message whose header frame is `first`. */
    method RecvChunked(first: Bytes) returns (r: Option<Message>)
      requires first != [] && first[0] == CHUNKED_BEGIN
      modifies this
      ensures var o := ReadChunked(Node, [first] + old(Coming()));
        if o.Some? then r == Some(o.value.0) && Coming() == o.value.1 && |input| < |old(input)| else r.None?
      ensures r.Some? ==> Dry() == old(Dry()) && closed == old(closed)
      ensures r.None? ==> closed == (old(closed) || (ChunkStarves([first] + old(Coming())) && old(Dry())))
    {
      assert ([first] + Coming())[1..] == Coming();
      if |first| < CHUNKED_HEADER_SIZE {
        return None;
      }
      var total := ReadBigEndian(first[6..14]);
      if total > MAX_CHUNKED_WIRE_PAYLOAD {
        return None;
      }
      var payload := first[14..];
      while true
        invariant Reassemble(Node, Coming(), total, payload) == Reassemble(Node, old(Coming()), total, first[14..])
        invariant Starves(Coming(), total, payload) == Starves(old(Coming()), total, first[14..])
        invariant |input| <= |old(input)| && Dry() == old(Dry()) && closed == old(closed)
        decreases |input|
      {
        var chunk := RecvEncrypted();
        if chunk.None? {
          return None;
        }
        if chunk.value == [] {
          break;
        }
        payload := payload + chunk.value;
        if |payload| > total + 64 {
          return None;
        }
      }
      r := Some(Message(first[1], ReadBigEndian(first[2..6]), payload));
    }

    /** The message loop handles exactly the messages the stream parses into, up to a goodbye, and closes the connection
        exactly if the stream ends so that it must. */
    method MessageLoop() returns (h: Heard)
      requires !closed
      modifies this
      ensures h == HandleAll(Heard([], 0, false), Parsed(Node, codec, old(Coming())))
      ensures h.goodbye <==> LoopEnd(codec, old(Coming())) == SaidGoodbye
      ensures closed <==> LoopCloses(aead, codec, old(input), old(counter))
    {
      h := Heard([], 0, false);
      while !closed
        invariant HandleAll(h, Parsed(Node, codec, Coming()))
          == HandleAll(Heard([], 0, false), Parsed(Node, codec, old(Coming())))
        invariant closed == h.goodbye && Dry() == old(Dry())
        invariant LoopEnd(codec, old(Coming())) == if h.goodbye then SaidGoodbye else LoopEnd(codec, Coming())
        decreases |input|, !closed
      {
        ghost var coming := Coming();
        var text := RecvEncrypted();
        if text.None? {
          break;
        }
        var i: Inbound;
        assert coming == [text.value] + Coming();
        if Chunked(Node, text.value) {
          var m := RecvChunked(text.value);
          if m.None? {
            break;
          }
          i := Inbound(m.value, true);
        } else {
          var m := codec.decode(text.value);
          if m.None? {
            continue;
          }
          i := Inbound(m.value, false);
          closed := m.value.ty == GOODBYE;
        }
        h := Handle(h, i);
      }
    }
  }

  predicate ToCallback(m: Message) {
    Large(m) || (m.ty != PING && m.ty != PONG && m.ty != GOODBYE)
  }

  predicate Ends(m: Message) {
    !Large(m) && m.ty == GOODBYE
  }

  /** The messages meant for the callback, up to a goodbye. */
  function Calls(msgs: seq<Message>): seq<Message> {
    if msgs == [] || Ends(msgs[0]) then []
    else Callable(msgs[0]) + Calls(msgs[1..])
  }

  function Pings(msgs: seq<Message>): nat {
    if msgs == [] || Ends(msgs[0]) then 0
    else (if !Large(msgs[0]) && msgs[0].ty == PING then 1 else 0) + Pings(msgs[1..])
  }

  predicate SaysGoodbye(msgs: seq<Message>) {
    msgs != [] && (Ends(msgs[0]) || SaysGoodbye(msgs[1..]))
  }

  function Callable(m: Message): seq<Message> {
    if ToCallback(m) then [m] else []
  }

  lemma HandlesOne(h: Heard, m: Message)
    requires !h.goodbye
    ensures Handle(h, AsSent(m))
      == Heard(h.calls + Callable(m), h.pongs + (if !Large(m) && m.ty == PING then 1 else 0), Ends(m))
  {
  }

  lemma HandleFirst(h: Heard, m: Message, rest: seq<Message>)
    requires !h.goodbye
    ensures HandleAll(h, AllAsSent([m] + rest)) == HandleAll(Handle(h, AsSent(m)), AllAsSent(rest))
  {
    var msgs := [m] + rest;
    assert msgs[1..] == rest;
    assert AllAsSent(msgs)[1..] == AllAsSent(rest);
  }

  lemma {:induction false} HandlesCalls(h: Heard, msgs: seq<Message>)
    requires !h.goodbye
    ensures HandleAll(h, AllAsSent(msgs)) == Heard(h.calls + Calls(msgs), h.pongs + Pings(msgs), SaysGoodbye(msgs))
    decreases |msgs|
  {
    if msgs == [] {
      assert h.calls + [] == h.calls;
    } else {
      var m, rest := msgs[0], msgs[1..];
      assert msgs == [m] + rest;
      HandleFirst(h, m, rest);
      HandlesOne(h, m);
      if Ends(m) {
        assert h.calls + [] == h.calls;
      } else {
        HandlesCalls(Handle(h, AsSent(m)), rest);
        Regroup(h.calls, Callable(m), Calls(rest));
      }
    }
  }

  /** End to end: after any number of drains, and wherever the socket broke, the message loop at the other end
      gives its callback exactly the messages reported as sent, in order and once each, answers the pings among them
      and closes exactly on a goodbye. */
  lemma CallbackGetsSent(s: Sender)
    requires s.Valid() && forall m :: m in Also(s.done, s.failed) ==> Sendable(m)
    requires forall m :: m in s.done ==> !Oversized(m)
    ensures HandleAll(Heard([], 0, false), Parsed(Node, s.codec, Opened(s.aead, s.socket, s.base)))
      == Heard(Calls(s.done), Pings(s.done), SaysGoodbye(s.done))
  {
    SentIsReceived(Node, s, |s.socket|);
    HandlesCalls(Heard([], 0, false), s.done);
  }
}
