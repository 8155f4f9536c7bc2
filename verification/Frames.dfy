/** Encrypted frames on a byte stream: a 32-bit big-endian length, then the ciphertext, sealed under a nonce
    that counts the frames of one direction (db/net/connection.cpp, db/net/framing.cpp). */
module Frames {
  import opened Octets

  const MAX_FRAME_SIZE: nat := 2097152
  const FRAME_HEADER_SIZE: nat := 4
  const TAG_SIZE: nat := 16
  const NONCE_LIMIT: nat := TWO_63

  /** ChaCha20-Poly1305 under one direction's session key: nonce and text in. The associated data is empty. */
  datatype Aead = Aead(seal: (Bytes, Bytes) -> Bytes, open: (Bytes, Bytes) -> Option<Bytes>)

  ghost predicate AeadLaw(a: Aead) {
    forall n, m :: |a.seal(n, m)| == |m| + TAG_SIZE && a.open(n, a.seal(n, m)) == Some(m)
  }

  function MakeNonce(counter: nat): (r: Bytes)
    ensures |r| == 12
  {
    [0, 0, 0, 0] + BigEndian(counter, 8)
  }

  /** No two frames of one direction are sealed under the same nonce before the counter's limit. */
  lemma NoncesDistinct(i: nat, j: nat)
    requires i < NONCE_LIMIT && j < NONCE_LIMIT && i != j
    ensures MakeNonce(i) != MakeNonce(j)
  {
    SpanValues();
    if MakeNonce(i) == MakeNonce(j) {
      assert MakeNonce(i)[4..] == BigEndian(i, 8) && MakeNonce(j)[4..] == BigEndian(j, 8);
      BigEndianInjective(i, j, 8);
    }
  }

  function FrameBytes(a: Aead, text: Bytes, counter: nat): Bytes {
    var ct := a.seal(MakeNonce(counter), text);
    BigEndian(|ct|, 4) + ct
  }

  function FrameLength(text: Bytes): nat {
    FRAME_HEADER_SIZE + |text| + TAG_SIZE
  }

  /** The bytes of a run of frames whose first one has the given counter. */
  function Wire(a: Aead, texts: seq<Bytes>, counter: nat): Bytes {
    if texts == [] then [] else FrameBytes(a, texts[0], counter) + Wire(a, texts[1..], counter + 1)
  }

  function WireLength(texts: seq<Bytes>): nat {
    if texts == [] then 0 else FrameLength(texts[0]) + WireLength(texts[1..])
  }

  /** How many whole frames stand in the first `n` bytes. */
  function Whole(texts: seq<Bytes>, n: nat): (r: nat)
    ensures r <= |texts|
  {
    if texts == [] || n < FrameLength(texts[0]) then 0 else 1 + Whole(texts[1..], n - FrameLength(texts[0]))
  }

  predicate Fits(text: Bytes) {
    |text| + TAG_SIZE <= MAX_FRAME_SIZE
  }

  /** Takes one frame off the stream, as recv_raw and recv_encrypted do: None is a short read, a length over
      the limit, an exhausted counter or a failed authentication. */
  function TakeFrame(a: Aead, input: Bytes, counter: nat): (r: Option<(Bytes, Bytes)>)
    ensures r.Some? ==> |r.value.1| < |input|
  {
    if |input| < FRAME_HEADER_SIZE then None
    else
      var n := ReadBigEndian(input[..4]);
      if n > MAX_FRAME_SIZE || |input| < 4 + n || counter >= NONCE_LIMIT then None
      else
        match a.open(MakeNonce(counter), input[4..4 + n])
        case None => None
        case Some(text) => Some((text, input[4 + n..]))
  }

  /** The texts a receiver gets out of a stream before its first failure. */
  function Opened(a: Aead, input: Bytes, counter: nat): seq<Bytes>
    decreases |input|
  {
    match TakeFrame(a, input, counter)
    case None => []
    case Some((text, rest)) => [text] + Opened(a, rest, counter + 1)
  }

  lemma FrameBytesLength(a: Aead, text: Bytes, counter: nat)
    requires AeadLaw(a)
    ensures |FrameBytes(a, text, counter)| == FrameLength(text)
  {
  }

  lemma {:induction false} WireHasLength(a: Aead, texts: seq<Bytes>, counter: nat)
    requires AeadLaw(a)
    ensures |Wire(a, texts, counter)| == WireLength(texts)
  {
    if texts != [] {
      WireHasLength(a, texts[1..], counter + 1);
    }
  }

  lemma {:induction false} WireAppends(a: Aead, xs: seq<Bytes>, ys: seq<Bytes>, counter: nat)
    ensures Wire(a, xs + ys, counter) == Wire(a, xs, counter) + Wire(a, ys, counter + |xs|)
  {
    if xs == [] {
      assert xs + ys == ys;
    } else {
      assert (xs + ys)[1..] == xs[1..] + ys;
      WireAppends(a, xs[1..], ys, counter + 1);
    }
  }

  lemma {:induction false} LengthAppends(xs: seq<Bytes>, ys: seq<Bytes>)
    ensures WireLength(xs + ys) == WireLength(xs) + WireLength(ys)
  {
    if xs == [] {
      assert xs + ys == ys;
    } else {
      assert (xs + ys)[1..] == xs[1..] + ys;
      LengthAppends(xs[1..], ys);
    }
  }

  lemma TakesWritten(a: Aead, text: Bytes, rest: Bytes, counter: nat)
    requires AeadLaw(a) && Fits(text) && counter < NONCE_LIMIT
    ensures TakeFrame(a, FrameBytes(a, text, counter) + rest, counter) == Some((text, rest))
  {
    var ct := a.seal(MakeNonce(counter), text);
    var input := FrameBytes(a, text, counter) + rest;
    SpanValues();
    BigEndianRoundTrip(|ct|, 4);
    assert input[..4] == BigEndian(|ct|, 4);
    assert input[4..4 + |ct|] == ct && input[4 + |ct|..] == rest;
  }

  /** A frame cut short is not taken. */
  lemma LeavesPartial(a: Aead, text: Bytes, n: nat, counter: nat)
    requires AeadLaw(a) && Fits(text) && n < FrameLength(text)
    ensures TakeFrame(a, FrameBytes(a, text, counter)[..n], counter) == None
  {
    var frame := FrameBytes(a, text, counter);
    if n >= 4 {
      var ct := a.seal(MakeNonce(counter), text);
      SpanValues();
      BigEndianRoundTrip(|ct|, 4);
      assert frame[..n][..4] == BigEndian(|ct|, 4);
    }
  }

  /** A whole frame at the front opens; the rest is read under the next counter. */
  lemma OpensFirst(a: Aead, text: Bytes, tail: Bytes, counter: nat, n: nat)
    requires AeadLaw(a) && Fits(text) && counter < NONCE_LIMIT && FrameLength(text) <= n <= FrameLength(text) + |tail|
    requires |FrameBytes(a, text, counter)| == FrameLength(text)
    ensures Opened(a, (FrameBytes(a, text, counter) + tail)[..n], counter)
      == [text] + Opened(a, tail[..n - FrameLength(text)], counter + 1)
  {
    var frame := FrameBytes(a, text, counter);
    assert (frame + tail)[..n] == frame + tail[..n - |frame|];
    TakesWritten(a, text, tail[..n - |frame|], counter);
  }

  lemma OpensNothing(a: Aead, text: Bytes, tail: Bytes, counter: nat, n: nat)
    requires AeadLaw(a) && Fits(text) && n < FrameLength(text) == |FrameBytes(a, text, counter)|
    ensures Opened(a, (FrameBytes(a, text, counter) + tail)[..n], counter) == []
  {
    assert (FrameBytes(a, text, counter) + tail)[..n] == FrameBytes(a, text, counter)[..n];
    LeavesPartial(a, text, n, counter);
  }

  lemma FirstOf(texts: seq<Bytes>, k: nat)
    requires texts != [] && k < |texts|
    ensures [texts[0]] + texts[1..][..k] == texts[..k + 1]
  {
  }

  /** Wherever the stream is cut, the receiver gets the whole frames before the cut, in order, and no more. */
  lemma {:induction false} OpensWhole(a: Aead, texts: seq<Bytes>, counter: nat, n: nat)
    requires AeadLaw(a) && (forall t :: t in texts ==> Fits(t)) && counter + |texts| <= NONCE_LIMIT
    requires n <= |Wire(a, texts, counter)|
    ensures Opened(a, Wire(a, texts, counter)[..n], counter) == texts[..Whole(texts, n)]
  {
    if texts != [] {
      var tail := Wire(a, texts[1..], counter + 1);
      FrameBytesLength(a, texts[0], counter);
      if n < FrameLength(texts[0]) {
        OpensNothing(a, texts[0], tail, counter, n);
      } else {
        var m := n - FrameLength(texts[0]);
        OpensFirst(a, texts[0], tail, counter, n);
        OpensWhole(a, texts[1..], counter + 1, m);
        FirstOf(texts, Whole(texts[1..], m));
      }
    }
  }

  lemma {:induction false} WholeSplits(xs: seq<Bytes>, ys: seq<Bytes>, n: nat)
    ensures n >= WireLength(xs) ==> Whole(xs + ys, n) == |xs| + Whole(ys, n - WireLength(xs))
    ensures n < WireLength(xs) ==> Whole(xs + ys, n) < |xs|
  {
    if xs == [] {
      assert xs + ys == ys;
    } else {
      assert (xs + ys)[1..] == xs[1..] + ys;
      if n >= FrameLength(xs[0]) {
        WholeSplits(xs[1..], ys, n - FrameLength(xs[0]));
      }
    }
  }

  /** More frames behind the cut change nothing before it. */
  lemma WholeOfPrefix(xs: seq<Bytes>, ys: seq<Bytes>, n: nat)
    requires xs <= ys && n <= WireLength(xs)
    ensures xs[..Whole(xs, n)] == ys[..Whole(ys, n)]
  {
    var more := ys[|xs|..];
    assert ys == xs + more;
    WholeSame(xs, more, n);
    assert (xs + more)[..Whole(xs, n)] == xs[..Whole(xs, n)];
  }

  lemma {:induction false} WholeSame(xs: seq<Bytes>, more: seq<Bytes>, n: nat)
    requires n <= WireLength(xs)
    ensures Whole(xs + more, n) == Whole(xs, n)
  {
    if xs != [] {
      assert (xs + more)[1..] == xs[1..] + more;
      if n >= FrameLength(xs[0]) {
        WholeSame(xs[1..], more, n - FrameLength(xs[0]));
      }
    }
  }
}
