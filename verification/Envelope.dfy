/** The CENV envelope (cli/src/envelope.cpp): one data key wrapped for each recipient, then the
    plaintext in independently sealed 1 MiB segments. */
module Envelope {
  import opened Basics
  import opened Octets

  const KEM_PK_SIZE: nat := 1568
  const KEM_CT_SIZE: nat := 1568
  const KEM_SK_SIZE: nat := 3168
  const KEY_SIZE: nat := 32
  const TAG_SIZE: nat := 16
  const NONCE_SIZE: nat := 12
  const HASH_SIZE: nat := 32
  const HASH_AND_CT: nat := 1600
  const STANZA_SIZE: nat := 1648 // hash, KEM ciphertext and wrapped key
  const HEADER_SIZE: nat := 20
  const SEGMENT_SIZE: nat := 1048576
  const MAX_SEGMENT_CT: nat := 1048592
  const MAX_RECIPIENTS: nat := 65535
  const MAGIC: Bytes := [0x43, 0x45, 0x4E, 0x56]
  const VERSION: byte := 1
  const SUITE_ID: byte := 1
  const ZERO_NONCE: Bytes := [0, 0, 0, 0, 0, 0, 0, 0, 0, 0, 0, 0]

  /** The primitives: SHA3-256, ML-KEM-1024 (encapsulation takes its randomness as an argument),
      the key-encryption key derivation, and ChaCha20-Poly1305 (key, nonce, associated data, text). `sort` is
      std::sort by hash, which may put stanzas of equal hash in any order. */
  datatype Suite = Suite(
    sha3: Bytes -> Bytes,
    encaps: (Bytes, Bytes) -> (Bytes, Bytes),
    decaps: (Bytes, Bytes) -> Option<Bytes>,
    kek: Bytes -> Bytes,
    seal: (Bytes, Bytes, Bytes, Bytes) -> Bytes,
    open: (Bytes, Bytes, Bytes, Bytes) -> Option<Bytes>,
    sort: seq<Stanza> -> seq<Stanza>)

  datatype Stanza = Stanza(pkHash: Bytes, kemCt: Bytes, secret: Bytes)

  ghost predicate SealLaw(s: Suite) {
    forall k, n, ad, m :: |s.seal(k, n, ad, m)| == |m| + TAG_SIZE && s.open(k, n, ad, s.seal(k, n, ad, m)) == Some(m)
  }

  ghost predicate SizeLaw(s: Suite) {
    && (forall x :: |s.sha3(x)| == HASH_SIZE)
    && (forall pk, coins :: |s.encaps(pk, coins).0| == KEM_CT_SIZE)
  }

  predicate SortedByHash(st: seq<Stanza>) {
    forall i, j :: 0 <= i < j < |st| ==> !Less(st[j].pkHash, st[i].pkHash)
  }

  ghost predicate SortLaw(s: Suite) {
    forall st :: multiset(s.sort(st)) == multiset(st) && SortedByHash(s.sort(st))
  }

  ghost predicate Lawful(s: Suite) {
    SealLaw(s) && SizeLaw(s) && SortLaw(s)
  }

  ghost predicate KeyPair(s: Suite, pk: Bytes, sk: Bytes) {
    && |pk| == KEM_PK_SIZE && |sk| == KEM_SK_SIZE
    && forall coins :: s.decaps(sk, s.encaps(pk, coins).0) == Some(s.encaps(pk, coins).1)
  }

  /** No other recipient's key has the hash of `pk`. */
  ghost predicate NoCollision(s: Suite, recipients: seq<Bytes>, pk: Bytes) {
    forall r :: r in recipients && s.sha3(r) == s.sha3(pk) ==> r == pk
  }

  /** The base nonce with its last four bytes xored with the big-endian segment index. */
  function SegmentNonce(nonce: Bytes, index: nat): (r: Bytes)
    requires |nonce| == NONCE_SIZE
    ensures |r| == NONCE_SIZE
  {
    var x := BigEndian(index, 4);
    nonce[..8] + [XorByte(nonce[8], x[0]), XorByte(nonce[9], x[1]), XorByte(nonce[10], x[2]), XorByte(nonce[11], x[3])]
  }

  /** Two different 32-bit segment indexes never share a nonce. */
  lemma SegmentNoncesDistinct(nonce: Bytes, i: nat, j: nat)
    requires |nonce| == NONCE_SIZE && i < TWO_32 && j < TWO_32 && i != j
    ensures SegmentNonce(nonce, i) != SegmentNonce(nonce, j)
  {
    var a, b := SegmentNonce(nonce, i), SegmentNonce(nonce, j);
    if a == b {
      var x, y := BigEndian(i, 4), BigEndian(j, 4);
      assert a[8] == b[8] && a[9] == b[9] && a[10] == b[10] && a[11] == b[11];
      XorByteInjective(nonce[8], x[0], y[0]);
      XorByteInjective(nonce[9], x[1], y[1]);
      XorByteInjective(nonce[10], x[2], y[2]);
      XorByteInjective(nonce[11], x[3], y[3]);
      assert x == y;
      SpanValues();
      BigEndianInjective(i, j, 4);
    }
  }

  function MakeStanza(s: Suite, pk: Bytes, coins: Bytes): Stanza {
    var (ct, secret) := s.encaps(pk, coins);
    Stanza(s.sha3(pk), ct, secret)
  }

  function MakeStanzas(s: Suite, recipients: seq<Bytes>, coins: seq<Bytes>): (r: seq<Stanza>)
    requires |coins| == |recipients|
    ensures |r| == |recipients|
    ensures forall i :: 0 <= i < |r| ==> r[i] == MakeStanza(s, recipients[i], coins[i])
  {
    seq(|recipients|, i requires 0 <= i < |recipients| && |coins| == |recipients| =>
      MakeStanza(s, recipients[i], coins[i]))
  }

  function Header(count: nat, nonce: Bytes): (r: Bytes)
    requires |nonce| == NONCE_SIZE
    ensures |r| == HEADER_SIZE
  {
    MAGIC + [VERSION, SUITE_ID] + BigEndian(count, 2) + nonce
  }

  /** Associated data of the key wrap at position `i`: the header, then hash and ciphertext of every
      stanza before it. */
  function WrapAd(header: Bytes, st: seq<Stanza>, i: nat): Bytes
    requires i <= |st|
  {
    if i == 0 then header
    else WrapAd(header, st, i - 1) + st[i - 1].pkHash + st[i - 1].kemCt
  }

  function WrappedKey(s: Suite, header: Bytes, st: seq<Stanza>, dek: Bytes, i: nat): Bytes
    requires i < |st|
  {
    s.seal(s.kek(st[i].secret), ZERO_NONCE, WrapAd(header, st, i), dek)
  }

  function StanzaBytes(s: Suite, header: Bytes, st: seq<Stanza>, dek: Bytes, i: nat): Bytes
    requires i < |st|
  {
    st[i].pkHash + st[i].kemCt + WrappedKey(s, header, st, dek, i)
  }

  /** Header and the first `n` stanzas; with all stanzas, the associated data of every segment. */
  function Prefix(s: Suite, header: Bytes, st: seq<Stanza>, dek: Bytes, n: nat): Bytes
    requires n <= |st|
  {
    if n == 0 then header
    else Prefix(s, header, st, dek, n - 1) + StanzaBytes(s, header, st, dek, n - 1)
  }

  /** How many segments encrypt writes: the count is cast to 32 bits. */
  function SegmentCount(length: nat): nat {
    var n := ((length + SEGMENT_SIZE - 1) / SEGMENT_SIZE) % TWO_32;
    if n == 0 then 1 else n
  }

  function Segment(pt: Bytes, j: nat): Bytes {
    pt[Min(j * SEGMENT_SIZE, |pt|)..Min((j + 1) * SEGMENT_SIZE, |pt|)]
  }

  function SealedSegment(s: Suite, dek: Bytes, nonce: Bytes, ad: Bytes, pt: Bytes, j: nat): Bytes
    requires |nonce| == NONCE_SIZE
  {
    s.seal(dek, SegmentNonce(nonce, j), ad, Segment(pt, j))
  }

  /** The sealed segments from number `j` to the last. */
  function SealedFrom(s: Suite, dek: Bytes, nonce: Bytes, ad: Bytes, pt: Bytes, j: nat, count: nat): Bytes
    requires |nonce| == NONCE_SIZE && j <= count
    decreases count - j
  {
    if j == count then []
    else SealedSegment(s, dek, nonce, ad, pt, j) + SealedFrom(s, dek, nonce, ad, pt, j + 1, count)
  }

  /** None stands for the exceptions the source throws on a bad recipient list. */
  function EncryptSpec(s: Suite, pt: Bytes, recipients: seq<Bytes>, coins: seq<Bytes>, dek: Bytes, nonce: Bytes):
    Option<Bytes>
    requires |coins| == |recipients| && |nonce| == NONCE_SIZE
  {
    if recipients == [] || |recipients| > MAX_RECIPIENTS then None
    else if exists r :: r in recipients && |r| != KEM_PK_SIZE then None
    else
      var st := s.sort(MakeStanzas(s, recipients, coins));
      var header := Header(|st|, nonce);
      var prefix := Prefix(s, header, st, dek, |st|);
      Some(prefix + SealedFrom(s, dek, nonce, prefix, pt, 0, SegmentCount(|pt|)))
  }

  method Encrypt(s: Suite, pt: Bytes, recipients: seq<Bytes>, coins: seq<Bytes>, dek: Bytes, nonce: Bytes)
    returns (r: Option<Bytes>)
    requires |coins| == |recipients| && |nonce| == NONCE_SIZE
    ensures r == EncryptSpec(s, pt, recipients, coins, dek, nonce)
  {
    if recipients == [] || |recipients| > MAX_RECIPIENTS {
      return None;
    }
    for i := 0 to |recipients|
      invariant forall j :: 0 <= j < i ==> |recipients[j]| == KEM_PK_SIZE
    {
      if |recipients[i]| != KEM_PK_SIZE {
        return None;
      }
    }
    var st := s.sort(MakeStanzas(s, recipients, coins));
    var prefix := BuildPrefix(s, Header(|st|, nonce), st, dek);
    var sealed := SealSegments(s, dek, nonce, prefix, pt);
    r := Some(prefix + sealed);
  }

  /** Wraps the data key for each stanza in turn, accumulating the associated data on the way. */
  method BuildPrefix(s: Suite, header: Bytes, st: seq<Stanza>, dek: Bytes) returns (envelope: Bytes)
    ensures envelope == Prefix(s, header, st, dek, |st|)
  {
    var ad := header;
    envelope := header;
    for i := 0 to |st|
      invariant ad == WrapAd(header, st, i)
      invariant envelope == Prefix(s, header, st, dek, i)
    {
      var wrapped := s.seal(s.kek(st[i].secret), ZERO_NONCE, ad, dek);
      envelope := envelope + (st[i].pkHash + st[i].kemCt + wrapped);
      ad := ad + st[i].pkHash + st[i].kemCt;
    }
  }

  method SealSegments(s: Suite, dek: Bytes, nonce: Bytes, ad: Bytes, pt: Bytes) returns (sealed: Bytes)
    requires |nonce| == NONCE_SIZE
    ensures sealed == SealedFrom(s, dek, nonce, ad, pt, 0, SegmentCount(|pt|))
  {
    sealed := [];
    var count := SegmentCount(|pt|);
    var offset := 0;
    for j := 0 to count
      invariant offset == Min(j * SEGMENT_SIZE, |pt|)
      invariant sealed + SealedFrom(s, dek, nonce, ad, pt, j, count) == SealedFrom(s, dek, nonce, ad, pt, 0, count)
    {
      var length := Min(SEGMENT_SIZE, |pt| - offset);
      var one := s.seal(dek, SegmentNonce(nonce, j), ad, pt[offset..offset + length]);
      assert pt[offset..offset + length] == Segment(pt, j);
      assert sealed + (one + SealedFrom(s, dek, nonce, ad, pt, j + 1, count))
        == (sealed + one) + SealedFrom(s, dek, nonce, ad, pt, j + 1, count);
      sealed := sealed + one;
      offset := offset + length;
    }
  }

  /** Stanza `i` of an envelope, cut out by position alone. */
  function StanzaAt(e: Bytes, i: nat): (r: Bytes)
    requires HEADER_SIZE + (i + 1) * STANZA_SIZE <= |e|
    ensures |r| == STANZA_SIZE
  {
    e[HEADER_SIZE + i * STANZA_SIZE..HEADER_SIZE + (i + 1) * STANZA_SIZE]
  }

  /** The first stanza from `i` on that carries `hash`. */
  function FindStanza(e: Bytes, count: nat, hash: Bytes, i: nat): (r: Option<nat>)
    requires i <= count && HEADER_SIZE + count * STANZA_SIZE <= |e|
    ensures r.Some? ==> i <= r.value < count
    decreases count - i
  {
    if i == count then None
    else if StanzaAt(e, i)[..HASH_SIZE] == hash then Some(i)
    else FindStanza(e, count, hash, i + 1)
  }

  /** The wrap's associated data rebuilt from the envelope's own bytes. */
  function RebuiltAd(e: Bytes, i: nat): Bytes
    requires HEADER_SIZE + i * STANZA_SIZE <= |e|
  {
    if i == 0 then e[..HEADER_SIZE]
    else RebuiltAd(e, i - 1) + StanzaAt(e, i - 1)[..HASH_AND_CT]
  }

  /** Segment by segment, with the boundaries recovered from the length alone. */
  function OpenSegments(s: Suite, dek: Bytes, nonce: Bytes, ad: Bytes, region: Bytes, index: nat): Option<Bytes>
    requires |nonce| == NONCE_SIZE
    decreases |region|
  {
    if region == [] then Some([])
    else
      var n := Min(MAX_SEGMENT_CT, |region|);
      if n < TAG_SIZE then None
      else
        var first := s.open(dek, SegmentNonce(nonce, index), ad, region[..n]);
        if first.None? then None
        else Prepend(first.value, OpenSegments(s, dek, nonce, ad, region[n..], index + 1))
  }

  function Prepend(a: Bytes, o: Option<Bytes>): Option<Bytes> {
    if o.None? then None else Some(a + o.value)
  }

  lemma PrependTwice(a: Bytes, b: Bytes, o: Option<Bytes>)
    ensures Prepend(a, Prepend(b, o)) == Prepend(a + b, o)
    ensures Prepend([], o) == o
  {
    if o.Some? {
      assert a + (b + o.value) == (a + b) + o.value;
      assert [] + o.value == o.value;
    }
  }

  predicate Parses(e: Bytes) {
    && |e| >= HEADER_SIZE
    && e[..4] == MAGIC && e[4] == VERSION && e[5] == SUITE_ID
    && ReadBigEndian(e[6..8]) > 0
    && |e| >= HEADER_SIZE + ReadBigEndian(e[6..8]) * STANZA_SIZE + TAG_SIZE
  }

  function DecryptSpec(s: Suite, e: Bytes, sk: Bytes, pk: Bytes): Option<Bytes> {
    if !Parses(e) || |sk| != KEM_SK_SIZE || |pk| != KEM_PK_SIZE then None
    else
      var count := ReadBigEndian(e[6..8]);
      match FindStanza(e, count, s.sha3(pk), 0)
      case None => None
      case Some(m) =>
        var stanza := StanzaAt(e, m);
        match s.decaps(sk, stanza[HASH_SIZE..HASH_AND_CT])
        case None => None
        case Some(secret) =>
          match s.open(s.kek(secret), ZERO_NONCE, RebuiltAd(e, m), stanza[HASH_AND_CT..])
          case None => None
          case Some(dek) =>
            var split := HEADER_SIZE + count * STANZA_SIZE;
            OpenSegments(s, dek, e[8..HEADER_SIZE], e[..split], e[split..], 0)
  }

  method Decrypt(s: Suite, e: Bytes, sk: Bytes, pk: Bytes) returns (r: Option<Bytes>)
    ensures r == DecryptSpec(s, e, sk, pk)
  {
    if !Parses(e) || |sk| != KEM_SK_SIZE || |pk| != KEM_PK_SIZE {
      return None;
    }
    var count := ReadBigEndian(e[6..8]);
    var hash := s.sha3(pk);
    var m := 0;
    while m < count && StanzaAt(e, m)[..HASH_SIZE] != hash
      invariant 0 <= m <= count
      invariant FindStanza(e, count, hash, 0) == FindStanza(e, count, hash, m)
    {
      m := m + 1;
    }
    if m == count {
      return None;
    }
    var stanza := StanzaAt(e, m);
    var secret := s.decaps(sk, stanza[HASH_SIZE..HASH_AND_CT]);
    if secret.None? {
      return None;
    }
    var ad := e[..HEADER_SIZE];
    for i := 0 to m
      invariant ad == RebuiltAd(e, i)
    {
      ad := ad + StanzaAt(e, i)[..HASH_AND_CT];
    }
    var dek := s.open(s.kek(secret.value), ZERO_NONCE, ad, stanza[HASH_AND_CT..]);
    if dek.None? {
      return None;
    }
    var split := HEADER_SIZE + count * STANZA_SIZE;
    r := DecryptSegments(s, dek.value, e[8..HEADER_SIZE], e[..split], e[split..]);
  }

  method DecryptSegments(s: Suite, dek: Bytes, nonce: Bytes, ad: Bytes, region: Bytes) returns (r: Option<Bytes>)
    requires |nonce| == NONCE_SIZE
    ensures r == OpenSegments(s, dek, nonce, ad, region, 0)
  {
    var decrypted: Bytes := [];
    var offset, index := 0, 0;
    ghost var whole := OpenSegments(s, dek, nonce, ad, region, 0);
    assert region[0..] == region;
    PrependTwice([], [], whole);
    while offset < |region|
      invariant 0 <= offset <= |region|
      invariant whole == Prepend(decrypted, OpenSegments(s, dek, nonce, ad, region[offset..], index))
    {
      var n := Min(MAX_SEGMENT_CT, |region| - offset);
      if n < TAG_SIZE {
        return None;
      }
      ghost var left := region[offset..];
      assert left[..n] == region[offset..offset + n] && left[n..] == region[offset + n..];
      var first := s.open(dek, SegmentNonce(nonce, index), ad, region[offset..offset + n]);
      if first.None? {
        return None;
      }
      PrependTwice(decrypted, first.value, OpenSegments(s, dek, nonce, ad, region[offset + n..], index + 1));
      decrypted := decrypted + first.value;
      offset, index := offset + n, index + 1;
    }
    assert region[offset..] == [] && decrypted + [] == decrypted;
    r := Some(decrypted);
  }
}
