/** Every recipient of an envelope gets the plaintext back, for every recipient list and every length up
    to the largest number of segments a 32-bit count can name; beyond it, never. */
module EnvelopeRoundTrip {
  import opened Basics
  import opened Octets
  import opened Envelope

  // Where things are in an envelope.

  ghost predicate StanzasSized(s: Suite, st: seq<Stanza>) {
    forall i :: 0 <= i < |st| ==> |st[i].pkHash| == HASH_SIZE && |st[i].kemCt| == KEM_CT_SIZE
  }

  lemma StanzaLength(s: Suite, header: Bytes, st: seq<Stanza>, dek: Bytes, i: nat)
    requires SealLaw(s) && StanzasSized(s, st) && |dek| == KEY_SIZE && i < |st|
    ensures |StanzaBytes(s, header, st, dek, i)| == STANZA_SIZE
  {
  }

  lemma {:induction false} PrefixLength(s: Suite, header: Bytes, st: seq<Stanza>, dek: Bytes, n: nat)
    requires SealLaw(s) && StanzasSized(s, st) && |dek| == KEY_SIZE && n <= |st| && |header| == HEADER_SIZE
    ensures |Prefix(s, header, st, dek, n)| == HEADER_SIZE + n * STANZA_SIZE
    ensures Prefix(s, header, st, dek, n)[..HEADER_SIZE] == header
  {
    if n > 0 {
      PrefixLength(s, header, st, dek, n - 1);
      StanzaLength(s, header, st, dek, n - 1);
    }
  }

  /** Cutting stanza `i` out of anything that starts with `n > i` stanzas gives stanza `i`. */
  lemma {:induction false} StanzaFound(s: Suite, header: Bytes, st: seq<Stanza>, dek: Bytes, n: nat, rest: Bytes,
                                       i: nat)
    requires SealLaw(s) && StanzasSized(s, st) && |dek| == KEY_SIZE && i < n <= |st| && |header| == HEADER_SIZE
    ensures |Prefix(s, header, st, dek, n) + rest| >= HEADER_SIZE + n * STANZA_SIZE
    ensures StanzaAt(Prefix(s, header, st, dek, n) + rest, i) == StanzaBytes(s, header, st, dek, i)
    decreases n
  {
    PrefixLength(s, header, st, dek, n);
    PrefixLength(s, header, st, dek, n - 1);
    var last := StanzaBytes(s, header, st, dek, n - 1);
    StanzaLength(s, header, st, dek, n - 1);
    var before := Prefix(s, header, st, dek, n - 1);
    assert Prefix(s, header, st, dek, n) + rest == before + (last + rest);
    if i == n - 1 {
      assert (before + (last + rest))[|before|..|before| + STANZA_SIZE] == last;
    } else {
      StanzaFound(s, header, st, dek, n - 1, last + rest, i);
    }
  }

  lemma {:induction false} AdRebuilt(s: Suite, header: Bytes, st: seq<Stanza>, dek: Bytes, e: Bytes, i: nat)
    requires SealLaw(s) && StanzasSized(s, st) && |dek| == KEY_SIZE && i <= |st| && |header| == HEADER_SIZE
    requires |e| >= HEADER_SIZE + |st| * STANZA_SIZE && e[..HEADER_SIZE] == header
    requires forall j :: 0 <= j < |st| ==> StanzaAt(e, j) == StanzaBytes(s, header, st, dek, j)
    ensures RebuiltAd(e, i) == WrapAd(header, st, i)
  {
    if i > 0 {
      AdRebuilt(s, header, st, dek, e, i - 1);
      var before := StanzaBytes(s, header, st, dek, i - 1);
      assert before[..HASH_AND_CT] == st[i - 1].pkHash + st[i - 1].kemCt;
      var ad := WrapAd(header, st, i - 1);
      assert ad + (st[i - 1].pkHash + st[i - 1].kemCt) == ad + st[i - 1].pkHash + st[i - 1].kemCt;
    }
  }

  // The scan for our stanza stops at a stanza made for our key.

  lemma {:induction false} ScanStops(s: Suite, header: Bytes, st: seq<Stanza>, dek: Bytes, e: Bytes, hash: Bytes,
                                     i: nat)
    requires SealLaw(s) && StanzasSized(s, st) && |dek| == KEY_SIZE && |header| == HEADER_SIZE
    requires |e| >= HEADER_SIZE + |st| * STANZA_SIZE
    requires forall j :: 0 <= j < |st| ==> StanzaAt(e, j) == StanzaBytes(s, header, st, dek, j)
    requires i <= |st| && exists j :: i <= j < |st| && st[j].pkHash == hash
    ensures var m := FindStanza(e, |st|, hash, i); m.Some? && m.value < |st| && st[m.value].pkHash == hash
    decreases |st| - i
  {
    assert StanzaBytes(s, header, st, dek, i)[..HASH_SIZE] == st[i].pkHash;
    if st[i].pkHash != hash {
      ScanStops(s, header, st, dek, e, hash, i + 1);
    }
  }

  lemma SortedFrom(s: Suite, recipients: seq<Bytes>, coins: seq<Bytes>, pk: Bytes)
    requires |coins| == |recipients| && SizeLaw(s) && SortLaw(s) && pk in recipients
    ensures var st := s.sort(MakeStanzas(s, recipients, coins));
      && |st| == |recipients| && StanzasSized(s, st)
      && (exists j :: 0 <= j < |st| && st[j].pkHash == s.sha3(pk))
      && forall j :: 0 <= j < |st| ==>
           exists i :: 0 <= i < |recipients| && st[j] == MakeStanza(s, recipients[i], coins[i])
  {
    var made := MakeStanzas(s, recipients, coins);
    var st := s.sort(made);
    assert |multiset(st)| == |multiset(made)|;
    forall j | 0 <= j < |st|
      ensures exists i :: 0 <= i < |recipients| && st[j] == MakeStanza(s, recipients[i], coins[i])
    {
      assert st[j] in multiset(st);
      assert st[j] in made;
    }
    var i :| 0 <= i < |recipients| && recipients[i] == pk;
    assert made[i] in multiset(made);
    assert made[i] in st;
  }

  // Segments.

  /** Where the written segments end. */
  function Covered(pt: Bytes, count: nat): nat {
    Min(count * SEGMENT_SIZE, |pt|)
  }

  /** The first boundary is where the first sealed segment ends: it is full, or nothing follows it. */
  lemma FirstSegmentOpens(s: Suite, dek: Bytes, nonce: Bytes, ad: Bytes, m: Bytes, rest: Bytes, index: nat)
    requires SealLaw(s) && |nonce| == NONCE_SIZE
    requires |m| == SEGMENT_SIZE || (|m| < SEGMENT_SIZE && rest == [])
    ensures OpenSegments(s, dek, nonce, ad, s.seal(dek, SegmentNonce(nonce, index), ad, m) + rest, index)
      == Prepend(m, OpenSegments(s, dek, nonce, ad, rest, index + 1))
  {
    var one := s.seal(dek, SegmentNonce(nonce, index), ad, m);
    var region := one + rest;
    var n := Min(MAX_SEGMENT_CT, |region|);
    assert n == |one| && region[..n] == one && region[n..] == rest;
  }

  lemma SegmentJoins(pt: Bytes, j: nat, count: nat)
    requires j < count && (count - 1) * SEGMENT_SIZE <= |pt|
    ensures var c := Covered(pt, count);
      Segment(pt, j) + pt[Min((j + 1) * SEGMENT_SIZE, c)..c] == pt[Min(j * SEGMENT_SIZE, c)..c]
  {
  }

  /** Opening the sealed segments from `j` on gives the plaintext from segment `j` on. */
  lemma {:induction false} SegmentsOpen(s: Suite, dek: Bytes, nonce: Bytes, ad: Bytes, pt: Bytes, j: nat, count: nat)
    requires SealLaw(s) && |nonce| == NONCE_SIZE && j <= count
    requires (count - 1) * SEGMENT_SIZE <= |pt|
    ensures j == count || j * SEGMENT_SIZE <= |pt|
    ensures OpenSegments(s, dek, nonce, ad, SealedFrom(s, dek, nonce, ad, pt, j, count), j)
      == Some(pt[Min(j * SEGMENT_SIZE, Covered(pt, count))..Covered(pt, count)])
    decreases count - j
  {
    if j < count {
      SegmentsOpen(s, dek, nonce, ad, pt, j + 1, count);
      FirstSegmentOpens(s, dek, nonce, ad, Segment(pt, j), SealedFrom(s, dek, nonce, ad, pt, j + 1, count), j);
      SegmentJoins(pt, j, count);
    } else {
      assert pt[Covered(pt, count)..Covered(pt, count)] == [];
    }
  }

  const MAX_LENGTH: nat := (TWO_32 - 1) * SEGMENT_SIZE

  /** All of the plaintext is covered exactly up to the limit; short of it, whole segments are written. */
  lemma CoverageIff(pt: Bytes)
    ensures (SegmentCount(|pt|) - 1) * SEGMENT_SIZE <= |pt|
    ensures Covered(pt, SegmentCount(|pt|)) == |pt| <==> |pt| <= MAX_LENGTH
  {
    var n := (|pt| + SEGMENT_SIZE - 1) / SEGMENT_SIZE;
    assert n * SEGMENT_SIZE <= |pt| + SEGMENT_SIZE - 1 < (n + 1) * SEGMENT_SIZE;
    if n < TWO_32 {
      assert |pt| <= MAX_LENGTH;
    } else {
      assert SegmentCount(|pt|) <= n - 1;
    }
  }

  lemma HeaderFields(count: nat, nonce: Bytes, e: Bytes)
    requires |nonce| == NONCE_SIZE && 0 < count <= MAX_RECIPIENTS
    requires |e| >= HEADER_SIZE + count * STANZA_SIZE + TAG_SIZE && e[..HEADER_SIZE] == Header(count, nonce)
    ensures Parses(e) && ReadBigEndian(e[6..8]) == count && e[8..HEADER_SIZE] == nonce
  {
    var h := Header(count, nonce);
    assert h[..4] == MAGIC && h[4] == VERSION && h[5] == SUITE_ID;
    assert h[6..8] == BigEndian(count, 2) && h[8..HEADER_SIZE] == nonce;
    assert e[..4] == e[..HEADER_SIZE][..4] && e[6..8] == e[..HEADER_SIZE][6..8];
    assert e[8..HEADER_SIZE] == e[..HEADER_SIZE][8..HEADER_SIZE];
    assert e[4] == e[..HEADER_SIZE][4] && e[5] == e[..HEADER_SIZE][5];
    SpanValues();
    BigEndianRoundTrip(count, 2);
  }

  lemma {:induction false} SealedNotShort(s: Suite, dek: Bytes, nonce: Bytes, ad: Bytes, pt: Bytes, count: nat)
    requires SealLaw(s) && |nonce| == NONCE_SIZE && count > 0
    ensures |SealedFrom(s, dek, nonce, ad, pt, 0, count)| >= TAG_SIZE
  {
    assert SealedFrom(s, dek, nonce, ad, pt, 0, count)
      == SealedSegment(s, dek, nonce, ad, pt, 0) + SealedFrom(s, dek, nonce, ad, pt, 1, count);
  }

  /** `e` starts with the header and all the stanzas. */
  ghost predicate Located(s: Suite, header: Bytes, st: seq<Stanza>, dek: Bytes, e: Bytes) {
    && |header| == HEADER_SIZE && |e| >= HEADER_SIZE + |st| * STANZA_SIZE && e[..HEADER_SIZE] == header
    && forall j :: 0 <= j < |st| ==> StanzaAt(e, j) == StanzaBytes(s, header, st, dek, j)
  }

  lemma EnvelopeLocated(s: Suite, header: Bytes, st: seq<Stanza>, dek: Bytes, rest: Bytes)
    requires SealLaw(s) && StanzasSized(s, st) && |dek| == KEY_SIZE && |header| == HEADER_SIZE
    ensures var prefix := Prefix(s, header, st, dek, |st|);
      |prefix| == HEADER_SIZE + |st| * STANZA_SIZE && Located(s, header, st, dek, prefix + rest)
  {
    var e := Prefix(s, header, st, dek, |st|) + rest;
    PrefixLength(s, header, st, dek, |st|);
    assert e[..HEADER_SIZE] == header;
    forall j | 0 <= j < |st|
      ensures StanzaAt(e, j) == StanzaBytes(s, header, st, dek, j)
    {
      StanzaFound(s, header, st, dek, |st|, rest, j);
    }
  }

  /** Stanza `m` of the envelope gives our secret key the data key. */
  ghost predicate Unwraps(s: Suite, e: Bytes, m: nat, sk: Bytes, dek: Bytes)
    requires HEADER_SIZE + (m + 1) * STANZA_SIZE <= |e|
  {
    var stanza := StanzaAt(e, m);
    var secret := s.decaps(sk, stanza[HASH_SIZE..HASH_AND_CT]);
    && secret.Some?
    && s.open(s.kek(secret.value), ZERO_NONCE, RebuiltAd(e, m), stanza[HASH_AND_CT..]) == Some(dek)
  }

  /** A stanza made for our key unwraps to the data key: the associated data rebuilt from the envelope
      is the one used when wrapping. */
  lemma StanzaUnwraps(s: Suite, header: Bytes, st: seq<Stanza>, dek: Bytes, e: Bytes, m: nat,
                      pk: Bytes, sk: Bytes, coins: Bytes)
    requires Lawful(s) && KeyPair(s, pk, sk) && StanzasSized(s, st) && |dek| == KEY_SIZE
    requires Located(s, header, st, dek, e) && m < |st| && st[m] == MakeStanza(s, pk, coins)
    ensures Unwraps(s, e, m, sk, dek)
  {
    AdRebuilt(s, header, st, dek, e, m);
    var stanza := StanzaBytes(s, header, st, dek, m);
    assert stanza[HASH_SIZE..HASH_AND_CT] == st[m].kemCt;
    assert stanza[HASH_AND_CT..] == WrappedKey(s, header, st, dek, m);
  }

  /** The scan of a located envelope ends at a stanza of ours, and that stanza unwraps. */
  lemma KeyUnwraps(s: Suite, recipients: seq<Bytes>, coins: seq<Bytes>, st: seq<Stanza>, dek: Bytes, header: Bytes,
                   e: Bytes, pk: Bytes, sk: Bytes)
    requires Lawful(s) && KeyPair(s, pk, sk) && pk in recipients && NoCollision(s, recipients, pk)
    requires |coins| == |recipients| && |dek| == KEY_SIZE
    requires st == s.sort(MakeStanzas(s, recipients, coins)) && Located(s, header, st, dek, e)
    ensures var m := FindStanza(e, |st|, s.sha3(pk), 0); m.Some? && Unwraps(s, e, m.value, sk, dek)
  {
    SortedFrom(s, recipients, coins, pk);
    ScanStops(s, header, st, dek, e, s.sha3(pk), 0);
    var m := FindStanza(e, |st|, s.sha3(pk), 0).value;
    var i :| 0 <= i < |recipients| && st[m] == MakeStanza(s, recipients[i], coins[i]);
    assert recipients[i] == pk;
    StanzaUnwraps(s, header, st, dek, e, m, pk, sk, coins[i]);
  }

  lemma DecryptOpens(s: Suite, e: Bytes, sk: Bytes, pk: Bytes, count: nat, dek: Bytes)
    requires Parses(e) && count == ReadBigEndian(e[6..8]) && |sk| == KEM_SK_SIZE && |pk| == KEM_PK_SIZE
    requires var m := FindStanza(e, count, s.sha3(pk), 0); m.Some? && Unwraps(s, e, m.value, sk, dek)
    ensures var split := HEADER_SIZE + count * STANZA_SIZE;
      DecryptSpec(s, e, sk, pk) == OpenSegments(s, dek, e[8..HEADER_SIZE], e[..split], e[split..], 0)
  {
  }

  /** What a recipient gets back: the plaintext, cut where the 32-bit segment count ends. */
  lemma DecryptReturnsCovered(s: Suite, pt: Bytes, recipients: seq<Bytes>, coins: seq<Bytes>, dek: Bytes, nonce: Bytes,
                              pk: Bytes, sk: Bytes)
    requires Lawful(s) && KeyPair(s, pk, sk) && pk in recipients && NoCollision(s, recipients, pk)
    requires |coins| == |recipients| && |nonce| == NONCE_SIZE && |dek| == KEY_SIZE
    ensures var e := EncryptSpec(s, pt, recipients, coins, dek, nonce);
      e.Some? ==> DecryptSpec(s, e.value, sk, pk) == Some(pt[..Covered(pt, SegmentCount(|pt|))])
  {
    var r := EncryptSpec(s, pt, recipients, coins, dek, nonce);
    if r.None? {
      return;
    }
    var st := s.sort(MakeStanzas(s, recipients, coins));
    var header := Header(|st|, nonce);
    var prefix := Prefix(s, header, st, dek, |st|);
    var count := SegmentCount(|pt|);
    var sealed := SealedFrom(s, dek, nonce, prefix, pt, 0, count);
    var e := prefix + sealed;
    SortedFrom(s, recipients, coins, pk);
    EnvelopeLocated(s, header, st, dek, sealed);
    KeyUnwraps(s, recipients, coins, st, dek, header, e, pk, sk);
    SealedNotShort(s, dek, nonce, prefix, pt, count);
    HeaderFields(|st|, nonce, e);
    DecryptOpens(s, e, sk, pk, |st|, dek);
    var split := HEADER_SIZE + |st| * STANZA_SIZE;
    assert e[..split] == prefix && e[split..] == sealed;
    CoverageIff(pt);
    SegmentsOpen(s, dek, nonce, prefix, pt, 0, count);
  }

  /** Encryption fails exactly on an empty or oversized recipient list or a key of the wrong size. When it
      succeeds, every recipient's decryption gives the plaintext if and only if its length is at most
      (2^32 - 1) segments. The empty plaintext and exact multiples of a segment are included. */
  lemma EnvelopeRoundTripIff(s: Suite, pt: Bytes, recipients: seq<Bytes>, coins: seq<Bytes>, dek: Bytes, nonce: Bytes,
                             pk: Bytes, sk: Bytes)
    requires Lawful(s) && KeyPair(s, pk, sk) && pk in recipients && NoCollision(s, recipients, pk)
    requires |coins| == |recipients| && |nonce| == NONCE_SIZE && |dek| == KEY_SIZE
    ensures var e := EncryptSpec(s, pt, recipients, coins, dek, nonce);
      && (e.Some? <==> |recipients| <= MAX_RECIPIENTS && forall r :: r in recipients ==> |r| == KEM_PK_SIZE)
      && (e.Some? ==> (DecryptSpec(s, e.value, sk, pk) == Some(pt) <==> |pt| <= MAX_LENGTH))
  {
    DecryptReturnsCovered(s, pt, recipients, coins, dek, nonce, pk, sk);
    CoverageIff(pt);
    var c := Covered(pt, SegmentCount(|pt|));
    assert c == |pt| ==> pt[..c] == pt;
  }

  lemma LocatedOrdered(s: Suite, header: Bytes, st: seq<Stanza>, dek: Bytes, e: Bytes, i: nat, j: nat)
    requires Located(s, header, st, dek, e) && StanzasSized(s, st) && SortedByHash(st) && i < j < |st|
    ensures !Less(StanzaAt(e, j)[..HASH_SIZE], StanzaAt(e, i)[..HASH_SIZE])
  {
    assert StanzaBytes(s, header, st, dek, i)[..HASH_SIZE] == st[i].pkHash;
    assert StanzaBytes(s, header, st, dek, j)[..HASH_SIZE] == st[j].pkHash;
  }

  /** The stanzas lie in an envelope in order of recipient hash. */
  lemma EnvelopeOrdered(s: Suite, pt: Bytes, recipients: seq<Bytes>, coins: seq<Bytes>, dek: Bytes, nonce: Bytes,
                        i: nat, j: nat)
    requires Lawful(s) && |coins| == |recipients| && |nonce| == NONCE_SIZE && |dek| == KEY_SIZE
    requires i < j < |recipients|
    ensures var e := EncryptSpec(s, pt, recipients, coins, dek, nonce);
      e.Some? ==>
        && |e.value| >= HEADER_SIZE + |recipients| * STANZA_SIZE
        && !Less(StanzaAt(e.value, j)[..HASH_SIZE], StanzaAt(e.value, i)[..HASH_SIZE])
  {
    var e := EncryptSpec(s, pt, recipients, coins, dek, nonce);
    if e.Some? {
      var st := s.sort(MakeStanzas(s, recipients, coins));
      var header := Header(|st|, nonce);
      var prefix := Prefix(s, header, st, dek, |st|);
      SortedFrom(s, recipients, coins, recipients[0]);
      EnvelopeLocated(s, header, st, dek, SealedFrom(s, dek, nonce, prefix, pt, 0, SegmentCount(|pt|)));
      LocatedOrdered(s, header, st, dek, e.value, i, j);
    }
  }

  /** The size of an envelope: header, one stanza for each recipient, the text, and a tag per segment. */
  lemma EnvelopeLength(s: Suite, pt: Bytes, recipients: seq<Bytes>, coins: seq<Bytes>, dek: Bytes, nonce: Bytes)
    requires Lawful(s) && |coins| == |recipients| && |nonce| == NONCE_SIZE && |dek| == KEY_SIZE
    requires |pt| <= MAX_LENGTH
    ensures var e := EncryptSpec(s, pt, recipients, coins, dek, nonce);
      e.Some? ==> |e.value| == HEADER_SIZE + |recipients| * STANZA_SIZE + |pt| + SegmentCount(|pt|) * TAG_SIZE
  {
    var r := EncryptSpec(s, pt, recipients, coins, dek, nonce);
    if r.Some? {
      var st := s.sort(MakeStanzas(s, recipients, coins));
      var header := Header(|st|, nonce);
      SortedFrom(s, recipients, coins, recipients[0]);
      PrefixLength(s, header, st, dek, |st|);
      var prefix := Prefix(s, header, st, dek, |st|);
      CoverageIff(pt);
      SealedLength(s, dek, nonce, prefix, pt, 0, SegmentCount(|pt|));
    }
  }

  lemma {:induction false} SealedLength(s: Suite, dek: Bytes, nonce: Bytes, ad: Bytes, pt: Bytes, j: nat, count: nat)
    requires SealLaw(s) && |nonce| == NONCE_SIZE && j <= count
    ensures |SealedFrom(s, dek, nonce, ad, pt, j, count)|
      == Covered(pt, count) - Min(j * SEGMENT_SIZE, Covered(pt, count)) + (count - j) * TAG_SIZE
    decreases count - j
  {
    if j < count {
      SealedLength(s, dek, nonce, ad, pt, j + 1, count);
    }
  }

  // Consistency of the laws.

  function InsertByHash(x: Stanza, st: seq<Stanza>): (r: seq<Stanza>)
    ensures multiset(r) == multiset(st) + multiset{x}
  {
    if st == [] then [x]
    else if Less(x.pkHash, st[0].pkHash) then [x] + st
    else
      assert st == [st[0]] + st[1..];
      [st[0]] + InsertByHash(x, st[1..])
  }

  /** One such order. */
  function SortByHash(st: seq<Stanza>): (r: seq<Stanza>)
    ensures multiset(r) == multiset(st)
    ensures |r| == |st|
  {
    if st == [] then []
    else
      assert st == [st[0]] + st[1..];
      var r := InsertByHash(st[0], SortByHash(st[1..]));
      assert |multiset(r)| == |multiset(st)|;
      r
  }

  lemma {:induction false} InsertKeepsSorted(x: Stanza, st: seq<Stanza>)
    requires SortedByHash(st)
    ensures SortedByHash(InsertByHash(x, st))
  {
    if st == [] {
    } else if Less(x.pkHash, st[0].pkHash) {
      forall j | 0 <= j < |st|
        ensures !Less(st[j].pkHash, x.pkHash)
      {
        if Less(st[j].pkHash, x.pkHash) {
          LessTransitive(st[j].pkHash, x.pkHash, st[0].pkHash);
          LessIrreflexive(st[0].pkHash);
        }
      }
    } else {
      InsertKeepsSorted(x, st[1..]);
      var r := InsertByHash(x, st[1..]);
      forall j | 0 <= j < |r|
        ensures !Less(r[j].pkHash, st[0].pkHash)
      {
        assert r[j] in multiset(r);
        assert r[j] == x || r[j] in st[1..];
      }
    }
  }

  lemma {:induction false} StanzasSorted(st: seq<Stanza>)
    ensures SortedByHash(SortByHash(st))
  {
    if st != [] {
      StanzasSorted(st[1..]);
      InsertKeepsSorted(st[0], SortByHash(st[1..]));
    }
  }

  /** The laws asked of the primitives are consistent: a suite that only pads meets them. */
  lemma LawsConsistent() returns (s: Suite, pk: Bytes, sk: Bytes)
    ensures Lawful(s) && KeyPair(s, pk, sk)
  {
    var hash, ct := seq(HASH_SIZE, _ => 0 as byte), seq(KEM_CT_SIZE, _ => 0 as byte);
    var tag := seq(TAG_SIZE, _ => 0 as byte);
    s := Suite(_ => hash, (_, _) => (ct, []), (_, _) => Some([]), x => x,
      (k, n, ad, m: Bytes) => m + tag,
      (k, n, ad, c: Bytes) => if |c| < TAG_SIZE then None else Some(c[..|c| - TAG_SIZE]),
      SortByHash);
    pk, sk := seq(KEM_PK_SIZE, _ => 0 as byte), seq(KEM_SK_SIZE, _ => 0 as byte);
    forall k: Bytes, n: Bytes, ad: Bytes, m: Bytes
      ensures |s.seal(k, n, ad, m)| == |m| + TAG_SIZE && s.open(k, n, ad, s.seal(k, n, ad, m)) == Some(m)
    {
      assert (m + tag)[..|m|] == m;
    }
    forall st: seq<Stanza>
      ensures SortedByHash(s.sort(st))
    {
      StanzasSorted(st);
    }
  }
}
