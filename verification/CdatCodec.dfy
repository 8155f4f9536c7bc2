/** What build_cdat_blob_flatbuf writes and get_chunked reads back, over the CENV envelope
    (cli/src/chunked.cpp). It is the codec that the chunked upload and download are stated over. */
module CdatCodec {
  import opened Octets
  import opened Envelope
  import opened EnvelopeRoundTrip
  import opened ChunkPlan
  import opened ChunkedUpload

  /** One draw of randomness: the encapsulation coins, the data key and the base nonce. */
  datatype Draw = Draw(coins: seq<Bytes>, dek: Bytes, nonce: Bytes)

  /** The signed blob around the data, which is generated code and a signature. */
  datatype BlobLayer = BlobLayer(encode: (Bytes, nat) -> Bytes, decode: Bytes -> Option<Bytes>)

  ghost predicate LayerLaw(l: BlobLayer) {
    forall data, seed :: l.decode(l.encode(data, seed)) == Some(data)
  }

  ghost predicate DrawsFit(draw: nat -> Draw, recipients: nat) {
    forall seed :: |draw(seed).coins| == recipients && |draw(seed).dek| == KEY_SIZE && |draw(seed).nonce| == NONCE_SIZE
  }

  /** Magic and envelope in a blob. */
  function Wrap(s: Suite, l: BlobLayer, magic: Bytes, recipients: seq<Bytes>, d: Draw, pt: Bytes, seed: nat): Bytes {
    if |d.coins| != |recipients| || |d.nonce| != NONCE_SIZE || |d.dek| != KEY_SIZE then []
    else
      match EncryptSpec(s, pt, recipients, d.coins, d.dek, d.nonce)
      case None => []
      case Some(e) => l.encode(magic + e, seed)
  }

  function UnwrapChunk(s: Suite, l: BlobLayer, pk: Bytes, sk: Bytes, blob: Bytes): Unwrapped {
    match l.decode(blob)
    case None => Undecodable
    case Some(data) =>
      if |data| < 4 || data[..4] != CDAT_MAGIC then NotCdat
      else
        match DecryptSpec(s, data[4..], sk, pk)
        case None => Undecryptable
        case Some(pt) => Plain(pt)
  }

  function UnwrapManifest(s: Suite, l: BlobLayer, pk: Bytes, sk: Bytes, blob: Bytes): Option<Bytes> {
    match l.decode(blob)
    case None => None
    case Some(data) => if |data| < 4 || data[..4] != CPAR_MAGIC then None else DecryptSpec(s, data[4..], sk, pk)
  }

  /** `last` is the seed of the manifest's blob. */
  function Codec(s: Suite, l: BlobLayer, recipients: seq<Bytes>, draw: nat -> Draw, last: nat, pk: Bytes, sk: Bytes):
    ChunkCodec
  {
    ChunkCodec((pt: Bytes, seed: nat) => Wrap(s, l, CDAT_MAGIC, recipients, draw(seed), pt, seed),
               blob => UnwrapChunk(s, l, pk, sk, blob), s.sha3,
               (payload: Bytes) => Wrap(s, l, CPAR_MAGIC, recipients, draw(last), payload, last),
               blob => UnwrapManifest(s, l, pk, sk, blob))
  }

  ghost predicate Addressed(s: Suite, recipients: seq<Bytes>, pk: Bytes, sk: Bytes) {
    && Lawful(s) && KeyPair(s, pk, sk) && pk in recipients && NoCollision(s, recipients, pk)
    && |recipients| <= MAX_RECIPIENTS && forall r :: r in recipients ==> |r| == KEM_PK_SIZE
  }

  /** The blob's data is the magic and an envelope that decrypts to the text. */
  lemma WrapReads(s: Suite, l: BlobLayer, magic: Bytes, recipients: seq<Bytes>, d: Draw, pk: Bytes, sk: Bytes,
                  pt: Bytes, seed: nat)
    requires Addressed(s, recipients, pk, sk) && LayerLaw(l) && |pt| < TWO_32 && |magic| == 4
    requires |d.coins| == |recipients| && |d.dek| == KEY_SIZE && |d.nonce| == NONCE_SIZE
    ensures var data := l.decode(Wrap(s, l, magic, recipients, d, pt, seed));
      && data.Some? && |data.value| >= 4 && data.value[..4] == magic
      && DecryptSpec(s, data.value[4..], sk, pk) == Some(pt)
  {
    EnvelopeRoundTripIff(s, pt, recipients, d.coins, d.dek, d.nonce, pk, sk);
    var e := EncryptSpec(s, pt, recipients, d.coins, d.dek, d.nonce).value;
    var data := magic + e;
    assert l.decode(l.encode(data, seed)) == Some(data) && data[..4] == magic && data[4..] == e;
  }

  /** Every recipient recovers every chunk an upload can cut and the manifest, whatever was drawn for them: the premise
      of the put-then-get round trip is met by the real envelope. */
  lemma CodecRecovers(s: Suite, l: BlobLayer, recipients: seq<Bytes>, draw: nat -> Draw, last: nat, pk: Bytes,
                      sk: Bytes)
    requires Addressed(s, recipients, pk, sk) && LayerLaw(l) && DrawsFit(draw, |recipients|)
    ensures Recovers(Codec(s, l, recipients, draw, last, pk, sk))
  {
    var c := Codec(s, l, recipients, draw, last, pk, sk);
    forall pt: Bytes, seed: nat | |pt| < TWO_32
      ensures c.unwrap(c.wrap(pt, seed)) == Plain(pt)
    {
      WrapReads(s, l, CDAT_MAGIC, recipients, draw(seed), pk, sk, pt, seed);
    }
    forall pt: Bytes | |pt| < TWO_32
      ensures c.unwrapManifest(c.wrapManifest(pt)) == Some(pt)
    {
      WrapReads(s, l, CPAR_MAGIC, recipients, draw(last), pk, sk, pt, last);
    }
  }
}
