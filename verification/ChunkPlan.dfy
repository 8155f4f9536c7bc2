/** How a file is cut into chunks that fit the node's cap, and when the manifest that describes the cut
    can be read back (cli/src/chunked.cpp, cli/src/wire.cpp). */
module ChunkPlan {
  import opened Basics
  import opened Octets
  import Envelope
  import EnvelopeRoundTrip
  import BlobFormat
  import BlobStore
  import IngestMachine

  const MAX_CHUNKED_FILE_SIZE: nat := 0x100_0000_0000
  const MAX_CHUNKS: nat := 65536
  const CHUNK_SIZE_BYTES_MIN: nat := 1048576
  const MANIFEST_VERSION_V1: nat := 1
  const CDAT_MAGIC: Bytes := [0x43, 0x44, 0x41, 0x54]
  const CPAR_MAGIC: Bytes := [0x43, 0x50, 0x41, 0x52]

  datatype Plan = Plan(chunkSize: nat, chunks: nat)

  /** Bytes of a CDAT payload that are not plaintext, counting segments as if a chunk filled the cap. */
  function FixedOverhead(cap: nat, recipients: nat): nat {
    4 + 20 + recipients * 1648 + ((cap + 1048576 - 1) % TWO_64 / 1048576) * 16
  }

  /** The checks put_chunked makes before it reads anything; None is an error exit. */
  function PlanUpload(cap: nat, recipients: nat, total: nat): Option<Plan> {
    if cap == 0 then None
    else if total <= cap || total > MAX_CHUNKED_FILE_SIZE then None
    else if FixedOverhead(cap, recipients) >= cap then None
    else if cap - FixedOverhead(cap, recipients) > TWO_32 - 1 then None
    else
      var chunkSize := cap - FixedOverhead(cap, recipients);
      var chunks := (total + chunkSize - 1) / chunkSize;
      if chunks == 0 || chunks > MAX_CHUNKS then None else Some(Plan(chunkSize, chunks))
  }

  /** Chunk `i` of a file. */
  function Chunk(file: Bytes, chunkSize: nat, i: nat): Bytes {
    file[Min(i * chunkSize, |file|)..Min((i + 1) * chunkSize, |file|)]
  }

  /** The last chunk is the only short one and it is not empty. */
  predicate Tight(chunkSize: nat, chunks: nat, total: nat) {
    chunks > 0 && (chunks - 1) * chunkSize < total <= chunks * chunkSize
  }

  lemma PlanIsTight(cap: nat, recipients: nat, total: nat)
    ensures var p := PlanUpload(cap, recipients, total);
      p.Some? ==> 0 < p.value.chunkSize < cap && Tight(p.value.chunkSize, p.value.chunks, total)
  {
    var p := PlanUpload(cap, recipients, total);
    if p.Some? {
      CeilingIsTight(total, p.value.chunkSize);
    }
  }

  /** Exactly which uploads are accepted. */
  lemma PlanAcceptsIff(cap: nat, recipients: nat, total: nat)
    ensures PlanUpload(cap, recipients, total).Some? <==>
      && cap < total <= MAX_CHUNKED_FILE_SIZE
      && 0 < cap - FixedOverhead(cap, recipients) < TWO_32
      && total <= MAX_CHUNKS * (cap - FixedOverhead(cap, recipients))
  {
    var chunkSize := cap - FixedOverhead(cap, recipients);
    if chunkSize > 0 && total > 0 {
      CeilingIsTight(total, chunkSize);
      CeilingBound(total, chunkSize, (total + chunkSize - 1) / chunkSize);
    }
  }

  lemma CeilingBound(total: nat, chunkSize: nat, chunks: nat)
    requires Tight(chunkSize, chunks, total)
    ensures chunks <= MAX_CHUNKS <==> total <= MAX_CHUNKS * chunkSize
  {
    if chunks <= MAX_CHUNKS {
      Multiples(chunks, MAX_CHUNKS, chunkSize);
    } else {
      Multiples(MAX_CHUNKS, chunks - 1, chunkSize);
    }
  }

  lemma CeilingIsTight(total: nat, chunkSize: nat)
    requires chunkSize > 0 && total > 0
    ensures Tight(chunkSize, (total + chunkSize - 1) / chunkSize, total)
  {
    var n := (total + chunkSize - 1) / chunkSize;
    var rest := (total + chunkSize - 1) % chunkSize;
    assert total + chunkSize - 1 == n * chunkSize + rest;
    assert (n - 1) * chunkSize == n * chunkSize - chunkSize;
  }

  /** Every CDAT payload of a planned upload fits the cap the plan was made for. */
  lemma CdatFitsCap(s: Envelope.Suite, cap: nat, total: nat, pt: Bytes, recipients: seq<Bytes>, coins: seq<Bytes>,
                    dek: Bytes, nonce: Bytes)
    requires Envelope.Lawful(s) && |coins| == |recipients| && |nonce| == 12 && |dek| == 32
    requires var p := PlanUpload(cap, |recipients|, total); p.Some? && |pt| <= p.value.chunkSize
    ensures var e := Envelope.EncryptSpec(s, pt, recipients, coins, dek, nonce);
      e.Some? ==> |CDAT_MAGIC + e.value| <= cap
  {
    var e := Envelope.EncryptSpec(s, pt, recipients, coins, dek, nonce);
    PlanIsTight(cap, |recipients|, total);
    LengthFits(cap, |recipients|, total, |pt|);
    if e.Some? {
      EnvelopeRoundTrip.EnvelopeLength(s, pt, recipients, coins, dek, nonce);
    }
  }

  /** The overhead is charged to the byte: a full chunk falls short of the cap by the tags of the segments that the cap
      would have had and the chunk has not. */
  lemma FullChunkFillsCap(s: Envelope.Suite, cap: nat, total: nat, pt: Bytes, recipients: seq<Bytes>, coins: seq<Bytes>,
                          dek: Bytes, nonce: Bytes)
    requires Envelope.Lawful(s) && |coins| == |recipients| && |nonce| == 12 && |dek| == 32
    requires var p := PlanUpload(cap, |recipients|, total); p.Some? && |pt| == p.value.chunkSize
    ensures var e := Envelope.EncryptSpec(s, pt, recipients, coins, dek, nonce);
      e.Some? ==> |CDAT_MAGIC + e.value| + 16 * (Envelope.SegmentCount(cap) - Envelope.SegmentCount(|pt|)) == cap
  {
    PlanIsTight(cap, |recipients|, total);
    LengthFits(cap, |recipients|, total, |pt|);
    OverheadIs(cap, |recipients|);
    var e := Envelope.EncryptSpec(s, pt, recipients, coins, dek, nonce);
    if e.Some? {
      EnvelopeRoundTrip.EnvelopeLength(s, pt, recipients, coins, dek, nonce);
      FillsExactly(|CDAT_MAGIC + e.value|, cap, |recipients| * 1648, |pt|, Envelope.SegmentCount(cap),
                   Envelope.SegmentCount(|pt|));
    }
  }

  lemma OverheadIs(cap: nat, recipients: nat)
    requires 0 < cap < MAX_CHUNKED_FILE_SIZE
    ensures FixedOverhead(cap, recipients) == 4 + 20 + recipients * 1648 + Envelope.SegmentCount(cap) * 16
  {
  }

  lemma FillsExactly(length: nat, cap: nat, stanzas: nat, text: nat, most: nat, segments: nat)
    requires length == 4 + 20 + stanzas + text + segments * 16 && cap == text + 4 + 20 + stanzas + most * 16
    ensures length + 16 * (most - segments) == cap
  {
  }

  lemma LengthFits(cap: nat, recipients: nat, total: nat, length: nat)
    requires var p := PlanUpload(cap, recipients, total); p.Some? && length <= p.value.chunkSize
    ensures length <= EnvelopeRoundTrip.MAX_LENGTH
    ensures 4 + 20 + recipients * 1648 + length + Envelope.SegmentCount(length) * 16 <= cap
  {
    SegmentsBounded(length, cap);
  }

  /** So the engine's size check with that cap lets it through, whatever the clock, the store and the other
      settings are. */
  lemma EngineNeverOversized(cap: nat, recipients: nat, total: nat, st: BlobStore.Store, ns: Bytes, b: BlobFormat.Blob,
                             i: IngestMachine.Inputs, s: Envelope.Suite, pt: Bytes, keys: seq<Bytes>, coins: seq<Bytes>,
                             dek: Bytes, nonce: Bytes)
    requires Envelope.Lawful(s) && |coins| == |keys| == recipients && |nonce| == 12 && |dek| == 32
    requires var p := PlanUpload(cap, recipients, total); p.Some? && |pt| <= p.value.chunkSize
    requires var e := Envelope.EncryptSpec(s, pt, keys, coins, dek, nonce); e.Some? && b.data == CDAT_MAGIC + e.value
    requires i.cfg.blobMax == cap
    ensures IngestMachine.IngestGate(st, ns, b, i) != Some(IngestMachine.OversizedBlob)
  {
    CdatFitsCap(s, cap, total, pt, keys, coins, dek, nonce);
    SizeGate(st, ns, b, i);
  }

  /** The engine's first gate is the size check and nothing else reports it. */
  lemma SizeGate(st: BlobStore.Store, ns: Bytes, b: BlobFormat.Blob, i: IngestMachine.Inputs)
    ensures IngestMachine.IngestGate(st, ns, b, i) == Some(IngestMachine.OversizedBlob) <==> |b.data| > i.cfg.blobMax
  {
  }

  /** A shorter text has no more segments than the cap was charged for. */
  lemma SegmentsBounded(length: nat, cap: nat)
    requires length <= cap && 0 < cap < MAX_CHUNKED_FILE_SIZE
    ensures Envelope.SegmentCount(length) <= (cap + 1048576 - 1) % TWO_64 / 1048576
  {
  }

  // The manifest.

  datatype Manifest = Manifest(version: nat, chunkSize: nat, chunks: nat, total: nat, sha3: Bytes, hashes: seq<Bytes>,
                               filename: Bytes)

  /** The checks decode_manifest_payload makes on the fields it has read. */
  predicate ManifestValid(m: Manifest, cap: nat) {
    && m.version == MANIFEST_VERSION_V1
    && 0 < m.chunks <= MAX_CHUNKS
    && CHUNK_SIZE_BYTES_MIN <= m.chunkSize <= cap
    && 0 < m.total <= m.chunks * m.chunkSize
    && |m.sha3| == 32
    && |m.hashes| == m.chunks && forall h :: h in m.hashes ==> |h| == 32
  }

  /** The FlatBuffer layer, which is generated code: what it writes it reads back. */
  datatype ManifestCodec = ManifestCodec(write: Manifest -> Bytes, read: Bytes -> Option<Manifest>)

  ghost predicate CodecLaw(c: ManifestCodec) {
    forall m :: |c.write(m)| >= 8 && c.read(c.write(m)) == Some(m)
  }

  function EncodeManifest(c: ManifestCodec, m: Manifest): Bytes {
    CPAR_MAGIC + c.write(m)
  }

  function DecodeManifest(c: ManifestCodec, data: Bytes, cap: nat): Option<Manifest> {
    if |data| < 12 || data[..4] != CPAR_MAGIC then None
    else
      match c.read(data[4..])
      case None => None
      case Some(m) => if ManifestValid(m, cap) then Some(m) else None
  }

  /** The manifest put_chunked builds for a plan. */
  function PlannedManifest(p: Plan, total: nat, sha3: Bytes, hashes: seq<Bytes>, filename: Bytes): Manifest {
    Manifest(MANIFEST_VERSION_V1, p.chunkSize, p.chunks, total, sha3, hashes, filename)
  }

  /** A successful upload leaves a manifest that the same session can read back exactly when the cap, less
      the envelope overhead, is at least 1 MiB. Below that the upload still succeeds and nothing can read it. */
  lemma ManifestReadableIff(c: ManifestCodec, cap: nat, recipients: nat, total: nat, sha3: Bytes, hashes: seq<Bytes>,
                            filename: Bytes)
    requires CodecLaw(c) && PlanUpload(cap, recipients, total).Some?
    requires |sha3| == 32 && |hashes| == PlanUpload(cap, recipients, total).value.chunks
    requires forall h :: h in hashes ==> |h| == 32
    ensures var m := PlannedManifest(PlanUpload(cap, recipients, total).value, total, sha3, hashes, filename);
      DecodeManifest(c, EncodeManifest(c, m), cap) == Some(m) <==>
        cap - FixedOverhead(cap, recipients) >= CHUNK_SIZE_BYTES_MIN
  {
    var m := PlannedManifest(PlanUpload(cap, recipients, total).value, total, sha3, hashes, filename);
    PlanIsTight(cap, recipients, total);
    var data := EncodeManifest(c, m);
    assert data[4..] == c.write(m) && data[..4] == CPAR_MAGIC;
  }

  /** Such a cap exists: with 1 MiB and one recipient a 2 MiB file is accepted for upload, and its manifest
      is refused on download. */
  lemma UnreadableManifestExists()
    ensures var p := PlanUpload(1048576, 1, 2097152);
      p.Some? && forall sha3, hashes, filename ::
        !ManifestValid(PlannedManifest(p.value, 2097152, sha3, hashes, filename), 1048576)
  {
  }

  /** The blob that carries a manifest is refused for its size exactly when envelope, magic and manifest exceed the cap:
      the plan leaves room for the chunks and does not look at the manifest. */
  lemma ManifestOversizedIff(s: Envelope.Suite, payload: Bytes, keys: seq<Bytes>, coins: seq<Bytes>, dek: Bytes,
                             nonce: Bytes, st: BlobStore.Store, ns: Bytes, b: BlobFormat.Blob, i: IngestMachine.Inputs)
    requires Envelope.Lawful(s) && |coins| == |keys| && |nonce| == 12 && |dek| == 32
    requires |payload| <= EnvelopeRoundTrip.MAX_LENGTH
    requires var e := Envelope.EncryptSpec(s, payload, keys, coins, dek, nonce);
      e.Some? && b.data == CPAR_MAGIC + e.value
    ensures IngestMachine.IngestGate(st, ns, b, i) == Some(IngestMachine.OversizedBlob) <==>
      4 + 20 + |keys| * 1648 + |payload| + Envelope.SegmentCount(|payload|) * 16 > i.cfg.blobMax
  {
    EnvelopeRoundTrip.EnvelopeLength(s, payload, keys, coins, dek, nonce);
    SizeGate(st, ns, b, i);
  }

  /** An upload can be accepted, with chunks that a download would accept, and have a manifest over the cap: with 2 MiB
      and one recipient, a file of 65536 full chunks. */
  lemma OversizedManifestExists(c: ManifestCodec, sha3: Bytes, hashes: seq<Bytes>, filename: Bytes)
    requires |hashes| == MAX_CHUNKS && forall m :: |c.write(m)| >= 32 * |m.hashes|
    ensures var p := PlanUpload(2097152, 1, MAX_CHUNKS * 2095448);
      && p == Some(Plan(2095448, MAX_CHUNKS)) && 2095448 >= CHUNK_SIZE_BYTES_MIN
      && var m := PlannedManifest(p.value, MAX_CHUNKS * 2095448, sha3, hashes, filename);
         4 + 20 + 1648 + |EncodeManifest(c, m)| > 2097152
  {
  }
}
