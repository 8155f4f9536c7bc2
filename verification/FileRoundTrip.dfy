/** A file put and got back through the real envelope (cli/src/chunked.cpp, cli/src/envelope.cpp). */
module FileRoundTrip {
  import opened Octets
  import opened Envelope
  import opened Pipeline
  import opened ChunkPlan
  import opened ChunkedUpload
  import opened ChunkedDownload
  import opened CdatCodec

  /** For every file, every recipient of the upload, every draw of randomness, every order of replies, every pattern of
      refused sends and retries: a download of the hash the upload printed is the file, byte for byte, if the node kept
      its word about what it stored and served. The manifest is a FlatBuffer, so it is under 4 GiB. */
  method PutFileGetFile(up: Connection, down: Connection, s: Suite, l: BlobLayer, mc: ManifestCodec,
                        recipients: seq<Bytes>, draw: nat -> Draw, last: nat, pk: Bytes, sk: Bytes, file: Bytes,
                        filename: Bytes, cap: nat, capDown: nat, ghost store: map<Bytes, Bytes>)
    returns (r: Option<Bytes>, ghost m: Option<Manifest>, ghost sent: seq<Request>, ghost heard: seq<Reply>,
             ghost first: Trace, ghost t: Trace)
    requires up != down && up.Idle() && down.Idle()
    requires Addressed(s, recipients, pk, sk) && LayerLaw(l) && DrawsFit(draw, |recipients|) && ChunkPlan.CodecLaw(mc)
    modifies up, down
    ensures r.Some? ==> m.Some?
    ensures r.Some? && |mc.write(m.value)| + 4 < TWO_32 && KeptItsWord(store, sent, heard, first, t) ==> r.value == file
  {
    CodecRecovers(s, l, recipients, draw, last, pk, sk);
    r, m, sent, heard, first, t :=
      PutThenGet(up, down, Codec(s, l, recipients, draw, last, pk, sk), mc, file, filename, cap, |recipients|, capDown,
                 store);
  }
}
