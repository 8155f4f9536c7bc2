/** put_chunked's pipelined upload: chunks go out up to eight at a time, acknowledgements come back in any
    order, and each acknowledged hash is bound to its chunk when it arrives (cli/src/chunked.cpp). */
module ChunkedUpload {
  import opened Octets
  import opened Pipeline
  import opened ChunkPlan

  const RETRY_ATTEMPTS: nat := 3
  const ACK_SIZE: nat := 41

  datatype Unwrapped = Undecodable | NotCdat | Undecryptable | Plain(text: Bytes)

  /** Building and reading one CDAT blob. Building is randomised (fresh envelope, fresh signature), so it
      takes a seed; reading is what a recipient does with the bytes a read request returns. The blob around an encoded
      manifest is built once. */
  datatype ChunkCodec = ChunkCodec(wrap: (Bytes, nat) -> Bytes, unwrap: Bytes -> Unwrapped, sha3: Bytes -> Bytes,
                                   wrapManifest: Bytes -> Bytes, unwrapManifest: Bytes -> Option<Bytes>)

  ghost predicate Recovers(c: ChunkCodec) {
    && (forall pt, seed :: |pt| < TWO_32 ==> c.unwrap(c.wrap(pt, seed)) == Plain(pt))
    && (forall pt :: |pt| < TWO_32 ==> c.unwrapManifest(c.wrapManifest(pt)) == Some(pt))
  }

  datatype Request =
    | Write(rid: nat, blob: Bytes)
    | Read(rid: nat, hash: Bytes)
    | Tombstone(rid: nat, target: Bytes)

  ghost predicate Wraps(c: ChunkCodec, pt: Bytes, blob: Bytes) {
    exists seed :: blob == c.wrap(pt, seed)
  }

  /** Every write sent under request id `r` carries chunk `r - 1`, whatever was retried. */
  ghost predicate WritesChunks(c: ChunkCodec, file: Bytes, chunkSize: nat, n: nat, sent: seq<Request>) {
    forall w :: w in sent ==> w.Write? && 1 <= w.rid <= n && Wraps(c, Chunk(file, chunkSize, w.rid - 1), w.blob)
  }

  lemma WritesGrow(c: ChunkCodec, file: Bytes, chunkSize: nat, n: nat, sent: seq<Request>, more: seq<Request>, rid: nat)
    requires WritesChunks(c, file, chunkSize, n, sent) && 1 <= rid <= n
    requires forall w :: w in more ==> w.Write? && w.rid == rid && Wraps(c, Chunk(file, chunkSize, rid - 1), w.blob)
    ensures WritesChunks(c, file, chunkSize, n, sent + more)
  {
  }

  /** Something was sent under that id. */
  ghost predicate Used(sent: seq<Request>, rid: nat) {
    exists w :: w in sent && w.rid == rid
  }

  lemma UsedGrows(sent: seq<Request>, more: seq<Request>)
    ensures forall rid :: Used(sent, rid) || Used(more, rid) ==> Used(sent + more, rid)
  {
    forall rid | Used(sent, rid) || Used(more, rid)
      ensures Used(sent + more, rid)
    {
      var w :| (w in sent || w in more) && w.rid == rid;
      assert w in sent + more;
    }
  }

  ghost predicate AllUsed(sent: seq<Request>, n: nat) {
    forall rid :: 1 <= rid <= n ==> Used(sent, rid)
  }

  predicate Acks(m: Reply, ty: byte) {
    m.ty == ty && |m.payload| >= ACK_SIZE
  }

  /** The hash recorded for chunk `i` is the one an acknowledgement of chunk `i`'s request carried. */
  ghost predicate Bound(hashes: seq<Bytes>, heard: seq<Reply>, i: nat)
    requires i < |hashes|
  {
    exists m :: m in heard && Acks(m, WRITE_ACK) && m.rid == i + 1 && hashes[i] == m.payload[..32]
  }

  /** The first `n` chunks, in file order. */
  function Absorbed(file: Bytes, chunkSize: nat, n: nat): Bytes {
    if n == 0 then [] else Absorbed(file, chunkSize, n - 1) + Chunk(file, chunkSize, n - 1)
  }

  lemma {:induction false} AbsorbedIsPrefix(file: Bytes, chunkSize: nat, n: nat)
    requires n * chunkSize <= |file|
    ensures Absorbed(file, chunkSize, n) == file[..n * chunkSize]
  {
    if n > 0 {
      assert n * chunkSize == (n - 1) * chunkSize + chunkSize;
      AbsorbedIsPrefix(file, chunkSize, n - 1);
    }
  }

  lemma AbsorbedIsFile(file: Bytes, chunkSize: nat, n: nat)
    requires Tight(chunkSize, n, |file|)
    ensures Absorbed(file, chunkSize, n) == file
  {
    AbsorbedIsPrefix(file, chunkSize, n - 1);
  }

  lemma DropOne<K, V>(m: map<K, V>, k: K)
    requires k in m
    ensures |m - {k}| == |m| - 1
  {
    assert m.Keys == (m - {k}).Keys + {k};
  }

  /** One chunk with its retries: every attempt rebuilds the blob from the same slice under the same id. */
  method SendChunk(conn: Connection, c: ChunkCodec, pt: Bytes, rid: nat, seed: nat)
    returns (ok: bool, used: nat, ghost sent: seq<Request>)
    requires conn.inFlight < PIPELINE_DEPTH
    modifies conn
    ensures forall w :: w in sent ==> w.Write? && w.rid == rid && Wraps(c, pt, w.blob)
    ensures conn.inFlight == if ok then old(conn.inFlight) + 1 else old(conn.inFlight)
    ensures conn.inbox == old(conn.inbox) && conn.pending == old(conn.pending) && conn.stalls == old(conn.stalls)
    ensures used <= 1 + RETRY_ATTEMPTS && |sent| == used && Used(sent, rid)
  {
    used := 0;
    sent := [];
    ok := false;
    while !ok && used <= RETRY_ATTEMPTS
      invariant used <= 1 + RETRY_ATTEMPTS && |sent| == used && (ok ==> used > 0)
      invariant forall w :: w in sent ==> w.Write? && w.rid == rid && Wraps(c, pt, w.blob)
      invariant conn.inFlight == if ok then old(conn.inFlight) + 1 else old(conn.inFlight)
      invariant conn.inbox == old(conn.inbox) && conn.pending == old(conn.pending) && conn.stalls == old(conn.stalls)
      decreases 1 + RETRY_ATTEMPTS - used
    {
      var blob := c.wrap(pt, seed + used);
      sent := sent + [Write(rid, blob)];
      ok := conn.SendAsync();
      used := used + 1;
    }
    assert sent[0] in sent;
  }

  /** Every chunk sent so far is in flight or bound to its hash. */
  ghost predicate AllBound(hashes: seq<Bytes>, heard: seq<Reply>, live: map<nat, nat>, next: nat)
    requires next <= |hashes|
  {
    forall i :: 0 <= i < next ==> i + 1 in live || Bound(hashes, heard, i)
  }

  lemma BoundGrows(hashes: seq<Bytes>, heard: seq<Reply>, live: map<nat, nat>, next: nat, m: Reply)
    requires next <= |hashes| && AllBound(hashes, heard, live, next)
    ensures AllBound(hashes, heard + [m], live, next)
  {
    forall i | 0 <= i < next && i + 1 !in live
      ensures Bound(hashes, heard + [m], i)
    {
      assert Bound(hashes, heard, i);
      var a :| a in heard && Acks(a, WRITE_ACK) && a.rid == i + 1 && hashes[i] == a.payload[..32];
      assert a in heard + [m];
    }
  }

  lemma BoundNow(hashes: seq<Bytes>, heard: seq<Reply>, live: map<nat, nat>, next: nat, m: Reply, i: nat)
    requires next <= |hashes| && AllBound(hashes, heard, live, next)
    requires i < next && m in heard && Acks(m, WRITE_ACK) && m.rid == i + 1
    ensures AllBound(hashes[i := m.payload[..32]], heard, live - {m.rid}, next)
  {
    var hashes' := hashes[i := m.payload[..32]];
    forall j | 0 <= j < next && j + 1 !in live - {m.rid}
      ensures Bound(hashes', heard, j)
    {
      if j != i {
        assert Bound(hashes, heard, j);
        var a :| a in heard && Acks(a, WRITE_ACK) && a.rid == j + 1 && hashes[j] == a.payload[..32];
        assert hashes'[j] == a.payload[..32];
      }
    }
  }

  /** The locals of the upload loop; the next request id is always `next + 1`. */
  datatype Progress = Progress(hashes: seq<Bytes>, absorbed: Bytes, live: map<nat, nat>, next: nat, completed: nat,
                               seed: nat)

  ghost predicate UploadInvariant(c: ChunkCodec, file: Bytes, chunkSize: nat, n: nat, p: Progress,
                                  sent: seq<Request>, heard: seq<Reply>) {
    && p.next == p.completed + |p.live| <= n && |p.hashes| == n && |p.live| <= PIPELINE_DEPTH
    && (forall k :: k in p.live ==> 1 <= k <= p.next && p.live[k] == k - 1)
    && AllBound(p.hashes, heard, p.live, p.next)
    && WritesChunks(c, file, chunkSize, n, sent) && AllUsed(sent, p.next)
    && p.absorbed == Absorbed(file, chunkSize, p.next)
  }

  /** The next chunk has gone out. */
  function Filled(p: Progress, pt: Bytes, used: nat): Progress {
    Progress(p.hashes, p.absorbed + pt, p.live[p.next + 1 := p.next], p.next + 1, p.completed, p.seed + used)
  }

  lemma LiveGrows(hashes: seq<Bytes>, heard: seq<Reply>, live: map<nat, nat>, next: nat)
    requires next < |hashes| && AllBound(hashes, heard, live, next)
    ensures AllBound(hashes, heard, live[next + 1 := next], next + 1)
  {
  }

  lemma AllUsedGrows(sent: seq<Request>, more: seq<Request>, n: nat)
    requires AllUsed(sent, n) && Used(more, n + 1)
    ensures AllUsed(sent + more, n + 1)
  {
    UsedGrows(sent, more);
  }

  lemma FillKeeps(c: ChunkCodec, file: Bytes, chunkSize: nat, n: nat, p: Progress, used: nat, sent: seq<Request>,
                  more: seq<Request>, heard: seq<Reply>)
    requires UploadInvariant(c, file, chunkSize, n, p, sent, heard) && p.next < n && |p.live| < PIPELINE_DEPTH
    requires WritesChunks(c, file, chunkSize, n, sent + more) && Used(more, p.next + 1)
    ensures var p' := Filled(p, Chunk(file, chunkSize, p.next), used);
      UploadInvariant(c, file, chunkSize, n, p', sent + more, heard) && |p'.live| == |p.live| + 1
  {
    AllUsedGrows(sent, more, p.next);
    LiveGrows(p.hashes, heard, p.live, p.next);
    assert p.next + 1 !in p.live;
  }

  /** Phase A: read, absorb and send the next chunk. */
  method Fill(conn: Connection, c: ChunkCodec, file: Bytes, chunkSize: nat, n: nat, p: Progress,
              ghost sent: seq<Request>, ghost heard: seq<Reply>)
    returns (ok: bool, p': Progress, ghost sent': seq<Request>)
    requires UploadInvariant(c, file, chunkSize, n, p, sent, heard) && p.next < n && |p.live| < PIPELINE_DEPTH
    requires conn.inFlight <= |p.live|
    modifies conn
    ensures conn.inbox == old(conn.inbox) && conn.pending == old(conn.pending) && conn.stalls == old(conn.stalls)
    ensures conn.inFlight <= |p.live| + 1
    ensures WritesChunks(c, file, chunkSize, n, sent')
    ensures ok ==> UploadInvariant(c, file, chunkSize, n, p', sent', heard)
    ensures ok ==> p'.next == p.next + 1 && conn.inFlight <= |p'.live|
  {
    p', sent' := p, sent;
    var pt := Chunk(file, chunkSize, p.next);
    if pt == [] {
      return false, p', sent';
    }
    ghost var more;
    var used;
    ok, used, more := SendChunk(conn, c, pt, p.next + 1, p.seed);
    WritesGrow(c, file, chunkSize, n, sent, more, p.next + 1);
    FillKeeps(c, file, chunkSize, n, p, used, sent, more, heard);
    sent' := sent + more;
    p' := Filled(p, pt, used);
  }

  /** Phase B: take one reply; a stray one is dropped, an acknowledgement is bound to its chunk. */
  method Drain(c: ChunkCodec, file: Bytes, chunkSize: nat, n: nat, p: Progress, m: Reply,
               ghost sent: seq<Request>, ghost heard: seq<Reply>)
    returns (ok: bool, p': Progress)
    requires UploadInvariant(c, file, chunkSize, n, p, sent, heard)
    ensures ok ==> UploadInvariant(c, file, chunkSize, n, p', sent, heard + [m])
    ensures p'.next == p.next && |p'.live| == |p.live| - if m.rid in p.live then 1 else 0
    ensures !ok ==> m.rid in p.live && !Acks(m, WRITE_ACK)
  {
    BoundGrows(p.hashes, heard, p.live, p.next, m);
    if m.rid !in p.live {
      return true, p;
    }
    var i := p.live[m.rid];
    DropOne(p.live, m.rid);
    p' := p.(live := p.live - {m.rid}, completed := p.completed + 1);
    if m.ty != WRITE_ACK || |m.payload| < ACK_SIZE {
      return false, p';
    }
    BoundNow(p.hashes, heard + [m], p.live, p.next, m, i);
    p' := p'.(hashes := p.hashes[i := m.payload[..32]]);
    ok := true;
  }

  /** The two-phase loop. It never enters send_async's backpressure and leaves the connection idle; the hash
      in place `i` was acknowledged for chunk `i`; the running digest has absorbed the chunks in file order. */
  method UploadChunks(conn: Connection, c: ChunkCodec, file: Bytes, chunkSize: nat, n: nat)
    returns (r: Option<(seq<Bytes>, Bytes)>, ghost sent: seq<Request>, ghost heard: seq<Reply>)
    requires conn.Idle()
    modifies conn
    ensures conn.stalls == old(conn.stalls) && conn.pending == map[] && conn.inFlight <= PIPELINE_DEPTH
    ensures WritesChunks(c, file, chunkSize, n, sent)
    ensures r.Some? ==> conn.Idle() && |r.value.0| == n
    ensures r.Some? ==> forall i :: 0 <= i < n ==> Bound(r.value.0, heard, i)
    ensures r.Some? ==> AllUsed(sent, n)
    ensures r.Some? && Tight(chunkSize, n, |file|) ==> r.value.1 == file
  {
    var p := Progress(seq(n, _ => []), [], map[], 0, 0, 0);
    sent, heard := [], [];
    while p.completed < n
      invariant UploadInvariant(c, file, chunkSize, n, p, sent, heard)
      invariant conn.stalls == old(conn.stalls) && conn.pending == map[] && conn.inFlight <= |p.live|
      decreases n - p.next + |conn.inbox|
    {
      var ok;
      if p.next < n && |p.live| < PIPELINE_DEPTH {
        ok, p, sent := Fill(conn, c, file, chunkSize, n, p, sent, heard);
        if !ok {
          return None, sent, heard;
        }
        continue;
      }
      var resp := conn.RecvNext();
      if resp.None? {
        return None, sent, heard;
      }
      ok, p := Drain(c, file, chunkSize, n, p, resp.value, sent, heard);
      heard := heard + [resp.value];
      if !ok {
        return None, sent, heard;
      }
    }
    if Tight(chunkSize, n, |file|) {
      AbsorbedIsFile(file, chunkSize, n);
    }
    r := Some((p.hashes, p.absorbed));
  }

  // What the acknowledgements are worth.

  /** The node answered truthfully: the hash in an acknowledgement of a request names a stored blob that was sent under
      that request's id. */
  ghost predicate HonestAcks(store: map<Bytes, Bytes>, sent: seq<Request>, heard: seq<Reply>) {
    forall m :: m in heard && Acks(m, WRITE_ACK) && Used(sent, m.rid) ==>
      m.payload[..32] in store && Write(m.rid, store[m.payload[..32]]) in sent
  }

  /** The manifest describes the file: entry `i` names a stored blob from which chunk `i` can be read. */
  ghost predicate Faithful(c: ChunkCodec, store: map<Bytes, Bytes>, file: Bytes, m: Manifest) {
    && m.total == |file| && m.sha3 == c.sha3(file) && 0 < m.chunkSize < TWO_32
    && Tight(m.chunkSize, m.chunks, m.total) && |m.hashes| == m.chunks
    && forall i :: 0 <= i < m.chunks ==>
         m.hashes[i] in store && c.unwrap(store[m.hashes[i]]) == Plain(Chunk(file, m.chunkSize, i))
  }

  /** What an upload leaves to be judged: the manifest, the writes of the chunks and the replies to them. */
  ghost predicate Uploaded(c: ChunkCodec, file: Bytes, m: Manifest, sent: seq<Request>, heard: seq<Reply>) {
    && WritesChunks(c, file, m.chunkSize, m.chunks, sent)
    && m.total == |file| && m.sha3 == c.sha3(file) && 0 < m.chunkSize < TWO_32
    && Tight(m.chunkSize, m.chunks, m.total) && |m.hashes| == m.chunks
    && AllUsed(sent, m.chunks) && forall i :: 0 <= i < m.chunks ==> Bound(m.hashes, heard, i)
  }

  lemma ChunkFaithful(c: ChunkCodec, store: map<Bytes, Bytes>, file: Bytes, m: Manifest, sent: seq<Request>,
                      heard: seq<Reply>, i: nat)
    requires Recovers(c) && HonestAcks(store, sent, heard) && WritesChunks(c, file, m.chunkSize, m.chunks, sent)
    requires m.chunkSize < TWO_32 && i < |m.hashes| && Bound(m.hashes, heard, i) && Used(sent, i + 1)
    ensures m.hashes[i] in store && c.unwrap(store[m.hashes[i]]) == Plain(Chunk(file, m.chunkSize, i))
  {
    var a :| a in heard && Acks(a, WRITE_ACK) && a.rid == i + 1 && m.hashes[i] == a.payload[..32];
    var w := Write(i + 1, store[m.hashes[i]]);
    assert w in sent;
    var seed :| w.blob == c.wrap(Chunk(file, m.chunkSize, i), seed);
    ChunkShort(file, m.chunkSize, i);
  }

  lemma UploadFaithful(c: ChunkCodec, store: map<Bytes, Bytes>, file: Bytes, m: Manifest, sent: seq<Request>,
                       heard: seq<Reply>)
    requires Recovers(c) && HonestAcks(store, sent, heard) && Uploaded(c, file, m, sent, heard)
    ensures Faithful(c, store, file, m)
  {
    forall i | 0 <= i < m.chunks
      ensures m.hashes[i] in store && c.unwrap(store[m.hashes[i]]) == Plain(Chunk(file, m.chunkSize, i))
    {
      ChunkFaithful(c, store, file, m, sent, heard, i);
    }
  }

  lemma ChunkShort(file: Bytes, chunkSize: nat, i: nat)
    ensures |Chunk(file, chunkSize, i)| <= chunkSize
  {
    assert (i + 1) * chunkSize == i * chunkSize + chunkSize;
  }

  // The manifest as one more request.

  /** The manifest's write and the reply to it, after the chunks' ones. */
  lemma ManifestAcked(store: map<Bytes, Bytes>, sent: seq<Request>, heard: seq<Reply>, w: Request, a: Reply)
    requires w.Write? && a.rid == w.rid && Acks(a, WRITE_ACK) && !Used(sent, w.rid)
    requires HonestAcks(store, sent + [w], heard + [a])
    ensures HonestAcks(store, sent, heard) && a.payload[..32] in store && store[a.payload[..32]] == w.blob
  {
    UsedGrows(sent, [w]);
    assert w in [w] && Used([w], w.rid);
    assert a in heard + [a];
    assert Write(w.rid, store[a.payload[..32]]) in sent + [w];
    assert Write(w.rid, store[a.payload[..32]]) !in sent;
    forall m | m in heard && Acks(m, WRITE_ACK) && Used(sent, m.rid)
      ensures m.payload[..32] in store && Write(m.rid, store[m.payload[..32]]) in sent
    {
      assert m in heard + [a] && Used(sent + [w], m.rid);
    }
  }

  lemma ManifestIdFresh(c: ChunkCodec, file: Bytes, chunkSize: nat, n: nat, sent: seq<Request>)
    requires WritesChunks(c, file, chunkSize, n, sent)
    ensures !Used(sent, n + 1)
  {
  }

  /** The hash that the user is given names the blob of a manifest that describes the file. */
  ghost predicate Published(c: ChunkCodec, mc: ManifestCodec, store: map<Bytes, Bytes>, file: Bytes, m: Manifest,
                            hash: Bytes) {
    Faithful(c, store, file, m) && hash in store && store[hash] == c.wrapManifest(EncodeManifest(mc, m))
  }

  lemma UploadPublished(c: ChunkCodec, mc: ManifestCodec, store: map<Bytes, Bytes>, file: Bytes, m: Manifest,
                        sent: seq<Request>, heard: seq<Reply>, a: Reply)
    requires Recovers(c) && Uploaded(c, file, m, sent, heard) && a.rid == m.chunks + 1 && Acks(a, WRITE_ACK)
    requires var w := Write(m.chunks + 1, c.wrapManifest(EncodeManifest(mc, m)));
      HonestAcks(store, sent + [w], heard + [a])
    ensures Published(c, mc, store, file, m, a.payload[..32])
  {
    ManifestIdFresh(c, file, m.chunkSize, m.chunks, sent);
    ManifestAcked(store, sent, heard, Write(m.chunks + 1, c.wrapManifest(EncodeManifest(mc, m))), a);
    UploadFaithful(c, store, file, m, sent, heard);
  }

  /** put_chunked up to the manifest. None is an error exit. */
  method UploadFile(conn: Connection, c: ChunkCodec, file: Bytes, filename: Bytes, cap: nat, recipients: nat)
    returns (r: Option<Manifest>, ghost sent: seq<Request>, ghost heard: seq<Reply>)
    requires conn.Idle()
    modifies conn
    ensures conn.stalls == old(conn.stalls) && conn.inFlight <= PIPELINE_DEPTH
    ensures r.Some? ==> conn.Idle() && Uploaded(c, file, r.value, sent, heard)
    ensures r.Some? ==> PlanUpload(cap, recipients, |file|) == Some(Plan(r.value.chunkSize, r.value.chunks))
  {
    sent, heard := [], [];
    var plan := PlanUpload(cap, recipients, |file|);
    if plan.None? {
      return None, sent, heard;
    }
    PlanIsTight(cap, recipients, |file|);
    var up;
    up, sent, heard := UploadChunks(conn, c, file, plan.value.chunkSize, plan.value.chunks);
    if up.None? {
      return None, sent, heard;
    }
    r := Some(PlannedManifest(plan.value, |file|, c.sha3(up.value.1), up.value.0, filename));
  }

  /** put_chunked: the upload, then the manifest. The result is the hash printed for the user. */
  method PutChunked(conn: Connection, c: ChunkCodec, mc: ManifestCodec, file: Bytes, filename: Bytes, cap: nat,
                    recipients: nat)
    returns (r: Option<Bytes>, ghost m: Option<Manifest>, ghost sent: seq<Request>, ghost heard: seq<Reply>)
    requires conn.Idle()
    modifies conn
    ensures conn.stalls == old(conn.stalls) && conn.inFlight <= PIPELINE_DEPTH
    ensures r.Some? ==> m.Some?
    ensures m.Some? ==> PlanUpload(cap, recipients, |file|) == Some(Plan(m.value.chunkSize, m.value.chunks))
    ensures r.Some? && Recovers(c) ==>
      forall store {:trigger HonestAcks(store, sent, heard)} :: HonestAcks(store, sent, heard) ==>
        Published(c, mc, store, file, m.value, r.value)
  {
    var made;
    made, sent, heard := UploadFile(conn, c, file, filename, cap, recipients);
    m := made;
    if made.None? {
      return None, m, sent, heard;
    }
    var mrid := made.value.chunks + 1;
    var blob := c.wrapManifest(EncodeManifest(mc, made.value));
    ghost var chunkWrites, chunkReplies := sent, heard;
    sent := sent + [Write(mrid, blob)];
    var ok := conn.SendAsync();
    if !ok {
      return None, m, sent, heard;
    }
    var resp := conn.RecvFor(mrid);
    if resp.None? {
      return None, m, sent, heard;
    }
    heard := heard + [resp.value];
    if !Acks(resp.value, WRITE_ACK) {
      return None, m, sent, heard;
    }
    r := Some(resp.value.payload[..32]);
    if Recovers(c) {
      forall store | HonestAcks(store, sent, heard)
        ensures Published(c, mc, store, file, m.value, r.value)
      {
        UploadPublished(c, mc, store, file, m.value, chunkWrites, chunkReplies, resp.value);
      }
    }
  }
}
