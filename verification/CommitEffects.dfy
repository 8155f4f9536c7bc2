/** What the last segment of a call does to the store, for ingest and delete alike (db/engine/engine.cpp). */
module CommitEffects {
  import opened Octets
  import opened BlobFormat
  import opened BlobStore
  import opened IngestMachine

  /** The blobs that committing `b` deletes before it stores `b`. */
  function Victims(b: Blob): seq<Bytes> {
    if IsTombstone(b.data) then [TombstoneTarget(b.data)]
    else if IsBomb(b.data) then BombTargets(b.data)
    else []
  }

  /** The commit gets past the signature and, for a regular blob, the tombstone index. */
  predicate Passes(p: Primitives, st: Store, c: Call)
    requires c.pc.Verifying?
  {
    && p.Signed(c.ns, c.blob, c.pc.key)
    && !(c.kind == Ingest && IsRegular(c.blob.data) && Key(c.ns, p.ContentHash(c.blob)) in st.tombs)
  }

  /** A PUBK that contradicts the key already filed under its hint. */
  predicate Contradicts(st: Store, c: Call) {
    c.kind == Ingest && IsPubkey(c.blob.data) && RegisterMismatch(st, c.blob.signerHint, EmbeddedKey(c.blob.data))
  }

  /** The store once the victims are gone and a PUBK's key is filed. */
  function Cleared(p: Primitives, st: Store, c: Call): Store {
    var gone := DeleteAll(p, st, c.ns, Victims(c.blob));
    if c.kind == Ingest && IsPubkey(c.blob.data) && !Contradicts(st, c)
    then Register(gone, c.blob.signerHint, EmbeddedKey(c.blob.data)) else gone
  }

  /** What store_blob answers then. A delete request is stored without limits. */
  function Verdict(p: Primitives, st: Store, c: Call, i: Inputs): StoreStatus {
    var (byteLimit, countLimit) := if c.kind == Ingest then EffectiveQuota(i.cfg, c.ns) else (0, 0);
    var maxStorage := if c.kind == Ingest then i.cfg.maxStorage else 0;
    StoreBlobStatus(p, Cleared(p, st, c), c.ns, c.blob, i.space, maxStorage, byteLimit, countLimit)
  }

  /** The guards under which a commit adds its blob. */
  predicate Stores(p: Primitives, st: Store, c: Call, i: Inputs)
    requires c.pc.Verifying?
  {
    Passes(p, st, c) && !Contradicts(st, c) && Verdict(p, st, c, i) == Stored
  }

  function Committed(p: Primitives, st: Store, c: Call, i: Inputs): Store
    requires c.pc.Verifying?
  {
    if !Passes(p, st, c) then st
    else if Stores(p, st, c, i) then Insert(p, Cleared(p, st, c), c.ns, c.blob)
    else Cleared(p, st, c)
  }

  /** The errors with which store_blob itself refuses. */
  predicate FromStorage(e: Error) {
    e == StorageFull || e == QuotaReached || e == StorageFailed
  }

  /** What the call reports. */
  predicate Reports(p: Primitives, st: Store, c: Call, i: Inputs, r: Result)
    requires c.pc.Verifying?
  {
    var own := Key(c.ns, p.ContentHash(c.blob));
    && (r.Accepted? && !r.duplicate <==> Stores(p, st, c, i))
    && (r.Accepted? ==> r.hash == own.hash && Passes(p, st, c))
    && (r.Accepted? && r.duplicate ==> own in Cleared(p, st, c).blobs)
    && (r.Rejected? && FromStorage(r.error) ==> Passes(p, st, c) && !Contradicts(st, c))
    && (r.Rejected? && !FromStorage(r.error) ==> !Passes(p, st, c) || Contradicts(st, c))
  }

  lemma IngestShape(p: Primitives, st: Store, c: Call, i: Inputs)
    requires CallWellFormed(c) && c.pc.Verifying? && c.kind == Ingest
    ensures var (st', r) := IngestCommit(p, st, c.ns, c.blob, c.pc.key, i);
      st' == Committed(p, st, c, i) && Reports(p, st, c, i, r)
  {
    KindsDisjoint(c.blob.data);
    DeleteAllBlobs(p, st, c.ns, Victims(c.blob));
    if IsTombstone(c.blob.data) {
      DeleteIsBatchOfOne(p, st, c.ns, TombstoneTarget(c.blob.data));
    }
  }

  lemma DeleteShape(p: Primitives, st: Store, c: Call, i: Inputs)
    requires CallWellFormed(c) && c.pc.Verifying? && c.kind == DeleteRequest
    ensures var (st', r) := DeleteCommit(p, st, c.ns, c.blob, c.pc.key, i);
      st' == Committed(p, st, c, i) && Reports(p, st, c, i, r)
  {
    KindsDisjoint(c.blob.data);
    DeleteIsBatchOfOne(p, st, c.ns, TombstoneTarget(c.blob.data));
  }

  /** A commit that does not pass changes nothing. One that passes deletes its victims, files a PUBK's key, and then
      adds its blob exactly if storage takes it; it reports which of these happened. */
  lemma CommitShape(p: Primitives, st: Store, c: Call, i: Inputs)
    requires CallWellFormed(c) && c.pc.Verifying?
    ensures var (st', pc) := ResumeCall(p, st, c, i);
      st' == Committed(p, st, c, i) && pc.Done? && Reports(p, st, c, i, pc.result)
  {
    if c.kind == Ingest {
      IngestShape(p, st, c, i);
    } else {
      DeleteShape(p, st, c, i);
    }
  }

  /** A call that is refused for any other reason has left the store as it was, at every one of its segments. */
  lemma RefusalChangesNothing(p: Primitives, st: Store, c: Call, i: Inputs)
    requires CallWellFormed(c)
    ensures var (st', pc) := ResumeCall(p, st, c, i);
      pc.Done? && pc.result.Rejected? && !FromStorage(pc.result.error) ==> st' == st
    ensures !c.pc.Verifying? ==> ResumeCall(p, st, c, i).0 == st
  {
    if c.pc.Verifying? {
      CommitShape(p, st, c, i);
      KindsDisjoint(c.blob.data);
    }
  }

  /** A refusal by storage comes after the deletions and the registration, and neither is undone. */
  lemma StorageRefusalEffect(p: Primitives, st: Store, c: Call, i: Inputs)
    requires CallWellFormed(c) && c.pc.Verifying?
    ensures var (st', pc) := ResumeCall(p, st, c, i);
      pc.result.Rejected? && FromStorage(pc.result.error) ==> st' == Cleared(p, st, c) && Passes(p, st, c)
  {
    CommitShape(p, st, c, i);
  }

  /** So a signed BOMB that meets a full disk at its commit is refused and has deleted its targets all the same. */
  lemma RefusedBombDeletes(p: Primitives, st: Store, c: Call, i: Inputs, h: Bytes)
    requires c.kind == Ingest && c.pc.Verifying? && IsBomb(c.blob.data) && p.Signed(c.ns, c.blob, c.pc.key)
    requires h in BombTargets(c.blob.data) && Key(c.ns, p.ContentHash(c.blob)) !in st.blobs
    requires 0 < i.cfg.maxStorage <= i.space.usedBytes
    ensures ResumeCall(p, st, c, i).1 == Done(Rejected(StorageFull))
    ensures Key(c.ns, h) !in ResumeCall(p, st, c, i).0.blobs
  {
    KindsDisjoint(c.blob.data);
    DeleteAllBlobs(p, st, c.ns, BombTargets(c.blob.data));
    IngestShape(p, st, c, i);
  }
}
