/** BlobEngine::ingest and BlobEngine::delete_blob as resumable calls on one executor.

    A call runs without interruption up to its next offload to the thread pool. Each such point is
    a program counter below; resuming a call runs the code from there to the next offload or to its
    return. Any number of calls may be in flight, and between two segments of one call the others,
    new calls and the expiry scan may run (db/engine/engine.cpp). */
module IngestMachine {
  import opened Octets
  import opened BlobFormat
  import opened BlobStore

  datatype Config = Config(
    blobMax: nat,
    maxStorage: nat,
    maxTtl: nat,
    quotaBytes: nat,
    quotaCount: nat,
    overrides: map<Bytes, (Option<nat>, Option<nat>)>)

  /** What one segment reads from outside: live configuration, the clock and the space counters. */
  datatype Inputs = Inputs(cfg: Config, now: nat, space: Space)

  datatype Error =
    | NamespaceMismatch | InvalidSignature | MalformedBlob | OversizedBlob | StorageFailed
    | Tombstoned | NoDelegation | StorageFull | QuotaReached | TimestampRejected | InvalidTtl
    | PubkFirstViolation | PubkMismatch | BombTtlNonzero | BombMalformed | BombDelegateNotAllowed

  datatype Result = Accepted(hash: Bytes, duplicate: bool) | Rejected(error: Error)

  /** Where a call is suspended, with the locals it still needs. */
  datatype Pc =
    | OwnerHash(ownerKey: Bytes)              // hashing the key registered under the signer hint
    | EmbeddedHash                            // hashing the key inside a PUBK body
    | ContentHashing(key: Bytes, isOwner: bool) // hashing the encoded blob
    | Verifying(key: Bytes, isOwner: bool)    // verifying the signature
    | Done(result: Result)

  datatype CallKind = Ingest | DeleteRequest

  datatype Call = Call(kind: CallKind, ns: Bytes, blob: Blob, pc: Pc)

  datatype Record = Record(ns: Bytes, blob: Blob)

  /** `log` lists every blob that was ever stored, in order; the code keeps no such list. */
  datatype World = World(store: Store, calls: seq<Call>, log: seq<Record>)

  const INITIAL: World := World(EMPTY, [], [])

  datatype Event =
    | Start(kind: CallKind, ns: Bytes, blob: Blob, inputs: Inputs)
    | Resume(call: nat, inputs: Inputs)
    | ExpiryScan(ns: Bytes, hash: Bytes)

  function EffectiveQuota(cfg: Config, ns: Bytes): (nat, nat) {
    if ns in cfg.overrides then
      var (bytes, count) := cfg.overrides[ns];
      (if bytes.Some? then bytes.value else cfg.quotaBytes,
       if count.Some? then count.value else cfg.quotaCount)
    else (cfg.quotaBytes, cfg.quotaCount)
  }

  const MAX_FUTURE_SECONDS: nat := 3600
  const MAX_PAST_SECONDS: nat := 30 * 24 * 3600

  /** Unsigned 64-bit arithmetic: both bounds wrap. */
  predicate TimestampOutside(timestamp: nat, now: nat) {
    || timestamp > (now + MAX_FUTURE_SECONDS) % TWO_64
    || timestamp < (now - MAX_PAST_SECONDS) % TWO_64
  }

  /** Steps 0 to 1.7 of ingest: the first gate that refuses the blob, if any. */
  function IngestGate(st: Store, ns: Bytes, b: Blob, i: Inputs): Option<Error> {
    if |b.data| > i.cfg.blobMax then Some(OversizedBlob)
    else if i.cfg.maxStorage > 0 && !IsTombstone(b.data) && i.space.usedBytes >= i.cfg.maxStorage then
      Some(StorageFull)
    else if TimestampOutside(b.timestamp, i.now) then Some(TimestampRejected)
    else if b.ttl > 0 && SaturatingExpiry(b.timestamp, b.ttl) <= i.now then Some(TimestampRejected)
    else if i.cfg.maxTtl > 0 && IsRegular(b.data) && (b.ttl == 0 || b.ttl > i.cfg.maxTtl) then
      Some(InvalidTtl)
    else if b.signature == [] then Some(MalformedBlob)
    else if ns !in st.owners && !IsPubkey(b.data) then Some(PubkFirstViolation)
    else if HasBombMagic(b.data) && b.ttl != 0 then Some(BombTtlNonzero)
    else if HasBombMagic(b.data) && !IsBomb(b.data) then Some(BombMalformed)
    else None
  }

  function IngestStart(p: Primitives, st: Store, ns: Bytes, b: Blob, i: Inputs): Pc {
    var refused := IngestGate(st, ns, b, i);
    if refused.Some? then Done(Rejected(refused.value))
    else if b.signerHint in st.owners then OwnerHash(st.owners[b.signerHint])
    else WithoutOwner(p, st, ns, b, i)
  }

  /** No registered key owns the namespace: a PUBK may speak for itself, others need a delegation. */
  function WithoutOwner(p: Primitives, st: Store, ns: Bytes, b: Blob, i: Inputs): Pc {
    if IsPubkey(b.data) then EmbeddedHash
    else
      match FindDelegate(st, ns, b.signerHint)
      case None => Done(Rejected(NoDelegation))
      case Some(pk) =>
        if IsDelegation(b.data) || IsTombstone(b.data) then Done(Rejected(NoDelegation))
        else if IsBomb(b.data) then Done(Rejected(BombDelegateNotAllowed))
        else QuotaGate(p, ns, b, i, pk, false)
  }

  function QuotaGate(p: Primitives, ns: Bytes, b: Blob, i: Inputs, pk: Bytes, isOwner: bool): Pc {
    var (byteLimit, countLimit) := EffectiveQuota(i.cfg, ns);
    if !IsTombstone(b.data) && OverQuota(i.space, |p.encode(b)|, byteLimit, countLimit)
    then Done(Rejected(QuotaReached))
    else ContentHashing(pk, isOwner)
  }

  /** Everything after the last post-back of ingest: check, delete, register and store in one segment. */
  function IngestCommit(p: Primitives, st: Store, ns: Bytes, b: Blob, pk: Bytes, i: Inputs): (Store, Result) {
    var h := p.ContentHash(b);
    if !p.Signed(ns, b, pk) then (st, Rejected(InvalidSignature))
    else if IsRegular(b.data) && Key(ns, h) in st.tombs then (st, Rejected(Tombstoned))
    else
      var st1 :=
        if IsTombstone(b.data) then Delete(p, st, ns, TombstoneTarget(b.data))
        else if IsBomb(b.data) then DeleteAll(p, st, ns, BombTargets(b.data))
        else st;
      if IsPubkey(b.data) && RegisterMismatch(st1, b.signerHint, EmbeddedKey(b.data)) then
        (st1, Rejected(PubkMismatch))
      else
        var st2 := if IsPubkey(b.data) then Register(st1, b.signerHint, EmbeddedKey(b.data)) else st1;
        var (byteLimit, countLimit) := EffectiveQuota(i.cfg, ns);
        FinishStore(p, st2, ns, b,
          StoreBlobStatus(p, st2, ns, b, i.space, i.cfg.maxStorage, byteLimit, countLimit))
  }

  function FinishStore(p: Primitives, st: Store, ns: Bytes, b: Blob, status: StoreStatus): (Store, Result) {
    match status
    case Stored => (Insert(p, st, ns, b), Accepted(p.ContentHash(b), false))
    case Duplicate => (st, Accepted(p.ContentHash(b), true))
    case CapacityExceeded => (st, Rejected(StorageFull))
    case QuotaExceeded => (st, Rejected(QuotaReached))
    case StorageError => (st, Rejected(StorageFailed))
  }

  function DeleteStart(st: Store, b: Blob, i: Inputs): Pc {
    if TimestampOutside(b.timestamp, i.now) then Done(Rejected(TimestampRejected))
    else if b.ttl != 0 then Done(Rejected(InvalidTtl))
    else if b.signature == [] || !IsTombstone(b.data) then Done(Rejected(MalformedBlob))
    else if b.signerHint in st.owners then OwnerHash(st.owners[b.signerHint])
    else Done(Rejected(NoDelegation))
  }

  function DeleteCommit(p: Primitives, st: Store, ns: Bytes, b: Blob, pk: Bytes, i: Inputs): (Store, Result)
    requires IsTombstone(b.data)
  {
    if !p.Signed(ns, b, pk) then (st, Rejected(InvalidSignature))
    else
      var st1 := Delete(p, st, ns, TombstoneTarget(b.data));
      FinishStore(p, st1, ns, b, StoreBlobStatus(p, st1, ns, b, i.space, 0, 0, 0))
  }

  /** A suspended delete request is always for a tombstone: DeleteStart checked it. */
  predicate CallWellFormed(c: Call) {
    && (c.kind == DeleteRequest && !c.pc.Done? ==> IsTombstone(c.blob.data))
    && (c.pc.EmbeddedHash? ==> IsPubkey(c.blob.data))
  }

  /** Runs one call from where it is suspended to its next suspension or its return. */
  function ResumeCall(p: Primitives, st: Store, c: Call, i: Inputs): (Store, Pc)
    requires CallWellFormed(c)
  {
    match c.pc
    case OwnerHash(pk) =>
      if c.kind == Ingest then
        if p.sha3(pk) == c.ns then (st, QuotaGate(p, c.ns, c.blob, i, pk, true))
        else (st, WithoutOwner(p, st, c.ns, c.blob, i))
      else
        (st, if p.sha3(pk) == c.ns then Verifying(pk, true) else Done(Rejected(NoDelegation)))
    case EmbeddedHash =>
      var pk := EmbeddedKey(c.blob.data);
      (st, if p.sha3(pk) != c.ns then Done(Rejected(NamespaceMismatch))
           else QuotaGate(p, c.ns, c.blob, i, pk, true))
    case ContentHashing(pk, isOwner) =>
      var h := p.ContentHash(c.blob);
      (st, if Key(c.ns, h) in st.blobs then Done(Accepted(h, true)) else Verifying(pk, isOwner))
    case Verifying(pk, _) =>
      var (st', r) := if c.kind == Ingest then IngestCommit(p, st, c.ns, c.blob, pk, i)
                      else DeleteCommit(p, st, c.ns, c.blob, pk, i);
      (st', Done(r))
    case Done(_) => (st, c.pc)
  }

  predicate WorldWellFormed(w: World) {
    forall k :: 0 <= k < |w.calls| ==> CallWellFormed(w.calls[k])
  }

  predicate NewlyStored(before: Pc, after: Pc) {
    before.Verifying? && after.Done? && after.result.Accepted? && !after.result.duplicate
  }

  function Next(p: Primitives, w: World, ev: Event): (w': World)
    requires WorldWellFormed(w)
    ensures WorldWellFormed(w')
  {
    match ev
    case Start(kind, ns, b, i) =>
      var pc := if kind == Ingest then IngestStart(p, w.store, ns, b, i) else DeleteStart(w.store, b, i);
      w.(calls := w.calls + [Call(kind, ns, b, pc)])
    case Resume(k, i) =>
      if k >= |w.calls| then w
      else
        var c := w.calls[k];
        var (st, pc) := ResumeCall(p, w.store, c, i);
        World(st, w.calls[k := c.(pc := pc)],
              if NewlyStored(c.pc, pc) then w.log + [Record(c.ns, c.blob)] else w.log)
    case ExpiryScan(ns, h) => w.(store := Expire(w.store, ns, h))
  }

  /** The world after any finite sequence of events. */
  function Run(p: Primitives, evs: seq<Event>): (w: World)
    ensures WorldWellFormed(w)
  {
    if evs == [] then INITIAL
    else Next(p, Run(p, evs[..|evs| - 1]), evs[|evs| - 1])
  }
}
