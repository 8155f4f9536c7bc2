/** The store, the engine and the node's calls in flight as objects updated in place, proved against the functions that
    IngestMachine's runs are made of; what holds of every run then holds of the objects. */
module NodeEngine {
  import opened Octets
  import opened BlobFormat
  import opened BlobStore
  import opened IngestMachine
  import opened Provenance
  import opened TombstoneSafety

  class Storage {
    var blobs: map<Key, Blob>
    var tombs: set<Key>
    var delegs: map<Key, Bytes>
    var owners: map<Bytes, Bytes>

    ghost function Value(): Store
      reads this
    {
      Store(blobs, tombs, delegs, owners)
    }

    constructor ()
      ensures Value() == EMPTY
    {
      blobs, tombs, delegs, owners := map[], {}, map[], map[];
    }

    method StoreBlob(p: Primitives, ns: Bytes, b: Blob, sp: Space, maxStorage: nat, byteLimit: nat, countLimit: nat)
      returns (status: StoreStatus)
      modifies this
      ensures status == StoreBlobStatus(p, old(Value()), ns, b, sp, maxStorage, byteLimit, countLimit)
      ensures Value() == if status == Stored then Insert(p, old(Value()), ns, b) else old(Value())
    {
      var h := p.ContentHash(b);
      if Key(ns, h) in blobs {
        return Duplicate;
      }
      var tombstone := IsTombstone(b.data);
      if maxStorage > 0 && !tombstone && sp.usedBytes >= maxStorage {
        return CapacityExceeded;
      }
      if !tombstone && (byteLimit > 0 || countLimit > 0) {
        if byteLimit > 0 && sp.nsBytes + |p.encode(b)| > byteLimit {
          return QuotaExceeded;
        }
        if countLimit > 0 && sp.nsCount + 1 > countLimit {
          return QuotaExceeded;
        }
      }
      if sp.ioError {
        return StorageError;
      }
      blobs := blobs[Key(ns, h) := b];
      if IsDelegation(b.data) {
        delegs := delegs[Key(ns, p.sha3(DelegateKey(b.data))) := h];
      }
      if tombstone {
        tombs := tombs + {Key(ns, TombstoneTarget(b.data))};
      }
      return Stored;
    }

    method DeleteBlobData(p: Primitives, ns: Bytes, h: Bytes) returns (found: bool)
      modifies this
      ensures found == (Key(ns, h) in old(blobs))
      ensures Value() == Delete(p, old(Value()), ns, h)
    {
      if Key(ns, h) !in blobs {
        return false;
      }
      var b := blobs[Key(ns, h)];
      blobs := blobs - {Key(ns, h)};
      if IsDelegation(b.data) {
        delegs := delegs - {Key(ns, p.sha3(DelegateKey(b.data)))};
      }
      if IsTombstone(b.data) {
        tombs := tombs - {Key(ns, TombstoneTarget(b.data))};
      }
      return true;
    }

    /** The expiry scan's purge of one entry; permanent blobs are not in the expiry map. */
    method PurgeExpired(ns: Bytes, h: Bytes)
      modifies this`blobs, this`tombs
      ensures Value() == Expire(old(Value()), ns, h)
    {
      if Key(ns, h) in blobs && blobs[Key(ns, h)].ttl > 0 {
        var b := blobs[Key(ns, h)];
        if IsTombstone(b.data) {
          tombs := tombs - {Key(ns, TombstoneTarget(b.data))};
        }
        blobs := blobs - {Key(ns, h)};
      }
    }

    /** False stands for the exception the source throws on a mismatch. */
    method RegisterOwnerPubkey(hint: Bytes, pk: Bytes) returns (ok: bool)
      modifies this
      ensures ok == !RegisterMismatch(old(Value()), hint, pk)
      ensures Value() == if ok then Register(old(Value()), hint, pk) else old(Value())
    {
      if hint in owners {
        assert Value() == Store(blobs, tombs, delegs, owners[hint := owners[hint]]);
        return owners[hint] == pk;
      }
      owners := owners[hint := pk];
      return true;
    }
  }

  class BlobEngine {
    const p: Primitives
    const storage: Storage

    constructor (p: Primitives, storage: Storage)
      ensures this.p == p && this.storage == storage
    {
      this.p := p;
      this.storage := storage;
    }

    /** From the call to its first suspension. */
    method BeginIngest(ns: Bytes, b: Blob, i: Inputs) returns (pc: Pc)
      ensures pc == IngestStart(p, storage.Value(), ns, b, i)
    {
      if |b.data| > i.cfg.blobMax {
        return Done(Rejected(OversizedBlob));
      }
      if i.cfg.maxStorage > 0 && !IsTombstone(b.data) {
        if i.space.usedBytes >= i.cfg.maxStorage {
          return Done(Rejected(StorageFull));
        }
      }
      if TimestampOutside(b.timestamp, i.now) {
        return Done(Rejected(TimestampRejected));
      }
      if b.ttl > 0 {
        if SaturatingExpiry(b.timestamp, b.ttl) <= i.now {
          return Done(Rejected(TimestampRejected));
        }
      }
      if i.cfg.maxTtl > 0 && !IsTombstone(b.data) && !IsBomb(b.data) {
        if b.ttl == 0 || b.ttl > i.cfg.maxTtl {
          return Done(Rejected(InvalidTtl));
        }
      }
      if b.signature == [] {
        return Done(Rejected(MalformedBlob));
      }
      if ns !in storage.owners {
        if !IsPubkey(b.data) {
          return Done(Rejected(PubkFirstViolation));
        }
      }
      if HasBombMagic(b.data) {
        if b.ttl != 0 {
          return Done(Rejected(BombTtlNonzero));
        }
        if !IsBomb(b.data) {
          return Done(Rejected(BombMalformed));
        }
      }
      if b.signerHint in storage.owners {
        return OwnerHash(storage.owners[b.signerHint]);
      }
      pc := ResolveWithoutOwner(ns, b, i);
    }

    method ResolveWithoutOwner(ns: Bytes, b: Blob, i: Inputs) returns (pc: Pc)
      ensures pc == WithoutOwner(p, storage.Value(), ns, b, i)
    {
      if IsPubkey(b.data) {
        return EmbeddedHash;
      }
      var deleg := Key(ns, b.signerHint);
      if deleg !in storage.delegs || Key(ns, storage.delegs[deleg]) !in storage.blobs {
        return Done(Rejected(NoDelegation));
      }
      var grant := storage.blobs[Key(ns, storage.delegs[deleg])];
      if !IsDelegation(grant.data) || IsDelegation(b.data) || IsTombstone(b.data) {
        return Done(Rejected(NoDelegation));
      }
      if IsBomb(b.data) {
        return Done(Rejected(BombDelegateNotAllowed));
      }
      pc := QuotaGate(p, ns, b, i, DelegateKey(grant.data), false);
    }

    /** The last segment of ingest, in one piece: verify result, deletions, registration, store. */
    method CommitIngest(ns: Bytes, b: Blob, pk: Bytes, i: Inputs) returns (r: Result)
      modifies storage
      ensures (storage.Value(), r) == IngestCommit(p, old(storage.Value()), ns, b, pk, i)
    {
      if !p.Signed(ns, b, pk) {
        return Rejected(InvalidSignature);
      }
      KindsDisjoint(b.data);
      if IsTombstone(b.data) {
        var _ := storage.DeleteBlobData(p, ns, TombstoneTarget(b.data));
      } else if IsBomb(b.data) {
        DeleteTargets(ns, BombTargets(b.data));
      } else if Key(ns, p.ContentHash(b)) in storage.tombs {
        return Rejected(Tombstoned);
      }
      if IsPubkey(b.data) {
        var ok := storage.RegisterOwnerPubkey(b.signerHint, EmbeddedKey(b.data));
        if !ok {
          return Rejected(PubkMismatch);
        }
      }
      var (byteLimit, countLimit) := EffectiveQuota(i.cfg, ns);
      var status := storage.StoreBlob(p, ns, b, i.space, i.cfg.maxStorage, byteLimit, countLimit);
      r := Acknowledge(b, status);
    }

    function Acknowledge(b: Blob, status: StoreStatus): Result {
      match status
      case Stored => Accepted(p.ContentHash(b), false)
      case Duplicate => Accepted(p.ContentHash(b), true)
      case CapacityExceeded => Rejected(StorageFull)
      case QuotaExceeded => Rejected(QuotaReached)
      case StorageError => Rejected(StorageFailed)
    }

    /** The loop over a BOMB's targets. */
    method DeleteTargets(ns: Bytes, targets: seq<Bytes>)
      modifies storage
      ensures storage.Value() == DeleteAll(p, old(storage.Value()), ns, targets)
    {
      var n := 0;
      while n < |targets|
        invariant 0 <= n <= |targets|
        invariant DeleteAll(p, storage.Value(), ns, targets[n..]) == DeleteAll(p, old(storage.Value()), ns, targets)
      {
        assert targets[n..][0] == targets[n] && targets[n..][1..] == targets[n + 1..];
        var _ := storage.DeleteBlobData(p, ns, targets[n]);
        n := n + 1;
      }
    }

    /** The last segment of delete_blob: the target goes and the request itself is stored. */
    method CommitDelete(ns: Bytes, b: Blob, pk: Bytes, i: Inputs) returns (r: Result)
      requires IsTombstone(b.data)
      modifies storage
      ensures (storage.Value(), r) == DeleteCommit(p, old(storage.Value()), ns, b, pk, i)
    {
      if !p.Signed(ns, b, pk) {
        return Rejected(InvalidSignature);
      }
      var _ := storage.DeleteBlobData(p, ns, TombstoneTarget(b.data));
      var status := storage.StoreBlob(p, ns, b, i.space, 0, 0, 0);
      r := Acknowledge(b, status);
    }

    method BeginDelete(b: Blob, i: Inputs) returns (pc: Pc)
      ensures pc == DeleteStart(storage.Value(), b, i)
    {
      if TimestampOutside(b.timestamp, i.now) {
        return Done(Rejected(TimestampRejected));
      }
      if b.ttl != 0 {
        return Done(Rejected(InvalidTtl));
      }
      if b.signature == [] {
        return Done(Rejected(MalformedBlob));
      }
      if !IsTombstone(b.data) {
        return Done(Rejected(MalformedBlob));
      }
      if b.signerHint in storage.owners {
        return OwnerHash(storage.owners[b.signerHint]);
      }
      return Done(Rejected(NoDelegation));
    }

    /** Any suspended call, from its offload's post-back to its next suspension or its return. */
    method ResumeSuspended(c: Call, i: Inputs) returns (pc: Pc)
      requires CallWellFormed(c)
      modifies storage
      ensures (storage.Value(), pc) == ResumeCall(p, old(storage.Value()), c, i)
    {
      match c.pc
      case OwnerHash(pk) =>
        if p.sha3(pk) == c.ns {
          if c.kind == DeleteRequest {
            return Verifying(pk, true);
          }
          pc := QuotaGate(p, c.ns, c.blob, i, pk, true);
        } else if c.kind == DeleteRequest {
          pc := Done(Rejected(NoDelegation));
        } else {
          pc := ResolveWithoutOwner(c.ns, c.blob, i);
        }
      case EmbeddedHash =>
        var pk := EmbeddedKey(c.blob.data);
        if p.sha3(pk) != c.ns {
          return Done(Rejected(NamespaceMismatch));
        }
        pc := QuotaGate(p, c.ns, c.blob, i, pk, true);
      case ContentHashing(pk, isOwner) =>
        var h := p.ContentHash(c.blob);
        if Key(c.ns, h) in storage.blobs {
          return Done(Accepted(h, true));
        }
        pc := Verifying(pk, isOwner);
      case Verifying(pk, _) =>
        var r: Result;
        if c.kind == Ingest {
          r := CommitIngest(c.ns, c.blob, pk, i);
        } else {
          r := CommitDelete(c.ns, c.blob, pk, i);
        }
        pc := Done(r);
      case Done(_) =>
        pc := c.pc;
    }
  }

  /** The node: its engine and the calls that are in flight or done. */
  class Node {
    const engine: BlobEngine
    var calls: seq<Call>

    constructor (p: Primitives)
      ensures fresh(engine) && fresh(engine.storage) && engine.p == p
      ensures calls == [] && engine.storage.Value() == EMPTY
    {
      var storage := new Storage();
      engine := new BlobEngine(p, storage);
      calls := [];
    }

    /** The node is where the run `evs` leads. */
    ghost predicate At(evs: seq<Event>)
      reads this, engine, engine.storage
    {
      engine.storage.Value() == Run(engine.p, evs).store && calls == Run(engine.p, evs).calls
    }

    /** One event: a call arrives, a suspended call is resumed, or the expiry scan purges a blob. */
    method Handle(ev: Event, ghost evs: seq<Event>)
      requires At(evs)
      modifies this`calls, engine.storage
      ensures At(evs + [ev])
    {
      assert (evs + [ev])[..|evs|] == evs;
      match ev
      case Start(kind, ns, b, i) =>
        var pc;
        if kind == Ingest {
          pc := engine.BeginIngest(ns, b, i);
        } else {
          pc := engine.BeginDelete(b, i);
        }
        calls := calls + [Call(kind, ns, b, pc)];
      case Resume(k, i) =>
        if k < |calls| {
          var pc := engine.ResumeSuspended(calls[k], i);
          calls := calls[k := calls[k].(pc := pc)];
        }
      case ExpiryScan(ns, h) => engine.storage.PurgeExpired(ns, h);
    }

    /** Any sequence of events, from a new node on: the node follows the machine. So every blob it holds is there with
        authority, no indexed target is stored, and a tombstone stands beside its target only if an event stored it. */
    method Serve(evs: seq<Event>)
      requires calls == [] && engine.storage.Value() == EMPTY
      modifies this`calls, engine.storage
      ensures At(evs)
      ensures forall k :: k in engine.storage.blobs ==>
        StoredWithAuthority(engine.p, Run(engine.p, evs).log, Record(k.ns, engine.storage.blobs[k]))
      ensures IndexFacts(engine.storage.Value())
      ensures NeverResurrects(engine.p, evs) ==> NoTargetStored(engine.storage.Value())
    {
      var n := 0;
      while n < |evs|
        invariant n <= |evs| && At(evs[..n])
      {
        Handle(evs[n], evs[..n]);
        assert evs[..n] + [evs[n]] == evs[..n + 1];
        n := n + 1;
      }
      assert evs[..n] == evs;
      forall k | k in engine.storage.blobs {
        EveryBlobAuthorised(engine.p, evs, k);
      }
      TombstoneSafetyInEveryRun(engine.p, evs);
    }
  }
}
