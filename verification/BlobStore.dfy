/** The node's blob store as a value, with the secondary indexes it keeps (db/storage/storage.cpp). */
module BlobStore {
  import opened Octets
  import opened BlobFormat

  /** The primitives the engine calls: a hash, the blob encoder and signature verification
      (message, signature, public key). Nothing is assumed about them unless a lemma says so. */
  datatype Primitives = Primitives(
    sha3: Bytes -> Bytes,
    encode: Blob -> Bytes,
    verify: (Bytes, Bytes, Bytes) -> bool)
  {
    function ContentHash(b: Blob): Bytes {
      sha3(encode(b))
    }

    function SigningInput(ns: Bytes, b: Blob): Bytes {
      sha3(ns + b.data + BigEndian(b.ttl, 4) + BigEndian(b.timestamp, 8))
    }

    /** The blob's signature verifies over its own namespace under `pk`. */
    predicate Signed(ns: Bytes, b: Blob, pk: Bytes) {
      verify(SigningInput(ns, b), b.signature, pk)
    }
  }

  datatype Key = Key(ns: Bytes, hash: Bytes)

  datatype Store = Store(
    blobs: map<Key, Blob>,
    tombs: set<Key>,          // tombstone index: (namespace, target hash)
    delegs: map<Key, Bytes>,  // delegation index: (namespace, hash of delegate key) to blob hash
    owners: map<Bytes, Bytes>) // registered owner keys by signer hint

  const EMPTY: Store := Store(map[], {}, map[], map[])

  datatype StoreStatus = Stored | Duplicate | CapacityExceeded | QuotaExceeded | StorageError

  /** What `store_blob` is told or finds out about space; `ioError` stands for a failed transaction. */
  datatype Space = Space(usedBytes: nat, nsBytes: nat, nsCount: nat, ioError: bool)

  predicate OverQuota(sp: Space, size: nat, byteLimit: nat, countLimit: nat) {
    || (byteLimit > 0 && sp.nsBytes + size > byteLimit)
    || (countLimit > 0 && sp.nsCount + 1 > countLimit)
  }

  function Insert(p: Primitives, st: Store, ns: Bytes, b: Blob): Store {
    var h := p.ContentHash(b);
    Store(
      st.blobs[Key(ns, h) := b],
      if IsTombstone(b.data) then st.tombs + {Key(ns, TombstoneTarget(b.data))} else st.tombs,
      if IsDelegation(b.data) then st.delegs[Key(ns, p.sha3(DelegateKey(b.data))) := h] else st.delegs,
      st.owners)
  }

  function StoreBlobStatus(p: Primitives, st: Store, ns: Bytes, b: Blob, sp: Space,
                           maxStorage: nat, byteLimit: nat, countLimit: nat): StoreStatus
  {
    if Key(ns, p.ContentHash(b)) in st.blobs then Duplicate
    else if maxStorage > 0 && !IsTombstone(b.data) && sp.usedBytes >= maxStorage then CapacityExceeded
    else if !IsTombstone(b.data) && OverQuota(sp, |p.encode(b)|, byteLimit, countLimit) then QuotaExceeded
    else if sp.ioError then StorageError
    else Stored
  }

  /** Removes one blob and the index entries that point at it. */
  function Delete(p: Primitives, st: Store, ns: Bytes, h: Bytes): Store {
    if Key(ns, h) !in st.blobs then st
    else
      var b := st.blobs[Key(ns, h)];
      Store(
        st.blobs - {Key(ns, h)},
        if IsTombstone(b.data) then st.tombs - {Key(ns, TombstoneTarget(b.data))} else st.tombs,
        if IsDelegation(b.data) then st.delegs - {Key(ns, p.sha3(DelegateKey(b.data)))} else st.delegs,
        st.owners)
  }

  function DeleteAll(p: Primitives, st: Store, ns: Bytes, hs: seq<Bytes>): Store
    decreases |hs|
  {
    if hs == [] then st
    else DeleteAll(p, Delete(p, st, ns, hs[0]), ns, hs[1..])
  }

  /** One blob purged by the expiry scan, which leaves the delegation index alone. */
  function Expire(st: Store, ns: Bytes, h: Bytes): Store {
    if Key(ns, h) !in st.blobs || st.blobs[Key(ns, h)].ttl == 0 then st
    else
      var b := st.blobs[Key(ns, h)];
      st.(blobs := st.blobs - {Key(ns, h)},
          tombs := if IsTombstone(b.data) then st.tombs - {Key(ns, TombstoneTarget(b.data))} else st.tombs)
  }

  /** Registering is refused when the hint already maps to another key. */
  predicate RegisterMismatch(st: Store, hint: Bytes, pk: Bytes) {
    hint in st.owners && st.owners[hint] != pk
  }

  function Register(st: Store, hint: Bytes, pk: Bytes): Store {
    st.(owners := st.owners[hint := pk])
  }

  /** Index lookup, then the delegation blob itself, then the key inside it. */
  function FindDelegate(st: Store, ns: Bytes, hint: Bytes): (r: Option<Bytes>)
    ensures r.Some? ==> exists h ::
      && Key(ns, h) in st.blobs
      && IsDelegation(st.blobs[Key(ns, h)].data)
      && DelegateKey(st.blobs[Key(ns, h)].data) == r.value
  {
    if Key(ns, hint) !in st.delegs then None
    else
      var h := st.delegs[Key(ns, hint)];
      if Key(ns, h) !in st.blobs then None
      else if !IsDelegation(st.blobs[Key(ns, h)].data) then None
      else Some(DelegateKey(st.blobs[Key(ns, h)].data))
  }

  // What the stored index keepers point at.

  predicate HoldsTombstone(st: Store, k: Key) {
    k in st.blobs && IsTombstone(st.blobs[k].data)
  }

  function TargetOf(st: Store, k: Key): Key
    requires HoldsTombstone(st, k)
  {
    Key(k.ns, TombstoneTarget(st.blobs[k].data))
  }

  predicate HoldsDelegation(st: Store, k: Key) {
    k in st.blobs && IsDelegation(st.blobs[k].data)
  }

  /** The index key of a stored delegation: its namespace and the hash of the key it delegates to. */
  function DelegateOf(p: Primitives, st: Store, k: Key): Key
    requires HoldsDelegation(st, k)
  {
    Key(k.ns, p.sha3(DelegateKey(st.blobs[k].data)))
  }

  /** The key is one of the batch `hs` of namespace `ns`. */
  predicate InBatch(k: Key, ns: Bytes, hs: seq<Bytes>) {
    k.ns == ns && k.hash in hs
  }

  /** A stored tombstone of the batch targets `t`. */
  ghost predicate DropsTarget(st: Store, ns: Bytes, hs: seq<Bytes>, t: Key) {
    exists k :: HoldsTombstone(st, k) && InBatch(k, ns, hs) && TargetOf(st, k) == t
  }

  /** A stored delegation of the batch is for the delegate `d`. */
  ghost predicate DropsDelegate(p: Primitives, st: Store, ns: Bytes, hs: seq<Bytes>, d: Key) {
    exists k :: HoldsDelegation(st, k) && InBatch(k, ns, hs) && DelegateOf(p, st, k) == d
  }

  /** A batch delete removes exactly the named blobs and leaves the registry alone. */
  lemma {:induction false} DeleteAllBlobs(p: Primitives, st: Store, ns: Bytes, hs: seq<Bytes>)
    ensures var st' := DeleteAll(p, st, ns, hs);
      && st'.owners == st.owners
      && (forall k :: k in st'.blobs <==> k in st.blobs && !InBatch(k, ns, hs))
      && (forall k :: k in st'.blobs ==> st'.blobs[k] == st.blobs[k])
    decreases |hs|
  {
    if hs != [] {
      DeleteAllBlobs(p, Delete(p, st, ns, hs[0]), ns, hs[1..]);
    }
  }

  /** It removes the index entries of the tombstones and delegations in the batch, whatever their order. */
  lemma {:induction false} DeleteAllIndexes(p: Primitives, st: Store, ns: Bytes, hs: seq<Bytes>)
    ensures var st' := DeleteAll(p, st, ns, hs);
      && (forall t :: t in st'.tombs <==> t in st.tombs && !DropsTarget(st, ns, hs, t))
      && (forall d :: d in st'.delegs <==> d in st.delegs && !DropsDelegate(p, st, ns, hs, d))
      && (forall d :: d in st'.delegs ==> st'.delegs[d] == st.delegs[d])
    decreases |hs|
  {
    if hs != [] {
      DeleteAllIndexes(p, Delete(p, st, ns, hs[0]), ns, hs[1..]);
      forall t {
        DropsTargetSplits(p, st, ns, hs, t);
      }
      forall d {
        DropsDelegateSplits(p, st, ns, hs, d);
      }
    }
  }

  lemma DropsTargetSplits(p: Primitives, st: Store, ns: Bytes, hs: seq<Bytes>, t: Key)
    requires hs != []
    ensures var first := Key(ns, hs[0]);
      DropsTarget(st, ns, hs, t) <==>
        || (HoldsTombstone(st, first) && TargetOf(st, first) == t)
        || DropsTarget(Delete(p, st, ns, hs[0]), ns, hs[1..], t)
  {
    var first, st1 := Key(ns, hs[0]), Delete(p, st, ns, hs[0]);
    if k :| HoldsTombstone(st, k) && InBatch(k, ns, hs) && TargetOf(st, k) == t {
      if k != first {
        assert k.hash in hs[1..] && HoldsTombstone(st1, k) && TargetOf(st1, k) == t;
      }
    }
    if k :| HoldsTombstone(st1, k) && InBatch(k, ns, hs[1..]) && TargetOf(st1, k) == t {
      assert HoldsTombstone(st, k) && InBatch(k, ns, hs) && TargetOf(st, k) == t;
    }
    assert InBatch(first, ns, hs);
  }

  lemma DropsDelegateSplits(p: Primitives, st: Store, ns: Bytes, hs: seq<Bytes>, d: Key)
    requires hs != []
    ensures var first := Key(ns, hs[0]);
      DropsDelegate(p, st, ns, hs, d) <==>
        || (HoldsDelegation(st, first) && DelegateOf(p, st, first) == d)
        || DropsDelegate(p, Delete(p, st, ns, hs[0]), ns, hs[1..], d)
  {
    var first, st1 := Key(ns, hs[0]), Delete(p, st, ns, hs[0]);
    if k :| HoldsDelegation(st, k) && InBatch(k, ns, hs) && DelegateOf(p, st, k) == d {
      if k != first {
        assert k.hash in hs[1..] && HoldsDelegation(st1, k) && DelegateOf(p, st1, k) == d;
      }
    }
    if k :| HoldsDelegation(st1, k) && InBatch(k, ns, hs[1..]) && DelegateOf(p, st1, k) == d {
      assert HoldsDelegation(st, k) && InBatch(k, ns, hs) && DelegateOf(p, st, k) == d;
    }
    assert InBatch(first, ns, hs);
  }

  lemma DeleteIsBatchOfOne(p: Primitives, st: Store, ns: Bytes, h: Bytes)
    ensures DeleteAll(p, st, ns, [h]) == Delete(p, st, ns, h)
  {
    assert [h][1..] == [];
  }
}
