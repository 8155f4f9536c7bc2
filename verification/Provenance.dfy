/** Who signed what is in the store: for every interleaving, each stored blob was verified over its own
    namespace under the owner's key, or under a key the owner had delegated to before. */
module Provenance {
  import opened Octets
  import opened BlobFormat
  import opened BlobStore
  import opened IngestMachine
  import opened CommitEffects

  predicate OwnerKey(p: Primitives, r: Record, pk: Bytes) {
    p.sha3(pk) == r.ns && p.Signed(r.ns, r.blob, pk)
  }

  ghost predicate OwnerSigned(p: Primitives, r: Record) {
    exists pk :: OwnerKey(p, r, pk)
  }

  predicate GrantsTo(grant: Record, ns: Bytes, pk: Bytes) {
    grant.ns == ns && IsDelegation(grant.blob.data) && DelegateKey(grant.blob.data) == pk
  }

  /** An owner-signed delegation stored before position `i` names a key that verifies the record. */
  ghost predicate DelegateSigned(p: Primitives, log: seq<Record>, i: nat)
    requires i < |log|
  {
    exists j, pk :: 0 <= j < i && GrantsTo(log[j], log[i].ns, pk) && OwnerSigned(p, log[j])
      && p.Signed(log[i].ns, log[i].blob, pk)
  }

  predicate OwnerOnly(data: Bytes) {
    IsTombstone(data) || IsBomb(data) || IsDelegation(data)
  }

  predicate BombSound(b: Blob) {
    HasBombMagic(b.data) ==> IsBomb(b.data) && b.ttl == 0
  }

  /** Tombstones, BOMBs and delegations need the owner; anything else may come from a delegate. Data
      that starts like a BOMB is a well-formed, permanent BOMB. */
  ghost predicate Authorised(p: Primitives, log: seq<Record>, i: nat)
    requires i < |log|
  {
    && BombSound(log[i].blob)
    && (OwnerSigned(p, log[i]) || (!OwnerOnly(log[i].blob.data) && DelegateSigned(p, log, i)))
  }

  ghost predicate LogAuthorised(p: Primitives, log: seq<Record>) {
    forall i :: 0 <= i < |log| ==> Authorised(p, log, i)
  }

  ghost predicate StoreLogged(p: Primitives, w: World) {
    forall k :: k in w.store.blobs ==>
      k.hash == p.ContentHash(w.store.blobs[k]) && Record(k.ns, w.store.blobs[k]) in w.log
  }

  ghost predicate Granted(log: seq<Record>, ns: Bytes, pk: Bytes) {
    exists j :: 0 <= j < |log| && GrantsTo(log[j], ns, pk)
  }

  ghost predicate Acknowledged(p: Primitives, log: seq<Record>, ns: Bytes, h: Bytes) {
    exists j :: 0 <= j < |log| && log[j].ns == ns && p.ContentHash(log[j].blob) == h
  }

  /** What is known of a call at each suspension point: the key it resolved really has authority. */
  ghost predicate CallBacked(p: Primitives, log: seq<Record>, c: Call) {
    match c.pc
    case Done(r) => r.Accepted? ==>
      r.hash == p.ContentHash(c.blob) && Acknowledged(p, log, c.ns, r.hash)
    case OwnerHash(_) => BombSound(c.blob)
    case EmbeddedHash => BombSound(c.blob)
    case ContentHashing(pk, isOwner) => BombSound(c.blob) && KeyBacked(p, log, c, pk, isOwner)
    case Verifying(pk, isOwner) => BombSound(c.blob) && KeyBacked(p, log, c, pk, isOwner)
  }

  ghost predicate KeyBacked(p: Primitives, log: seq<Record>, c: Call, pk: Bytes, isOwner: bool) {
    if isOwner then p.sha3(pk) == c.ns
    else !OwnerOnly(c.blob.data) && Granted(log, c.ns, pk)
  }

  ghost predicate CallsBacked(p: Primitives, w: World) {
    forall k :: 0 <= k < |w.calls| ==> CallBacked(p, w.log, w.calls[k])
  }

  ghost predicate Backed(p: Primitives, w: World) {
    LogAuthorised(p, w.log) && StoreLogged(p, w) && CallsBacked(p, w)
  }

  lemma BackingGrows(p: Primitives, log: seq<Record>, r: Record, c: Call)
    requires CallBacked(p, log, c)
    ensures CallBacked(p, log + [r], c)
  {
    assert forall j :: 0 <= j < |log| ==> (log + [r])[j] == log[j];
  }

  /** The append is authorised when the record is signed under a key with authority. */
  lemma AppendAuthorised(p: Primitives, log: seq<Record>, r: Record, pk: Bytes, isOwner: bool)
    requires LogAuthorised(p, log) && BombSound(r.blob) && p.Signed(r.ns, r.blob, pk)
    requires if isOwner then p.sha3(pk) == r.ns else !OwnerOnly(r.blob.data) && Granted(log, r.ns, pk)
    ensures LogAuthorised(p, log + [r])
  {
    var log' := log + [r];
    forall i | 0 <= i < |log'|
      ensures Authorised(p, log', i)
    {
      if i < |log| {
        assert Authorised(p, log, i) && log'[i] == log[i];
        if !OwnerSigned(p, log[i]) {
          var j, key :| 0 <= j < i && GrantsTo(log[j], log[i].ns, key) && OwnerSigned(p, log[j])
            && p.Signed(log[i].ns, log[i].blob, key);
          assert GrantsTo(log'[j], log'[i].ns, key) && OwnerSigned(p, log'[j]);
        }
      } else if isOwner {
        assert OwnerKey(p, log'[i], pk);
      } else {
        var j :| 0 <= j < |log| && GrantsTo(log[j], r.ns, pk);
        assert Authorised(p, log, j) && OwnerOnly(log[j].blob.data);
        assert GrantsTo(log'[j], log'[i].ns, pk) && OwnerSigned(p, log'[j]);
      }
    }
  }

  /** What a delegation lookup finds was stored, so it is in the log. */
  lemma DelegateGranted(p: Primitives, w: World, ns: Bytes, hint: Bytes)
    requires StoreLogged(p, w)
    ensures FindDelegate(w.store, ns, hint).Some? ==>
      Granted(w.log, ns, FindDelegate(w.store, ns, hint).value)
  {
    if FindDelegate(w.store, ns, hint).Some? {
      var h :| Key(ns, h) in w.store.blobs
        && IsDelegation(w.store.blobs[Key(ns, h)].data)
        && DelegateKey(w.store.blobs[Key(ns, h)].data) == FindDelegate(w.store, ns, hint).value;
      var j :| 0 <= j < |w.log| && w.log[j] == Record(ns, w.store.blobs[Key(ns, h)]);
      assert GrantsTo(w.log[j], ns, FindDelegate(w.store, ns, hint).value);
    }
  }

  lemma StartBacked(p: Primitives, w: World, kind: CallKind, ns: Bytes, b: Blob, i: Inputs)
    requires WorldWellFormed(w) && Backed(p, w)
    ensures Backed(p, Next(p, w, Start(kind, ns, b, i)))
  {
    DelegateGranted(p, w, ns, b.signerHint);
    KindsDisjoint(b.data);
  }

  /** Before the commit only the call moves; the key it settles on is backed. */
  lemma EarlyResumeBacked(p: Primitives, w: World, c: Call, i: Inputs)
    requires CallWellFormed(c) && Backed(p, w) && CallBacked(p, w.log, c) && !c.pc.Verifying?
    ensures ResumeCall(p, w.store, c, i).0 == w.store
    ensures CallBacked(p, w.log, c.(pc := ResumeCall(p, w.store, c, i).1))
  {
    DelegateGranted(p, w, c.ns, c.blob.signerHint);
    if c.pc.ContentHashing? && Key(c.ns, p.ContentHash(c.blob)) in w.store.blobs {
      StoredAcknowledged(p, w, c.ns, p.ContentHash(c.blob));
    }
  }

  lemma StoredAcknowledged(p: Primitives, w: World, ns: Bytes, h: Bytes)
    requires StoreLogged(p, w) && Key(ns, h) in w.store.blobs
    ensures Acknowledged(p, w.log, ns, h)
  {
    var j :| 0 <= j < |w.log| && w.log[j] == Record(ns, w.store.blobs[Key(ns, h)]);
  }

  /** What a commit may do: the blobs left are old ones, plus the call's blob when it was newly stored,
      and an accepted call finds a blob under its hash. */
  predicate Commits(p: Primitives, st: Store, st': Store, ns: Bytes, b: Blob, r: Result) {
    var own := Key(ns, p.ContentHash(b));
    var stored := r.Accepted? && !r.duplicate;
    && (stored ==> own in st'.blobs && st'.blobs[own] == b)
    && (forall k :: k in st'.blobs && !(stored && k == own) ==> k in st.blobs && st'.blobs[k] == st.blobs[k])
    && (r.Accepted? ==> r.hash == own.hash && own in st'.blobs)
  }

  /** A commit removes blobs and adds at most its own, and an accepted one verified its signature. */
  lemma CommitOnlyAdds(p: Primitives, st: Store, c: Call, i: Inputs)
    requires CallWellFormed(c) && c.pc.Verifying?
    ensures var (st', pc) := ResumeCall(p, st, c, i);
      && pc.Done? && Commits(p, st, st', c.ns, c.blob, pc.result)
      && (pc.result.Accepted? ==> p.Signed(c.ns, c.blob, c.pc.key))
  {
    CommitShape(p, st, c, i);
    DeleteAllBlobs(p, st, c.ns, Victims(c.blob));
  }

  lemma CommitBacked(p: Primitives, w: World, k: nat, i: Inputs)
    requires WorldWellFormed(w) && Backed(p, w) && k < |w.calls| && w.calls[k].pc.Verifying?
    ensures Backed(p, Next(p, w, Resume(k, i)))
  {
    var c := w.calls[k];
    var w' := Next(p, w, Resume(k, i));
    var r := Record(c.ns, c.blob);
    var own := Key(c.ns, p.ContentHash(c.blob));
    CommitOnlyAdds(p, w.store, c, i);
    assert CallBacked(p, w.log, c);
    if NewlyStored(c.pc, w'.calls[k].pc) {
      AppendAuthorised(p, w.log, r, c.pc.key, c.pc.isOwner);
      assert w'.log[|w.log|] == r;
      forall n | 0 <= n < |w.calls|
        ensures CallBacked(p, w'.log, w.calls[n])
      {
        BackingGrows(p, w.log, r, w.calls[n]);
      }
    }
    assert StoreLogged(p, w');
    if w'.calls[k].pc.result.Accepted? {
      StoredAcknowledged(p, w', c.ns, own.hash);
    }
  }

  lemma StepBacked(p: Primitives, w: World, ev: Event)
    requires WorldWellFormed(w) && Backed(p, w)
    ensures Backed(p, Next(p, w, ev))
  {
    match ev
    case Start(kind, ns, b, i) => StartBacked(p, w, kind, ns, b, i);
    case Resume(k, i) =>
      if k < |w.calls| {
        if w.calls[k].pc.Verifying? {
          CommitBacked(p, w, k, i);
        } else {
          EarlyResumeBacked(p, w, w.calls[k], i);
        }
      }
    case ExpiryScan(_, _) =>
  }

  lemma {:induction false} BackedInEveryRun(p: Primitives, evs: seq<Event>)
    ensures Backed(p, Run(p, evs))
    decreases |evs|
  {
    if evs != [] {
      BackedInEveryRun(p, evs[..|evs| - 1]);
      StepBacked(p, Run(p, evs[..|evs| - 1]), evs[|evs| - 1]);
    }
  }

  /** The blob was stored at some point, and with authority. */
  ghost predicate StoredWithAuthority(p: Primitives, log: seq<Record>, r: Record) {
    exists j :: 0 <= j < |log| && log[j] == r && Authorised(p, log, j)
  }

  predicate AcceptedCall(c: Call) {
    c.pc.Done? && c.pc.result.Accepted?
  }

  /** No other blob in the log has the content hash of `b`. */
  ghost predicate NoCollision(p: Primitives, log: seq<Record>, b: Blob) {
    forall r :: r in log && p.ContentHash(r.blob) == p.ContentHash(b) ==> r.blob == b
  }

  /** In every reachable store each blob is there with authority. */
  lemma EveryBlobAuthorised(p: Primitives, evs: seq<Event>, k: Key)
    requires k in Run(p, evs).store.blobs
    ensures StoredWithAuthority(p, Run(p, evs).log, Record(k.ns, Run(p, evs).store.blobs[k]))
  {
    var w := Run(p, evs);
    BackedInEveryRun(p, evs);
    var j :| 0 <= j < |w.log| && w.log[j] == Record(k.ns, w.store.blobs[k]);
    assert Authorised(p, w.log, j);
  }

  /** Every blob the node acknowledged had been stored with authority, including a `duplicate`
      acknowledged without looking at its signature. */
  lemma EveryAckAuthorised(p: Primitives, evs: seq<Event>, n: nat)
    requires n < |Run(p, evs).calls| && AcceptedCall(Run(p, evs).calls[n])
    requires NoCollision(p, Run(p, evs).log, Run(p, evs).calls[n].blob)
    ensures StoredWithAuthority(p, Run(p, evs).log, Record(Run(p, evs).calls[n].ns, Run(p, evs).calls[n].blob))
  {
    var w := Run(p, evs);
    var c := w.calls[n];
    BackedInEveryRun(p, evs);
    assert CallBacked(p, w.log, c);
    var j :| 0 <= j < |w.log| && w.log[j].ns == c.ns && p.ContentHash(w.log[j].blob) == c.pc.result.hash;
    assert w.log[j] in w.log;
    assert w.log[j] == Record(c.ns, c.blob) && Authorised(p, w.log, j);
  }
}
