/** The registry of owner keys. Registration files a key under the blob's signer hint, while the hash
    checks compare with the target namespace. So a key can be filed under a name that is not its hash, and a
    namespace can hold a blob without being registered; both are given with the exact condition over runs. */
module OwnerRegistry {
  import opened Octets
  import opened BlobFormat
  import opened BlobStore
  import opened IngestMachine
  import opened CommitEffects
  import opened ExampleRuns
  import opened Provenance

  /** Each entry holds a key that hashes to the entry's own name. */
  ghost predicate Keyed(p: Primitives, st: Store) {
    forall h :: h in st.owners ==> p.sha3(st.owners[h]) == h
  }

  /** The hint is the hash of whichever key verifies the signature, as build_owned_blob makes it. */
  ghost predicate HonestHint(p: Primitives, ns: Bytes, b: Blob) {
    forall pk :: p.Signed(ns, b, pk) ==> b.signerHint == p.sha3(pk)
  }

  ghost predicate HonestRun(p: Primitives, evs: seq<Event>) {
    forall n :: 0 <= n < |evs| && evs[n].Start? ==> HonestHint(p, evs[n].ns, evs[n].blob)
  }

  predicate Contains(owners: map<Bytes, Bytes>, h: Bytes, pk: Bytes) {
    h in owners && owners[h] == pk
  }

  ghost predicate Extends(owners: map<Bytes, Bytes>, owners': map<Bytes, Bytes>) {
    forall h :: h in owners ==> h in owners' && owners'[h] == owners[h]
  }

  ghost predicate CallRegistered(p: Primitives, owners: map<Bytes, Bytes>, c: Call) {
    && HonestHint(p, c.ns, c.blob)
    && (c.kind == Ingest && !c.pc.Done? ==> c.ns in owners || IsPubkey(c.blob.data))
    && match c.pc
       case OwnerHash(pk) => Contains(owners, c.blob.signerHint, pk)
       case EmbeddedHash => true
       case ContentHashing(pk, isOwner) => KeyRegistered(p, owners, c, pk, isOwner)
       case Verifying(pk, isOwner) => KeyRegistered(p, owners, c, pk, isOwner)
       case Done(_) => true
  }

  ghost predicate KeyRegistered(p: Primitives, owners: map<Bytes, Bytes>, c: Call, pk: Bytes, isOwner: bool) {
    if isOwner then
      && p.sha3(pk) == c.ns
      && (Contains(owners, c.blob.signerHint, pk) || (IsPubkey(c.blob.data) && pk == EmbeddedKey(c.blob.data)))
    else c.ns in owners && !IsPubkey(c.blob.data)
  }

  ghost predicate Registered(p: Primitives, w: World) {
    && Keyed(p, w.store)
    && (forall j :: 0 <= j < |w.log| ==> w.log[j].ns in w.store.owners)
    && (forall k :: 0 <= k < |w.calls| ==> CallRegistered(p, w.store.owners, w.calls[k]))
  }

  /** The registry after a commit: unchanged, or one PUBK's key filed under its hint. */
  lemma CommitOwners(p: Primitives, st: Store, c: Call, i: Inputs)
    requires CallWellFormed(c) && c.pc.Verifying?
    ensures var st' := ResumeCall(p, st, c, i).0;
      if RegistersKey(p, st, c) then st'.owners == st.owners[c.blob.signerHint := EmbeddedKey(c.blob.data)]
      else st'.owners == st.owners
    ensures var pc := ResumeCall(p, st, c, i).1;
      NewlyStored(c.pc, pc) && IsPubkey(c.blob.data) ==> RegistersKey(p, st, c)
  {
    CommitShape(p, st, c, i);
    DeleteAllBlobs(p, st, c.ns, Victims(c.blob));
    KindsDisjoint(c.blob.data);
  }

  /** The guard under which a commit files a key: a PUBK that verifies, is not blocked, and does not
      contradict the entry already there. */
  predicate RegistersKey(p: Primitives, st: Store, c: Call)
    requires c.pc.Verifying?
  {
    c.kind == Ingest && IsPubkey(c.blob.data) && Passes(p, st, c) && !Contradicts(st, c)
  }

  /** Registry entries are never changed or removed by any event, honest or not. */
  lemma StepExtends(p: Primitives, w: World, ev: Event)
    requires WorldWellFormed(w)
    ensures Extends(w.store.owners, Next(p, w, ev).store.owners)
  {
    match ev
    case Resume(k, i) =>
      if k < |w.calls| && w.calls[k].pc.Verifying? {
        CommitOwners(p, w.store, w.calls[k], i);
      }
    case _ =>
  }

  lemma {:induction false} EntriesNeverChange(p: Primitives, evs: seq<Event>, n: nat)
    requires n <= |evs|
    ensures Extends(Run(p, evs[..n]).store.owners, Run(p, evs).store.owners)
    decreases |evs|
  {
    if n < |evs| {
      var before := evs[..|evs| - 1];
      assert before[..n] == evs[..n];
      EntriesNeverChange(p, before, n);
      StepExtends(p, Run(p, before), evs[|evs| - 1]);
    } else {
      assert evs[..n] == evs;
    }
  }

  lemma CallStaysRegistered(p: Primitives, owners: map<Bytes, Bytes>, owners': map<Bytes, Bytes>, c: Call)
    requires CallRegistered(p, owners, c) && Extends(owners, owners')
    ensures CallRegistered(p, owners', c)
  {
  }

  lemma EarlyResumeRegistered(p: Primitives, w: World, c: Call, i: Inputs)
    requires CallWellFormed(c) && CallRegistered(p, w.store.owners, c) && !c.pc.Verifying?
    ensures ResumeCall(p, w.store, c, i).0 == w.store
    ensures CallRegistered(p, w.store.owners, c.(pc := ResumeCall(p, w.store, c, i).1))
  {
  }

  lemma CommitRegistered(p: Primitives, w: World, k: nat, i: Inputs)
    requires WorldWellFormed(w) && Registered(p, w) && Backed(p, w)
    requires k < |w.calls| && w.calls[k].pc.Verifying?
    ensures Registered(p, Next(p, w, Resume(k, i)))
  {
    var c := w.calls[k];
    var w' := Next(p, w, Resume(k, i));
    CommitOwners(p, w.store, c, i);
    StepExtends(p, w, Resume(k, i));
    CommitOnlyAdds(p, w.store, c, i);
    assert CallRegistered(p, w.store.owners, c) && CallBacked(p, w.log, c);
    if p.Signed(c.ns, c.blob, c.pc.key) {
      assert c.blob.signerHint == p.sha3(c.pc.key);
    }
    forall n | 0 <= n < |w'.calls|
      ensures CallRegistered(p, w'.store.owners, w'.calls[n])
    {
      CallStaysRegistered(p, w.store.owners, w'.store.owners, w.calls[n]);
    }
    SignerRegistered(p, w, c, i);
  }

  /** A commit that verified leaves the namespace registered, and files keys only under their hash. */
  lemma SignerRegistered(p: Primitives, w: World, c: Call, i: Inputs)
    requires CallWellFormed(c) && c.pc.Verifying?
    requires Keyed(p, w.store) && CallRegistered(p, w.store.owners, c) && CallBacked(p, w.log, c)
    ensures var (st', pc) := ResumeCall(p, w.store, c, i);
      Keyed(p, st') && (NewlyStored(c.pc, pc) ==> c.ns in st'.owners)
  {
    CommitOwners(p, w.store, c, i);
    CommitOnlyAdds(p, w.store, c, i);
    KindsDisjoint(c.blob.data);
    if p.Signed(c.ns, c.blob, c.pc.key) {
      assert c.blob.signerHint == p.sha3(c.pc.key);
      if RegistersKey(p, w.store, c) && c.pc.isOwner && Contains(w.store.owners, c.blob.signerHint, c.pc.key) {
        assert w.store.owners[c.blob.signerHint] == EmbeddedKey(c.blob.data);
      }
    }
  }

  lemma StepRegistered(p: Primitives, w: World, ev: Event)
    requires WorldWellFormed(w) && Registered(p, w) && Backed(p, w)
    requires ev.Start? ==> HonestHint(p, ev.ns, ev.blob)
    ensures Registered(p, Next(p, w, ev))
  {
    match ev
    case Start(kind, ns, b, i) => KindsDisjoint(b.data);
    case Resume(k, i) =>
      if k < |w.calls| {
        if w.calls[k].pc.Verifying? {
          CommitRegistered(p, w, k, i);
        } else {
          EarlyResumeRegistered(p, w, w.calls[k], i);
        }
      }
    case ExpiryScan(_, _) =>
  }

  lemma {:induction false} RegisteredInEveryRun(p: Primitives, evs: seq<Event>)
    requires HonestRun(p, evs)
    ensures Registered(p, Run(p, evs))
    decreases |evs|
  {
    if evs != [] {
      var before := evs[..|evs| - 1];
      assert forall n :: 0 <= n < |before| ==> before[n] == evs[n];
      RegisteredInEveryRun(p, before);
      BackedInEveryRun(p, before);
      StepRegistered(p, Run(p, before), evs[|evs| - 1]);
    }
  }

  /** With honest hints, in every run: each registry entry holds a key that hashes to it, and every
      namespace that holds a blob has its owner registered. */
  lemma RegistryInHonestRuns(p: Primitives, evs: seq<Event>)
    requires HonestRun(p, evs)
    ensures Keyed(p, Run(p, evs).store)
    ensures forall k :: k in Run(p, evs).store.blobs ==> k.ns in Run(p, evs).store.owners
  {
    var w := Run(p, evs);
    RegisteredInEveryRun(p, evs);
    BackedInEveryRun(p, evs);
    forall k | k in w.store.blobs
      ensures k.ns in w.store.owners
    {
      assert Record(k.ns, w.store.blobs[k]) in w.log;
    }
  }

  /** The event files a key under a name that is not the key's hash. */
  predicate Misfiles(p: Primitives, w: World, ev: Event) {
    && ev.Resume? && ev.call < |w.calls| && w.calls[ev.call].pc.Verifying?
    && RegistersKey(p, w.store, w.calls[ev.call])
    && p.sha3(EmbeddedKey(w.calls[ev.call].blob.data)) != w.calls[ev.call].blob.signerHint
  }

  /** Without assuming honest hints: an event keeps the registry keyed exactly when it misfiles nothing. */
  lemma StepKeepsKeyedIff(p: Primitives, w: World, ev: Event)
    requires WorldWellFormed(w) && Keyed(p, w.store)
    ensures Keyed(p, Next(p, w, ev).store) <==> !Misfiles(p, w, ev)
  {
    match ev
    case Resume(k, i) =>
      if k < |w.calls| && w.calls[k].pc.Verifying? {
        CommitOwners(p, w.store, w.calls[k], i);
        if Misfiles(p, w, ev) {
          assert w.calls[k].blob.signerHint in Next(p, w, ev).store.owners;
        }
      }
    case _ =>
  }

  predicate NeverMisfiles(p: Primitives, evs: seq<Event>) {
    evs == [] || (NeverMisfiles(p, evs[..|evs| - 1]) && !Misfiles(p, Run(p, evs[..|evs| - 1]), evs[|evs| - 1]))
  }

  lemma MisfiledStays(p: Primitives, w: World, ev: Event)
    requires WorldWellFormed(w) && !Keyed(p, w.store)
    ensures !Keyed(p, Next(p, w, ev).store)
  {
    StepExtends(p, w, ev);
    var h :| h in w.store.owners && p.sha3(w.store.owners[h]) != h;
    assert h in Next(p, w, ev).store.owners;
  }

  /** For any hints: at the end of a run every entry holds a key that hashes to it exactly if no event misfiled one. */
  lemma {:induction false} KeyedIff(p: Primitives, evs: seq<Event>)
    ensures Keyed(p, Run(p, evs).store) <==> NeverMisfiles(p, evs)
    decreases |evs|
  {
    if evs != [] {
      var before, ev := evs[..|evs| - 1], evs[|evs| - 1];
      KeyedIff(p, before);
      if Keyed(p, Run(p, before).store) {
        StepKeepsKeyedIff(p, Run(p, before), ev);
      } else {
        MisfiledStays(p, Run(p, before), ev);
      }
    }
  }

  // Namespaces with a blob.

  ghost predicate Housed(st: Store) {
    forall k :: k in st.blobs ==> k.ns in st.owners
  }

  /** The event stores a blob in a namespace that has no entry, and it is no PUBK with that namespace as its hint. */
  predicate Unhouses(p: Primitives, w: World, ev: Event) {
    && ev.Resume? && ev.call < |w.calls| && w.calls[ev.call].pc.Verifying?
    && var c := w.calls[ev.call];
       && Stores(p, w.store, c, ev.inputs) && c.ns !in w.store.owners
       && !(c.kind == Ingest && IsPubkey(c.blob.data) && c.blob.signerHint == c.ns)
  }

  lemma CommitHousedIff(p: Primitives, w: World, k: nat, i: Inputs)
    requires WorldWellFormed(w) && Housed(w.store) && k < |w.calls| && w.calls[k].pc.Verifying?
    ensures Housed(Next(p, w, Resume(k, i)).store) <==> !Unhouses(p, w, Resume(k, i))
  {
    var c := w.calls[k];
    CommitShape(p, w.store, c, i);
    CommitOwners(p, w.store, c, i);
    DeleteAllBlobs(p, w.store, c.ns, Victims(c.blob));
    var st' := Next(p, w, Resume(k, i)).store;
    if Stores(p, w.store, c, i) {
      assert Key(c.ns, p.ContentHash(c.blob)) in st'.blobs;
    }
  }

  lemma StepHousedIff(p: Primitives, w: World, ev: Event)
    requires WorldWellFormed(w) && Housed(w.store)
    ensures Housed(Next(p, w, ev).store) <==> !Unhouses(p, w, ev)
  {
    if ev.Resume? && ev.call < |w.calls| && w.calls[ev.call].pc.Verifying? {
      CommitHousedIff(p, w, ev.call, ev.inputs);
    }
  }

  predicate NeverUnhouses(p: Primitives, evs: seq<Event>) {
    evs == [] || (NeverUnhouses(p, evs[..|evs| - 1]) && !Unhouses(p, Run(p, evs[..|evs| - 1]), evs[|evs| - 1]))
  }

  ghost predicate HousedThroughout(p: Primitives, evs: seq<Event>) {
    Housed(Run(p, evs).store) && (evs == [] || HousedThroughout(p, evs[..|evs| - 1]))
  }

  /** For any hints: every namespace with a blob has an entry throughout a run exactly if no event stored a blob past
      a missing one. */
  lemma {:induction false} HousedIff(p: Primitives, evs: seq<Event>)
    ensures HousedThroughout(p, evs) <==> NeverUnhouses(p, evs)
    decreases |evs|
  {
    if evs != [] {
      var before, ev := evs[..|evs| - 1], evs[|evs| - 1];
      HousedIff(p, before);
      if HousedThroughout(p, before) {
        StepHousedIff(p, Run(p, before), ev);
      }
    }
  }

  /** One PUBK with a foreign hint files its key under that hint and leaves its own namespace, which now
      holds a blob, unregistered. */
  lemma ForeignHintMisfiles() returns (p: Primitives)
    ensures var w := Run(p, FirstPubkey(8));
      && !Keyed(p, w.store) && !Housed(w.store)
      && NS !in w.store.owners && Key(NS, Fill(5, 32)) in w.store.blobs
  {
    p := ExampleExists();
    FillsDiffer(7, 8);
    PubkeyFiled(p, 8);
    assert Fill(8, 32) in Run(p, FirstPubkey(8)).store.owners;
  }
}
