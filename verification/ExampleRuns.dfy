/** Calls that run to their end without another in between, and a small concrete node to show single runs on. */
module ExampleRuns {
  import opened Octets
  import opened BlobFormat
  import opened BlobStore
  import opened IngestMachine
  import opened CommitEffects

  /** One ingest call run to its end with nothing in between; `k` is its place among the calls, and `j` is what its last
      segment reads from outside. */
  function Submit(ns: Bytes, b: Blob, i: Inputs, j: Inputs, k: nat): seq<Event> {
    [Start(Ingest, ns, b, i), Resume(k, i), Resume(k, i), Resume(k, j)]
  }

  lemma RunOneMore(p: Primitives, evs: seq<Event>, e: Event)
    ensures Run(p, evs + [e]) == Next(p, Run(p, evs), e)
  {
    assert (evs + [e])[..|evs|] == evs;
  }

  lemma FourMore(evs: seq<Event>, a: Event, b: Event, c: Event, d: Event)
    ensures evs + [a, b, c, d] == evs + [a] + [b] + [c] + [d]
  {
  }

  lemma RunFourMore(p: Primitives, evs: seq<Event>, a: Event, b: Event, c: Event, d: Event)
    ensures Run(p, evs + [a, b, c, d]) == Next(p, Next(p, Next(p, Next(p, Run(p, evs), a), b), c), d)
  {
    FourMore(evs, a, b, c, d);
    RunOneMore(p, evs, a);
    RunOneMore(p, evs + [a], b);
    RunOneMore(p, evs + [a] + [b], c);
    RunOneMore(p, evs + [a] + [b] + [c], d);
  }

  /** An ingest call about to commit, signed by the owner. */
  function OwnersCall(ns: Bytes, b: Blob, pk: Bytes): Call {
    Call(Ingest, ns, b, Verifying(pk, true))
  }

  /** From the hashing of its content on, a call with a fresh blob ends with the effect of its commit. */
  lemma LastSegments(p: Primitives, w: World, ns: Bytes, b: Blob, pk: Bytes, i: Inputs, j: Inputs)
    requires WorldWellFormed(w) && w.calls != [] && Key(ns, p.ContentHash(b)) !in w.store.blobs
    requires w.calls[|w.calls| - 1] == Call(Ingest, ns, b, ContentHashing(pk, true))
    ensures var k, c := |w.calls| - 1, OwnersCall(ns, b, pk);
      var w' := Next(p, Next(p, w, Resume(k, i)), Resume(k, j));
      && w'.store == Committed(p, w.store, c, j)
      && w'.calls == w.calls[..k] + [c.(pc := ResumeCall(p, w.store, c, j).1)]
  {
    var k, c := |w.calls| - 1, OwnersCall(ns, b, pk);
    var w1 := Next(p, w, Resume(k, i));
    assert w1.calls == w.calls[..k] + [c] && w1.store == w.store;
    CommitShape(p, w.store, c, j);
  }

  /** The registered owner submits a blob that is not stored yet and that gets past the gates: the call ends with the
      effect of its commit, whatever that is. */
  lemma OwnerSubmits(p: Primitives, evs: seq<Event>, ns: Bytes, b: Blob, i: Inputs, j: Inputs)
    requires var st := Run(p, evs).store;
      && IngestGate(st, ns, b, i) == None && Key(ns, p.ContentHash(b)) !in st.blobs
      && b.signerHint in st.owners && p.sha3(st.owners[b.signerHint]) == ns
      && QuotaGate(p, ns, b, i, st.owners[b.signerHint], true).ContentHashing?
    ensures var w := Run(p, evs);
      var w' := Run(p, evs + Submit(ns, b, i, j, |w.calls|));
      var c := OwnersCall(ns, b, w.store.owners[b.signerHint]);
      && w'.store == Committed(p, w.store, c, j)
      && w'.calls == w.calls + [c.(pc := ResumeCall(p, w.store, c, j).1)]
  {
    var w := Run(p, evs);
    var k := |w.calls|;
    RunFourMore(p, evs, Start(Ingest, ns, b, i), Resume(k, i), Resume(k, i), Resume(k, j));
    var pk := w.store.owners[b.signerHint];
    var w1 := Next(p, w, Start(Ingest, ns, b, i));
    assert w1.calls[k] == Call(Ingest, ns, b, OwnerHash(pk));
    var w2 := Next(p, w1, Resume(k, i));
    assert w2.calls == w.calls + [Call(Ingest, ns, b, ContentHashing(pk, true))] && w2.store == w.store;
    LastSegments(p, w2, ns, b, pk, i, j);
  }

  /** Three of its four events in, the call is about to commit and nothing else has changed. */
  lemma OwnerReady(p: Primitives, evs: seq<Event>, ns: Bytes, b: Blob, i: Inputs, j: Inputs)
    requires var st := Run(p, evs).store;
      && IngestGate(st, ns, b, i) == None && Key(ns, p.ContentHash(b)) !in st.blobs
      && b.signerHint in st.owners && p.sha3(st.owners[b.signerHint]) == ns
      && QuotaGate(p, ns, b, i, st.owners[b.signerHint], true).ContentHashing?
    ensures var w := Run(p, evs);
      var w' := Run(p, evs + Submit(ns, b, i, j, |w.calls|)[..3]);
      w'.store == w.store && w'.calls == w.calls + [OwnersCall(ns, b, w.store.owners[b.signerHint])]
  {
    var w := Run(p, evs);
    var k, pk := |w.calls|, w.store.owners[b.signerHint];
    var first, next := Start(Ingest, ns, b, i), Resume(k, i);
    assert evs + Submit(ns, b, i, j, k)[..3] == evs + [first] + [next] + [next];
    RunOneMore(p, evs, first);
    RunOneMore(p, evs + [first], next);
    RunOneMore(p, evs + [first] + [next], next);
    var w1 := Next(p, w, first);
    assert w1.calls == w.calls + [Call(Ingest, ns, b, OwnerHash(pk))];
    var w2 := Next(p, w1, next);
    assert w2.calls == w.calls + [Call(Ingest, ns, b, ContentHashing(pk, true))] && w2.store == w.store;
  }

  /** A PUBK whose embedded key hashes to the namespace and whose hint is new speaks for itself: the call ends with the
      effect of its commit. */
  lemma PubkeySubmits(p: Primitives, evs: seq<Event>, ns: Bytes, b: Blob, i: Inputs, j: Inputs)
    requires var st := Run(p, evs).store;
      && IngestGate(st, ns, b, i) == None && Key(ns, p.ContentHash(b)) !in st.blobs
      && IsPubkey(b.data) && b.signerHint !in st.owners && p.sha3(EmbeddedKey(b.data)) == ns
      && QuotaGate(p, ns, b, i, EmbeddedKey(b.data), true).ContentHashing?
    ensures var w := Run(p, evs);
      var w' := Run(p, evs + Submit(ns, b, i, j, |w.calls|));
      var c := OwnersCall(ns, b, EmbeddedKey(b.data));
      && w'.store == Committed(p, w.store, c, j)
      && w'.calls == w.calls + [c.(pc := ResumeCall(p, w.store, c, j).1)]
  {
    var w := Run(p, evs);
    var k := |w.calls|;
    RunFourMore(p, evs, Start(Ingest, ns, b, i), Resume(k, i), Resume(k, i), Resume(k, j));
    var pk := EmbeddedKey(b.data);
    var w1 := Next(p, w, Start(Ingest, ns, b, i));
    assert w1.calls[k] == Call(Ingest, ns, b, EmbeddedHash);
    var w2 := Next(p, w1, Resume(k, i));
    assert w2.calls == w.calls + [Call(Ingest, ns, b, ContentHashing(pk, true))] && w2.store == w.store;
    LastSegments(p, w2, ns, b, pk, i, j);
  }

  /** In any reachable store: the owner's BOMB gets past the gates, finds the disk full when it commits, is refused, and
      has deleted its targets. */
  lemma OwnersBombRefused(p: Primitives, evs: seq<Event>, ns: Bytes, b: Blob, i: Inputs, j: Inputs, h: Bytes)
    requires var st := Run(p, evs).store;
      && IngestGate(st, ns, b, i) == None && Key(ns, p.ContentHash(b)) !in st.blobs
      && b.signerHint in st.owners && p.sha3(st.owners[b.signerHint]) == ns
      && QuotaGate(p, ns, b, i, st.owners[b.signerHint], true).ContentHashing?
      && IsBomb(b.data) && h in BombTargets(b.data) && p.Signed(ns, b, st.owners[b.signerHint])
      && 0 < j.cfg.maxStorage <= j.space.usedBytes
    ensures var w := Run(p, evs);
      var w' := Run(p, evs + Submit(ns, b, i, j, |w.calls|));
      && Key(ns, h) !in w'.store.blobs
      && |w'.calls| == |w.calls| + 1 && w'.calls[|w.calls|].pc == Done(Rejected(StorageFull))
  {
    var st := Run(p, evs).store;
    var c := OwnersCall(ns, b, st.owners[b.signerHint]);
    OwnerSubmits(p, evs, ns, b, i, j);
    RefusedBombDeletes(p, st, c, j, h);
    CommitShape(p, st, c, j);
  }

  // A concrete node.

  function Fill(v: byte, n: nat): (r: Bytes)
    ensures |r| == n && forall j :: 0 <= j < n ==> r[j] == v
  {
    seq(n, _ => v)
  }

  lemma FillsDiffer(v: byte, w: byte)
    requires v != w
    ensures Fill(v, 32) != Fill(w, 32)
  {
    assert Fill(v, 32)[0] != Fill(w, 32)[0];
  }

  const OWNER_KEY: Bytes := Fill(9, SIGNING_PK_SIZE)
  const DELEGATE_KEY: Bytes := Fill(3, SIGNING_PK_SIZE)

  /** Primitives of the example: 32 bytes hash to themselves, the two keys to their namespaces, and the signature
      doubles as the encoding. Signatures that start with 8 are the delegate's, the others the owner's. */
  ghost predicate IsExample(p: Primitives) {
    && (forall x :: |x| == 32 ==> p.sha3(x) == x) && p.sha3(OWNER_KEY) == NS && p.sha3(DELEGATE_KEY) == Fill(6, 32)
    && (forall b :: p.encode(b) == b.signature)
    && (forall m, s, k :: p.verify(m, s, k) <==> k == if s != [] && s[0] == 8 then DELEGATE_KEY else OWNER_KEY)
  }

  lemma ExampleExists() returns (p: Primitives)
    ensures IsExample(p)
  {
    p := Primitives(x => if |x| == 32 then x else if x == DELEGATE_KEY then Fill(6, 32) else Fill(7, 32),
                    (b: Blob) => b.signature,
                    (m, s, k) => k == if s != [] && s[0] == 8 then DELEGATE_KEY else OWNER_KEY);
    assert OWNER_KEY[0] != DELEGATE_KEY[0];
  }

  function ExampleInputs(): Inputs {
    Inputs(Config(1048576, 0, 0, 0, 0, map[]), 10_000_000, Space(0, 0, 0, false))
  }

  function ExampleBlob(data: Bytes, id: byte, hint: byte): Blob {
    Blob(Fill(hint, 32), data, 0, 10_000_000, Fill(id, 32))
  }

  function ExamplePubkey(): (r: Bytes)
    ensures IsPubkey(r) && EmbeddedKey(r) == OWNER_KEY
  {
    var r := PUBKEY_MAGIC + OWNER_KEY + Fill(0, KEM_PK_SIZE);
    assert r[4..4 + SIGNING_PK_SIZE] == OWNER_KEY;
    r
  }

  function ExampleTombstone(target: byte): (r: Bytes)
    ensures IsTombstone(r) && TombstoneTarget(r) == Fill(target, 32)
  {
    var r := TOMBSTONE_MAGIC + Fill(target, 32);
    assert r[4..36] == Fill(target, 32);
    r
  }

  const NS: Bytes := Fill(7, 32)

  /** Nothing but the signature and the index decides in the example: its inputs set no limits. */
  lemma ExampleStores(p: Primitives, st: Store, c: Call)
    requires c.kind == Ingest && c.pc.Verifying? && Passes(p, st, c) && !Contradicts(st, c)
    requires Key(c.ns, p.ContentHash(c.blob)) !in st.blobs
    ensures Stores(p, st, c, ExampleInputs())
  {
    DeleteAllBlobs(p, st, c.ns, Victims(c.blob));
  }

  /** The owner of the example is registered. */
  predicate OwnerKnown(st: Store) {
    NS in st.owners && st.owners[NS] == OWNER_KEY
  }

  function FirstPubkey(hint: byte): seq<Event> {
    Submit(NS, ExampleBlob(ExamplePubkey(), 5, hint), ExampleInputs(), ExampleInputs(), 0)
  }

  /** A PUBK on an empty node files its key under its hint. */
  lemma PubkeyFiled(p: Primitives, hint: byte)
    requires IsExample(p)
    ensures var w := Run(p, FirstPubkey(hint));
      && |w.calls| == 1 && w.store.owners == map[Fill(hint, 32) := OWNER_KEY] && w.store.tombs == {}
      && w.store.blobs.Keys == {Key(NS, Fill(5, 32))} && w.store.blobs[Key(NS, Fill(5, 32))].data == ExamplePubkey()
  {
    var b := ExampleBlob(ExamplePubkey(), 5, hint);
    assert Run(p, []) == INITIAL;
    KindsDisjoint(ExamplePubkey());
    ExampleStores(p, EMPTY, OwnersCall(NS, b, OWNER_KEY));
    PubkeySubmits(p, [], NS, b, ExampleInputs(), ExampleInputs());
    assert [] + FirstPubkey(hint) == FirstPubkey(hint);
  }

  function Registration(): seq<Event> {
    FirstPubkey(7)
  }

  lemma ExampleRegisters(p: Primitives)
    requires IsExample(p)
    ensures var w := Run(p, Registration());
      |w.calls| == 1 && OwnerKnown(w.store) && w.store.blobs.Keys == {Key(NS, Fill(5, 32))} && w.store.tombs == {}
  {
    PubkeyFiled(p, 7);
  }

  /** The example's owner gets every fresh small blob past the gates. */
  lemma ExampleGates(p: Primitives, st: Store, data: Bytes, id: byte)
    requires IsExample(p) && OwnerKnown(st) && |data| <= 1048576 && (HasBombMagic(data) ==> IsBomb(data)) && id != 8
    ensures var b := ExampleBlob(data, id, 7);
      && IngestGate(st, NS, b, ExampleInputs()) == None && b.signerHint == NS && p.sha3(st.owners[NS]) == NS
      && QuotaGate(p, NS, b, ExampleInputs(), st.owners[NS], true).ContentHashing?
      && p.ContentHash(b) == Fill(id, 32) && p.Signed(NS, b, st.owners[NS])
  {
  }

  // A BOMB that is refused after it has deleted.

  function ExampleBomb(target: byte): (r: Bytes)
    ensures IsBomb(r) && BombTargets(r) == [Fill(target, 32)]
  {
    var r := BOMB_MAGIC + BigEndian(1, 4) + Fill(target, 32);
    SpanValues();
    BigEndianRoundTrip(1, 4);
    assert r[4..8] == BigEndian(1, 4) && r[8..40] == Fill(target, 32);
    r
  }

  /** The disk has filled up by the time the call commits. */
  function FullDisk(): Inputs {
    ExampleInputs().(cfg := ExampleInputs().cfg.(maxStorage := 1048576), space := Space(1048576, 0, 0, false))
  }

  function WrittenBlob(): seq<Event> {
    Registration() + Submit(NS, ExampleBlob([], 4, 7), ExampleInputs(), ExampleInputs(), 1)
  }

  lemma ExampleBlobWritten(p: Primitives)
    requires IsExample(p)
    ensures var w := Run(p, WrittenBlob());
      && |w.calls| == 2 && OwnerKnown(w.store)
      && w.store.blobs.Keys == {Key(NS, Fill(5, 32)), Key(NS, Fill(4, 32))}
  {
    var b := ExampleBlob([], 4, 7);
    FillsDiffer(4, 5);
    ExampleRegisters(p);
    var st := Run(p, Registration()).store;
    ExampleGates(p, st, [], 4);
    OwnerSubmits(p, Registration(), NS, b, ExampleInputs(), ExampleInputs());
    ExampleStores(p, st, OwnersCall(NS, b, st.owners[NS]));
  }

  function WriteBomb(k: nat): seq<Event> {
    Submit(NS, ExampleBlob(ExampleBomb(4), 6, 7), ExampleInputs(), FullDisk(), k)
  }

  lemma ExampleBombRefused(p: Primitives, evs: seq<Event>)
    requires IsExample(p)
    requires var st := Run(p, evs).store; OwnerKnown(st) && Key(NS, Fill(6, 32)) !in st.blobs
    ensures var w := Run(p, evs);
      var w' := Run(p, evs + WriteBomb(|w.calls|));
      && Key(NS, Fill(4, 32)) !in w'.store.blobs
      && |w'.calls| == |w.calls| + 1 && w'.calls[|w.calls|].pc == Done(Rejected(StorageFull))
  {
    var b := ExampleBlob(ExampleBomb(4), 6, 7);
    ExampleGates(p, Run(p, evs).store, b.data, 6);
    OwnersBombRefused(p, evs, NS, b, ExampleInputs(), FullDisk(), Fill(4, 32));
  }

  /** The owner writes a blob and then a BOMB for it. Storage refuses the BOMB, and the blob is gone. */
  lemma BombRefusedAfterDeleting() returns (p: Primitives)
    ensures Key(NS, Fill(4, 32)) in Run(p, WrittenBlob()).store.blobs
    ensures var w := Run(p, WrittenBlob() + WriteBomb(2));
      Key(NS, Fill(4, 32)) !in w.store.blobs && |w.calls| == 3 && w.calls[2].pc == Done(Rejected(StorageFull))
  {
    FillsDiffer(4, 6); FillsDiffer(5, 6);
    p := ExampleExists();
    ExampleBlobWritten(p);
    ExampleBombRefused(p, WrittenBlob());
  }
}
