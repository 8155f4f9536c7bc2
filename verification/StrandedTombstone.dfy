/** Why the condition in TombstoneSafety is needed: once a stored tombstone has lost its index entry,
    the blob it targets can be written again, and such runs exist. */
module StrandedTombstone {
  import opened Octets
  import opened BlobFormat
  import opened BlobStore
  import opened IngestMachine
  import opened CommitEffects
  import opened ExampleRuns
  import opened TombstoneSafety

  /** From any reachable store in which a stored tombstone has no index entry, the owner's re-send of
      the blob it targets leaves the tombstone and its target side by side. */
  lemma MissingEntryAdmitsTarget(p: Primitives, evs: seq<Event>, k: Key, b: Blob, i: Inputs, j: Inputs)
    requires var st := Run(p, evs).store;
      && HoldsTombstone(st, k) && TargetOf(st, k) !in st.tombs
      && TargetOf(st, k) == Key(k.ns, p.ContentHash(b)) && TargetOf(st, k) !in st.blobs
      && IsRegular(b.data) && IngestGate(st, k.ns, b, i) == None
      && b.signerHint in st.owners && p.sha3(st.owners[b.signerHint]) == k.ns
      && QuotaGate(p, k.ns, b, i, st.owners[b.signerHint], true).ContentHashing?
      && Stores(p, st, OwnersCall(k.ns, b, st.owners[b.signerHint]), j)
    ensures !NoTargetStored(Run(p, evs + Submit(k.ns, b, i, j, |Run(p, evs).calls|)).store)
  {
    var st := Run(p, evs).store;
    OwnerSubmits(p, evs, k.ns, b, i, j);
    DeleteAllBlobs(p, st, k.ns, Victims(b));
    var st' := Run(p, evs + Submit(k.ns, b, i, j, |Run(p, evs).calls|)).store;
    assert HoldsTombstone(st', k) && TargetOf(st', k) == TargetOf(st, k);
  }

  // A concrete run: two tombstones for one blob, a third that deletes the first, then the blob.

  function WriteTombstone(id: byte, target: byte, k: nat): seq<Event> {
    Submit(NS, ExampleBlob(ExampleTombstone(target), id, 7), ExampleInputs(), ExampleInputs(), k)
  }

  function StrandingRun(): seq<Event> {
    Registration() + WriteTombstone(1, 4, 1) + WriteTombstone(2, 4, 2) + WriteTombstone(3, 1, 3)
    + Submit(NS, ExampleBlob([], 4, 7), ExampleInputs(), ExampleInputs(), 4)
  }

  /** A tombstone was written: the store after it. */
  predicate TombstoneWritten(p: Primitives, st: Store, st': Store, id: byte, target: byte) {
    var gone := Delete(p, st, NS, Fill(target, 32));
    && st'.blobs == gone.blobs[Key(NS, Fill(id, 32)) := ExampleBlob(ExampleTombstone(target), id, 7)]
    && st'.tombs == gone.tombs + {Key(NS, Fill(target, 32))} && st'.owners == st.owners
  }

  /** Writing a tombstone in a world of the example whose owner is registered. */
  lemma ExampleTombstoneStep(p: Primitives, evs: seq<Event>, id: byte, target: byte)
    requires IsExample(p) && OwnerKnown(Run(p, evs).store) && id != 8
    requires Key(NS, Fill(id, 32)) !in Run(p, evs).store.blobs
    ensures var w := Run(p, evs);
      var w' := Run(p, evs + WriteTombstone(id, target, |w.calls|));
      && |w'.calls| == |w.calls| + 1 && w'.calls[..|w.calls|] == w.calls
      && TombstoneWritten(p, w.store, w'.store, id, target)
  {
    var st := Run(p, evs).store;
    var b := ExampleBlob(ExampleTombstone(target), id, 7);
    KindsDisjoint(b.data);
    ExampleGates(p, st, b.data, id);
    OwnerSubmits(p, evs, NS, b, ExampleInputs(), ExampleInputs());
    ExampleStores(p, st, OwnersCall(NS, b, st.owners[NS]));
    DeleteIsBatchOfOne(p, st, NS, Fill(target, 32));
  }

  function TwoTombstones(): seq<Event> {
    Registration() + WriteTombstone(1, 4, 1) + WriteTombstone(2, 4, 2)
  }

  /** Two tombstones for the target, which is not stored; one entry. */
  predicate Doubled(st: Store) {
    && OwnerKnown(st) && st.tombs == {Key(NS, Fill(4, 32))}
    && st.blobs.Keys == {Key(NS, Fill(5, 32)), Key(NS, Fill(1, 32)), Key(NS, Fill(2, 32))}
    && st.blobs[Key(NS, Fill(1, 32))].data == ExampleTombstone(4)
    && st.blobs[Key(NS, Fill(2, 32))].data == ExampleTombstone(4) && IsPubkey(st.blobs[Key(NS, Fill(5, 32))].data)
  }

  lemma TwiceWritten(p: Primitives, st: Store, st1: Store, st2: Store)
    requires OwnerKnown(st) && st.blobs.Keys == {Key(NS, Fill(5, 32))} && st.tombs == {}
    requires IsPubkey(st.blobs[Key(NS, Fill(5, 32))].data)
    requires TombstoneWritten(p, st, st1, 1, 4) && TombstoneWritten(p, st1, st2, 2, 4)
    ensures Doubled(st2)
  {
    FillsDiffer(1, 2); FillsDiffer(1, 4); FillsDiffer(2, 4); FillsDiffer(4, 5); FillsDiffer(1, 5); FillsDiffer(2, 5);
  }

  lemma WritesTwo(p: Primitives, e0: seq<Event>)
    requires IsExample(p) && |Run(p, e0).calls| == 1
    requires var st := Run(p, e0).store;
      && OwnerKnown(st) && st.blobs.Keys == {Key(NS, Fill(5, 32))} && st.tombs == {}
      && IsPubkey(st.blobs[Key(NS, Fill(5, 32))].data)
    ensures var w := Run(p, e0 + WriteTombstone(1, 4, 1) + WriteTombstone(2, 4, 2));
      |w.calls| == 3 && Doubled(w.store)
  {
    var e1 := e0 + WriteTombstone(1, 4, 1);
    FillsDiffer(1, 5); FillsDiffer(1, 2); FillsDiffer(2, 5); FillsDiffer(4, 5);
    ExampleTombstoneStep(p, e0, 1, 4);
    ExampleTombstoneStep(p, e1, 2, 4);
    TwiceWritten(p, Run(p, e0).store, Run(p, e1).store, Run(p, e1 + WriteTombstone(2, 4, 2)).store);
  }

  lemma ExampleHoldsTwo(p: Primitives)
    requires IsExample(p)
    ensures var w := Run(p, TwoTombstones()); |w.calls| == 3 && Doubled(w.store)
  {
    PubkeyFiled(p, 7);
    WritesTwo(p, Registration());
  }

  /** The second tombstone stands, its target has no entry and is not stored. */
  predicate Stranded(st: Store) {
    && OwnerKnown(st) && Key(NS, Fill(2, 32)) in st.blobs
    && st.blobs[Key(NS, Fill(2, 32))].data == ExampleTombstone(4)
    && Key(NS, Fill(4, 32)) !in st.tombs && Key(NS, Fill(4, 32)) !in st.blobs
  }

  /** Deleting the first tombstone clears the entry the second one relies on. */
  lemma FirstDeleted(p: Primitives, st: Store, st': Store)
    requires Doubled(st) && TombstoneWritten(p, st, st', 3, 1)
    ensures Stranded(st')
  {
    FillsDiffer(1, 2); FillsDiffer(1, 4); FillsDiffer(2, 3); FillsDiffer(3, 4); FillsDiffer(2, 4); FillsDiffer(4, 5);
  }

  lemma ExampleStrands(p: Primitives)
    requires IsExample(p)
    ensures var w := Run(p, TwoTombstones() + WriteTombstone(3, 1, 3));
      |w.calls| == 4 && Stranded(w.store)
  {
    var e2 := TwoTombstones();
    FillsDiffer(1, 3); FillsDiffer(2, 3); FillsDiffer(3, 5);
    ExampleHoldsTwo(p);
    ExampleTombstoneStep(p, e2, 3, 1);
    FirstDeleted(p, Run(p, e2).store, Run(p, e2 + WriteTombstone(3, 1, 3)).store);
  }

  /** The property fails on a run of five calls, none of them interleaved. */
  lemma TombstoneSafetyFails() returns (p: Primitives)
    ensures !NoTargetStored(Run(p, StrandingRun()).store)
    ensures !NeverStrands(p, StrandingRun()) && !NeverResurrects(p, StrandingRun())
  {
    var b := ExampleBlob([], 4, 7);
    p := ExampleExists();
    ExampleStrands(p);
    var e4 := TwoTombstones() + WriteTombstone(3, 1, 3);
    var st := Run(p, e4).store;
    var left := Key(NS, Fill(2, 32));
    assert TargetOf(st, left) == Key(NS, Fill(4, 32));
    ExampleGates(p, st, [], 4);
    ExampleStores(p, st, OwnersCall(NS, b, st.owners[NS]));
    MissingEntryAdmitsTarget(p, e4, left, b, ExampleInputs(), ExampleInputs());
    assert e4 + Submit(NS, b, ExampleInputs(), ExampleInputs(), 4) == StrandingRun();
    TombstoneSafetyInEveryRun(p, StrandingRun());
  }
}
