/** When can a namespace hold both a tombstone and the regular blob it targets?

    The engine asks the tombstone index, not the stored tombstones. Against the index the answer is never, for every
    interleaving. Against the stored tombstones it is: exactly when a regular blob is stored whose key a stored
    tombstone targets and the index does not. The index loses such an entry exactly when a tombstone is dropped while
    another stored tombstone names the same target, for dropping one clears the entry both rely on. */
module TombstoneSafety {
  import opened Octets
  import opened BlobFormat
  import opened BlobStore
  import opened IngestMachine
  import opened CommitEffects

  /** The property itself: no stored tombstone's target is a stored regular blob. */
  ghost predicate NoTargetStored(st: Store) {
    forall k :: HoldsTombstone(st, k) && TargetOf(st, k) in st.blobs ==> !IsRegular(st.blobs[TargetOf(st, k)].data)
  }

  /** The same against the index. */
  ghost predicate NoIndexedStored(st: Store) {
    forall k :: k in st.tombs && k in st.blobs ==> !IsRegular(st.blobs[k].data)
  }

  /** Every stored tombstone has its index entry. */
  ghost predicate IndexComplete(st: Store) {
    forall k :: HoldsTombstone(st, k) ==> TargetOf(st, k) in st.tombs
  }

  /** Every index entry has a stored tombstone behind it. */
  ghost predicate IndexSound(st: Store) {
    forall t :: t in st.tombs ==> exists k :: HoldsTombstone(st, k) && TargetOf(st, k) == t
  }

  /** Removing the batch drops a tombstone for `t` while another one for `t` stays. */
  ghost predicate StrandsAt(st: Store, ns: Bytes, hs: seq<Bytes>, t: Key) {
    && DropsTarget(st, ns, hs, t)
    && exists left :: HoldsTombstone(st, left) && !InBatch(left, ns, hs) && TargetOf(st, left) == t
  }

  ghost predicate Strands(st: Store, ns: Bytes, hs: seq<Bytes>) {
    exists t :: StrandsAt(st, ns, hs, t)
  }

  /** Every stored tombstone has its entry, or the one in `back`. */
  ghost predicate CompleteBut(st: Store, back: set<Key>) {
    forall k :: HoldsTombstone(st, k) ==> TargetOf(st, k) in st.tombs + back
  }

  /** The batch strands a tombstone whose entry is not in `back`. */
  ghost predicate StrandsBut(st: Store, ns: Bytes, hs: seq<Bytes>, back: set<Key>) {
    exists t :: t !in back && StrandsAt(st, ns, hs, t)
  }

  /** A complete index stays complete, but for `back`, exactly if the batch strands no other tombstone. */
  lemma DeleteCompleteButIff(p: Primitives, st: Store, ns: Bytes, hs: seq<Bytes>, back: set<Key>)
    requires IndexComplete(st)
    ensures CompleteBut(DeleteAll(p, st, ns, hs), back) <==> !StrandsBut(st, ns, hs, back)
  {
    var st' := DeleteAll(p, st, ns, hs);
    DeleteAllBlobs(p, st, ns, hs);
    DeleteAllIndexes(p, st, ns, hs);
    if t :| t !in back && StrandsAt(st, ns, hs, t) {
      var left :| HoldsTombstone(st, left) && !InBatch(left, ns, hs) && TargetOf(st, left) == t;
      assert HoldsTombstone(st', left) && TargetOf(st', left) == t;
    } else {
      forall k | HoldsTombstone(st', k)
        ensures TargetOf(st', k) in st'.tombs + back
      {
        assert HoldsTombstone(st, k) && TargetOf(st', k) == TargetOf(st, k);
        assert TargetOf(st, k) in back || !StrandsAt(st, ns, hs, TargetOf(st, k));
      }
    }
  }

  /** A complete index stays complete under a batch delete exactly when no tombstone is stranded. */
  lemma DeleteKeepsIndexIff(p: Primitives, st: Store, ns: Bytes, hs: seq<Bytes>)
    requires IndexComplete(st)
    ensures IndexComplete(DeleteAll(p, st, ns, hs)) <==> !Strands(st, ns, hs)
  {
    var st' := DeleteAll(p, st, ns, hs);
    DeleteCompleteButIff(p, st, ns, hs, {});
    assert st'.tombs + {} == st'.tombs;
    assert Strands(st, ns, hs) <==> StrandsBut(st, ns, hs, {});
  }

  /** The same for one blob purged by the expiry scan. */
  lemma ExpiryKeepsIndexIff(p: Primitives, st: Store, ns: Bytes, h: Bytes)
    requires IndexComplete(st) && Key(ns, h) in st.blobs && st.blobs[Key(ns, h)].ttl > 0
    ensures IndexComplete(Expire(st, ns, h)) <==> !Strands(st, ns, [h])
  {
    DeleteIsBatchOfOne(p, st, ns, h);
    DeleteKeepsIndexIff(p, st, ns, [h]);
    IndexIgnoresRest(Expire(st, ns, h), Delete(p, st, ns, h));
  }

  /** Only the blobs and the tombstone index matter here. */
  lemma IndexIgnoresRest(st: Store, st': Store)
    requires st.blobs == st'.blobs && st.tombs == st'.tombs
    ensures IndexComplete(st) <==> IndexComplete(st')
    ensures IndexFacts(st) <==> IndexFacts(st')
  {
    assert forall k :: HoldsTombstone(st, k) <==> HoldsTombstone(st', k);
    assert forall k :: HoldsTombstone(st, k) ==> TargetOf(st, k) == TargetOf(st', k);
  }

  /** The two index facts that hold in every run. */
  ghost predicate IndexFacts(st: Store) {
    NoIndexedStored(st) && IndexSound(st)
  }

  lemma DeleteKeepsFacts(p: Primitives, st: Store, ns: Bytes, hs: seq<Bytes>)
    requires IndexFacts(st)
    ensures IndexFacts(DeleteAll(p, st, ns, hs))
  {
    var st' := DeleteAll(p, st, ns, hs);
    DeleteAllBlobs(p, st, ns, hs);
    DeleteAllIndexes(p, st, ns, hs);
    forall t | t in st'.tombs
      ensures exists k :: HoldsTombstone(st', k) && TargetOf(st', k) == t
    {
      var k :| HoldsTombstone(st, k) && TargetOf(st, k) == t;
      assert HoldsTombstone(st', k) && TargetOf(st', k) == t;
    }
  }

  lemma ExpiryKeepsFacts(p: Primitives, st: Store, ns: Bytes, h: Bytes)
    requires IndexFacts(st)
    ensures IndexFacts(Expire(st, ns, h))
  {
    if Key(ns, h) in st.blobs && st.blobs[Key(ns, h)].ttl > 0 {
      DeleteIsBatchOfOne(p, st, ns, h);
      DeleteKeepsFacts(p, st, ns, [h]);
      IndexIgnoresRest(Expire(st, ns, h), Delete(p, st, ns, h));
    }
  }

  /** The entry that storing `b` writes. */
  function OwnEntry(ns: Bytes, b: Blob): set<Key> {
    if IsTombstone(b.data) then {Key(ns, TombstoneTarget(b.data))} else {}
  }

  /** Storing keeps the facts when the target of a tombstone is gone and a regular blob is not indexed. */
  lemma InsertKeepsFacts(p: Primitives, st: Store, ns: Bytes, b: Blob)
    requires IndexFacts(st)
    requires Key(ns, p.ContentHash(b)) !in st.blobs
    requires IsTombstone(b.data) ==> Key(ns, TombstoneTarget(b.data)) !in st.blobs
    requires IsRegular(b.data) ==> Key(ns, p.ContentHash(b)) !in st.tombs
    ensures IndexFacts(Insert(p, st, ns, b))
  {
    var st' := Insert(p, st, ns, b);
    var own := Key(ns, p.ContentHash(b));
    forall t | t in st'.tombs
      ensures exists k :: HoldsTombstone(st', k) && TargetOf(st', k) == t
    {
      if t in st.tombs {
        var k :| HoldsTombstone(st, k) && TargetOf(st, k) == t;
        assert HoldsTombstone(st', k) && TargetOf(st', k) == t;
      } else {
        assert HoldsTombstone(st', own) && TargetOf(st', own) == t;
      }
    }
  }

  /** Storing completes the index exactly if all that was missing is the entry it writes. */
  lemma InsertCompletesIff(p: Primitives, st: Store, ns: Bytes, b: Blob)
    requires Key(ns, p.ContentHash(b)) !in st.blobs
    ensures IndexComplete(Insert(p, st, ns, b)) <==> CompleteBut(st, OwnEntry(ns, b))
  {
    var st' := Insert(p, st, ns, b);
    var own := Key(ns, p.ContentHash(b));
    assert forall k :: k != own ==> (HoldsTombstone(st, k) <==> HoldsTombstone(st', k));
    assert forall k :: HoldsTombstone(st, k) ==> TargetOf(st, k) == TargetOf(st', k);
    assert st'.tombs == st.tombs + OwnEntry(ns, b);
    assert HoldsTombstone(st', own) ==> TargetOf(st', own) in st'.tombs;
  }

  /** Both commit segments keep the index facts: a target is gone before its tombstone is stored. */
  lemma CommitKeepsFacts(p: Primitives, st: Store, c: Call, i: Inputs)
    requires CallWellFormed(c) && c.pc.Verifying? && IndexFacts(st)
    ensures IndexFacts(Committed(p, st, c, i))
  {
    if Passes(p, st, c) {
      var gone, st1 := DeleteAll(p, st, c.ns, Victims(c.blob)), Cleared(p, st, c);
      DeleteKeepsFacts(p, st, c.ns, Victims(c.blob));
      DeleteAllBlobs(p, st, c.ns, Victims(c.blob));
      IndexIgnoresRest(gone, st1);
      if Stores(p, st, c, i) {
        if IsTombstone(c.blob.data) {
          assert Victims(c.blob)[0] == TombstoneTarget(c.blob.data);
        }
        InsertKeepsFacts(p, st1, c.ns, c.blob);
      }
    }
  }

  /** The commit drops a tombstone that shares its target with one that stays, and does not write that entry again. */
  ghost predicate CommitStrands(p: Primitives, st: Store, c: Call, i: Inputs)
    requires c.pc.Verifying?
  {
    && Passes(p, st, c)
    && StrandsBut(st, c.ns, Victims(c.blob), if Stores(p, st, c, i) then OwnEntry(c.ns, c.blob) else {})
  }

  lemma CommitKeepsIndexIff(p: Primitives, st: Store, c: Call, i: Inputs)
    requires CallWellFormed(c) && c.pc.Verifying? && IndexComplete(st)
    ensures IndexComplete(Committed(p, st, c, i)) <==> !CommitStrands(p, st, c, i)
  {
    if Passes(p, st, c) {
      var gone, st1 := DeleteAll(p, st, c.ns, Victims(c.blob)), Cleared(p, st, c);
      var back := if Stores(p, st, c, i) then OwnEntry(c.ns, c.blob) else {};
      DeleteCompleteButIff(p, st, c.ns, Victims(c.blob), back);
      CompleteIgnoresRest(gone, st1, back);
      if Stores(p, st, c, i) {
        InsertCompletesIff(p, st1, c.ns, c.blob);
      } else {
        assert st1.tombs + back == st1.tombs;
      }
    }
  }

  lemma CompleteIgnoresRest(st: Store, st': Store, back: set<Key>)
    requires st.blobs == st'.blobs && st.tombs == st'.tombs
    ensures CompleteBut(st, back) <==> CompleteBut(st', back)
  {
    assert forall k :: HoldsTombstone(st, k) <==> HoldsTombstone(st', k);
    assert forall k :: HoldsTombstone(st, k) ==> TargetOf(st, k) == TargetOf(st', k);
  }

  /** The event strands a stored tombstone. Checked before the event. */
  ghost predicate StrandsTombstone(p: Primitives, w: World, ev: Event) {
    match ev
    case Start(_, _, _, _) => false
    case Resume(k, i) => k < |w.calls| && w.calls[k].pc.Verifying? && CommitStrands(p, w.store, w.calls[k], i)
    case ExpiryScan(ns, h) =>
      Key(ns, h) in w.store.blobs && w.store.blobs[Key(ns, h)].ttl > 0 && Strands(w.store, ns, [h])
  }

  /** Every event keeps the index facts, and keeps the index complete exactly if it strands no tombstone. */
  lemma StepKeepsFacts(p: Primitives, w: World, ev: Event)
    requires WorldWellFormed(w) && IndexFacts(w.store)
    ensures IndexFacts(Next(p, w, ev).store)
    ensures IndexComplete(w.store) ==> (IndexComplete(Next(p, w, ev).store) <==> !StrandsTombstone(p, w, ev))
  {
    match ev
    case Start(_, _, _, _) =>
    case Resume(k, i) =>
      if k < |w.calls| && w.calls[k].pc.Verifying? {
        CommitShape(p, w.store, w.calls[k], i);
        CommitKeepsFacts(p, w.store, w.calls[k], i);
        if IndexComplete(w.store) {
          CommitKeepsIndexIff(p, w.store, w.calls[k], i);
        }
      }
    case ExpiryScan(ns, h) =>
      ExpiryKeepsFacts(p, w.store, ns, h);
      if IndexComplete(w.store) && Key(ns, h) in w.store.blobs && w.store.blobs[Key(ns, h)].ttl > 0 {
        ExpiryKeepsIndexIff(p, w.store, ns, h);
      }
  }

  /** The event stores a regular blob that a stored tombstone targets: the blob passes, so the index has no entry for
      it, and storage takes it. Checked before the event. */
  ghost predicate Resurrects(p: Primitives, w: World, ev: Event) {
    && ev.Resume? && ev.call < |w.calls| && w.calls[ev.call].pc.Verifying?
    && var c := w.calls[ev.call];
       && IsRegular(c.blob.data) && Stores(p, w.store, c, ev.inputs)
       && exists k :: HoldsTombstone(w.store, k) && TargetOf(w.store, k) == Key(c.ns, p.ContentHash(c.blob))
  }

  /** Removing blobs keeps the property. */
  lemma SafeShrinks(st: Store, st': Store)
    requires NoTargetStored(st) && forall k :: k in st'.blobs ==> k in st.blobs && st'.blobs[k] == st.blobs[k]
    ensures NoTargetStored(st')
  {
    assert forall k :: HoldsTombstone(st', k) ==> HoldsTombstone(st, k) && TargetOf(st', k) == TargetOf(st, k);
  }

  /** Storing keeps it exactly if a regular blob is not a target; a tombstone's own target must be gone. */
  lemma InsertSafeIff(p: Primitives, st: Store, ns: Bytes, b: Blob)
    requires NoTargetStored(st) && Key(ns, p.ContentHash(b)) !in st.blobs
    requires IsTombstone(b.data) ==> Key(ns, TombstoneTarget(b.data)) !in st.blobs
    ensures NoTargetStored(Insert(p, st, ns, b)) <==>
      !(IsRegular(b.data) && exists k :: HoldsTombstone(st, k) && TargetOf(st, k) == Key(ns, p.ContentHash(b)))
  {
    var st' := Insert(p, st, ns, b);
    var own := Key(ns, p.ContentHash(b));
    assert forall k :: k != own ==> (HoldsTombstone(st, k) <==> HoldsTombstone(st', k));
    assert forall k :: HoldsTombstone(st, k) ==> k != own && TargetOf(st, k) == TargetOf(st', k);
    if k :| IsRegular(b.data) && HoldsTombstone(st, k) && TargetOf(st, k) == own {
      assert HoldsTombstone(st', k) && TargetOf(st', k) == own;
    }
  }

  /** A step keeps a namespace from holding a tombstone and its target exactly if it does not store such a target. */
  lemma StepSafeIff(p: Primitives, w: World, ev: Event)
    requires WorldWellFormed(w) && NoTargetStored(w.store)
    ensures NoTargetStored(Next(p, w, ev).store) <==> !Resurrects(p, w, ev)
  {
    match ev
    case Start(_, _, _, _) =>
    case Resume(k, i) =>
      if k < |w.calls| && w.calls[k].pc.Verifying? {
        CommitSafeIff(p, w.store, w.calls[k], i);
        CommitShape(p, w.store, w.calls[k], i);
      }
    case ExpiryScan(ns, h) => SafeShrinks(w.store, Expire(w.store, ns, h));
  }

  lemma CommitSafeIff(p: Primitives, st: Store, c: Call, i: Inputs)
    requires CallWellFormed(c) && c.pc.Verifying? && NoTargetStored(st)
    ensures NoTargetStored(Committed(p, st, c, i)) <==>
      !(IsRegular(c.blob.data) && Stores(p, st, c, i)
        && exists k :: HoldsTombstone(st, k) && TargetOf(st, k) == Key(c.ns, p.ContentHash(c.blob)))
  {
    var st1 := Cleared(p, st, c);
    DeleteAllBlobs(p, st, c.ns, Victims(c.blob));
    SafeShrinks(st, st1);
    if Stores(p, st, c, i) {
      if IsTombstone(c.blob.data) {
        assert Victims(c.blob)[0] == TombstoneTarget(c.blob.data);
      }
      InsertSafeIff(p, st1, c.ns, c.blob);
      if IsRegular(c.blob.data) {
        assert forall k :: HoldsTombstone(st, k) <==> HoldsTombstone(st1, k);
        assert forall k :: HoldsTombstone(st, k) ==> TargetOf(st, k) == TargetOf(st1, k);
      }
    }
  }

  // Whole runs.

  ghost predicate NeverStrands(p: Primitives, evs: seq<Event>) {
    evs == [] ||
    (NeverStrands(p, evs[..|evs| - 1]) && !StrandsTombstone(p, Run(p, evs[..|evs| - 1]), evs[|evs| - 1]))
  }

  ghost predicate NeverResurrects(p: Primitives, evs: seq<Event>) {
    evs == [] ||
    (NeverResurrects(p, evs[..|evs| - 1]) && !Resurrects(p, Run(p, evs[..|evs| - 1]), evs[|evs| - 1]))
  }

  /** The index is complete after every event of the run so far. */
  ghost predicate CompleteThroughout(p: Primitives, evs: seq<Event>) {
    IndexComplete(Run(p, evs).store) && (evs == [] || CompleteThroughout(p, evs[..|evs| - 1]))
  }

  /** No namespace has held a tombstone and its target at any point of the run so far. */
  ghost predicate SafeThroughout(p: Primitives, evs: seq<Event>) {
    NoTargetStored(Run(p, evs).store) && (evs == [] || SafeThroughout(p, evs[..|evs| - 1]))
  }

  /** In every run, under every interleaving, no indexed target is stored as a regular blob and every index entry has a
      stored tombstone behind it. A run is safe throughout exactly if no event stores a target, and its index is
      complete throughout exactly if no event strands a tombstone; then no event can store a target. */
  lemma {:induction false} TombstoneSafetyInEveryRun(p: Primitives, evs: seq<Event>)
    ensures IndexFacts(Run(p, evs).store)
    ensures SafeThroughout(p, evs) <==> NeverResurrects(p, evs)
    ensures CompleteThroughout(p, evs) <==> NeverStrands(p, evs)
    ensures NeverStrands(p, evs) ==> NeverResurrects(p, evs)
    decreases |evs|
  {
    if evs == [] {
      assert EMPTY.tombs == {} && EMPTY.blobs == map[];
    } else {
      var before, e := evs[..|evs| - 1], evs[|evs| - 1];
      TombstoneSafetyInEveryRun(p, before);
      StepKeepsFacts(p, Run(p, before), e);
      if SafeThroughout(p, before) {
        StepSafeIff(p, Run(p, before), e);
      }
      if CompleteThroughout(p, before) {
        CompleteBars(p, Run(p, before), e);
      }
    }
  }

  /** With a complete index nothing that a tombstone targets passes. */
  lemma CompleteBars(p: Primitives, w: World, ev: Event)
    requires WorldWellFormed(w) && IndexComplete(w.store)
    ensures !Resurrects(p, w, ev)
  {
  }
}
