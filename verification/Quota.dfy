/** The per-namespace count that the quota is checked against (db/storage/storage.cpp). It is kept beside the blobs: a
    store adds one unless the blob is a tombstone, an expiry takes one off unless it is, and a delete always does. */
module Quota {
  import opened Octets
  import opened BlobFormat
  import opened BlobStore
  import opened IngestMachine
  import opened CommitEffects
  import opened ExampleRuns
  import opened StrandedTombstone

  /** A blob that counts towards the quota of `ns`. */
  predicate Counts(st: Store, k: Key, ns: Bytes) {
    k in st.blobs && k.ns == ns && !IsTombstone(st.blobs[k].data)
  }

  function Counted(st: Store, ns: Bytes): set<Key> {
    set k | k in st.blobs && Counts(st, k, ns)
  }

  function OneLess(n: nat): nat {
    if n > 0 then n - 1 else 0
  }

  /** The count after a batch of deletes. */
  function AfterDeletes(p: Primitives, st: Store, ns: Bytes, hs: seq<Bytes>, n: nat): nat
    decreases |hs|
  {
    if hs == [] then n
    else AfterDeletes(p, Delete(p, st, ns, hs[0]), ns, hs[1..], if Key(ns, hs[0]) in st.blobs then OneLess(n) else n)
  }

  function AfterCommit(p: Primitives, st: Store, c: Call, i: Inputs, ns: Bytes, n: nat): nat
    requires c.pc.Verifying?
  {
    if !Passes(p, st, c) || c.ns != ns then n
    else
      var left := AfterDeletes(p, st, ns, Victims(c.blob), n);
      if Stores(p, st, c, i) && !IsTombstone(c.blob.data) then left + 1 else left
  }

  function AfterEvent(p: Primitives, w: World, ev: Event, ns: Bytes, n: nat): nat {
    match ev
    case Start(_, _, _, _) => n
    case Resume(k, i) =>
      if k < |w.calls| && w.calls[k].pc.Verifying? then AfterCommit(p, w.store, w.calls[k], i, ns, n) else n
    case ExpiryScan(m, h) =>
      if m == ns && Counts(w.store, Key(m, h), ns) && w.store.blobs[Key(m, h)].ttl > 0 then OneLess(n) else n
  }

  /** The count of `ns` after a run. */
  function Tally(p: Primitives, evs: seq<Event>, ns: Bytes): nat {
    if evs == [] then 0
    else AfterEvent(p, Run(p, evs[..|evs| - 1]), evs[|evs| - 1], ns, Tally(p, evs[..|evs| - 1], ns))
  }

  // One delete.

  lemma DeleteCounted(p: Primitives, st: Store, ns: Bytes, h: Bytes)
    ensures Counted(Delete(p, st, ns, h), ns) == Counted(st, ns) - {Key(ns, h)}
    ensures |Counted(Delete(p, st, ns, h), ns)| == |Counted(st, ns)| - if Counts(st, Key(ns, h), ns) then 1 else 0
  {
    assert Counted(Delete(p, st, ns, h), ns) == Counted(st, ns) - {Key(ns, h)};
  }

  lemma {:induction false} DeletesCounted(p: Primitives, st: Store, ns: Bytes, hs: seq<Bytes>)
    ensures Counted(DeleteAll(p, st, ns, hs), ns) <= Counted(st, ns)
    ensures |Counted(DeleteAll(p, st, ns, hs), ns)| <= |Counted(st, ns)|
    decreases |hs|
  {
    if hs != [] {
      DeleteCounted(p, st, ns, hs[0]);
      DeletesCounted(p, Delete(p, st, ns, hs[0]), ns, hs[1..]);
    }
  }

  /** It never exceeds what is stored. */
  lemma {:induction false} DeletesUnder(p: Primitives, st: Store, ns: Bytes, hs: seq<Bytes>, n: nat)
    requires n <= |Counted(st, ns)|
    ensures AfterDeletes(p, st, ns, hs, n) <= |Counted(DeleteAll(p, st, ns, hs), ns)|
    decreases |hs|
  {
    if hs != [] {
      DeleteCounted(p, st, ns, hs[0]);
      var n' := if Key(ns, hs[0]) in st.blobs then OneLess(n) else n;
      DeletesUnder(p, Delete(p, st, ns, hs[0]), ns, hs[1..], n');
    }
  }

  /** Once it falls short it goes on falling short, while something that counts is left. */
  lemma {:induction false} DeletesShort(p: Primitives, st: Store, ns: Bytes, hs: seq<Bytes>, n: nat)
    requires n < |Counted(st, ns)| && Counted(DeleteAll(p, st, ns, hs), ns) != {}
    ensures AfterDeletes(p, st, ns, hs, n) < |Counted(DeleteAll(p, st, ns, hs), ns)|
    decreases |hs|
  {
    if hs != [] {
      var st1 := Delete(p, st, ns, hs[0]);
      DeleteCounted(p, st, ns, hs[0]);
      DeletesCounted(p, st1, ns, hs[1..]);
      assert Counted(st1, ns) != {};
      DeletesShort(p, st1, ns, hs[1..], if Key(ns, hs[0]) in st.blobs then OneLess(n) else n);
    }
  }

  /** The batch takes a tombstone. */
  ghost predicate TakesTombstone(st: Store, ns: Bytes, hs: seq<Bytes>) {
    exists k :: HoldsTombstone(st, k) && InBatch(k, ns, hs)
  }

  lemma TakesSplits(p: Primitives, st: Store, ns: Bytes, hs: seq<Bytes>)
    requires hs != []
    ensures TakesTombstone(st, ns, hs) <==>
      HoldsTombstone(st, Key(ns, hs[0])) || TakesTombstone(Delete(p, st, ns, hs[0]), ns, hs[1..])
  {
    var first, st1 := Key(ns, hs[0]), Delete(p, st, ns, hs[0]);
    assert InBatch(first, ns, hs);
    if k :| HoldsTombstone(st, k) && InBatch(k, ns, hs) {
      if k != first {
        assert k.hash in hs[1..] && HoldsTombstone(st1, k);
      }
    }
    if k :| HoldsTombstone(st1, k) && InBatch(k, ns, hs[1..]) {
      assert HoldsTombstone(st, k) && InBatch(k, ns, hs);
    }
  }

  /** From a true count a batch of deletes leaves a true one exactly if it takes no tombstone, or nothing that counts
      is left. */
  lemma {:induction false} DeletesTrueIff(p: Primitives, st: Store, ns: Bytes, hs: seq<Bytes>, n: nat)
    requires n == |Counted(st, ns)|
    ensures AfterDeletes(p, st, ns, hs, n) == |Counted(DeleteAll(p, st, ns, hs), ns)| <==>
      !(TakesTombstone(st, ns, hs) && Counted(DeleteAll(p, st, ns, hs), ns) != {})
    decreases |hs|
  {
    if hs != [] {
      var st1 := Delete(p, st, ns, hs[0]);
      var n1 := if Key(ns, hs[0]) in st.blobs then OneLess(n) else n;
      DeleteCounted(p, st, ns, hs[0]);
      TakesSplits(p, st, ns, hs);
      DeletesCounted(p, st1, ns, hs[1..]);
      if HoldsTombstone(st, Key(ns, hs[0])) {
        if Counted(DeleteAll(p, st, ns, hs), ns) != {} {
          assert Counted(st1, ns) != {};
          DeletesShort(p, st1, ns, hs[1..], n1);
        } else {
          DeletesUnder(p, st1, ns, hs[1..], n1);
        }
      } else {
        DeletesTrueIff(p, st1, ns, hs[1..], n1);
      }
    }
  }

  // One event.

  ghost predicate Exact(st: Store, ns: Bytes, n: nat) {
    n == |Counted(st, ns)|
  }

  /** The event deletes a tombstone of `ns` and leaves something that counts. Checked before the event. */
  ghost predicate Miscounts(p: Primitives, w: World, ev: Event, ns: Bytes) {
    && ev.Resume? && ev.call < |w.calls| && w.calls[ev.call].pc.Verifying? && w.calls[ev.call].ns == ns
    && var c := w.calls[ev.call];
       && Passes(p, w.store, c) && TakesTombstone(w.store, ns, Victims(c.blob))
       && exists k :: Counts(w.store, k, ns) && !InBatch(k, ns, Victims(c.blob))
  }

  lemma CountedAfter(p: Primitives, st: Store, ns: Bytes, hs: seq<Bytes>)
    ensures forall k :: k in Counted(DeleteAll(p, st, ns, hs), ns) <==> Counts(st, k, ns) && !InBatch(k, ns, hs)
  {
    DeleteAllBlobs(p, st, ns, hs);
  }

  lemma InsertCounted(p: Primitives, st: Store, m: Bytes, b: Blob, ns: Bytes)
    requires Key(m, p.ContentHash(b)) !in st.blobs
    ensures |Counted(Insert(p, st, m, b), ns)| == |Counted(st, ns)| + if m == ns && !IsTombstone(b.data) then 1 else 0
  {
    var st', k := Insert(p, st, m, b), Key(m, p.ContentHash(b));
    if m == ns && !IsTombstone(b.data) {
      assert Counted(st', ns) == Counted(st, ns) + {k};
    } else {
      assert Counted(st', ns) == Counted(st, ns);
    }
  }

  lemma ElsewhereCounted(p: Primitives, st: Store, m: Bytes, hs: seq<Bytes>, ns: Bytes)
    requires m != ns
    ensures Counted(DeleteAll(p, st, m, hs), ns) == Counted(st, ns)
  {
    DeleteAllBlobs(p, st, m, hs);
  }

  /** What is left when the victims are gone and a key is filed. */
  lemma ClearedCounted(p: Primitives, st: Store, c: Call, ns: Bytes)
    ensures Counted(Cleared(p, st, c), ns) == Counted(DeleteAll(p, st, c.ns, Victims(c.blob)), ns)
  {
  }

  lemma CommitCounted(p: Primitives, st: Store, c: Call, i: Inputs, ns: Bytes)
    requires c.pc.Verifying? && Passes(p, st, c)
    ensures |Counted(Committed(p, st, c, i), ns)| ==
      |Counted(DeleteAll(p, st, c.ns, Victims(c.blob)), ns)|
        + if c.ns == ns && Stores(p, st, c, i) && !IsTombstone(c.blob.data) then 1 else 0
  {
    ClearedCounted(p, st, c, ns);
    if Stores(p, st, c, i) {
      InsertCounted(p, Cleared(p, st, c), c.ns, c.blob, ns);
    }
  }

  lemma CommitTrueIff(p: Primitives, w: World, k: nat, i: Inputs, ns: Bytes, n: nat)
    requires WorldWellFormed(w) && k < |w.calls| && w.calls[k].pc.Verifying? && Exact(w.store, ns, n)
    ensures Exact(Next(p, w, Resume(k, i)).store, ns, AfterEvent(p, w, Resume(k, i), ns, n)) <==>
      !Miscounts(p, w, Resume(k, i), ns)
  {
    var c := w.calls[k];
    CommitShape(p, w.store, c, i);
    if Passes(p, w.store, c) {
      CommitCounted(p, w.store, c, i, ns);
      if c.ns == ns {
        DeletesTrueIff(p, w.store, ns, Victims(c.blob), n);
        CountedAfter(p, w.store, ns, Victims(c.blob));
      } else {
        ElsewhereCounted(p, w.store, c.ns, Victims(c.blob), ns);
      }
    }
  }

  lemma ExpiryCounted(p: Primitives, w: World, m: Bytes, h: Bytes, ns: Bytes)
    requires WorldWellFormed(w)
    ensures |Counted(Next(p, w, ExpiryScan(m, h)).store, ns)| == |Counted(w.store, ns)|
      - if m == ns && Counts(w.store, Key(m, h), ns) && w.store.blobs[Key(m, h)].ttl > 0 then 1 else 0
  {
    var st' := Next(p, w, ExpiryScan(m, h)).store;
    if m == ns && Counts(w.store, Key(m, h), ns) && w.store.blobs[Key(m, h)].ttl > 0 {
      assert Counted(st', ns) == Counted(w.store, ns) - {Key(m, h)};
    } else {
      assert Counted(st', ns) == Counted(w.store, ns);
    }
  }

  lemma StepTrueIff(p: Primitives, w: World, ev: Event, ns: Bytes, n: nat)
    requires WorldWellFormed(w) && Exact(w.store, ns, n)
    ensures Exact(Next(p, w, ev).store, ns, AfterEvent(p, w, ev, ns, n)) <==> !Miscounts(p, w, ev, ns)
  {
    match ev
    case Start(_, _, _, _) =>
    case Resume(k, i) =>
      if k < |w.calls| && w.calls[k].pc.Verifying? {
        CommitTrueIff(p, w, k, i, ns, n);
      }
    case ExpiryScan(m, h) => ExpiryCounted(p, w, m, h, ns);
  }

  lemma StepUnder(p: Primitives, w: World, ev: Event, ns: Bytes, n: nat)
    requires WorldWellFormed(w) && n <= |Counted(w.store, ns)|
    ensures AfterEvent(p, w, ev, ns, n) <= |Counted(Next(p, w, ev).store, ns)|
  {
    match ev
    case Start(_, _, _, _) =>
    case Resume(k, i) =>
      if k < |w.calls| && w.calls[k].pc.Verifying? {
        var c := w.calls[k];
        CommitShape(p, w.store, c, i);
        if Passes(p, w.store, c) {
          CommitCounted(p, w.store, c, i, ns);
          if c.ns == ns {
            DeletesUnder(p, w.store, ns, Victims(c.blob), n);
          } else {
            ElsewhereCounted(p, w.store, c.ns, Victims(c.blob), ns);
          }
        }
      }
    case ExpiryScan(m, h) => ExpiryCounted(p, w, m, h, ns);
  }

  // Whole runs.

  ghost predicate TrueThroughout(p: Primitives, evs: seq<Event>, ns: Bytes) {
    Exact(Run(p, evs).store, ns, Tally(p, evs, ns)) && (evs == [] || TrueThroughout(p, evs[..|evs| - 1], ns))
  }

  ghost predicate NeverMiscounts(p: Primitives, evs: seq<Event>, ns: Bytes) {
    evs == [] ||
    (NeverMiscounts(p, evs[..|evs| - 1], ns) && !Miscounts(p, Run(p, evs[..|evs| - 1]), evs[|evs| - 1], ns))
  }

  /** In every run the count is at most the stored blobs that are no tombstones. It is that number throughout exactly if
      no event deletes a tombstone and leaves something that counts. */
  lemma {:induction false} CountInEveryRun(p: Primitives, evs: seq<Event>, ns: Bytes)
    ensures Tally(p, evs, ns) <= |Counted(Run(p, evs).store, ns)|
    ensures TrueThroughout(p, evs, ns) <==> NeverMiscounts(p, evs, ns)
    decreases |evs|
  {
    if evs == [] {
      assert Counted(EMPTY, ns) == {};
    } else {
      var before, ev := evs[..|evs| - 1], evs[|evs| - 1];
      CountInEveryRun(p, before, ns);
      StepUnder(p, Run(p, before), ev, ns, Tally(p, before, ns));
      if TrueThroughout(p, before, ns) {
        StepTrueIff(p, Run(p, before), ev, ns, Tally(p, before, ns));
      }
    }
  }

  // What the quota is worth.

  /** The commit of an ingest into `ns` reads the count as it is by then, under a limit of `most`. */
  predicate ReadsCount(p: Primitives, w: World, ev: Event, ns: Bytes, n: nat, most: nat) {
    ev.Resume? && ev.call < |w.calls| && w.calls[ev.call].pc.Verifying? && w.calls[ev.call].kind == Ingest
      && w.calls[ev.call].ns == ns ==>
      && EffectiveQuota(ev.inputs.cfg, ns).1 == most
      && ev.inputs.space.nsCount == AfterDeletes(p, w.store, ns, Victims(w.calls[ev.call].blob), n)
  }

  ghost predicate Limited(p: Primitives, evs: seq<Event>, ns: Bytes, most: nat) {
    evs == [] ||
    var before := evs[..|evs| - 1];
    && Limited(p, before, ns, most)
    && ReadsCount(p, Run(p, before), evs[|evs| - 1], ns, Tally(p, before, ns), most)
  }

  lemma DeletesLower(p: Primitives, st: Store, ns: Bytes, hs: seq<Bytes>, n: nat)
    ensures AfterDeletes(p, st, ns, hs, n) <= n
    decreases |hs|
  {
    if hs != [] {
      DeletesLower(p, Delete(p, st, ns, hs[0]), ns, hs[1..], if Key(ns, hs[0]) in st.blobs then OneLess(n) else n);
    }
  }

  lemma StepLimited(p: Primitives, w: World, ev: Event, ns: Bytes, n: nat, most: nat)
    requires WorldWellFormed(w) && n <= most && most > 0 && ReadsCount(p, w, ev, ns, n, most)
    ensures AfterEvent(p, w, ev, ns, n) <= most
  {
    if ev.Resume? && ev.call < |w.calls| && w.calls[ev.call].pc.Verifying? {
      DeletesLower(p, w.store, ns, Victims(w.calls[ev.call].blob), n);
    }
  }

  /** In every run under a count limit the count keeps to it; and so do the stored blobs, if nothing was miscounted. */
  lemma {:induction false} QuotaKept(p: Primitives, evs: seq<Event>, ns: Bytes, most: nat)
    requires most > 0 && Limited(p, evs, ns, most)
    ensures Tally(p, evs, ns) <= most
    ensures NeverMiscounts(p, evs, ns) ==> |Counted(Run(p, evs).store, ns)| <= most
    decreases |evs|
  {
    CountInEveryRun(p, evs, ns);
    if evs != [] {
      var before := evs[..|evs| - 1];
      QuotaKept(p, before, ns, most);
      StepLimited(p, Run(p, before), evs[|evs| - 1], ns, Tally(p, before, ns), most);
    }
  }

  // A restart.

  function Held(st: Store, ns: Bytes): set<Key> {
    set k | k in st.blobs && k.ns == ns
  }

  /** The count that a restart sets is of all blobs, and so is true exactly if the namespace holds no tombstone. */
  lemma RebuiltTrueIff(st: Store, ns: Bytes)
    ensures Exact(st, ns, |Held(st, ns)|) <==> !exists k :: HoldsTombstone(st, k) && k.ns == ns
  {
    var rest := Held(st, ns) - Counted(st, ns);
    assert Held(st, ns) == Counted(st, ns) + rest;
    assert |Held(st, ns)| == |Counted(st, ns)| + |rest|;
    if k :| HoldsTombstone(st, k) && k.ns == ns {
      assert k in rest;
    }
    if rest != {} {
      var k :| k in rest;
      assert HoldsTombstone(st, k) && k.ns == ns;
    }
  }

  // A run that miscounts, and what a short count lets through.

  /** The example's third tombstone deletes its first one, with the PUBK still there. */
  lemma ThirdMiscounts(p: Primitives, w: World, k: nat, i: Inputs)
    requires IsExample(p) && Doubled(w.store) && k < |w.calls|
    requires w.calls[k] == OwnersCall(NS, ExampleBlob(ExampleTombstone(1), 3, 7), OWNER_KEY)
    ensures Miscounts(p, w, Resume(k, i), NS)
  {
    var c := w.calls[k];
    KindsDisjoint(c.blob.data);
    FillsDiffer(1, 5);
    assert HoldsTombstone(w.store, Key(NS, Fill(1, 32))) && InBatch(Key(NS, Fill(1, 32)), NS, Victims(c.blob));
    KindsDisjoint(w.store.blobs[Key(NS, Fill(5, 32))].data);
    assert Counts(w.store, Key(NS, Fill(5, 32)), NS);
  }

  lemma FallsShortAfter(p: Primitives, evs: seq<Event>, k: nat)
    requires IsExample(p) && Doubled(Run(p, evs).store) && k == |Run(p, evs).calls|
    ensures !TrueThroughout(p, evs + WriteTombstone(3, 1, k), NS)
  {
    var b, j := ExampleBlob(ExampleTombstone(1), 3, 7), ExampleInputs();
    FillsDiffer(1, 3); FillsDiffer(2, 3); FillsDiffer(3, 5);
    ExampleGates(p, Run(p, evs).store, b.data, 3);
    OwnerReady(p, evs, NS, b, j, j);
    var all, ready := evs + WriteTombstone(3, 1, k), evs + WriteTombstone(3, 1, k)[..3];
    assert all[..|all| - 1] == ready && all[|all| - 1] == Resume(k, j);
    ThirdMiscounts(p, Run(p, ready), k, j);
    CountInEveryRun(p, all, NS);
  }

  /** Four calls, none overlapping, and the count falls short of what is stored. */
  lemma CountFallsShort() returns (p: Primitives)
    ensures !TrueThroughout(p, TwoTombstones() + WriteTombstone(3, 1, 3), NS)
  {
    p := ExampleExists();
    ExampleHoldsTwo(p);
    FallsShortAfter(p, TwoTombstones(), 3);
  }

  /** With a count below the limit, however much is stored, the next blob is taken. */
  lemma ShortCountAdmits(p: Primitives, w: World, k: nat, i: Inputs, n: nat, most: nat)
    requires WorldWellFormed(w) && k < |w.calls| && w.calls[k].pc.Verifying? && w.calls[k].kind == Ingest
    requires var c := w.calls[k];
      && Passes(p, w.store, c) && !Contradicts(w.store, c) && IsRegular(c.blob.data)
      && Key(c.ns, p.ContentHash(c.blob)) !in w.store.blobs
      && i.cfg.maxStorage == 0 && EffectiveQuota(i.cfg, c.ns) == (0, most) && !i.space.ioError
      && i.space.nsCount == n < most <= |Counted(w.store, c.ns)|
    ensures |Counted(Next(p, w, Resume(k, i)).store, w.calls[k].ns)| > most
  {
    var c := w.calls[k];
    KindsDisjoint(c.blob.data);
    CommitShape(p, w.store, c, i);
    assert Cleared(p, w.store, c).blobs == w.store.blobs;
    assert Stores(p, w.store, c, i);
    CommitCounted(p, w.store, c, i, c.ns);
  }
}
