/** The delegation index (db/storage/storage.cpp): when does a stored delegation let its delegate in?

    The index holds one blob hash for each delegate, however many delegations name that delegate. A delete erases the
    entry, an expiry leaves it pointing at nothing. So a delegation can be stored and not be found. */
module DelegationIndex {
  import opened Octets
  import opened BlobFormat
  import opened BlobStore
  import opened IngestMachine
  import opened CommitEffects
  import opened ExampleRuns
  import opened Provenance

  /** The lookup for that delegate succeeds. */
  predicate Found(st: Store, d: Key) {
    FindDelegate(st, d.ns, d.hash).Some?
  }

  /** Every stored delegation lets its delegate in. */
  ghost predicate AllFound(p: Primitives, st: Store) {
    forall k :: HoldsDelegation(st, k) ==> Found(st, DelegateOf(p, st, k))
  }

  /** The entry of `d` leads to a delegation to that very delegate, or to no stored blob. */
  ghost predicate EntryMatches(p: Primitives, st: Store, d: Key)
    requires d in st.delegs
  {
    var k := Key(d.ns, st.delegs[d]);
    k in st.blobs ==> HoldsDelegation(st, k) && DelegateOf(p, st, k) == d
  }

  ghost predicate EntriesMatch(p: Primitives, st: Store) {
    forall d :: d in st.delegs ==> EntryMatches(p, st, d)
  }

  /** A delegation for `d` is stored that is not in the batch. */
  ghost predicate Stays(p: Primitives, st: Store, ns: Bytes, hs: seq<Bytes>, d: Key) {
    exists k :: HoldsDelegation(st, k) && !InBatch(k, ns, hs) && DelegateOf(p, st, k) == d
  }

  /** The batch takes a delegation for some delegate and leaves another one for that delegate. */
  ghost predicate BatchHides(p: Primitives, st: Store, ns: Bytes, hs: seq<Bytes>) {
    exists d :: DropsDelegate(p, st, ns, hs, d) && Stays(p, st, ns, hs, d)
  }

  /** What the lookup needs to succeed, and what it then shows. */
  lemma FoundAt(p: Primitives, st: Store, d: Key)
    requires EntriesMatch(p, st) && Found(st, d)
    ensures d in st.delegs
    ensures var k := Key(d.ns, st.delegs[d]); HoldsDelegation(st, k) && DelegateOf(p, st, k) == d
  {
    assert EntryMatches(p, st, d);
  }

  /** A batch delete hides a stored delegation exactly when it takes one and leaves another for the same delegate. */
  lemma DeleteHidesIff(p: Primitives, st: Store, ns: Bytes, hs: seq<Bytes>)
    requires AllFound(p, st) && EntriesMatch(p, st)
    ensures AllFound(p, DeleteAll(p, st, ns, hs)) <==> !BatchHides(p, st, ns, hs)
  {
    var st' := DeleteAll(p, st, ns, hs);
    DeleteAllBlobs(p, st, ns, hs);
    DeleteAllIndexes(p, st, ns, hs);
    if d :| DropsDelegate(p, st, ns, hs, d) && Stays(p, st, ns, hs, d) {
      var k :| HoldsDelegation(st, k) && !InBatch(k, ns, hs) && DelegateOf(p, st, k) == d;
      assert HoldsDelegation(st', k) && DelegateOf(p, st', k) == d && d !in st'.delegs;
    } else {
      forall k | HoldsDelegation(st', k)
        ensures Found(st', DelegateOf(p, st', k))
      {
        var d := DelegateOf(p, st, k);
        assert HoldsDelegation(st, k) && DelegateOf(p, st', k) == d;
        assert Stays(p, st, ns, hs, d);
        FoundAt(p, st, d);
        var at := Key(d.ns, st.delegs[d]);
        assert !InBatch(at, ns, hs);
      }
    }
  }

  lemma DeleteMatches(p: Primitives, st: Store, ns: Bytes, hs: seq<Bytes>)
    requires EntriesMatch(p, st)
    ensures EntriesMatch(p, DeleteAll(p, st, ns, hs))
  {
    var st' := DeleteAll(p, st, ns, hs);
    DeleteAllBlobs(p, st, ns, hs);
    DeleteAllIndexes(p, st, ns, hs);
    forall d | d in st'.delegs
      ensures EntryMatches(p, st', d)
    {
      assert EntryMatches(p, st, d);
    }
  }

  /** The purge of `h` leaves the entry that pointed at it, and another delegation for its delegate. */
  ghost predicate ExpiryHides(p: Primitives, st: Store, ns: Bytes, h: Bytes) {
    var k := Key(ns, h);
    && HoldsDelegation(st, k) && st.blobs[k].ttl > 0 && Stays(p, st, ns, [h], DelegateOf(p, st, k))
    && DelegateOf(p, st, k) in st.delegs && st.delegs[DelegateOf(p, st, k)] == h
  }

  /** Expiry hides one exactly when the purged delegation is the one the index points at and another stays. */
  lemma ExpiryHidesIff(p: Primitives, st: Store, ns: Bytes, h: Bytes)
    requires AllFound(p, st) && EntriesMatch(p, st)
    ensures AllFound(p, Expire(st, ns, h)) <==> !ExpiryHides(p, st, ns, h)
  {
    var gone, st' := Key(ns, h), Expire(st, ns, h);
    if ExpiryHides(p, st, ns, h) {
      var d := DelegateOf(p, st, gone);
      var k :| HoldsDelegation(st, k) && !InBatch(k, ns, [h]) && DelegateOf(p, st, k) == d;
      assert HoldsDelegation(st', k) && !Found(st', DelegateOf(p, st', k));
    } else {
      forall k | HoldsDelegation(st', k)
        ensures Found(st', DelegateOf(p, st', k))
      {
        var d := DelegateOf(p, st, k);
        assert HoldsDelegation(st, k) && DelegateOf(p, st', k) == d;
        FoundAt(p, st, d);
      }
    }
  }

  /** Entries that point at the hash of `b` were written for `b`. */
  ghost predicate OwnEntries(p: Primitives, st: Store, ns: Bytes, b: Blob) {
    forall d :: d in st.delegs && d.ns == ns && st.delegs[d] == p.ContentHash(b) ==>
      IsDelegation(b.data) && d.hash == p.sha3(DelegateKey(b.data))
  }

  /** Storing a blob hides no delegation; a delegation is found, and shows no other that was hidden. */
  lemma InsertFoundIff(p: Primitives, st: Store, ns: Bytes, b: Blob)
    requires EntriesMatch(p, st) && Key(ns, p.ContentHash(b)) !in st.blobs && OwnEntries(p, st, ns, b)
    requires IsDelegation(b.data) ==> AllFound(p, st)
    ensures AllFound(p, Insert(p, st, ns, b)) <==> AllFound(p, st)
  {
    var st', own := Insert(p, st, ns, b), Key(ns, p.ContentHash(b));
    forall k | HoldsDelegation(st, k)
      ensures HoldsDelegation(st', k) && DelegateOf(p, st', k) == DelegateOf(p, st, k)
      ensures Found(st', DelegateOf(p, st, k)) <==> Found(st, DelegateOf(p, st, k)) || IsDelegation(b.data)
    {
      assert k != own;
      InsertFinds(p, st, ns, b, DelegateOf(p, st, k));
    }
    assert forall k :: HoldsDelegation(st', k) ==> k == own || HoldsDelegation(st, k);
    if IsDelegation(b.data) {
      assert Found(st', DelegateOf(p, st', own));
    }
  }

  /** The lookup of one delegate across a store. */
  lemma InsertFinds(p: Primitives, st: Store, ns: Bytes, b: Blob, d: Key)
    requires Key(ns, p.ContentHash(b)) !in st.blobs && OwnEntries(p, st, ns, b)
    ensures var st' := Insert(p, st, ns, b);
      && (Found(st, d) ==> Found(st', d))
      && (!IsDelegation(b.data) && Found(st', d) ==> Found(st, d))
  {
  }

  /** In any reachable store with two delegations for one delegate, the owner's tombstone for one of them shuts that
      delegate out, although the other is still stored. */
  lemma SiblingShutOut(p: Primitives, evs: seq<Event>, gone: Key, left: Key, t: Blob, i: Inputs, j: Inputs)
    requires var st := Run(p, evs).store;
      && HoldsDelegation(st, gone) && HoldsDelegation(st, left) && gone != left
      && DelegateOf(p, st, gone) == DelegateOf(p, st, left)
      && IsTombstone(t.data) && TombstoneTarget(t.data) == gone.hash && IngestGate(st, gone.ns, t, i) == None
      && Key(gone.ns, p.ContentHash(t)) !in st.blobs
      && t.signerHint in st.owners && p.sha3(st.owners[t.signerHint]) == gone.ns
      && p.Signed(gone.ns, t, st.owners[t.signerHint])
    ensures var st, st' := Run(p, evs).store, Run(p, evs + Submit(gone.ns, t, i, j, |Run(p, evs).calls|)).store;
      left in st'.blobs && st'.blobs[left] == st.blobs[left] && !Found(st', DelegateOf(p, st, left))
  {
    var st := Run(p, evs).store;
    KindsDisjoint(t.data);
    OwnerSubmits(p, evs, gone.ns, t, i, j);
    DeleteIsBatchOfOne(p, st, gone.ns, gone.hash);
  }

  // A concrete run: two delegations for one delegate, and a tombstone for the first.

  function ExampleDelegation(): (r: Bytes)
    ensures IsDelegation(r) && DelegateKey(r) == DELEGATE_KEY
  {
    var r := DELEGATION_MAGIC + DELEGATE_KEY;
    assert r[4..4 + SIGNING_PK_SIZE] == DELEGATE_KEY;
    r
  }

  function WriteDelegation(id: byte, k: nat): seq<Event> {
    Submit(NS, ExampleBlob(ExampleDelegation(), id, 7), ExampleInputs(), ExampleInputs(), k)
  }

  lemma ExampleDelegationStep(p: Primitives, evs: seq<Event>, id: byte)
    requires IsExample(p)
    requires var st := Run(p, evs).store;
      OwnerKnown(st) && Key(NS, Fill(id, 32)) !in st.blobs && st.tombs == {} && id != 8
    ensures var w := Run(p, evs);
      var w' := Run(p, evs + WriteDelegation(id, |w.calls|));
      |w'.calls| == |w.calls| + 1 && w'.store == Insert(p, w.store, NS, ExampleBlob(ExampleDelegation(), id, 7))
  {
    var st := Run(p, evs).store;
    var b := ExampleBlob(ExampleDelegation(), id, 7);
    KindsDisjoint(b.data);
    ExampleGates(p, st, b.data, id);
    OwnerSubmits(p, evs, NS, b, ExampleInputs(), ExampleInputs());
    ExampleStores(p, st, OwnersCall(NS, b, st.owners[NS]));
  }

  function TwoDelegations(): seq<Event> {
    Registration() + WriteDelegation(1, 1) + WriteDelegation(2, 2)
  }

  lemma ExampleHoldsBoth(p: Primitives)
    requires IsExample(p)
    ensures var w := Run(p, TwoDelegations());
      && |w.calls| == 3 && OwnerKnown(w.store) && Key(NS, Fill(3, 32)) !in w.store.blobs
      && HoldsDelegation(w.store, Key(NS, Fill(1, 32))) && HoldsDelegation(w.store, Key(NS, Fill(2, 32)))
      && w.store.blobs[Key(NS, Fill(1, 32))].data == w.store.blobs[Key(NS, Fill(2, 32))].data == ExampleDelegation()
      && Found(w.store, DelegateOf(p, w.store, Key(NS, Fill(2, 32))))
  {
    FillsDiffer(1, 2); FillsDiffer(1, 5); FillsDiffer(2, 5); FillsDiffer(1, 3); FillsDiffer(2, 3); FillsDiffer(3, 5);
    ExampleRegisters(p);
    ExampleDelegationStep(p, Registration(), 1);
    ExampleDelegationStep(p, Registration() + WriteDelegation(1, 1), 2);
  }

  /** The delegate is found before the tombstone and not after it, and the second delegation is still stored. */
  lemma DelegateShutOut() returns (p: Primitives)
    ensures var st := Run(p, TwoDelegations()).store;
      var left, t := Key(NS, Fill(2, 32)), ExampleBlob(ExampleTombstone(1), 3, 7);
      var st' := Run(p, TwoDelegations() + Submit(NS, t, ExampleInputs(), ExampleInputs(), 3)).store;
      && HoldsDelegation(st, left) && Found(st, DelegateOf(p, st, left))
      && HoldsDelegation(st', left) && !Found(st', DelegateOf(p, st', left))
  {
    p := ExampleExists();
    var st := Run(p, TwoDelegations()).store;
    var gone, left := Key(NS, Fill(1, 32)), Key(NS, Fill(2, 32));
    var t := ExampleBlob(ExampleTombstone(1), 3, 7);
    FillsDiffer(1, 2);
    ExampleHoldsBoth(p);
    KindsDisjoint(t.data);
    ExampleGates(p, st, t.data, 3);
    SiblingShutOut(p, TwoDelegations(), gone, left, t, ExampleInputs(), ExampleInputs());
  }

  // Whole runs.

  /** The entry was written for a delegation that was stored. */
  ghost predicate Logged(p: Primitives, log: seq<Record>, d: Key, h: Bytes) {
    exists r :: r in log && Grants(p, r, d) && p.ContentHash(r.blob) == h
  }

  predicate Grants(p: Primitives, r: Record, d: Key) {
    r.ns == d.ns && IsDelegation(r.blob.data) && p.sha3(DelegateKey(r.blob.data)) == d.hash
  }

  ghost predicate EntriesLogged(p: Primitives, st: Store, log: seq<Record>) {
    forall d :: d in st.delegs ==> Logged(p, log, d, st.delegs[d])
  }

  /** No two different blobs that were ever stored have one content hash. */
  ghost predicate CollisionFree(p: Primitives, log: seq<Record>) {
    forall r, s :: r in log && s in log && p.ContentHash(r.blob) == p.ContentHash(s.blob) ==> r.blob == s.blob
  }

  lemma LoggedCarries(p: Primitives, st: Store, st': Store, log: seq<Record>, log': seq<Record>)
    requires EntriesLogged(p, st, log) && forall r :: r in log ==> r in log'
    requires forall d :: d in st'.delegs ==> d in st.delegs && st'.delegs[d] == st.delegs[d]
    ensures EntriesLogged(p, st', log')
  {
    forall d | d in st'.delegs
      ensures Logged(p, log', d, st'.delegs[d])
    {
      assert Logged(p, log, d, st.delegs[d]);
    }
  }

  lemma InsertLogged(p: Primitives, st: Store, log: seq<Record>, ns: Bytes, b: Blob)
    requires EntriesLogged(p, st, log) && Record(ns, b) in log
    ensures EntriesLogged(p, Insert(p, st, ns, b), log)
  {
    var st' := Insert(p, st, ns, b);
    forall d | d in st'.delegs
      ensures Logged(p, log, d, st'.delegs[d])
    {
      if IsDelegation(b.data) && d == Key(ns, p.sha3(DelegateKey(b.data))) {
        assert Grants(p, Record(ns, b), d);
      } else {
        assert Logged(p, log, d, st.delegs[d]);
      }
    }
  }

  /** What was logged is what the entries lead to, unless two blobs share a hash. */
  lemma LoggedMatches(p: Primitives, w: World)
    requires EntriesLogged(p, w.store, w.log) && StoreLogged(p, w) && CollisionFree(p, w.log)
    ensures EntriesMatch(p, w.store)
  {
    forall d | d in w.store.delegs
      ensures EntryMatches(p, w.store, d)
    {
      assert Logged(p, w.log, d, w.store.delegs[d]);
    }
  }

  lemma LoggedOwn(p: Primitives, st: Store, log: seq<Record>, ns: Bytes, b: Blob)
    requires EntriesLogged(p, st, log) && Record(ns, b) in log && CollisionFree(p, log)
    ensures OwnEntries(p, st, ns, b)
  {
    forall d | d in st.delegs && d.ns == ns && st.delegs[d] == p.ContentHash(b)
      ensures IsDelegation(b.data) && d.hash == p.sha3(DelegateKey(b.data))
    {
      assert Logged(p, log, d, st.delegs[d]);
    }
  }

  /** The log after a commit. */
  lemma CommitLogs(p: Primitives, w: World, k: nat, i: Inputs)
    requires WorldWellFormed(w) && k < |w.calls| && w.calls[k].pc.Verifying?
    ensures var c, w' := w.calls[k], Next(p, w, Resume(k, i));
      && w'.store == Committed(p, w.store, c, i)
      && w'.log == if Stores(p, w.store, c, i) then w.log + [Record(c.ns, c.blob)] else w.log
  {
    CommitShape(p, w.store, w.calls[k], i);
  }

  lemma ClearedLogged(p: Primitives, st: Store, c: Call, log: seq<Record>, log': seq<Record>)
    requires EntriesLogged(p, st, log) && forall r :: r in log ==> r in log'
    ensures EntriesLogged(p, Cleared(p, st, c), log')
  {
    DeleteAllIndexes(p, st, c.ns, Victims(c.blob));
    LoggedCarries(p, st, Cleared(p, st, c), log, log');
  }

  lemma StepLogged(p: Primitives, w: World, ev: Event)
    requires WorldWellFormed(w) && EntriesLogged(p, w.store, w.log)
    ensures EntriesLogged(p, Next(p, w, ev).store, Next(p, w, ev).log)
  {
    var w' := Next(p, w, ev);
    if ev.Resume? && ev.call < |w.calls| && w.calls[ev.call].pc.Verifying? {
      var c := w.calls[ev.call];
      CommitLogs(p, w, ev.call, ev.inputs);
      ClearedLogged(p, w.store, c, w.log, w'.log);
      if Stores(p, w.store, c, ev.inputs) {
        InsertLogged(p, Cleared(p, w.store, c), w'.log, c.ns, c.blob);
      }
    } else {
      LoggedCarries(p, w.store, w'.store, w.log, w'.log);
    }
  }

  /** The event hides a stored delegation. Checked before the event. */
  ghost predicate Hides(p: Primitives, w: World, ev: Event) {
    match ev
    case Start(_, _, _, _) => false
    case Resume(k, _) =>
      && k < |w.calls| && w.calls[k].pc.Verifying? && Passes(p, w.store, w.calls[k])
      && BatchHides(p, w.store, w.calls[k].ns, Victims(w.calls[k].blob))
    case ExpiryScan(ns, h) => ExpiryHides(p, w.store, ns, h)
  }

  lemma FoundIgnoresRest(p: Primitives, st: Store, st': Store)
    requires st.blobs == st'.blobs && st.delegs == st'.delegs
    ensures AllFound(p, st) <==> AllFound(p, st')
    ensures EntriesMatch(p, st) <==> EntriesMatch(p, st')
  {
    assert forall k :: HoldsDelegation(st, k) <==> HoldsDelegation(st', k);
    assert forall k :: HoldsDelegation(st, k) ==> DelegateOf(p, st, k) == DelegateOf(p, st', k);
    assert forall d :: d in st.delegs ==> (EntryMatches(p, st, d) <==> EntryMatches(p, st', d));
  }

  lemma CommitFindsIff(p: Primitives, w: World, k: nat, i: Inputs)
    requires WorldWellFormed(w) && k < |w.calls| && w.calls[k].pc.Verifying?
    requires AllFound(p, w.store) && EntriesMatch(p, w.store) && EntriesLogged(p, w.store, w.log)
    requires CollisionFree(p, Next(p, w, Resume(k, i)).log)
    ensures AllFound(p, Next(p, w, Resume(k, i)).store) <==> !Hides(p, w, Resume(k, i))
  {
    var c, w' := w.calls[k], Next(p, w, Resume(k, i));
    CommitLogs(p, w, k, i);
    if Passes(p, w.store, c) {
      var gone, st1 := DeleteAll(p, w.store, c.ns, Victims(c.blob)), Cleared(p, w.store, c);
      DeleteHidesIff(p, w.store, c.ns, Victims(c.blob));
      DeleteMatches(p, w.store, c.ns, Victims(c.blob));
      FoundIgnoresRest(p, gone, st1);
      if Stores(p, w.store, c, i) {
        ClearedLogged(p, w.store, c, w.log, w'.log);
        LoggedOwn(p, st1, w'.log, c.ns, c.blob);
        KindsDisjoint(c.blob.data);
        InsertFoundIff(p, st1, c.ns, c.blob);
      }
    }
  }

  /** An event keeps every stored delegation found exactly if it hides none. */
  lemma StepFindsIff(p: Primitives, w: World, ev: Event)
    requires WorldWellFormed(w) && AllFound(p, w.store) && EntriesMatch(p, w.store)
    requires EntriesLogged(p, w.store, w.log) && CollisionFree(p, Next(p, w, ev).log)
    ensures AllFound(p, Next(p, w, ev).store) <==> !Hides(p, w, ev)
  {
    match ev
    case Start(_, _, _, _) =>
    case Resume(k, i) =>
      if k < |w.calls| && w.calls[k].pc.Verifying? {
        CommitFindsIff(p, w, k, i);
      }
    case ExpiryScan(ns, h) => ExpiryHidesIff(p, w.store, ns, h);
  }

  lemma LogGrows(p: Primitives, w: World, ev: Event)
    requires WorldWellFormed(w) && CollisionFree(p, Next(p, w, ev).log)
    ensures CollisionFree(p, w.log)
  {
    assert forall r :: r in w.log ==> r in Next(p, w, ev).log;
  }

  ghost predicate NeverHides(p: Primitives, evs: seq<Event>) {
    evs == [] || (NeverHides(p, evs[..|evs| - 1]) && !Hides(p, Run(p, evs[..|evs| - 1]), evs[|evs| - 1]))
  }

  /** Every stored delegation has let its delegate in at every point of the run so far. */
  ghost predicate FoundThroughout(p: Primitives, evs: seq<Event>) {
    AllFound(p, Run(p, evs).store) && (evs == [] || FoundThroughout(p, evs[..|evs| - 1]))
  }

  /** In every run whose stored blobs have distinct hashes, an index entry leads to a delegation to its very delegate or
      to nothing; and every stored delegation is found throughout exactly if no event hides one. */
  lemma {:induction false} DelegationsInEveryRun(p: Primitives, evs: seq<Event>)
    requires CollisionFree(p, Run(p, evs).log)
    ensures EntriesLogged(p, Run(p, evs).store, Run(p, evs).log) && EntriesMatch(p, Run(p, evs).store)
    ensures FoundThroughout(p, evs) <==> NeverHides(p, evs)
    decreases |evs|
  {
    if evs != [] {
      var before, e := evs[..|evs| - 1], evs[|evs| - 1];
      LogGrows(p, Run(p, before), e);
      DelegationsInEveryRun(p, before);
      StepLogged(p, Run(p, before), e);
      if FoundThroughout(p, before) {
        StepFindsIff(p, Run(p, before), e);
      }
    }
    BackedInEveryRun(p, evs);
    LoggedMatches(p, Run(p, evs));
  }
}
