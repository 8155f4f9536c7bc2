/** What a deleted delegation still lets through (db/engine/engine.cpp): a call looks its delegation up before it hashes
    and verifies, and does not look again when it commits. When is a delegate's blob stored while its key is granted? */
module Revocation {
  import opened Octets
  import opened BlobFormat
  import opened BlobStore
  import opened IngestMachine
  import opened CommitEffects
  import opened ExampleRuns
  import opened StrandedTombstone
  import opened DelegationIndex
  import opened Provenance

  predicate Gives(st: Store, d: Key, ns: Bytes, pk: Bytes) {
    HoldsDelegation(st, d) && d.ns == ns && DelegateKey(st.blobs[d].data) == pk
  }

  /** A delegation to the key is stored. */
  ghost predicate HasGrant(st: Store, ns: Bytes, pk: Bytes) {
    exists d :: Gives(st, d, ns, pk)
  }

  /** The event takes away all delegations to the key. Checked before the event. */
  ghost predicate Revokes(p: Primitives, w: World, ev: Event, ns: Bytes, pk: Bytes) {
    match ev
    case Start(_, _, _, _) => false
    case Resume(k, _) =>
      && k < |w.calls| && w.calls[k].pc.Verifying? && Passes(p, w.store, w.calls[k])
      && forall d :: Gives(w.store, d, ns, pk) ==> InBatch(d, w.calls[k].ns, Victims(w.calls[k].blob))
    case ExpiryScan(n, h) =>
      && Key(n, h) in w.store.blobs && w.store.blobs[Key(n, h)].ttl > 0
      && forall d :: Gives(w.store, d, ns, pk) ==> d == Key(n, h)
  }

  lemma CommitRevokesIff(p: Primitives, st: Store, c: Call, i: Inputs, ns: Bytes, pk: Bytes)
    requires CallWellFormed(c) && c.pc.Verifying? && HasGrant(st, ns, pk)
    ensures HasGrant(Committed(p, st, c, i), ns, pk) <==>
      !(Passes(p, st, c) && forall d :: Gives(st, d, ns, pk) ==> InBatch(d, c.ns, Victims(c.blob)))
  {
    var st' := Committed(p, st, c, i);
    DeleteAllBlobs(p, st, c.ns, Victims(c.blob));
    KindsDisjoint(c.blob.data);
    if Passes(p, st, c) {
      forall d | Gives(st, d, ns, pk) && !InBatch(d, c.ns, Victims(c.blob))
        ensures Gives(st', d, ns, pk)
      {
      }
      if forall d :: Gives(st, d, ns, pk) ==> InBatch(d, c.ns, Victims(c.blob)) {
        assert Victims(c.blob) != [];
        forall d
          ensures !Gives(st', d, ns, pk)
        {
          assert Gives(st', d, ns, pk) ==> Gives(st, d, ns, pk);
        }
      }
    }
  }

  /** An event leaves a granted key granted exactly if it does not take away all delegations to it. */
  lemma StepRevokesIff(p: Primitives, w: World, ev: Event, ns: Bytes, pk: Bytes)
    requires WorldWellFormed(w) && HasGrant(w.store, ns, pk)
    ensures HasGrant(Next(p, w, ev).store, ns, pk) <==> !Revokes(p, w, ev, ns, pk)
  {
    match ev
    case Start(_, _, _, _) =>
    case Resume(k, i) =>
      if k < |w.calls| && w.calls[k].pc.Verifying? {
        CommitShape(p, w.store, w.calls[k], i);
        CommitRevokesIff(p, w.store, w.calls[k], i, ns, pk);
      }
    case ExpiryScan(n, h) =>
      var st' := Next(p, w, ev).store;
      forall d | Gives(w.store, d, ns, pk) && d != Key(n, h)
        ensures Gives(st', d, ns, pk)
      {
      }
      assert forall d :: Gives(st', d, ns, pk) ==> Gives(w.store, d, ns, pk);
  }

  // The calls that rely on a delegation.

  /** The call has found its key in a delegation and is not done. */
  predicate Leans(c: Call) {
    (c.pc.ContentHashing? || c.pc.Verifying?) && !c.pc.isOwner
  }

  ghost predicate Supported(w: World) {
    forall k :: 0 <= k < |w.calls| && Leans(w.calls[k]) ==> HasGrant(w.store, w.calls[k].ns, w.calls[k].pc.key)
  }

  /** The event takes away what another call leans on. */
  ghost predicate Undercuts(p: Primitives, w: World, ev: Event) {
    exists k :: 0 <= k < |w.calls| && Leans(w.calls[k]) && !(ev.Resume? && ev.call == k)
      && Revokes(p, w, ev, w.calls[k].ns, w.calls[k].pc.key)
  }

  lemma LookupGrants(st: Store, ns: Bytes, hint: Bytes)
    ensures FindDelegate(st, ns, hint).Some? ==> HasGrant(st, ns, FindDelegate(st, ns, hint).value)
  {
    if FindDelegate(st, ns, hint).Some? {
      assert Gives(st, Key(ns, st.delegs[Key(ns, hint)]), ns, FindDelegate(st, ns, hint).value);
    }
  }

  /** Before its commit a call starts to lean only on what is there. */
  lemma EarlyLeans(p: Primitives, st: Store, c: Call, i: Inputs)
    requires CallWellFormed(c) && !c.pc.Verifying? && (Leans(c) ==> HasGrant(st, c.ns, c.pc.key))
    ensures var (st', pc) := ResumeCall(p, st, c, i);
      st' == st && (Leans(c.(pc := pc)) ==> HasGrant(st, c.ns, pc.key))
  {
    LookupGrants(st, c.ns, c.blob.signerHint);
  }

  lemma StartLeans(p: Primitives, w: World, kind: CallKind, ns: Bytes, b: Blob, i: Inputs)
    requires WorldWellFormed(w) && Supported(w)
    ensures Supported(Next(p, w, Start(kind, ns, b, i)))
  {
    LookupGrants(w.store, ns, b.signerHint);
  }

  lemma EarlySupported(p: Primitives, w: World, k: nat, i: Inputs)
    requires WorldWellFormed(w) && Supported(w) && k < |w.calls| && !w.calls[k].pc.Verifying?
    ensures Supported(Next(p, w, Resume(k, i))) && !Undercuts(p, w, Resume(k, i))
  {
    EarlyLeans(p, w.store, w.calls[k], i);
  }

  /** The other calls stand and fall with the grants they lean on. */
  lemma OthersSupportedIff(p: Primitives, w: World, ev: Event)
    requires WorldWellFormed(w) && Supported(w)
    requires var w' := Next(p, w, ev);
      && |w'.calls| == |w.calls|
      && forall k :: 0 <= k < |w.calls| ==>
           if ev.Resume? && ev.call == k then !Leans(w'.calls[k]) else w'.calls[k] == w.calls[k]
    ensures Supported(Next(p, w, ev)) <==> !Undercuts(p, w, ev)
  {
    var w' := Next(p, w, ev);
    forall k | 0 <= k < |w.calls| && Leans(w.calls[k]) && !(ev.Resume? && ev.call == k)
      ensures HasGrant(w'.store, w.calls[k].ns, w.calls[k].pc.key)
        <==> !Revokes(p, w, ev, w.calls[k].ns, w.calls[k].pc.key)
    {
      StepRevokesIff(p, w, ev, w.calls[k].ns, w.calls[k].pc.key);
    }
    if Undercuts(p, w, ev) {
      var k :| 0 <= k < |w.calls| && Leans(w.calls[k]) && !(ev.Resume? && ev.call == k)
        && Revokes(p, w, ev, w.calls[k].ns, w.calls[k].pc.key);
      assert w'.calls[k] == w.calls[k];
    }
  }

  lemma StepSupportedIff(p: Primitives, w: World, ev: Event)
    requires WorldWellFormed(w) && Supported(w)
    ensures Supported(Next(p, w, ev)) <==> !Undercuts(p, w, ev)
  {
    match ev
    case Start(kind, ns, b, i) => StartLeans(p, w, kind, ns, b, i);
    case Resume(k, i) =>
      if k < |w.calls| {
        if w.calls[k].pc.Verifying? {
          OthersSupportedIff(p, w, ev);
        } else {
          EarlySupported(p, w, k, i);
        }
      }
    case ExpiryScan(_, _) => OthersSupportedIff(p, w, ev);
  }

  // What is stored in time.

  /** The record is signed by the owner, or by a key with a delegation in the store. */
  ghost predicate SignedNow(p: Primitives, st: Store, r: Record) {
    exists pk :: p.Signed(r.ns, r.blob, pk) && HasAuthority(p, st, r.ns, pk)
  }

  ghost predicate HasAuthority(p: Primitives, st: Store, ns: Bytes, pk: Bytes) {
    p.sha3(pk) == ns || HasGrant(st, ns, pk)
  }

  /** If the event stores a blob, its signer has authority at that moment. */
  ghost predicate Timely(p: Primitives, w: World, ev: Event)
    requires WorldWellFormed(w)
  {
    var log := Next(p, w, ev).log;
    |log| > |w.log| ==> SignedNow(p, w.store, log[|log| - 1])
  }

  /** A delegate's call commits with no delegation to its key left. Checked before the event. */
  ghost predicate Outlives(p: Primitives, w: World, ev: Event) {
    && ev.Resume? && ev.call < |w.calls| && w.calls[ev.call].pc.Verifying?
    && var c := w.calls[ev.call];
       Leans(c) && Stores(p, w.store, c, ev.inputs) && !HasAuthority(p, w.store, c.ns, c.pc.key)
  }

  /** A signature verifies under one key at most. */
  ghost predicate OneSigner(p: Primitives) {
    forall m, sig, a, b :: p.verify(m, sig, a) && p.verify(m, sig, b) ==> a == b
  }

  lemma StepTimelyIff(p: Primitives, w: World, ev: Event)
    requires WorldWellFormed(w) && Backed(p, w)
    ensures !Outlives(p, w, ev) ==> Timely(p, w, ev)
    ensures OneSigner(p) && Timely(p, w, ev) ==> !Outlives(p, w, ev)
  {
    if ev.Resume? && ev.call < |w.calls| && w.calls[ev.call].pc.Verifying? {
      var c := w.calls[ev.call];
      CommitLogs(p, w, ev.call, ev.inputs);
      assert CallBacked(p, w.log, c);
      if Stores(p, w.store, c, ev.inputs) {
        var log := Next(p, w, ev).log;
        assert log[|log| - 1] == Record(c.ns, c.blob) && p.Signed(c.ns, c.blob, c.pc.key);
      }
    }
  }

  // Whole runs.

  ghost predicate TimelyThroughout(p: Primitives, evs: seq<Event>) {
    evs == [] || (TimelyThroughout(p, evs[..|evs| - 1]) && Timely(p, Run(p, evs[..|evs| - 1]), evs[|evs| - 1]))
  }

  ghost predicate NeverOutlives(p: Primitives, evs: seq<Event>) {
    evs == [] || (NeverOutlives(p, evs[..|evs| - 1]) && !Outlives(p, Run(p, evs[..|evs| - 1]), evs[|evs| - 1]))
  }

  ghost predicate SupportedThroughout(p: Primitives, evs: seq<Event>) {
    Supported(Run(p, evs)) && (evs == [] || SupportedThroughout(p, evs[..|evs| - 1]))
  }

  ghost predicate NeverUndercuts(p: Primitives, evs: seq<Event>) {
    evs == [] || (NeverUndercuts(p, evs[..|evs| - 1]) && !Undercuts(p, Run(p, evs[..|evs| - 1]), evs[|evs| - 1]))
  }

  /** In a run every blob is stored while its signer has authority exactly if no delegate's call commits after the last
      delegation to its key is gone. Every suspended call keeps a stored delegation exactly if no event takes away what
      another call leans on, and that is enough. */
  lemma {:induction false} AuthorityInTime(p: Primitives, evs: seq<Event>)
    ensures NeverOutlives(p, evs) ==> TimelyThroughout(p, evs)
    ensures OneSigner(p) && TimelyThroughout(p, evs) ==> NeverOutlives(p, evs)
    ensures SupportedThroughout(p, evs) <==> NeverUndercuts(p, evs)
    ensures NeverUndercuts(p, evs) ==> NeverOutlives(p, evs)
    decreases |evs|
  {
    if evs != [] {
      var before, ev := evs[..|evs| - 1], evs[|evs| - 1];
      AuthorityInTime(p, before);
      BackedInEveryRun(p, before);
      StepTimelyIff(p, Run(p, before), ev);
      if SupportedThroughout(p, before) {
        StepSupportedIff(p, Run(p, before), ev);
      }
    }
  }

  // A run in which it is not: a delegate's call waits for its verification while the delegation is deleted.

  const DELEGATED: Blob := ExampleBlob([], 8, 6)

  function Granting(): seq<Event> {
    Registration() + WriteDelegation(1, 1)
  }

  function Waiting(k: nat): seq<Event> {
    [Start(Ingest, NS, DELEGATED, ExampleInputs()), Resume(k, ExampleInputs())]
  }

  function RevokingRun(): seq<Event> {
    Granting() + Waiting(2) + WriteTombstone(3, 1, 3)
  }

  /** The delegation is the one blob besides the owner's PUBK. */
  predicate OneGrant(st: Store) {
    && OwnerKnown(st) && Fill(6, 32) !in st.owners && st.tombs == {}
    && st.blobs.Keys == {Key(NS, Fill(5, 32)), Key(NS, Fill(1, 32))}
    && st.blobs[Key(NS, Fill(1, 32))].data == ExampleDelegation() && IsPubkey(st.blobs[Key(NS, Fill(5, 32))].data)
    && Key(NS, Fill(6, 32)) in st.delegs && st.delegs[Key(NS, Fill(6, 32))] == Fill(1, 32)
  }

  lemma GrantInserted(p: Primitives, st: Store)
    requires IsExample(p) && st.owners == map[NS := OWNER_KEY] && st.tombs == {}
    requires st.blobs.Keys == {Key(NS, Fill(5, 32))} && IsPubkey(st.blobs[Key(NS, Fill(5, 32))].data)
    ensures OneGrant(Insert(p, st, NS, ExampleBlob(ExampleDelegation(), 1, 7)))
  {
    FillsDiffer(1, 5); FillsDiffer(6, 7);
    KindsDisjoint(ExampleDelegation());
  }

  lemma ExampleGrants(p: Primitives)
    requires IsExample(p)
    ensures var w := Run(p, Granting()); |w.calls| == 2 && OneGrant(w.store)
  {
    FillsDiffer(1, 5);
    PubkeyFiled(p, 7);
    ExampleDelegationStep(p, Registration(), 1);
    GrantInserted(p, Run(p, Registration()).store);
  }

  function WaitingCall(): Call {
    Call(Ingest, NS, DELEGATED, Verifying(DELEGATE_KEY, false))
  }

  lemma DelegateFound(p: Primitives, st: Store)
    requires IsExample(p) && OneGrant(st)
    ensures IngestStart(p, st, NS, DELEGATED, ExampleInputs()) == ContentHashing(DELEGATE_KEY, false)
    ensures Key(NS, p.ContentHash(DELEGATED)) !in st.blobs
  {
    FillsDiffer(1, 8); FillsDiffer(5, 8);
    KindsDisjoint([]);
    assert FindDelegate(st, NS, Fill(6, 32)) == Some(DELEGATE_KEY);
  }

  lemma WaitsFrom(p: Primitives, w: World)
    requires IsExample(p) && WorldWellFormed(w) && OneGrant(w.store)
    ensures var w' := Next(p, Next(p, w, Waiting(|w.calls|)[0]), Waiting(|w.calls|)[1]);
      w'.store == w.store && w'.calls == w.calls + [WaitingCall()]
  {
    DelegateFound(p, w.store);
    var w1 := Next(p, w, Waiting(|w.calls|)[0]);
    assert w1.calls == w.calls + [Call(Ingest, NS, DELEGATED, ContentHashing(DELEGATE_KEY, false))];
  }

  lemma RunTwoMore(p: Primitives, evs: seq<Event>, more: seq<Event>)
    requires |more| == 2
    ensures Run(p, evs + more) == Next(p, Next(p, Run(p, evs), more[0]), more[1])
  {
    RunOneMore(p, evs, more[0]);
    RunOneMore(p, evs + [more[0]], more[1]);
    assert evs + more == evs + [more[0]] + [more[1]];
  }

  lemma DelegateWaits(p: Primitives, evs: seq<Event>)
    requires IsExample(p) && OneGrant(Run(p, evs).store)
    ensures var w := Run(p, evs);
      var w' := Run(p, evs + Waiting(|w.calls|));
      w'.store == w.store && w'.calls == w.calls + [WaitingCall()]
  {
    WaitsFrom(p, Run(p, evs));
    RunTwoMore(p, evs, Waiting(|Run(p, evs).calls|));
  }

  lemma GrantDeleted(p: Primitives, st: Store, st': Store)
    requires IsExample(p) && OneGrant(st) && TombstoneWritten(p, st, st', 3, 1)
    ensures !HasAuthority(p, st', NS, DELEGATE_KEY)
    ensures Key(NS, Fill(8, 32)) !in st'.blobs && Key(NS, Fill(8, 32)) !in st'.tombs
  {
    FillsDiffer(6, 7); FillsDiffer(1, 8); FillsDiffer(3, 8); FillsDiffer(5, 8); FillsDiffer(1, 5);
    KindsDisjoint(ExampleTombstone(1));
    forall d | d in st'.blobs
      ensures !IsDelegation(st'.blobs[d].data)
    {
      assert d == Key(NS, Fill(5, 32)) || d == Key(NS, Fill(3, 32));
      KindsDisjoint(st'.blobs[d].data);
    }
  }

  lemma CommitsAnyway(p: Primitives, w: World, k: nat)
    requires IsExample(p) && WorldWellFormed(w) && k < |w.calls| && w.calls[k] == WaitingCall()
    requires Key(NS, Fill(8, 32)) !in w.store.blobs && Key(NS, Fill(8, 32)) !in w.store.tombs
    requires !HasAuthority(p, w.store, NS, DELEGATE_KEY)
    ensures Outlives(p, w, Resume(k, ExampleInputs()))
    ensures Key(NS, Fill(8, 32)) in Next(p, w, Resume(k, ExampleInputs())).store.blobs
  {
    ExampleStores(p, w.store, w.calls[k]);
    CommitShape(p, w.store, w.calls[k], ExampleInputs());
  }

  /** The delegate's blob is stored when no key but the owner's has authority, and the delegate signed it. */
  lemma RevokedDelegateStores() returns (p: Primitives)
    ensures OneSigner(p) && !HasAuthority(p, Run(p, RevokingRun()).store, NS, DELEGATE_KEY)
    ensures var evs := RevokingRun() + [Resume(2, ExampleInputs())];
      Key(NS, Fill(8, 32)) in Run(p, evs).store.blobs && !TimelyThroughout(p, evs)
  {
    p := ExampleExists();
    var e1, e2, e3 := Granting(), Granting() + Waiting(2), RevokingRun();
    FillsDiffer(1, 3); FillsDiffer(3, 5);
    ExampleGrants(p);
    DelegateWaits(p, e1);
    ExampleTombstoneStep(p, e2, 3, 1);
    var w := Run(p, e3);
    GrantDeleted(p, Run(p, e2).store, w.store);
    assert w.calls[2] == w.calls[..3][2];
    CommitsAnyway(p, w, 2);
    RunOneMore(p, e3, Resume(2, ExampleInputs()));
    AuthorityInTime(p, e3 + [Resume(2, ExampleInputs())]);
    assert (e3 + [Resume(2, ExampleInputs())])[..|e3|] == e3;
  }
}
