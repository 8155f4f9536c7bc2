/** How far a blob gets: in a run that loses, filters and disconnects nothing it reaches every node that is connected to
    one that has it (db/peer/blob_push_manager.cpp). */
module GossipReach {
  import opened Octets
  import opened Gossip

  /** The event loses, filters and disconnects nothing, a node that fans out tells every peer but its source, and a sync
      brings the blob from a node that has it. */
  ghost predicate Smooth(peer: (nat, nat) -> bool, w: World, e: Event) {
    match e
    case Write(_, source) => source.Some? ==> source.value in w.stored
    case Take(_, held) => !held
    case Lose(_) => false
    case Announce(at, peers) =>
      at in w.announcing ==>
        forall b :: 0 <= b < w.n && b != at && peer(at, b) && Source(w.announcing[at]) != Some(b) ==> b in peers
    case Disconnect(_, _) => false
  }

  ghost predicate SmoothRun(peer: (nat, nat) -> bool, n: nat, evs: seq<Event>) {
    evs == [] ||
    (SmoothRun(peer, n, evs[..|evs| - 1]) && Smooth(peer, Run(n, evs[..|evs| - 1]), evs[|evs| - 1]))
  }

  /** The fetch of `b` is on its way to the store. */
  predicate Coming(w: World, b: nat)
    requires b in w.pending
  {
    var c := w.pending[b];
    Fetch(b, c) in w.flight || Response(c, b, true) in w.flight || Ingesting(b, Fetched(c)) in w.flight
  }

  /** Whoever sends or is waited for has the blob. */
  predicate FromHolder(w: World, m: Msg) {
    match m
    case Notify(a, _) => a in w.stored
    case Fetch(_, a) => a in w.stored
    case Response(a, _, found) => found ==> a in w.stored
    case Ingesting(_, origin) => !origin.Client? ==> origin.peer in w.stored
    case Clearing(a) => a in w.stored
  }

  ghost predicate Holders(w: World) {
    && (forall m :: m in w.flight ==> FromHolder(w, m))
    && (forall a :: a in w.announcing && !w.announcing[a].Client? ==> w.announcing[a].peer in w.stored)
    && (forall b :: b in w.pending ==> w.pending[b] in w.stored)
  }

  /** A node that was told has the blob, or has yet to read the notify, or is fetching. */
  ghost predicate ToldGet(w: World) {
    && (forall a: nat, b: nat :: w.sent[Notify(a, b)] > 0 ==>
          b in w.stored || Notify(a, b) in w.flight || b in w.pending)
    && (forall b :: b in w.pending ==> b in w.stored || Coming(w, b))
  }

  /** A node that has fanned out told every peer that may not have the blob. */
  ghost predicate AllTold(peer: (nat, nat) -> bool, w: World) {
    forall a, b :: a in w.announced && 0 <= b < w.n && b != a && peer(a, b) ==>
      w.sent[Notify(a, b)] > 0 || b in w.stored
  }

  ghost predicate Spreading(peer: (nat, nat) -> bool, w: World) {
    Holders(w) && ToldGet(w) && AllTold(peer, w)
  }

  lemma StaysInFlight(s: seq<Msg>, i: nat, m: Msg)
    requires i < |s| && m in s && m != s[i]
    ensures m in Remove(s, i)
  {
    var j :| 0 <= j < |s| && s[j] == m;
    assert j < i || j > i;
    if j < i {
      assert Remove(s, i)[j] == m;
    } else {
      assert Remove(s, i)[j - 1] == m;
    }
  }

  lemma StillThere(s: seq<Msg>, i: nat)
    requires i < |s|
    ensures forall m :: m in s && m != s[i] ==> m in Remove(s, i)
    ensures forall m :: m in Remove(s, i) ==> m in s
  {
    forall m | m in s && m != s[i]
      ensures m in Remove(s, i)
    {
      StaysInFlight(s, i, m);
    }
    Removed(s, i);
  }

  lemma NotifyHolders(w: World, i: nat)
    requires Holders(w) && i < |w.flight| && w.flight[i].Notify?
    ensures Holders(Next(w, Take(i, false)))
  {
    StillThere(w.flight, i);
    assert FromHolder(w, w.flight[i]);
  }

  lemma NotifyTold(w: World, i: nat)
    requires ToldGet(w) && i < |w.flight| && w.flight[i].Notify?
    ensures ToldGet(Next(w, Take(i, false)))
  {
    StillThere(w.flight, i);
    var Notify(a, b) := w.flight[i];
    var w' := Next(w, Take(i, false));
    forall x: nat, y: nat | w'.sent[Notify(x, y)] > 0
      ensures y in w'.stored || Notify(x, y) in w'.flight || y in w'.pending
    {
      assert w.sent[Notify(x, y)] == w'.sent[Notify(x, y)];
    }
    forall y | y in w'.pending
      ensures y in w'.stored || Coming(w', y)
    {
      if y in w.pending && y !in w.stored {
        assert Coming(w, y);
      }
    }
  }

  lemma NotifySpreads(peer: (nat, nat) -> bool, w: World, i: nat)
    requires Spreading(peer, w) && i < |w.flight| && w.flight[i].Notify?
    ensures Spreading(peer, Next(w, Take(i, false)))
  {
    NotifyHolders(w, i);
    NotifyTold(w, i);
  }

  lemma FetchSpreads(peer: (nat, nat) -> bool, w: World, i: nat)
    requires Spreading(peer, w) && i < |w.flight| && w.flight[i].Fetch?
    ensures Spreading(peer, Next(w, Take(i, false)))
  {
    StillThere(w.flight, i);
    assert FromHolder(w, w.flight[i]);
  }

  lemma ResponseHolders(w: World, i: nat)
    requires Holders(w) && i < |w.flight| && w.flight[i].Response?
    ensures Holders(Next(w, Take(i, false)))
  {
    StillThere(w.flight, i);
    assert FromHolder(w, w.flight[i]);
  }

  lemma ResponseSpreads(peer: (nat, nat) -> bool, w: World, i: nat)
    requires Spreading(peer, w) && i < |w.flight| && w.flight[i].Response?
    ensures Spreading(peer, Next(w, Take(i, false)))
  {
    ResponseHolders(w, i);
    StillThere(w.flight, i);
  }

  lemma IngestHolders(w: World, i: nat)
    requires Holders(w) && i < |w.flight| && w.flight[i].Ingesting?
    ensures Holders(Next(w, Take(i, false)))
  {
    StillThere(w.flight, i);
    assert FromHolder(w, w.flight[i]);
  }

  lemma IngestTold(w: World, i: nat)
    requires ToldGet(w) && i < |w.flight| && w.flight[i].Ingesting?
    ensures ToldGet(Next(w, Take(i, false)))
  {
    StillThere(w.flight, i);
    forall b | b in w.pending && b != w.flight[i].at
      ensures b in w.stored || Coming(Next(w, Take(i, false)), b)
    {
      assert b in w.stored || Coming(w, b);
    }
  }

  lemma IngestSpreads(peer: (nat, nat) -> bool, w: World, i: nat)
    requires Spreading(peer, w) && i < |w.flight| && w.flight[i].Ingesting?
    ensures Spreading(peer, Next(w, Take(i, false)))
  {
    IngestHolders(w, i);
    IngestTold(w, i);
  }

  lemma ClearingSpreads(peer: (nat, nat) -> bool, w: World, i: nat)
    requires Spreading(peer, w) && i < |w.flight| && w.flight[i].Clearing?
    ensures Spreading(peer, Next(w, Take(i, false)))
  {
    StillThere(w.flight, i);
    assert FromHolder(w, w.flight[i]);
  }

  lemma FannedOut(w: World, at: nat, peers: seq<nat>)
    requires at in w.announcing
    ensures var w' := FanOut(w, at, peers);
      && (forall m :: m in w'.flight <==> m in w.flight || m in Notifies(at, peers))
      && (forall b :: b in peers ==> Notify(at, b) in w'.flight && w'.sent[Notify(at, b)] > 0)
      && (forall m :: w'.sent[m] == w.sent[m] + multiset(Notifies(at, peers))[m])
  {
    var w' := FanOut(w, at, peers);
    forall b | b in peers
      ensures Notify(at, b) in Notifies(at, peers)
    {
      var j :| 0 <= j < |peers| && peers[j] == b;
      assert Notifies(at, peers)[j] == Notify(at, b);
    }
  }

  lemma FanOutHolders(w: World, at: nat, peers: seq<nat>)
    requires Holders(w) && Stores(w) && at in w.announcing
    ensures Holders(FanOut(w, at, peers))
  {
    var w' := FanOut(w, at, peers);
    FannedOut(w, at, peers);
    forall m | m in w'.flight
      ensures FromHolder(w', m)
    {
      OnlyNotifies(at, peers, m);
      assert m in w.flight ==> FromHolder(w, m);
    }
  }

  lemma FanOutTold(w: World, at: nat, peers: seq<nat>)
    requires ToldGet(w) && Stores(w) && at in w.announcing
    ensures ToldGet(FanOut(w, at, peers))
  {
    var w' := FanOut(w, at, peers);
    FannedOut(w, at, peers);
    forall a: nat, b: nat | w'.sent[Notify(a, b)] > 0
      ensures b in w'.stored || Notify(a, b) in w'.flight || b in w'.pending
    {
      OnlyNotifies(at, peers, Notify(a, b));
    }
    forall b | b in w'.pending
      ensures b in w'.stored || Coming(w', b)
    {
      assert b in w.stored || Coming(w, b);
    }
  }

  lemma FanOutSpreads(peer: (nat, nat) -> bool, w: World, at: nat, peers: seq<nat>)
    requires Spreading(peer, w) && Stores(w) && Enabled(w, Announce(at, peers)) && Smooth(peer, w, Announce(at, peers))
    ensures Spreading(peer, FanOut(w, at, peers))
  {
    FanOutHolders(w, at, peers);
    FanOutTold(w, at, peers);
    FannedOut(w, at, peers);
  }

  lemma WriteSpreads(peer: (nat, nat) -> bool, w: World, at: nat, source: Option<nat>)
    requires Spreading(peer, w) && Smooth(peer, w, Write(at, source))
    ensures Spreading(peer, Spawn(w, Ingesting(at, Brought(source))))
  {
    var w' := Spawn(w, Ingesting(at, Brought(source)));
    assert forall m :: m in w.flight ==> m in w'.flight;
  }

  lemma StepSpreads(peer: (nat, nat) -> bool, w: World, e: Event)
    requires Spreading(peer, w) && Stores(w) && Smooth(peer, w, e)
    ensures Spreading(peer, Next(w, e))
  {
    if Enabled(w, e) {
      match e
      case Write(at, source) => WriteSpreads(peer, w, at, source);
      case Announce(at, peers) => FanOutSpreads(peer, w, at, peers);
      case Take(i, held) =>
        match w.flight[i]
        case Notify(_, _) => NotifySpreads(peer, w, i);
        case Fetch(_, _) => FetchSpreads(peer, w, i);
        case Response(_, _, _) => ResponseSpreads(peer, w, i);
        case Ingesting(_, _) => IngestSpreads(peer, w, i);
        case Clearing(_) => ClearingSpreads(peer, w, i);
    }
  }

  lemma {:induction false} SmoothRunSpreads(peer: (nat, nat) -> bool, n: nat, evs: seq<Event>)
    requires SmoothRun(peer, n, evs)
    ensures Spreading(peer, Run(n, evs))
    decreases |evs|
  {
    if evs != [] {
      var before := evs[..|evs| - 1];
      SmoothRunSpreads(peer, n, before);
      EveryRunSound(n, before);
      StepSpreads(peer, Run(n, before), evs[|evs| - 1]);
    }
  }

  /** Nothing is under way. */
  predicate Quiet(w: World) {
    w.flight == [] && w.announcing == map[]
  }

  /** When all is quiet the peers of a node that has the blob have it. */
  lemma QuietMeansClosed(peer: (nat, nat) -> bool, n: nat, evs: seq<Event>, a: nat, b: nat)
    requires SmoothRun(peer, n, evs) && Quiet(Run(n, evs)) && a in Run(n, evs).stored && b < Run(n, evs).n && peer(a, b)
    ensures b in Run(n, evs).stored
  {
    var w := Run(n, evs);
    SmoothRunSpreads(peer, n, evs);
    EveryRunSound(n, evs);
    assert a in w.announced;
    assert b == a || w.sent[Notify(a, b)] > 0 || b in w.stored;
  }

  /** Consecutive nodes of the path are peers. */
  predicate Path(peer: (nat, nat) -> bool, n: nat, path: seq<nat>) {
    path != [] &&
    (|path| == 1 ||
      var last := |path| - 1;
      path[last] < n && peer(path[last - 1], path[last]) && Path(peer, n, path[..last]))
  }

  /** The blob reaches every node that the peers connect to one that has it: in every run without losses, filters and
      disconnects, once nothing is under way. */
  lemma {:induction false} BlobReachesAll(peer: (nat, nat) -> bool, n: nat, evs: seq<Event>, path: seq<nat>)
    requires SmoothRun(peer, n, evs) && Quiet(Run(n, evs))
    requires Path(peer, Run(n, evs).n, path) && path[0] in Run(n, evs).stored
    ensures path[|path| - 1] in Run(n, evs).stored
    decreases |path|
  {
    if |path| > 1 {
      var before := path[..|path| - 1];
      BlobReachesAll(peer, n, evs, before);
      QuietMeansClosed(peer, n, evs, before[|before| - 1], path[|path| - 1]);
    }
  }
}
