/** When a notify leads to a fetch, and when it is passed over (db/peer/blob_push_manager.cpp). */
module PendingFetch {
  import opened Octets
  import opened Gossip

  /** A notify that is taken sends a fetch exactly if nothing holds it up, the blob is not there and no entry is
      pending. */
  lemma NotifyFetchesIff(w: World, i: nat, held: bool)
    requires i < |w.flight| && w.flight[i].Notify?
    ensures var Notify(a, b) := w.flight[i];
      Next(w, Take(i, held)).sent[Fetch(b, a)] > w.sent[Fetch(b, a)] <==> !held && b !in w.stored && b !in w.pending
  {
  }

  /** A pending entry goes exactly when the ingest of a fetched copy comes back to the io thread, or with the peer that
      was asked. A not-found answer leaves it, and so does a copy that a client or a sync brings. */
  lemma PendingGoesIff(w: World, e: Event, b: nat)
    requires b in w.pending
    ensures b !in Next(w, e).pending <==>
      || (e.Take? && e.i < |w.flight| && w.flight[e.i] == Clearing(b))
      || (e.Announce? && Enabled(w, e) && e.at == b && w.announcing[b].Fetched?)
      || e == Disconnect(b, w.pending[b])
  {
  }

  /** The entry of `b` is there after event `from` and after every later one. */
  predicate PendingSince(n: nat, evs: seq<Event>, from: nat, b: nat) {
    && from <= |evs| && b in Run(n, evs).pending
    && (from == |evs| || PendingSince(n, evs[..|evs| - 1], from, b))
  }

  /** While it stays the node asks nobody for the blob, however many notifies arrive. */
  lemma {:induction false} NoFetchWhilePending(n: nat, evs: seq<Event>, from: nat, b: nat)
    requires PendingSince(n, evs, from, b)
    ensures Run(n, evs).asked[b] == Run(n, evs[..from]).asked[b]
    decreases |evs|
  {
    if from == |evs| {
      assert evs[..from] == evs;
    } else {
      var before := evs[..|evs| - 1];
      NoFetchWhilePending(n, before, from, b);
      assert before[..from] == evs[..from];
      StepAsks(Run(n, before), evs[|evs| - 1], b);
    }
  }

  lemma StepAsks(w: World, e: Event, b: nat)
    requires b in w.pending
    ensures Next(w, e).asked[b] == w.asked[b]
  {
  }

  // How long it stays.

  /** Some fetch of `b` was answered with the blob. */
  ghost predicate Served(w: World, b: nat) {
    exists a: nat :: w.sent[Response(a, b, true)] > 0
  }

  /** Whatever may clear an entry goes back to such an answer. */
  ghost predicate Backed(w: World, m: Msg) {
    match m
    case Response(_, b, found) => found ==> Served(w, b)
    case Ingesting(b, origin) => origin.Fetched? ==> Served(w, b)
    case Clearing(b) => Served(w, b)
    case _ => true
  }

  ghost predicate Traced(w: World) {
    && (forall m :: m in w.flight ==> Backed(w, m))
    && (forall b :: b in w.announcing && w.announcing[b].Fetched? ==> Served(w, b))
  }

  lemma ServedStays(w: World, e: Event, b: nat)
    requires Served(w, b)
    ensures Served(Next(w, e), b)
  {
    var a: nat :| w.sent[Response(a, b, true)] > 0;
    assert Next(w, e).sent[Response(a, b, true)] > 0;
  }

  /** More messages and a longer record keep it. */
  lemma TracedGrows(w: World, w': World)
    requires Traced(w) && w.sent <= w'.sent
    requires forall m :: m in w'.flight ==> m in w.flight || Backed(w', m)
    requires forall b :: b in w'.announcing && w'.announcing[b].Fetched? ==>
      (b in w.announcing && w.announcing[b].Fetched?) || Served(w', b)
    ensures Traced(w')
  {
    forall b | Served(w, b)
      ensures Served(w', b)
    {
      var a: nat :| w.sent[Response(a, b, true)] > 0;
      assert w'.sent[Response(a, b, true)] > 0;
    }
    forall m | m in w'.flight
      ensures Backed(w', m)
    {
      assert m in w.flight ==> Backed(w, m);
    }
  }

  lemma HandleTraced(w: World, m: Msg, held: bool)
    requires Traced(w) && Backed(w, m)
    ensures Traced(Handle(w, m, held))
  {
    var w' := Handle(w, m, held);
    if m.Fetch? {
      assert w'.sent[Response(m.to, m.from, m.to in w.stored && !held)] > 0;
    }
    TracedGrows(w, w');
  }

  lemma TakeTraced(w: World, i: nat, held: bool)
    requires Traced(w) && i < |w.flight|
    ensures Traced(Next(w, Take(i, held)))
  {
    Removed(w.flight, i);
    var w' := w.(flight := Remove(w.flight, i));
    TracedGrows(w, w');
    assert Backed(w, w.flight[i]) && Backed(w', w.flight[i]);
    HandleTraced(w', w.flight[i], held);
  }

  lemma StepTraced(w: World, e: Event)
    requires Traced(w)
    ensures Traced(Next(w, e))
  {
    if Enabled(w, e) {
      match e
      case Take(i, held) => TakeTraced(w, i, held);
      case Lose(i) =>
        Removed(w.flight, i);
        TracedGrows(w, Next(w, e));
      case Write(_, _) => TracedGrows(w, Next(w, e));
      case Disconnect(_, _) => TracedGrows(w, Next(w, e));
      case Announce(at, peers) =>
        forall m | m in Next(w, e).flight
          ensures m in w.flight || m.Notify?
        {
          OnlyNotifies(at, peers, m);
        }
        TracedGrows(w, Next(w, e));
    }
  }

  lemma {:induction false} EveryRunTraced(n: nat, evs: seq<Event>)
    ensures Traced(Run(n, evs))
    decreases |evs|
  {
    if evs != [] {
      EveryRunTraced(n, evs[..|evs| - 1]);
      StepTraced(Run(n, evs[..|evs| - 1]), evs[|evs| - 1]);
    }
  }

  lemma StepLeavesEntry(w: World, e: Event, b: nat, a: nat)
    requires Traced(w) && b in w.pending && w.pending[b] == a && !Served(w, b) && e != Disconnect(b, a)
    ensures b in Next(w, e).pending && Next(w, e).pending[b] == a
  {
    PendingGoesIff(w, e, b);
    if e.Take? && e.i < |w.flight| {
      assert Backed(w, w.flight[e.i]);
    }
    StepKeepsAsked(w, e, b);
  }

  lemma StepKeepsAsked(w: World, e: Event, b: nat)
    requires b in w.pending && b in Next(w, e).pending
    ensures Next(w, e).pending[b] == w.pending[b]
  {
  }

  /** A node whose fetches were never answered with the blob keeps its entry until the peer it asked disconnects,
      whatever else arrives, and the blob among it: in every run, from event `from` on. */
  lemma {:induction false} EntryStays(n: nat, evs: seq<Event>, from: nat, b: nat, a: nat)
    requires from <= |evs| && !Served(Run(n, evs), b)
    requires b in Run(n, evs[..from]).pending && Run(n, evs[..from]).pending[b] == a
    requires forall j :: from <= j < |evs| ==> evs[j] != Disconnect(b, a)
    ensures PendingSince(n, evs, from, b) && Run(n, evs).pending[b] == a
    decreases |evs|
  {
    if from == |evs| {
      assert evs[..from] == evs;
    } else {
      var before, e := evs[..|evs| - 1], evs[|evs| - 1];
      assert before[..from] == evs[..from];
      var w := Run(n, before);
      if Served(w, b) {
        ServedStays(w, e, b);
        assert false;
      }
      EntryStays(n, before, from, b, a);
      EveryRunTraced(n, before);
      StepLeavesEntry(w, e, b, a);
    }
  }

  lemma RunOneMore(n: nat, evs: seq<Event>, e: Event)
    ensures Run(n, evs + [e]) == Next(Run(n, evs), e)
  {
    assert (evs + [e])[..|evs|] == evs;
  }

  // An answer that leaves its entry.

  /** What the example looks at. */
  predicate Looks(w: World, stored: set<nat>, ready: map<nat, Origin>, pending: map<nat, nat>, flight: seq<Msg>) {
    w.n == 3 && w.stored == stored && w.announcing == ready && w.pending == pending && w.flight == flight
  }

  lemma Wrote(w: World, at: nat, stored: set<nat>, pending: map<nat, nat>)
    requires Looks(w, stored, map[], pending, []) && at < 3
    ensures var w' := Next(w, Write(at, None));
      Looks(w', stored, map[], pending, [Ingesting(at, Client)]) && w'.asked == w.asked
  {
  }

  lemma Ingested(w: World, at: nat, stored: set<nat>, pending: map<nat, nat>)
    requires Looks(w, stored, map[], pending, [Ingesting(at, Client)]) && at !in stored
    ensures var w' := Next(w, Take(0, false));
      Looks(w', stored + {at}, map[at := Client], pending, []) && w'.asked == w.asked
  {
  }

  lemma Told(w: World, at: nat, stored: set<nat>, pending: map<nat, nat>)
    requires Looks(w, stored, map[at := Client], pending, []) && at < 3 && at != 1
    ensures var w' := Next(w, Announce(at, [1]));
      Looks(w', stored, map[], pending, [Notify(at, 1)]) && w'.asked == w.asked
  {
    assert Notifies(at, [1]) == [Notify(at, 1)];
    assert w.announcing - {at} == map[];
  }

  /** A node gets the blob from a client and notifies node 1. */
  function Publish(at: nat): seq<Event> {
    [Write(at, None), Take(0, false), Announce(at, [1])]
  }

  lemma ThreeMore(evs: seq<Event>, a: Event, b: Event, c: Event)
    ensures evs + [a, b, c] == evs + [a] + [b] + [c]
  {
  }

  lemma RunThreeMore(n: nat, evs: seq<Event>, a: Event, b: Event, c: Event)
    ensures Run(n, evs + [a, b, c]) == Next(Next(Next(Run(n, evs), a), b), c)
  {
    ThreeMore(evs, a, b, c);
    RunOneMore(n, evs, a);
    RunOneMore(n, evs + [a], b);
    RunOneMore(n, evs + [a] + [b], c);
  }

  lemma Published(evs: seq<Event>, at: nat, stored: set<nat>, pending: map<nat, nat>)
    requires Looks(Run(3, evs), stored, map[], pending, []) && at < 3 && at != 1 && at !in stored
    ensures var w := Run(3, evs + Publish(at));
      Looks(w, stored + {at}, map[], pending, [Notify(at, 1)]) && w.asked == Run(3, evs).asked
  {
    var w := Run(3, evs);
    RunThreeMore(3, evs, Write(at, None), Take(0, false), Announce(at, [1]));
    Wrote(w, at, stored, pending);
    var w1 := Next(w, Write(at, None));
    Ingested(w1, at, stored, pending);
    Told(Next(w1, Take(0, false)), at, stored + {at}, pending);
  }

  /** Node 0 has the blob, notifies node 1 and turns its fetch down. */
  function TurnedDown(): seq<Event> {
    Publish(0) + [Take(0, false), Take(0, true), Take(0, false)]
  }

  lemma TurnsDown(w: World)
    requires Looks(w, {0}, map[], map[], [Notify(0, 1)]) && w.asked == multiset{}
    ensures var w' := Next(Next(Next(w, Take(0, false)), Take(0, true)), Take(0, false));
      Looks(w', {0}, map[], map[1 := 0], []) && w'.asked[1] == 1
  {
    var w1 := Next(w, Take(0, false));
    assert Looks(w1, {0}, map[], map[1 := 0], [Fetch(1, 0)]);
    var w2 := Next(w1, Take(0, true));
    assert Looks(w2, {0}, map[], map[1 := 0], [Response(0, 1, false)]);
  }

  lemma TurnedDownStaysPending()
    ensures var w := Run(3, TurnedDown()); Looks(w, {0}, map[], map[1 := 0], []) && w.asked[1] == 1
  {
    Published([], 0, {}, map[]);
    assert [] + Publish(0) == Publish(0) && {} + {0} == {0};
    RunThreeMore(3, Publish(0), Take(0, false), Take(0, true), Take(0, false));
    TurnsDown(Run(3, Publish(0)));
  }

  /** The notify of a second peer is ignored: all is quiet, two peers have told node 1 of the blob, and it has none. */
  lemma SecondNotifyIgnored()
    ensures var w := Run(3, TurnedDown() + Publish(2) + [Take(0, false)]);
      Looks(w, {0, 2}, map[], map[1 := 0], []) && w.asked[1] == 1 && 1 !in w.stored
  {
    TurnedDownStaysPending();
    Published(TurnedDown(), 2, {0}, map[1 := 0]);
    RunOneMore(3, TurnedDown() + Publish(2), Take(0, false));
  }
}
