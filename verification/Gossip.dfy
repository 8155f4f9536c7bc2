/** Push gossip of one blob through any network of nodes (db/peer/blob_push_manager.cpp): a node that stores it
    notifies its peers, a notified node fetches it, and only a fresh store fans out again. The blob is not deleted
    and does not expire; which filters apply, which messages are lost and when anything runs is left open. */
module Gossip {
  import opened Basics
  import opened Octets

  /** How a copy came to a node: from a client, in a sync with a peer, or in a peer's answer to a fetch. */
  datatype Origin = Client | Synced(peer: nat) | Fetched(peer: nat)

  /** The peer that is not told of it. */
  function Source(o: Origin): Option<nat> {
    if o.Client? then None else Some(o.peer)
  }

  /** What is under way: messages on the network, and coroutines between two awaits. */
  datatype Msg =
    | Notify(from: nat, to: nat)
    | Fetch(from: nat, to: nat)
    | Response(from: nat, to: nat, found: bool)
    | Ingesting(at: nat, origin: Origin)   // before the engine's commit
    | Clearing(at: nat)                    // a fetched copy was a duplicate or was rejected

  /** `announcing`: stored, on the way back to the io thread to fan out. `sent` and `stores` count what every node
      has sent and how often it has stored the blob; `asked` and `cleared` how often it has fetched and how often its
      pending entry was removed. */
  datatype World = World(n: nat, stored: set<nat>, announced: set<nat>, announcing: map<nat, Origin>,
                         pending: map<nat, nat>, flight: seq<Msg>, sent: multiset<Msg>, stores: multiset<nat>,
                         asked: multiset<nat>, cleared: multiset<nat>)

  /** `held`: the one filter or check that may stop a step held (syncing, cap, rejected by the engine). */
  datatype Event =
    | Write(at: nat, source: Option<nat>)  // a client writes the blob, or a sync brings it
    | Take(i: nat, held: bool)
    | Lose(i: nat)
    | Announce(at: nat, peers: seq<nat>)
    | Disconnect(at: nat, peer: nat)

  function Initial(n: nat): World {
    World(n, {}, {}, map[], map[], [], multiset{}, multiset{}, multiset{}, multiset{})
  }

  predicate OnNetwork(m: Msg) {
    m.Notify? || m.Fetch? || m.Response?
  }

  /** The peer list has one entry for each peer, and the source is skipped. */
  predicate Enabled(w: World, e: Event) {
    match e
    case Write(at, _) => at < w.n
    case Take(i, _) => i < |w.flight|
    case Lose(i) => i < |w.flight| && OnNetwork(w.flight[i])
    case Announce(at, peers) =>
      && at in w.announcing && NoRepeats(peers) && (forall p :: p in peers ==> p < w.n && p != at)
      && (Source(w.announcing[at]).Some? ==> Source(w.announcing[at]).value !in peers)
    case Disconnect(_, _) => true
  }

  function Remove(s: seq<Msg>, i: nat): seq<Msg>
    requires i < |s|
  {
    s[..i] + s[i + 1..]
  }

  function Post(w: World, msgs: seq<Msg>): World {
    w.(flight := w.flight + msgs, sent := w.sent + multiset(msgs))
  }

  function Spawn(w: World, m: Msg): World {
    w.(flight := w.flight + [m])
  }

  /** The engine's commit: the check for a copy and the store are one segment. */
  function Commit(w: World, at: nat, origin: Origin, rejected: bool): World {
    if rejected || at in w.stored then (if origin.Fetched? then Spawn(w, Clearing(at)) else w)
    else w.(stored := w.stored + {at}, announcing := w.announcing[at := origin], stores := w.stores + multiset{at})
  }

  function Handle(w: World, m: Msg, held: bool): World {
    match m
    case Notify(from, to) =>
      if held || to in w.stored || to in w.pending then w
      else Post(w.(pending := w.pending[to := from], asked := w.asked + multiset{to}), [Fetch(to, from)])
    case Fetch(from, to) => Post(w, [Response(to, from, to in w.stored && !held)])
    case Response(from, to, found) => if found then Spawn(w, Ingesting(to, Fetched(from))) else w
    case Ingesting(at, origin) => Commit(w, at, origin, held)
    case Clearing(at) => Clear(w, at)
  }

  function Clear(w: World, at: nat): World {
    if at in w.pending then w.(pending := w.pending - {at}, cleared := w.cleared + multiset{at}) else w
  }

  function Notifies(from: nat, peers: seq<nat>): (r: seq<Msg>)
    ensures |r| == |peers|
    ensures forall i :: 0 <= i < |r| ==> r[i] == Notify(from, peers[i])
  {
    seq(|peers|, i requires 0 <= i < |peers| => Notify(from, peers[i]))
  }

  function FanOut(w: World, at: nat, peers: seq<nat>): World
    requires at in w.announcing
  {
    var w' := w.(announcing := w.announcing - {at}, announced := w.announced + {at});
    Post(if w.announcing[at].Fetched? then Clear(w', at) else w', Notifies(at, peers))
  }

  function Brought(source: Option<nat>): Origin {
    if source.None? then Client else Synced(source.value)
  }

  function Next(w: World, e: Event): World {
    if !Enabled(w, e) then w
    else
      match e
      case Write(at, source) => Spawn(w, Ingesting(at, Brought(source)))
      case Take(i, held) => Handle(w.(flight := Remove(w.flight, i)), w.flight[i], held)
      case Lose(i) => w.(flight := Remove(w.flight, i))
      case Announce(at, peers) => FanOut(w, at, peers)
      case Disconnect(at, peer) => if at in w.pending && w.pending[at] == peer then Clear(w, at) else w
  }

  function Run(n: nat, evs: seq<Event>): World {
    if evs == [] then Initial(n) else Next(Run(n, evs[..|evs| - 1]), evs[|evs| - 1])
  }

  // Counting.

  /** Everybody is a node. */
  predicate Local(n: nat, m: Msg) {
    match m
    case Notify(a, b) => a < n && b < n
    case Fetch(a, b) => a < n && b < n
    case Response(a, b, _) => a < n && b < n
    case Ingesting(a, _) => a < n
    case Clearing(a) => a < n
  }

  /** A node that stored the blob did so once, and either has fanned out or is about to. */
  ghost predicate Stores(w: World) {
    && (forall a :: a in w.stored <==> a in w.announced || a in w.announcing)
    && (forall a :: !(a in w.announced && a in w.announcing))
    && (forall a :: a in w.stored ==> a < w.n)
    && (forall a :: w.stores[a] == if a in w.stored then 1 else 0)
    && (forall m :: m in w.flight ==> Local(w.n, m))
  }

  function Flying(w: World, m: Msg): nat {
    multiset(w.flight)[m]
  }

  function Responses(w: World, a: nat, b: nat): nat {
    w.sent[Response(a, b, true)] + w.sent[Response(a, b, false)]
  }

  /** On each link: at most one notify, and only after a fan-out; a fetch for each notify at most; a response for
      each fetch at most. */
  predicate LinkBounds(w: World, a: nat, b: nat) {
    && w.sent[Notify(a, b)] <= (if a in w.announced then 1 else 0)
    && Flying(w, Notify(a, b)) + w.sent[Fetch(b, a)] <= w.sent[Notify(a, b)]
    && Flying(w, Fetch(b, a)) + Responses(w, a, b) <= w.sent[Fetch(b, a)]
  }

  ghost predicate Links(w: World) {
    forall a: nat, b: nat :: LinkBounds(w, a, b)
  }

  ghost predicate Sound(w: World) {
    Stores(w) && Links(w)
  }

  lemma Removed(s: seq<Msg>, i: nat)
    requires i < |s|
    ensures multiset(s) == multiset(Remove(s, i)) + multiset{s[i]}
    ensures forall m :: m in Remove(s, i) ==> m in s
  {
    assert s == s[..i] + [s[i]] + s[i + 1..];
  }

  /** Taking a message off, before it is handled, only lowers what is flying. */
  lemma RemoveSound(w: World, i: nat)
    requires Sound(w) && i < |w.flight|
    ensures var w' := w.(flight := Remove(w.flight, i));
      Sound(w') && RoomFor(w', w.flight[i]) && Local(w.n, w.flight[i])
  {
    var w' := w.(flight := Remove(w.flight, i));
    var m := w.flight[i];
    Removed(w.flight, i);
    forall a: nat, b: nat
      ensures LinkBounds(w', a, b)
    {
      assert LinkBounds(w, a, b);
    }
    match m
    case Notify(a, b) => assert LinkBounds(w, a, b);
    case Fetch(b, a) => assert LinkBounds(w, a, b);
    case _ =>
  }

  /** Before it is handled there is room for the answer to the message just taken off. */
  predicate RoomFor(w: World, m: Msg) {
    match m
    case Notify(a, b) => Flying(w, Notify(a, b)) + w.sent[Fetch(b, a)] < w.sent[Notify(a, b)]
    case Fetch(b, a) => Flying(w, Fetch(b, a)) + Responses(w, a, b) < w.sent[Fetch(b, a)]
    case _ => true
  }

  lemma PostCounts(w: World, m: Msg)
    ensures forall x :: Flying(Post(w, [m]), x) == Flying(w, x) + if x == m then 1 else 0
    ensures forall x :: Post(w, [m]).sent[x] == w.sent[x] + if x == m then 1 else 0
  {
  }

  /** An answer that there is room for. */
  lemma PostSound(w: World, asked: Msg, m: Msg)
    requires Sound(w) && RoomFor(w, asked) && Local(w.n, m)
    requires
      || (asked.Notify? && m == Fetch(asked.to, asked.from))
      || (asked.Fetch? && m.Response? && m.from == asked.to && m.to == asked.from)
    ensures Sound(Post(w, [m]))
  {
    PostCounts(w, m);
    forall a: nat, b: nat
      ensures LinkBounds(Post(w, [m]), a, b)
    {
      assert LinkBounds(w, a, b);
    }
  }

  lemma SpawnSound(w: World, m: Msg)
    requires Sound(w) && Local(w.n, m) && !OnNetwork(m)
    ensures Sound(Spawn(w, m))
  {
    forall a: nat, b: nat
      ensures LinkBounds(Spawn(w, m), a, b)
    {
      assert LinkBounds(w, a, b);
    }
  }

  lemma CommitSound(w: World, at: nat, origin: Origin, rejected: bool)
    requires Sound(w) && at < w.n
    ensures Sound(Commit(w, at, origin, rejected))
  {
    SpawnSound(w, Clearing(at));
    if !rejected && at !in w.stored {
      var w' := Commit(w, at, origin, rejected);
      forall a: nat, b: nat
        ensures LinkBounds(w', a, b)
      {
        assert LinkBounds(w, a, b);
      }
    }
  }

  lemma PendingSound(w: World, w': World)
    requires Sound(w) && w' == w.(pending := w'.pending, asked := w'.asked, cleared := w'.cleared)
    ensures Sound(w')
  {
    forall a: nat, b: nat
      ensures LinkBounds(w', a, b)
    {
      assert LinkBounds(w, a, b);
    }
  }

  lemma HandleSound(w: World, m: Msg, held: bool)
    requires Sound(w) && RoomFor(w, m) && Local(w.n, m)
    ensures Sound(Handle(w, m, held))
  {
    match m
    case Notify(a, b) =>
      var w' := w.(pending := w.pending[b := a], asked := w.asked + multiset{b});
      PendingSound(w, w');
      PostSound(w', m, Fetch(b, a));
    case Fetch(b, a) => PostSound(w, m, Response(a, b, a in w.stored && !held));
    case Response(a, b, found) => SpawnSound(w, Ingesting(b, Fetched(a)));
    case Ingesting(at, origin) => CommitSound(w, at, origin, held);
    case Clearing(at) => PendingSound(w, Clear(w, at));
  }

  lemma NotifiesOnce(from: nat, peers: seq<nat>, b: nat)
    requires NoRepeats(peers)
    ensures multiset(Notifies(from, peers))[Notify(from, b)] <= 1
  {
    CountOnce(Notifies(from, peers), Notify(from, b));
  }

  lemma {:induction false} CountOnce(s: seq<Msg>, m: Msg)
    requires forall i, j :: 0 <= i < j < |s| ==> s[i] != s[j]
    ensures multiset(s)[m] <= 1
  {
    if s != [] {
      assert s == [s[0]] + s[1..];
      CountOnce(s[1..], m);
      if s[0] == m {
        assert m !in s[1..];
      }
    }
  }

  lemma OnlyNotifies(from: nat, peers: seq<nat>, m: Msg)
    ensures multiset(Notifies(from, peers))[m] > 0 ==> m.Notify? && m.from == from && m.to in peers
  {
    if multiset(Notifies(from, peers))[m] > 0 {
      assert m in Notifies(from, peers);
    }
  }

  lemma FanOutLinks(w: World, at: nat, peers: seq<nat>, a: nat, b: nat)
    requires Enabled(w, Announce(at, peers)) && at !in w.announced && LinkBounds(w, a, b)
    ensures LinkBounds(FanOut(w, at, peers), a, b)
  {
    NotifiesOnce(at, peers, b);
    OnlyNotifies(at, peers, Notify(a, b));
    OnlyNotifies(at, peers, Fetch(b, a));
    OnlyNotifies(at, peers, Response(a, b, true));
    OnlyNotifies(at, peers, Response(a, b, false));
  }

  lemma FanOutSound(w: World, at: nat, peers: seq<nat>)
    requires Sound(w) && Enabled(w, Announce(at, peers))
    ensures Sound(FanOut(w, at, peers))
  {
    var w' := FanOut(w, at, peers);
    forall a: nat, b: nat
      ensures LinkBounds(w', a, b)
    {
      assert LinkBounds(w, a, b);
      FanOutLinks(w, at, peers, a, b);
    }
    forall m | m in w'.flight
      ensures Local(w.n, m)
    {
      OnlyNotifies(at, peers, m);
    }
  }

  lemma StepSound(w: World, e: Event)
    requires Sound(w)
    ensures Sound(Next(w, e))
  {
    if Enabled(w, e) {
      match e
      case Write(at, source) => SpawnSound(w, Ingesting(at, Brought(source)));
      case Take(i, held) =>
        RemoveSound(w, i);
        HandleSound(w.(flight := Remove(w.flight, i)), w.flight[i], held);
      case Lose(i) => RemoveSound(w, i);
      case Announce(at, peers) => FanOutSound(w, at, peers);
      case Disconnect(at, peer) => PendingSound(w, Clear(w, at));
    }
  }

  /** In every run, over any network: each node stores the blob at most once and notifies each peer at most once,
      and on each link fetches and responses are bounded by notifies. */
  lemma {:induction false} EveryRunSound(n: nat, evs: seq<Event>)
    ensures Sound(Run(n, evs))
    decreases |evs|
  {
    if evs != [] {
      EveryRunSound(n, evs[..|evs| - 1]);
      StepSound(Run(n, evs[..|evs| - 1]), evs[|evs| - 1]);
    }
  }

  /** A node has one fetch on its books at most: it asks again only after its pending entry was removed. */
  ghost predicate Booked(w: World) {
    forall b: nat :: w.asked[b] == w.cleared[b] + if b in w.pending then 1 else 0
  }

  lemma ClearBooked(w: World, at: nat)
    requires Booked(w)
    ensures Booked(Clear(w, at))
  {
  }

  lemma HandleBooked(w: World, m: Msg, held: bool)
    requires Booked(w)
    ensures Booked(Handle(w, m, held))
  {
    if m.Clearing? {
      ClearBooked(w, m.at);
    }
  }

  lemma FanOutBooked(w: World, at: nat, peers: seq<nat>)
    requires Booked(w) && at in w.announcing
    ensures Booked(FanOut(w, at, peers))
  {
    ClearBooked(w.(announcing := w.announcing - {at}, announced := w.announced + {at}), at);
  }

  lemma StepBooked(w: World, e: Event)
    requires Booked(w)
    ensures Booked(Next(w, e))
  {
    if Enabled(w, e) {
      match e
      case Write(at, source) =>
      case Take(i, held) => HandleBooked(w.(flight := Remove(w.flight, i)), w.flight[i], held);
      case Lose(i) =>
      case Announce(at, peers) => FanOutBooked(w, at, peers);
      case Disconnect(at, peer) => ClearBooked(w, at);
    }
  }

  /** In every run a node has sent at most one fetch more than its pending entry was removed. */
  lemma {:induction false} OneFetchAtATime(n: nat, evs: seq<Event>)
    ensures Booked(Run(n, evs))
    decreases |evs|
  {
    if evs != [] {
      OneFetchAtATime(n, evs[..|evs| - 1]);
      StepBooked(Run(n, evs[..|evs| - 1]), evs[|evs| - 1]);
    }
  }

  // Termination.

  function MsgWeight(m: Msg): nat {
    match m
    case Notify(_, _) => 5
    case Fetch(_, _) => 4
    case Response(_, _, _) => 3
    case Ingesting(_, _) => 2
    case Clearing(_) => 1
  }

  function Weight(s: seq<Msg>): nat {
    if s == [] then 0 else MsgWeight(s[0]) + Weight(s[1..])
  }

  function Times(c: nat, k: int): nat
    decreases k
  {
    if k <= 0 then 0 else c + Times(c, k - 1)
  }

  lemma {:induction false} TimesIs(c: nat, k: nat)
    ensures Times(c, k) == c * k
  {
    if k > 0 {
      TimesIs(c, k - 1);
      assert c * k == c * (k - 1) + c;
    }
  }

  /** The work a world still has in it: each node may yet store the blob and notify every other one. */
  function Work(w: World): nat {
    Times(5 * w.n, w.n - |w.stored|) + Times(5 * w.n + 1, |w.announcing|) + Weight(w.flight)
  }

  lemma {:induction false} WeightAppend(s: seq<Msg>, t: seq<Msg>)
    ensures Weight(s + t) == Weight(s) + Weight(t)
  {
    if s == [] {
      assert s + t == t;
    } else {
      assert (s + t)[1..] == s[1..] + t;
      WeightAppend(s[1..], t);
    }
  }

  lemma {:induction false} WeightRemove(s: seq<Msg>, i: nat)
    requires i < |s|
    ensures Weight(Remove(s, i)) == Weight(s) - MsgWeight(s[i])
  {
    if i == 0 {
      assert Remove(s, i) == s[1..];
    } else {
      assert Remove(s, i)[1..] == Remove(s[1..], i - 1);
      WeightRemove(s[1..], i - 1);
    }
  }

  lemma WeightOne(s: seq<Msg>, m: Msg)
    ensures Weight(s + [m]) == Weight(s) + MsgWeight(m)
  {
    WeightAppend(s, [m]);
  }

  lemma {:induction false} WeightNotifies(from: nat, peers: seq<nat>)
    ensures Weight(Notifies(from, peers)) == 5 * |peers|
  {
    if peers != [] {
      assert Notifies(from, peers)[1..] == Notifies(from, peers[1..]);
      WeightNotifies(from, peers[1..]);
    }
  }

  function Nodes(n: nat): (r: set<nat>)
    ensures |r| == n && forall p: nat :: p in r <==> p < n
  {
    if n == 0 then {} else Nodes(n - 1) + {n - 1}
  }

  lemma FewPeers(peers: seq<nat>, n: nat)
    requires NoRepeats(peers) && forall p :: p in peers ==> p < n
    ensures |peers| <= n
  {
    SubsetCount(peers, Nodes(n));
  }

  lemma {:induction false} SubsetCount(peers: seq<nat>, all: set<nat>)
    requires NoRepeats(peers) && forall p :: p in peers ==> p in all
    ensures |peers| <= |all|
  {
    if peers != [] {
      var rest := peers[1..];
      assert forall k :: 0 <= k < |rest| ==> rest[k] == peers[k + 1];
      assert forall p :: p in rest ==> p != peers[0];
      SubsetCount(rest, all - {peers[0]});
    }
  }

  lemma TimesStep(c: nat, k: int)
    requires k > 0
    ensures Times(c, k) == c + Times(c, k - 1)
  {
  }

  lemma WorkIs(w: World, free: int, ready: int)
    requires free == w.n - |w.stored| && ready == |w.announcing|
    ensures Work(w) == Times(5 * w.n, free) + Times(5 * w.n + 1, ready) + Weight(w.flight)
  {
  }

  /** A node without the blob has its share of the work left. */
  predicate HasShare(w: World, at: nat) {
    at !in w.stored ==> |w.stored| < w.n && at !in w.announcing
  }

  lemma StoredShare(w: World, at: nat)
    requires Stores(w) && at < w.n
    ensures HasShare(w, at)
  {
    if at !in w.stored {
      SubsetSize(w.stored + {at}, Nodes(w.n));
    }
  }

  /** A fresh store moves it to the fan-out. */
  lemma StoreWorks(w: World, at: nat, origin: Origin)
    requires HasShare(w, at) && at !in w.stored
    ensures Work(Commit(w, at, origin, false)) == Work(w) + 1
  {
    var w' := Commit(w, at, origin, false);
    var free, ready := w.n - |w.stored|, |w.announcing|;
    assert |w'.announcing| == ready + 1 && w'.n - |w'.stored| == free - 1;
    TimesStep(5 * w.n, free);
    TimesStep(5 * w.n + 1, ready + 1);
    WorkIs(w', free - 1, ready + 1);
    WorkIs(w, free, ready);
  }

  lemma CommitWorks(w: World, at: nat, origin: Origin, held: bool)
    requires HasShare(w, at)
    ensures Work(Commit(w, at, origin, held)) <= Work(w) + 1
  {
    if !held && at !in w.stored {
      StoreWorks(w, at, origin);
    } else {
      WeightOne(w.flight, Clearing(at));
    }
  }

  lemma HandleWorks(w: World, m: Msg, held: bool)
    requires m.Ingesting? ==> HasShare(w, m.at)
    ensures Work(Handle(w, m, held)) < Work(w) + MsgWeight(m)
  {
    match m
    case Notify(a, b) => WeightOne(w.flight, Fetch(b, a));
    case Fetch(a, b) => WeightOne(w.flight, Response(b, a, b in w.stored && !held));
    case Response(a, b, found) => WeightOne(w.flight, Ingesting(b, Fetched(a)));
    case Ingesting(at, origin) => CommitWorks(w, at, origin, held);
    case Clearing(at) =>
  }

  lemma RemoveWorks(w: World, i: nat)
    requires i < |w.flight|
    ensures Work(w.(flight := Remove(w.flight, i))) == Work(w) - MsgWeight(w.flight[i])
  {
    var w' := w.(flight := Remove(w.flight, i));
    WeightRemove(w.flight, i);
    WorkIs(w, w.n - |w.stored|, |w.announcing|);
    WorkIs(w', w.n - |w.stored|, |w.announcing|);
  }

  lemma TakenShare(w: World, i: nat)
    requires Sound(w) && i < |w.flight|
    ensures w.flight[i].Ingesting? ==> HasShare(w.(flight := Remove(w.flight, i)), w.flight[i].at)
  {
    if w.flight[i].Ingesting? {
      assert Local(w.n, w.flight[i]);
      StoredShare(w, w.flight[i].at);
    }
  }

  lemma TakeWorks(w: World, i: nat, held: bool)
    requires Sound(w) && i < |w.flight|
    ensures Work(Handle(w.(flight := Remove(w.flight, i)), w.flight[i], held)) < Work(w)
  {
    TakenShare(w, i);
    RemoveWorks(w, i);
    HandleWorks(w.(flight := Remove(w.flight, i)), w.flight[i], held);
  }

  lemma WriteWorks(w: World, at: nat, source: Option<nat>)
    ensures Work(Spawn(w, Ingesting(at, Brought(source)))) == Work(w) + 2
  {
    WeightOne(w.flight, Ingesting(at, Brought(source)));
  }

  lemma FanOutWorks(w: World, at: nat, peers: seq<nat>)
    requires Enabled(w, Announce(at, peers))
    ensures Work(FanOut(w, at, peers)) < Work(w)
  {
    var w' := FanOut(w, at, peers);
    var free, ready := w.n - |w.stored|, |w.announcing|;
    FewPeers(peers, w.n);
    WeightNotifies(at, peers);
    WeightAppend(w.flight, Notifies(at, peers));
    assert w'.announcing.Keys == w.announcing.Keys - {at};
    assert |w'.announcing| == ready - 1;
    TimesStep(5 * w.n + 1, ready);
    WorkIs(w, free, ready);
    WorkIs(w', free, ready - 1);
  }

  /** A step of the gossip itself, as opposed to a write, a disconnect or a step that is not possible. */
  predicate Gossips(w: World, e: Event) {
    Enabled(w, e) && (e.Take? || e.Lose? || e.Announce?)
  }

  predicate Writes(w: World, e: Event) {
    Enabled(w, e) && e.Write?
  }

  lemma DisconnectWorks(w: World, at: nat, peer: nat)
    ensures Work(Next(w, Disconnect(at, peer))) == Work(w)
  {
    var w' := Next(w, Disconnect(at, peer));
    WorkIs(w, w.n - |w.stored|, |w.announcing|);
    WorkIs(w', w.n - |w.stored|, |w.announcing|);
  }

  /** Every gossip step lowers the work; a write adds two; nothing else changes it. */
  lemma StepWorks(w: World, e: Event)
    requires Sound(w)
    ensures Gossips(w, e) ==> Work(Next(w, e)) < Work(w)
    ensures Writes(w, e) ==> Work(Next(w, e)) == Work(w) + 2
    ensures !Gossips(w, e) && !Writes(w, e) ==> Work(Next(w, e)) == Work(w)
  {
    if Enabled(w, e) {
      match e
      case Write(at, source) =>
        WriteWorks(w, at, source);
        assert Next(w, e) == Spawn(w, Ingesting(at, Brought(source)));
      case Take(i, held) =>
        TakeWorks(w, i, held);
        assert Next(w, e) == Handle(w.(flight := Remove(w.flight, i)), w.flight[i], held);
      case Lose(i) =>
        RemoveWorks(w, i);
        assert Next(w, e) == w.(flight := Remove(w.flight, i));
      case Announce(at, peers) =>
        FanOutWorks(w, at, peers);
        assert Next(w, e) == FanOut(w, at, peers);
      case Disconnect(at, peer) => DisconnectWorks(w, at, peer);
    }
  }

  function GossipSteps(n: nat, evs: seq<Event>): nat {
    if evs == [] then 0
    else GossipSteps(n, evs[..|evs| - 1]) + if Gossips(Run(n, evs[..|evs| - 1]), evs[|evs| - 1]) then 1 else 0
  }

  function WriteSteps(n: nat, evs: seq<Event>): nat {
    if evs == [] then 0
    else WriteSteps(n, evs[..|evs| - 1]) + if Writes(Run(n, evs[..|evs| - 1]), evs[|evs| - 1]) then 1 else 0
  }

  lemma InitialWork(n: nat)
    ensures Work(Initial(n)) == Times(5 * n, n)
  {
  }

  lemma {:induction false} WorkBounds(n: nat, evs: seq<Event>)
    ensures GossipSteps(n, evs) + Work(Run(n, evs)) <= Times(5 * n, n) + 2 * WriteSteps(n, evs)
    decreases |evs|
  {
    if evs == [] {
      InitialWork(n);
    } else {
      var before, e := evs[..|evs| - 1], evs[|evs| - 1];
      WorkBounds(n, before);
      EveryRunSound(n, before);
      StepWorks(Run(n, before), e);
    }
  }

  lemma SubsetSize(a: set<nat>, b: set<nat>)
    requires a <= b
    ensures |a| <= |b|
  {
    assert b == a + (b - a);
  }

  /** Gossip terminates: on any network of n nodes a run has at most 5n² gossip steps, and two more for each write,
      however long it goes on and whatever cycles the peers form. */
  lemma GossipTerminates(n: nat, evs: seq<Event>)
    ensures GossipSteps(n, evs) <= 5 * n * n + 2 * WriteSteps(n, evs)
  {
    WorkBounds(n, evs);
    TimesIs(5 * n, n);
  }
}
