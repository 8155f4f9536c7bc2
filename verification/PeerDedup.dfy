/** Connection dedup (db/peer/connection_manager.cpp): two nodes may dial each other at the same time; each side
    drops one of the two connections, on its own, as their handshakes finish in whatever order. */
module PeerDedup {
  import opened Octets

  /** One end of a connection. `ns` is the other side's namespace, `peer` says it declared the peer role. */
  datatype Conn = Conn(id: nat, ns: Bytes, initiator: bool, peer: bool)

  /** `dropped` records what dedup has closed. */
  datatype Node = Node(own: Bytes, peers: seq<Conn>, dropped: seq<Conn>)

  /** A handshake finished, with the access-control verdict; or a connection went away. */
  datatype Event = Up(conn: Conn, allowed: bool) | Down(conn: Conn)

  /** The entry for a namespace, whatever its role; past the end if there is none. */
  function Find(peers: seq<Conn>, ns: Bytes): (i: nat)
    ensures i <= |peers|
    ensures i < |peers| ==> peers[i].ns == ns
    ensures forall j :: 0 <= j < i ==> peers[j].ns != ns
  {
    if peers == [] || peers[0].ns == ns then 0
    else
      var i := 1 + Find(peers[1..], ns);
      assert forall j :: 0 < j < i ==> peers[j] == peers[1..][j - 1];
      i
  }

  /** The connection that the smaller namespace opened is the one to keep. */
  predicate Prefers(own: Bytes, c: Conn) {
    if Less(own, c.ns) then c.initiator else !c.initiator
  }

  function Without(peers: seq<Conn>, c: Conn): (r: seq<Conn>)
    ensures forall x :: x in r <==> x in peers && x != c
  {
    if peers == [] then []
    else if peers[0] == c then Without(peers[1..], c)
    else [peers[0]] + Without(peers[1..], c)
  }

  function Connected(n: Node, c: Conn): Node {
    var i := Find(n.peers, c.ns);
    if !c.peer || i == |n.peers| then n.(peers := n.peers + [c])
    else if Prefers(n.own, c) then
      n.(peers := n.peers[..i] + n.peers[i + 1..] + [c], dropped := n.dropped + [n.peers[i]])
    else n.(dropped := n.dropped + [c])
  }

  function Next(n: Node, e: Event): Node {
    match e
    case Up(c, allowed) => if allowed then Connected(n, c) else n
    case Down(c) => n.(peers := Without(n.peers, c))
  }

  function Run(own: Bytes, evs: seq<Event>): Node {
    if evs == [] then Node(own, [], []) else Next(Run(own, evs[..|evs| - 1]), evs[|evs| - 1])
  }

  /** The manager's deque, changed in place. */
  class ConnectionManager {
    const own: Bytes
    var peers: seq<Conn>
    ghost var dropped: seq<Conn>

    constructor (own: Bytes)
      ensures Value() == Run(own, [])
    {
      this.own, peers := own, [];
      dropped := [];
    }

    ghost function Value(): Node
      reads this
    {
      Node(own, peers, dropped)
    }

    method OnPeerConnected(c: Conn, allowed: bool)
      modifies this
      ensures Value() == Next(old(Value()), Up(c, allowed))
    {
      if !allowed {
        return;
      }
      if c.peer {
        var i := 0;
        while i < |peers| && peers[i].ns != c.ns
          invariant i <= |peers| && forall j :: 0 <= j < i ==> peers[j].ns != c.ns
        {
          i := i + 1;
        }
        if i < |peers| {
          if Prefers(own, c) {
            dropped := dropped + [peers[i]];
            peers := peers[..i] + peers[i + 1..];
          } else {
            dropped := dropped + [c];
            return;
          }
        }
      }
      peers := peers + [c];
    }

    method OnPeerDisconnected(c: Conn)
      modifies this`peers
      ensures Value() == Next(old(Value()), Down(c))
    {
      var kept: seq<Conn>, i := [], 0;
      while i < |peers|
        invariant i <= |peers| && kept + Without(peers[i..], c) == Without(peers, c)
      {
        if peers[i] != c {
          kept := kept + [peers[i]];
        }
        assert peers[i..][1..] == peers[i + 1..];
        i := i + 1;
      }
      peers := kept;
    }
  }

  lemma {:induction false} RunOwn(own: Bytes, evs: seq<Event>)
    ensures Run(own, evs).own == own
    decreases |evs|
  {
    if evs != [] {
      RunOwn(own, evs[..|evs| - 1]);
    }
  }

  // One node and one other namespace: what is dropped.

  /** A peer connection with `p` that the node is to keep. */
  predicate Preferred(own: Bytes, c: Conn, p: Bytes) {
    c.ns == p && c.peer && Prefers(own, c)
  }

  /** No such connection has been dropped. */
  predicate Spares(n: Node, p: Bytes) {
    forall c :: c in n.dropped ==> !Preferred(n.own, c, p)
  }

  /** A connection to keep comes up while the entry for its namespace is another one to keep. */
  predicate Doubles(n: Node, e: Event, p: Bytes) {
    && e.Up? && e.allowed && Preferred(n.own, e.conn, p)
    && var i := Find(n.peers, p); i < |n.peers| && Preferred(n.own, n.peers[i], p)
  }

  predicate NeverDoubles(own: Bytes, evs: seq<Event>, p: Bytes) {
    evs == [] ||
    (NeverDoubles(own, evs[..|evs| - 1], p) && !Doubles(Run(own, evs[..|evs| - 1]), evs[|evs| - 1], p))
  }

  lemma StepSparesIff(n: Node, e: Event, p: Bytes)
    ensures Spares(Next(n, e), p) <==> Spares(n, p) && !Doubles(n, e, p)
  {
    var n' := Next(n, e);
    assert n.dropped <= n'.dropped;
    if Spares(n', p) {
      assert forall c :: c in n.dropped ==> c in n'.dropped;
    }
    if Doubles(n, e, p) {
      assert n'.dropped[|n.dropped|] == n.peers[Find(n.peers, p)];
    }
  }

  /** A connection to keep is dropped in a run exactly if another one to keep came up while it was listed. */
  lemma {:induction false} SparedIff(own: Bytes, evs: seq<Event>, p: Bytes)
    ensures Spares(Run(own, evs), p) <==> NeverDoubles(own, evs, p)
    decreases |evs|
  {
    if evs != [] {
      SparedIff(own, evs[..|evs| - 1], p);
      StepSparesIff(Run(own, evs[..|evs| - 1]), evs[|evs| - 1], p);
    }
  }

  // What is listed.

  /** It has come up and has not gone since. */
  predicate Live(evs: seq<Event>, c: Conn) {
    evs != [] && var e := evs[|evs| - 1]; e == Up(c, true) || (e != Down(c) && Live(evs[..|evs| - 1], c))
  }

  lemma {:induction false} ListedIsLive(own: Bytes, evs: seq<Event>, c: Conn)
    requires c in Run(own, evs).peers
    ensures Live(evs, c)
    decreases |evs|
  {
    if evs != [] {
      var before := evs[..|evs| - 1];
      if c in Run(own, before).peers {
        ListedIsLive(own, before, c);
      }
    }
  }

  /** Without doubling the connections to keep that are listed are those that are live. */
  lemma {:induction false} KeptIffLive(own: Bytes, evs: seq<Event>, p: Bytes, c: Conn)
    requires NeverDoubles(own, evs, p) && Preferred(own, c, p)
    ensures c in Run(own, evs).peers <==> Live(evs, c)
    decreases |evs|
  {
    if evs != [] {
      KeptIffLive(own, evs[..|evs| - 1], p, c);
      RunOwn(own, evs[..|evs| - 1]);
    }
  }

  predicate PeerEntry(c: Conn, p: Bytes) {
    c.ns == p && c.peer
  }

  predicate OnePeer(peers: seq<Conn>, p: Bytes) {
    forall i, j :: 0 <= i < j < |peers| ==> !(PeerEntry(peers[i], p) && PeerEntry(peers[j], p))
  }

  /** Dedup looks at the first entry of the namespace, whatever its role; here that is a client's, with a peer's behind
      it. */
  predicate Shadows(n: Node, e: Event, p: Bytes) {
    && e.Up? && e.allowed && Preferred(n.own, e.conn, p)
    && var i := Find(n.peers, p); i < |n.peers| && !n.peers[i].peer && exists c :: c in n.peers && PeerEntry(c, p)
  }

  predicate NeverShadows(own: Bytes, evs: seq<Event>, p: Bytes) {
    evs == [] ||
    (NeverShadows(own, evs[..|evs| - 1], p) && !Shadows(Run(own, evs[..|evs| - 1]), evs[|evs| - 1], p))
  }

  predicate OnePeerThroughout(own: Bytes, evs: seq<Event>, p: Bytes) {
    OnePeer(Run(own, evs).peers, p) && (evs == [] || OnePeerThroughout(own, evs[..|evs| - 1], p))
  }

  lemma {:induction false} WithoutKeepsOne(peers: seq<Conn>, c: Conn, p: Bytes)
    requires OnePeer(peers, p)
    ensures OnePeer(Without(peers, c), p)
  {
    if peers != [] {
      var rest := peers[1..];
      assert forall k :: 0 <= k < |rest| ==> rest[k] == peers[k + 1];
      WithoutKeepsOne(rest, c, p);
      assert PeerEntry(peers[0], p) ==> forall x :: x in rest ==> !PeerEntry(x, p);
    }
  }

  /** Taking out entry `i` and putting `c` at the end. */
  lemma ReplaceOne(peers: seq<Conn>, i: nat, c: Conn, p: Bytes)
    requires OnePeer(peers, p) && i < |peers|
    ensures OnePeer(peers[..i] + peers[i + 1..] + [c], p) <==>
      !(PeerEntry(c, p) && exists j :: 0 <= j < |peers| && j != i && PeerEntry(peers[j], p))
  {
    var kept := peers[..i] + peers[i + 1..];
    assert forall j :: 0 <= j < |kept| ==> kept[j] == if j < i then peers[j] else peers[j + 1];
    if PeerEntry(c, p) && exists j :: 0 <= j < |peers| && j != i && PeerEntry(peers[j], p) {
      var j :| 0 <= j < |peers| && j != i && PeerEntry(peers[j], p);
      assert (kept + [c])[if j < i then j else j - 1] == peers[j] && (kept + [c])[|kept|] == c;
    }
  }

  lemma UpOneIff(n: Node, c: Conn, p: Bytes)
    requires OnePeer(n.peers, p)
    ensures OnePeer(Connected(n, c).peers, p) <==> !Shadows(n, Up(c, true), p)
  {
    var i := Find(n.peers, c.ns);
    if c.peer && i < |n.peers| && Prefers(n.own, c) {
      ReplaceOne(n.peers, i, c, p);
      if Shadows(n, Up(c, true), p) {
        var x :| x in n.peers && PeerEntry(x, p);
        var j :| 0 <= j < |n.peers| && n.peers[j] == x;
        assert j != i;
      }
    }
  }

  lemma StepOneIff(n: Node, e: Event, p: Bytes)
    requires OnePeer(n.peers, p)
    ensures OnePeer(Next(n, e).peers, p) <==> !Shadows(n, e, p)
  {
    match e
    case Up(c, allowed) => UpOneIff(n, c, p);
    case Down(c) => WithoutKeepsOne(n.peers, c, p);
  }

  /** The list has at most one peer entry for a namespace at every point of a run exactly if no client of that
      namespace ever stood before one. */
  lemma {:induction false} OnePeerIff(own: Bytes, evs: seq<Event>, p: Bytes)
    ensures OnePeerThroughout(own, evs, p) <==> NeverShadows(own, evs, p)
    decreases |evs|
  {
    if evs != [] {
      OnePeerIff(own, evs[..|evs| - 1], p);
      if OnePeerThroughout(own, evs[..|evs| - 1], p) {
        StepOneIff(Run(own, evs[..|evs| - 1]), evs[|evs| - 1], p);
      }
    }
  }

  // When it does not come to that.

  /** While a connection with `p` is live, none of the same direction comes up: each side dials one at a time. */
  ghost predicate DialsOnce(evs: seq<Event>, p: Bytes) {
    evs == [] ||
    var before, e := evs[..|evs| - 1], evs[|evs| - 1];
    && DialsOnce(before, p)
    && (e.Up? && e.conn.ns == p ==> forall c :: Live(before, c) && c.ns == p ==> c.initiator != e.conn.initiator)
  }

  predicate PeersOnly(evs: seq<Event>, p: Bytes) {
    forall e :: e in evs && e.Up? && e.conn.ns == p ==> e.conn.peer
  }

  lemma {:induction false} DialsOnceSuffices(own: Bytes, evs: seq<Event>, p: Bytes)
    requires DialsOnce(evs, p)
    ensures NeverDoubles(own, evs, p)
    decreases |evs|
  {
    if evs != [] {
      var before, e := evs[..|evs| - 1], evs[|evs| - 1];
      DialsOnceSuffices(own, before, p);
      var n := Run(own, before);
      if Doubles(n, e, p) {
        ListedIsLive(own, before, n.peers[Find(n.peers, p)]);
        assert false;
      }
    }
  }

  lemma {:induction false} LiveCameUp(evs: seq<Event>, c: Conn)
    requires Live(evs, c)
    ensures Up(c, true) in evs
    decreases |evs|
  {
    if evs[|evs| - 1] != Up(c, true) {
      LiveCameUp(evs[..|evs| - 1], c);
    }
  }

  lemma {:induction false} PeersOnlySuffices(own: Bytes, evs: seq<Event>, p: Bytes)
    requires PeersOnly(evs, p)
    ensures NeverShadows(own, evs, p)
    decreases |evs|
  {
    if evs != [] {
      var before, e := evs[..|evs| - 1], evs[|evs| - 1];
      PeersOnlySuffices(own, before, p);
      var n := Run(own, before);
      if Shadows(n, e, p) {
        var c := n.peers[Find(n.peers, p)];
        ListedIsLive(own, before, c);
        LiveCameUp(before, c);
        assert false;
      }
    }
  }

  // Two nodes.

  /** The other end of a connection between `a` and `b`, seen from `a`. */
  predicate SameConnection(atA: Conn, a: Bytes, atB: Conn, b: Bytes) {
    atA.id == atB.id && atA.ns == b && atB.ns == a && atA.initiator == !atB.initiator
  }

  /** Both ends prefer the same connection: the one the smaller namespace opened. */
  lemma PreferenceShared(atA: Conn, a: Bytes, atB: Conn, b: Bytes)
    requires a != b && SameConnection(atA, a, atB, b)
    ensures Prefers(a, atA) <==> Prefers(b, atB)
    ensures Prefers(a, atA) <==> (if Less(a, b) then atA.initiator else atB.initiator)
  {
    LessTotal(a, b);
    if Less(a, b) && Less(b, a) {
      LessTransitive(a, b, a);
      LessIrreflexive(a);
    }
  }

  /** Whatever each side saw and in whatever order, with any number of reconnects: the connection the smaller namespace
      opened is dropped by neither, and while it is live it is each side's one peer entry for the other. */
  lemma BothKeepTheSame(a: Bytes, b: Bytes, evsA: seq<Event>, evsB: seq<Event>, atA: Conn, atB: Conn)
    requires a != b && SameConnection(atA, a, atB, b) && atA.peer && atB.peer && Prefers(a, atA)
    requires NeverDoubles(a, evsA, b) && NeverDoubles(b, evsB, a)
    requires NeverShadows(a, evsA, b) && NeverShadows(b, evsB, a)
    ensures atA !in Run(a, evsA).dropped && atB !in Run(b, evsB).dropped
    ensures Live(evsA, atA) ==> forall c :: c in Run(a, evsA).peers && PeerEntry(c, b) <==> c == atA
    ensures Live(evsB, atB) ==> forall c :: c in Run(b, evsB).peers && PeerEntry(c, a) <==> c == atB
  {
    PreferenceShared(atA, a, atB, b);
    KeepsIt(a, evsA, b, atA);
    KeepsIt(b, evsB, a, atB);
  }

  lemma KeepsIt(own: Bytes, evs: seq<Event>, p: Bytes, c: Conn)
    requires NeverDoubles(own, evs, p) && NeverShadows(own, evs, p) && Preferred(own, c, p)
    ensures c !in Run(own, evs).dropped
    ensures Live(evs, c) ==> forall x :: x in Run(own, evs).peers && PeerEntry(x, p) <==> x == c
  {
    RunOwn(own, evs);
    SparedIff(own, evs, p);
    KeptIffLive(own, evs, p, c);
    OnePeerIff(own, evs, p);
  }

  /** A second connection of the kept direction replaces the first, live or not. */
  lemma NewerReplaces(own: Bytes, evs: seq<Event>, c: Conn, d: Conn)
    requires Preferred(own, c, d.ns) && Preferred(own, d, d.ns) && c != d
    requires Run(own, evs).peers == [c]
    ensures var n := Run(own, evs + [Up(d, true)]); n.peers == [d] && c in n.dropped
  {
    RunOwn(own, evs);
    var n := Run(own, evs);
    assert (evs + [Up(d, true)])[..|evs|] == evs;
    assert Find([c], d.ns) == 0;
    assert Connected(n, d).dropped[|n.dropped|] == c;
  }

  /** Two clients of a namespace let two peer connections of the kept direction stand beside each other. */
  lemma ClientsShadow(own: Bytes, k: Conn, l: Conn, c: Conn, d: Conn)
    requires k.ns == l.ns == c.ns == d.ns && !k.peer && !l.peer
    requires Preferred(own, c, k.ns) && Preferred(own, d, k.ns)
    ensures Run(own, [Up(k, true), Up(l, true), Up(c, true), Up(d, true)]).peers == [c, d]
  {
    var e1, e2, e3 := [Up(k, true)], [Up(k, true), Up(l, true)], [Up(k, true), Up(l, true), Up(c, true)];
    var e4 := [Up(k, true), Up(l, true), Up(c, true), Up(d, true)];
    assert e1[..0] == [] && e2[..1] == e1 && e3[..2] == e2 && e4[..3] == e3;
    assert Run(own, e1) == Node(own, [k], []);
    assert Run(own, e2).peers == [k, l];
    assert Run(own, e3).peers == [l, c];
  }
}
