/** The blob-cap exchange between two peers (db/peer/message_dispatcher.cpp): a request is answered with the cap, and
    then reciprocated if the other side's cap is still unknown, which is written as 0. Channels are FIFO; the check
    comes after the answer has gone out, so other messages may be handled in between. */
module CapExchange {
  import opened Octets

  // The response on the wire.

  datatype NodeInfo = NodeInfo(version: Bytes, counters: Bytes, cap: nat, tail: Bytes)

  /** `counters` stands for uptime, peers, namespaces, blobs and storage, 40 bytes in all. */
  function EncodeInfo(i: NodeInfo): Bytes {
    [(|i.version| % 256) as byte] + i.version + i.counters + BigEndian(i.cap, 8) + i.tail
  }

  function ReadCap(payload: Bytes): Option<nat> {
    if |payload| < 1 then None
    else
      var off := 1 + payload[0] as nat + 40;
      if off + 8 > |payload| then None else Some(ReadBigEndian(payload[off..off + 8]))
  }

  lemma CapReadsBack(i: NodeInfo)
    requires |i.version| < 256 && |i.counters| == 40 && i.cap < TWO_64
    ensures ReadCap(EncodeInfo(i)) == Some(i.cap)
  {
    var p := EncodeInfo(i);
    var off := 1 + |i.version| + 40;
    SpanValues();
    BigEndianRoundTrip(i.cap, 8);
    assert p[off..off + 8] == BigEndian(i.cap, 8);
  }

  // The protocol.

  /** `gen` tells how many reciprocations led to a request: a spontaneous one has 0. */
  datatype Msg = Req(gen: nat) | Resp(cap: nat)

  /** `known` is the other's cap, 0 if unknown; `checks` are the handlers that have answered and not yet decided
      whether to reciprocate; `inbox` is the channel from the other side. */
  datatype Peer = Peer(cap: nat, known: nat, checks: seq<nat>, inbox: seq<Msg>)

  datatype Side = A | B

  datatype World = World(a: Peer, b: Peer, started: bool)

  datatype Event = Start(side: Side) | Read(side: Side) | Decide(side: Side, i: nat)

  function Of(w: World, s: Side): Peer {
    if s == A then w.a else w.b
  }

  function Other(s: Side): Side {
    if s == A then B else A
  }

  function With(w: World, s: Side, me: Peer, them: Peer): World {
    if s == A then w.(a := me, b := them) else w.(a := them, b := me)
  }

  function Send(p: Peer, m: Msg): Peer {
    p.(inbox := p.inbox + [m])
  }

  predicate Enabled(w: World, e: Event) {
    match e
    case Start(_) => true
    case Read(s) => Of(w, s).inbox != []
    case Decide(s, i) => i < |Of(w, s).checks|
  }

  function Next(w: World, e: Event): World {
    if !Enabled(w, e) then w
    else
      var me, them := Of(w, e.side), Of(w, Other(e.side));
      match e
      case Start(s) => With(w, s, me, Send(them, Req(0))).(started := true)
      case Read(s) =>
        var rest := me.(inbox := me.inbox[1..]);
        (match me.inbox[0]
         case Req(g) => With(w, s, rest.(checks := rest.checks + [g]), Send(them, Resp(me.cap)))
         case Resp(c) => With(w, s, rest.(known := c), them))
      case Decide(s, i) =>
        var rest := me.(checks := me.checks[..i] + me.checks[i + 1..]);
        With(w, s, rest, if me.known == 0 then Send(them, Req(me.checks[i] + 1)) else them)
  }

  function Initial(capA: nat, capB: nat): World {
    World(Peer(capA, 0, [], []), Peer(capB, 0, [], []), false)
  }

  function Run(capA: nat, capB: nat, evs: seq<Event>): World {
    if evs == [] then Initial(capA, capB) else Next(Run(capA, capB, evs[..|evs| - 1]), evs[|evs| - 1])
  }

  // What every run keeps.

  predicate HasReq(inbox: seq<Msg>) {
    exists i :: 0 <= i < |inbox| && inbox[i].Req?
  }

  predicate HasResp(inbox: seq<Msg>) {
    exists i :: 0 <= i < |inbox| && inbox[i].Resp?
  }

  /** The other side's cap has reached `p`, or is in its channel. */
  predicate Told(p: Peer, cap: nat) {
    p.known == cap || HasResp(p.inbox)
  }

  /** A reciprocal request never overtakes the answer that went out before it. */
  predicate AnswersFirst(p: Peer, cap: nat) {
    forall i :: 0 <= i < |p.inbox| && p.inbox[i].Req? && p.inbox[i].gen > 0 ==> p.known == cap || HasResp(p.inbox[..i])
  }

  /** How far reciprocation has gone: a second one needs a zero cap on the side it went to, a third one on both. */
  predicate GenBound(g: nat, mine: nat, theirs: nat) {
    (g >= 2 ==> mine == 0) && (g >= 3 ==> theirs == 0)
  }

  predicate GensBounded(p: Peer, cap: nat) {
    && (forall i :: 0 <= i < |p.inbox| && p.inbox[i].Req? ==> GenBound(p.inbox[i].gen, p.cap, cap))
    && (forall g :: g in p.checks ==> GenBound(g, p.cap, cap) && (g > 0 ==> p.known == cap))
  }

  /** `p` sees only the other's cap, `them`'s. */
  predicate PeerSound(p: Peer, them: Peer) {
    && p.known in {0, them.cap}
    && (forall i :: 0 <= i < |p.inbox| && p.inbox[i].Resp? ==> p.inbox[i].cap == them.cap)
    && AnswersFirst(p, them.cap) && GensBounded(p, them.cap)
    && (them.checks != [] ==> Told(p, them.cap))
  }

  /** `p` knows the other's cap or will: something is under way that leads to it. */
  predicate WillKnow(p: Peer, them: Peer) {
    p.known == them.cap || HasResp(p.inbox) || HasReq(p.inbox) || HasReq(them.inbox) || p.checks != []
  }

  predicate Sound(w: World) {
    && PeerSound(w.a, w.b) && PeerSound(w.b, w.a)
    && (w.started ==> WillKnow(w.a, w.b) && WillKnow(w.b, w.a))
  }

  lemma SendHas(inbox: seq<Msg>, m: Msg)
    ensures HasReq(inbox + [m]) <==> HasReq(inbox) || m.Req?
    ensures HasResp(inbox + [m]) <==> HasResp(inbox) || m.Resp?
  {
    var more := inbox + [m];
    assert more[|inbox|] == m;
    assert forall i :: 0 <= i < |inbox| ==> more[i] == inbox[i];
  }

  lemma SendOrder(p: Peer, cap: nat, m: Msg)
    requires AnswersFirst(p, cap) && (m.Req? && m.gen > 0 ==> Told(p, cap))
    ensures AnswersFirst(Send(p, m), cap)
  {
    var more := p.inbox + [m];
    assert more[..|p.inbox|] == p.inbox;
    assert forall i :: 0 <= i < |p.inbox| ==> more[i] == p.inbox[i] && more[..i] == p.inbox[..i];
  }

  lemma TakeHas(inbox: seq<Msg>)
    requires inbox != []
    ensures HasReq(inbox) <==> inbox[0].Req? || HasReq(inbox[1..])
    ensures HasResp(inbox) <==> inbox[0].Resp? || HasResp(inbox[1..])
  {
    var rest := inbox[1..];
    assert forall i :: 0 <= i < |rest| ==> rest[i] == inbox[i + 1];
    assert forall i :: 0 < i < |inbox| ==> inbox[i] == rest[i - 1];
  }

  /** After an answer has been read nothing behind it matters; after a request the order stays. */
  lemma TakeOrder(p: Peer, cap: nat, known: nat)
    requires p.inbox != [] && AnswersFirst(p, cap)
    requires if p.inbox[0].Resp? then known == cap else known == p.known
    ensures AnswersFirst(p.(inbox := p.inbox[1..], known := known), cap)
  {
    var rest := p.inbox[1..];
    forall i | 0 <= i < |rest| && rest[i].Req? && rest[i].gen > 0
      ensures known == cap || HasResp(rest[..i])
    {
      assert p.inbox[i + 1] == rest[i];
      if known != cap {
        var before := p.inbox[..i + 1];
        TakeHas(before);
        assert before[1..] == rest[..i];
      }
    }
  }

  lemma StartSound(w: World, s: Side)
    requires Sound(w)
    ensures Sound(Next(w, Start(s)))
  {
    var them := Of(w, Other(s));
    SendHas(them.inbox, Req(0));
    SendOrder(them, Of(w, s).cap, Req(0));
  }

  lemma ReadReqMine(me: Peer, them: Peer)
    requires PeerSound(me, them) && me.inbox != [] && me.inbox[0].Req?
    ensures PeerSound(me.(inbox := me.inbox[1..], checks := me.checks + [me.inbox[0].gen]), Send(them, Resp(me.cap)))
  {
    TakeHas(me.inbox);
    TakeOrder(me, them.cap, me.known);
    assert me.inbox[0].gen > 0 ==> me.known == them.cap || HasResp(me.inbox[..0]);
  }

  lemma ReadReqTheirs(me: Peer, them: Peer)
    requires PeerSound(them, me) && me.inbox != [] && me.inbox[0].Req?
    ensures PeerSound(Send(them, Resp(me.cap)), me.(inbox := me.inbox[1..], checks := me.checks + [me.inbox[0].gen]))
  {
    SendHas(them.inbox, Resp(me.cap));
    SendOrder(them, me.cap, Resp(me.cap));
  }

  lemma ReadReqSound(w: World, s: Side)
    requires Sound(w) && Of(w, s).inbox != [] && Of(w, s).inbox[0].Req?
    ensures Sound(Next(w, Read(s)))
  {
    var me, them := Of(w, s), Of(w, Other(s));
    ReadReqMine(me, them);
    ReadReqTheirs(me, them);
    SendHas(them.inbox, Resp(me.cap));
  }

  lemma ReadRespSound(w: World, s: Side)
    requires Sound(w) && Of(w, s).inbox != [] && Of(w, s).inbox[0].Resp?
    ensures Sound(Next(w, Read(s)))
  {
    var me, them := Of(w, s), Of(w, Other(s));
    TakeHas(me.inbox);
    TakeOrder(me, them.cap, them.cap);
  }

  lemma DecideTheirs(me: Peer, them: Peer, i: nat)
    requires PeerSound(me, them) && PeerSound(them, me) && i < |me.checks| && me.known == 0
    ensures PeerSound(Send(them, Req(me.checks[i] + 1)), me.(checks := me.checks[..i] + me.checks[i + 1..]))
  {
    var g := me.checks[i];
    assert g in me.checks;
    SendHas(them.inbox, Req(g + 1));
    SendOrder(them, me.cap, Req(g + 1));
  }

  lemma DecideSound(w: World, s: Side, i: nat)
    requires Sound(w) && i < |Of(w, s).checks|
    ensures Sound(Next(w, Decide(s, i)))
  {
    var me, them := Of(w, s), Of(w, Other(s));
    if me.known == 0 {
      DecideTheirs(me, them, i);
      SendHas(them.inbox, Req(me.checks[i] + 1));
    }
  }

  lemma StepSound(w: World, e: Event)
    requires Sound(w)
    ensures Sound(Next(w, e))
  {
    if Enabled(w, e) {
      match e
      case Start(s) => StartSound(w, s);
      case Read(s) =>
        if Of(w, s).inbox[0].Req? {
          ReadReqSound(w, s);
        } else {
          ReadRespSound(w, s);
        }
      case Decide(s, i) => DecideSound(w, s, i);
    }
  }

  lemma StepKeepsCaps(w: World, e: Event)
    ensures Next(w, e).a.cap == w.a.cap && Next(w, e).b.cap == w.b.cap
  {
  }

  lemma {:induction false} EveryRunSound(capA: nat, capB: nat, evs: seq<Event>)
    ensures Sound(Run(capA, capB, evs)) && Run(capA, capB, evs).a.cap == capA && Run(capA, capB, evs).b.cap == capB
    decreases |evs|
  {
    if evs != [] {
      var before := Run(capA, capB, evs[..|evs| - 1]);
      EveryRunSound(capA, capB, evs[..|evs| - 1]);
      StepSound(before, evs[|evs| - 1]);
      StepKeepsCaps(before, evs[|evs| - 1]);
    }
  }

  predicate Quiet(w: World) {
    w.a.inbox == [] && w.b.inbox == [] && w.a.checks == [] && w.b.checks == []
  }

  /** The exchange is symmetric: one request from either side, and when all is quiet both know the other's cap. */
  lemma QuietMeansKnown(capA: nat, capB: nat, evs: seq<Event>)
    requires Run(capA, capB, evs).started && Quiet(Run(capA, capB, evs))
    ensures Run(capA, capB, evs).a.known == capB && Run(capA, capB, evs).b.known == capA
  {
    EveryRunSound(capA, capB, evs);
  }

  /** With two non-zero caps a reciprocal request is never itself reciprocated. */
  lemma ReciprocatedOnce(capA: nat, capB: nat, evs: seq<Event>, s: Side, m: Msg)
    requires capA != 0 && capB != 0 && m in Of(Run(capA, capB, evs), s).inbox && m.Req?
    ensures m.gen <= 1
  {
    EveryRunSound(capA, capB, evs);
  }

  // Termination.

  function ReqWeight(g: nat): nat {
    if g == 0 then 9 else if g == 1 then 6 else 3
  }

  function CheckWeight(g: nat): nat {
    if g == 0 then 7 else if g == 1 then 4 else 1
  }

  function InboxWeight(inbox: seq<Msg>): nat {
    if inbox == [] then 0 else (if inbox[0].Req? then ReqWeight(inbox[0].gen) else 1) + InboxWeight(inbox[1..])
  }

  function ChecksWeight(checks: seq<nat>): nat {
    if checks == [] then 0 else CheckWeight(checks[0]) + ChecksWeight(checks[1..])
  }

  function PeerWork(p: Peer): nat {
    InboxWeight(p.inbox) + ChecksWeight(p.checks)
  }

  function Work(w: World): nat {
    PeerWork(w.a) + PeerWork(w.b)
  }

  lemma {:induction false} InboxGrows(inbox: seq<Msg>, m: Msg)
    ensures InboxWeight(inbox + [m]) == InboxWeight(inbox) + if m.Req? then ReqWeight(m.gen) else 1
  {
    if inbox != [] {
      assert (inbox + [m])[1..] == inbox[1..] + [m];
      InboxGrows(inbox[1..], m);
    }
  }

  lemma {:induction false} ChecksSplit(s: seq<nat>, t: seq<nat>)
    ensures ChecksWeight(s + t) == ChecksWeight(s) + ChecksWeight(t)
  {
    if s == [] {
      assert s + t == t;
    } else {
      assert (s + t)[1..] == s[1..] + t;
      ChecksSplit(s[1..], t);
    }
  }

  lemma {:induction false} CheckTaken(checks: seq<nat>, i: nat)
    requires i < |checks|
    ensures ChecksWeight(checks[..i] + checks[i + 1..]) == ChecksWeight(checks) - CheckWeight(checks[i])
  {
    var less := checks[..i] + checks[i + 1..];
    if i == 0 {
      assert less == checks[1..];
    } else {
      var rest := checks[1..];
      assert less[1..] == rest[..i - 1] + rest[i..];
      CheckTaken(rest, i - 1);
    }
  }

  lemma ReadWorks(w: World, s: Side)
    requires Of(w, s).inbox != []
    ensures Work(Next(w, Read(s))) < Work(w)
  {
    var me, them := Of(w, s), Of(w, Other(s));
    InboxGrows(them.inbox, Resp(me.cap));
    if me.inbox[0].Req? {
      ChecksSplit(me.checks, [me.inbox[0].gen]);
    }
  }

  lemma DecideWorks(w: World, s: Side, i: nat)
    requires Sound(w) && i < |Of(w, s).checks| && (w.a.cap != 0 || w.b.cap != 0)
    ensures Work(Next(w, Decide(s, i))) < Work(w)
  {
    var me, them := Of(w, s), Of(w, Other(s));
    assert me.checks[i] in me.checks;
    CheckTaken(me.checks, i);
    InboxGrows(them.inbox, Req(me.checks[i] + 1));
  }

  lemma StartWorks(w: World, s: Side)
    ensures Work(Next(w, Start(s))) == Work(w) + 9
  {
    InboxGrows(Of(w, Other(s)).inbox, Req(0));
  }

  /** Steps of the protocol, and spontaneous requests, in a run. */
  function Steps(capA: nat, capB: nat, evs: seq<Event>): nat {
    if evs == [] then 0
    else
      var e := evs[|evs| - 1];
      Steps(capA, capB, evs[..|evs| - 1]) + if !e.Start? && Enabled(Run(capA, capB, evs[..|evs| - 1]), e) then 1 else 0
  }

  function Starts(evs: seq<Event>): nat {
    if evs == [] then 0 else Starts(evs[..|evs| - 1]) + if evs[|evs| - 1].Start? then 1 else 0
  }

  lemma {:induction false} WorkBounds(capA: nat, capB: nat, evs: seq<Event>)
    requires capA != 0 || capB != 0
    ensures Steps(capA, capB, evs) + Work(Run(capA, capB, evs)) <= 9 * Starts(evs)
    decreases |evs|
  {
    if evs != [] {
      var before, e := Run(capA, capB, evs[..|evs| - 1]), evs[|evs| - 1];
      WorkBounds(capA, capB, evs[..|evs| - 1]);
      EveryRunSound(capA, capB, evs[..|evs| - 1]);
      if Enabled(before, e) {
        match e
        case Start(s) => StartWorks(before, s);
        case Read(s) => ReadWorks(before, s);
        case Decide(s, i) => DecideWorks(before, s, i);
      }
    }
  }

  /** Unless both caps are 0, a spontaneous request sets off at most nine steps. */
  lemma ExchangeTerminates(capA: nat, capB: nat, evs: seq<Event>)
    requires capA != 0 || capB != 0
    ensures Steps(capA, capB, evs) <= 9 * Starts(evs)
  {
    WorkBounds(capA, capB, evs);
  }

  function Bouncing(g: nat): World {
    World(Peer(0, 0, [], []), Peer(0, 0, [], [Req(g)]), true)
  }

  lemma OneMore(evs: seq<Event>, e: Event)
    ensures Run(0, 0, evs + [e]) == Next(Run(0, 0, evs), e)
    ensures Starts(evs + [e]) == Starts(evs) + if e.Start? then 1 else 0
  {
    assert (evs + [e])[..|evs|] == evs;
  }

  lemma HalfBounceB(evs: seq<Event>, g: nat) returns (more: seq<Event>)
    requires Run(0, 0, evs) == Bouncing(g)
    ensures Run(0, 0, more) == World(Peer(0, 0, [], [Req(g + 1)]), Peer(0, 0, [], []), true)
    ensures Starts(more) == Starts(evs)
  {
    OneMore(evs, Read(B));
    more := evs + [Read(B)];
    assert Run(0, 0, more) == World(Peer(0, 0, [], [Resp(0)]), Peer(0, 0, [g], []), true);
    OneMore(more, Decide(B, 0));
    more := more + [Decide(B, 0)];
    assert Run(0, 0, more) == World(Peer(0, 0, [], [Resp(0), Req(g + 1)]), Peer(0, 0, [], []), true);
    OneMore(more, Read(A));
    more := more + [Read(A)];
  }

  lemma HalfBounceA(evs: seq<Event>, g: nat) returns (more: seq<Event>)
    requires Run(0, 0, evs) == World(Peer(0, 0, [], [Req(g + 1)]), Peer(0, 0, [], []), true)
    ensures Run(0, 0, more) == Bouncing(g + 2) && Starts(more) == Starts(evs)
  {
    OneMore(evs, Read(A));
    more := evs + [Read(A)];
    assert Run(0, 0, more) == World(Peer(0, 0, [g + 1], []), Peer(0, 0, [], [Resp(0)]), true);
    OneMore(more, Decide(A, 0));
    more := more + [Decide(A, 0)];
    assert Run(0, 0, more) == World(Peer(0, 0, [], []), Peer(0, 0, [], [Resp(0), Req(g + 2)]), true);
    OneMore(more, Read(B));
    more := more + [Read(B)];
  }

  /** With two zero caps the request comes back: six steps later the world is as before, two generations on. */
  lemma BouncesBack(evs: seq<Event>, g: nat) returns (more: seq<Event>)
    requires Run(0, 0, evs) == Bouncing(g)
    ensures Run(0, 0, more) == Bouncing(g + 2) && Starts(more) == Starts(evs)
  {
    more := HalfBounceB(evs, g);
    more := HalfBounceA(more, g);
  }

  /** So with two zero caps one spontaneous request is reciprocated without end: for every n there is a run with a
      single start in which 2n reciprocal requests have gone out and the next one is under way. */
  lemma {:induction false} PingPong(n: nat) returns (evs: seq<Event>)
    ensures Run(0, 0, evs) == Bouncing(2 * n) && Starts(evs) == 1
  {
    if n == 0 {
      evs := [] + [Start(A)];
      OneMore([], Start(A));
    } else {
      var before := PingPong(n - 1);
      evs := BouncesBack(before, 2 * n - 2);
    }
  }
}
