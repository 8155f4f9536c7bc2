/** rm_chunked: the chunks of a file are tombstoned first, pipelined, and the manifest last and only if every
    chunk's tombstone was acknowledged (cli/src/chunked.cpp). */
module CascadeDelete {
  import opened Octets
  import opened Pipeline
  import opened ChunkPlan
  import opened ChunkedUpload

  /** What happened, in order: a tombstone sent, a send that failed, a reply that answered a live request. */
  datatype Event = Sent(request: Request) | Refused(rid: nat) | Settled(reply: Reply)

  datatype Sweep = Sweep(live: map<nat, nat>, next: nat, completed: nat, errors: nat)

  function ChunkTombstone(m: Manifest, k: nat): Event
    requires 1 <= k <= |m.hashes|
  {
    Sent(Tombstone(k, m.hashes[k - 1]))
  }

  /** Chunk `k - 1`'s tombstone went out and a good acknowledgement of it came back later. */
  ghost predicate Acknowledged(m: Manifest, log: seq<Event>, k: nat)
    requires 1 <= k <= |m.hashes|
  {
    exists b :: 0 <= b < |log| && log[b].Settled? && log[b].reply.rid == k && Acks(log[b].reply, DELETE_ACK)
      && ChunkTombstone(m, k) in log[..b]
  }

  predicate Bad(e: Event) {
    e.Refused? || (e.Settled? && !Acks(e.reply, DELETE_ACK))
  }

  /** Nothing failed. */
  predicate Clean(log: seq<Event>) {
    forall e :: e in log ==> !Bad(e)
  }

  function Rid(e: Event): nat {
    match e
    case Sent(q) => q.rid
    case Refused(rid) => rid
    case Settled(r) => r.rid
  }

  predicate UpTo(log: seq<Event>, n: nat) {
    forall e :: e in log ==> Rid(e) <= n
  }

  predicate Unsettled(log: seq<Event>, k: nat) {
    forall e :: e in log && e.Settled? ==> e.reply.rid != k
  }

  /** No request is settled twice. */
  predicate SettledOnce(log: seq<Event>) {
    forall b :: 0 <= b < |log| && log[b].Settled? ==> Unsettled(log[..b], log[b].reply.rid)
  }

  ghost predicate LiveSound(m: Manifest, live: map<nat, nat>, next: nat, log: seq<Event>)
    requires next <= |m.hashes|
  {
    forall k :: k in live ==> 1 <= k <= next && live[k] == k - 1 && ChunkTombstone(m, k) in log && Unsettled(log, k)
  }

  ghost predicate Resolved(m: Manifest, s: Sweep, log: seq<Event>, k: nat)
    requires 1 <= k <= |m.hashes|
  {
    k in s.live || Acknowledged(m, log, k) || !Clean(log)
  }

  /** Every request so far is live or acknowledged, or something failed. */
  ghost predicate Swept(m: Manifest, s: Sweep, log: seq<Event>) {
    && s.next <= |m.hashes| && |s.live| <= PIPELINE_DEPTH
    && s.next == s.completed + |s.live|
    && UpTo(log, s.next) && SettledOnce(log) && LiveSound(m, s.live, s.next, log)
    && (forall k :: 1 <= k <= s.next ==> Resolved(m, s, log, k))
    && (s.errors == 0 <==> Clean(log))
  }

  lemma AcknowledgedGrows(m: Manifest, log: seq<Event>, k: nat, e: Event)
    requires 1 <= k <= |m.hashes| && Acknowledged(m, log, k)
    ensures Acknowledged(m, log + [e], k)
  {
    var b :| 0 <= b < |log| && log[b].Settled? && log[b].reply.rid == k && Acks(log[b].reply, DELETE_ACK)
             && ChunkTombstone(m, k) in log[..b];
    assert (log + [e])[..b] == log[..b] && (log + [e])[b] == log[b];
  }

  lemma OneMore(log: seq<Event>, e: Event)
    ensures Clean(log + [e]) <==> Clean(log) && !Bad(e)
    ensures forall k :: Unsettled(log + [e], k) <==> Unsettled(log, k) && (e.Settled? ==> e.reply.rid != k)
    ensures SettledOnce(log + [e]) <==> SettledOnce(log) && (e.Settled? ==> Unsettled(log, e.reply.rid))
  {
    var log' := log + [e];
    assert log'[|log|] == e && log'[..|log|] == log;
    assert forall b :: 0 <= b < |log| ==> log'[b] == log[b] && log'[..b] == log[..b];
    assert forall x :: x in log' <==> x in log || x == e;
  }

  function AfterSend(s: Sweep, ok: bool): Sweep {
    if ok then s.(live := s.live[s.next + 1 := s.next], next := s.next + 1)
    else s.(next := s.next + 1, completed := s.completed + 1, errors := s.errors + 1)
  }

  function SendEvent(m: Manifest, s: Sweep, ok: bool): Event
    requires s.next < |m.hashes|
  {
    if ok then ChunkTombstone(m, s.next + 1) else Refused(s.next + 1)
  }

  lemma SendLive(m: Manifest, s: Sweep, log: seq<Event>, ok: bool)
    requires s.next < |m.hashes| && UpTo(log, s.next) && LiveSound(m, s.live, s.next, log)
    ensures LiveSound(m, AfterSend(s, ok).live, s.next + 1, log + [SendEvent(m, s, ok)])
  {
    OneMore(log, SendEvent(m, s, ok));
  }

  lemma SendSwept(m: Manifest, s: Sweep, log: seq<Event>, ok: bool)
    requires Swept(m, s, log) && s.next < |m.hashes| && |s.live| < PIPELINE_DEPTH
    ensures Swept(m, AfterSend(s, ok), log + [SendEvent(m, s, ok)])
    ensures |AfterSend(s, ok).live| == if ok then |s.live| + 1 else |s.live|
  {
    var e := SendEvent(m, s, ok);
    var s', log' := AfterSend(s, ok), log + [e];
    SendLive(m, s, log, ok);
    OneMore(log, e);
    assert s.next + 1 !in s.live;
    forall k | 1 <= k <= s'.next
      ensures Resolved(m, s', log', k)
    {
      if k <= s.next && Resolved(m, s, log, k) && Acknowledged(m, log, k) {
        AcknowledgedGrows(m, log, k, e);
      }
    }
  }

  function AfterReply(s: Sweep, r: Reply): Sweep {
    s.(live := s.live - {r.rid}, completed := s.completed + 1,
       errors := if Acks(r, DELETE_ACK) then s.errors else s.errors + 1)
  }

  lemma ReplyLive(m: Manifest, s: Sweep, log: seq<Event>, r: Reply)
    requires s.next <= |m.hashes| && r.rid in s.live && LiveSound(m, s.live, s.next, log)
    ensures LiveSound(m, s.live - {r.rid}, s.next, log + [Settled(r)])
  {
    OneMore(log, Settled(r));
  }

  lemma ReplyAcknowledges(m: Manifest, log: seq<Event>, r: Reply)
    requires 1 <= r.rid <= |m.hashes| && ChunkTombstone(m, r.rid) in log && Acks(r, DELETE_ACK)
    ensures Acknowledged(m, log + [Settled(r)], r.rid)
  {
    var log' := log + [Settled(r)];
    assert log'[|log|] == Settled(r) && log'[..|log|] == log;
  }

  lemma ReplySwept(m: Manifest, s: Sweep, log: seq<Event>, r: Reply)
    requires Swept(m, s, log) && r.rid in s.live
    ensures Swept(m, AfterReply(s, r), log + [Settled(r)])
    ensures |AfterReply(s, r).live| == |s.live| - 1
  {
    var e := Settled(r);
    var s', log' := AfterReply(s, r), log + [e];
    DropOne(s.live, r.rid);
    ReplyLive(m, s, log, r);
    OneMore(log, e);
    forall k | 1 <= k <= s'.next
      ensures Resolved(m, s', log', k)
    {
      if k == r.rid && Acks(r, DELETE_ACK) {
        ReplyAcknowledges(m, log, r);
      } else if Resolved(m, s, log, k) && Acknowledged(m, log, k) {
        AcknowledgedGrows(m, log, k, e);
      }
    }
  }

  lemma NotBeyond(m: Manifest, log: seq<Event>, n: nat, k: nat)
    requires UpTo(log, n) && n < k <= |m.hashes|
    ensures !Acknowledged(m, log, k)
  {
    assert forall b :: 0 <= b < |log| ==> log[b] in log;
  }

  /** A sweep that stopped early has a chunk whose acknowledgement never came. */
  lemma StoppedEarly(m: Manifest, s: Sweep, log: seq<Event>)
    requires Swept(m, s, log) && s.completed < |m.hashes|
    ensures exists k :: 1 <= k <= |m.hashes| && !Acknowledged(m, log, k)
  {
    if s.live != map[] {
      var k :| k in s.live;
      assert !Acknowledged(m, log, k);
    } else {
      NotBeyond(m, log, s.next, s.next + 1);
    }
  }

  ghost predicate AllAcknowledged(m: Manifest, log: seq<Event>) {
    forall k :: 1 <= k <= |m.hashes| ==> Acknowledged(m, log, k)
  }

  lemma SweepDone(m: Manifest, s: Sweep, log: seq<Event>)
    requires Swept(m, s, log) && s.completed >= |m.hashes|
    ensures s.live == map[] && (s.errors == 0 ==> AllAcknowledged(m, log))
  {
    assert s.live == map[];
    if s.errors == 0 {
      forall k | 1 <= k <= |m.hashes|
        ensures Acknowledged(m, log, k)
      {
        assert Resolved(m, s, log, k);
      }
    }
  }

  /** The pipelined loop over the chunks. It ends with every chunk settled, or with the connection lost. */
  method SweepChunks(conn: Connection, m: Manifest) returns (r: Option<nat>, ghost log: seq<Event>)
    requires |m.hashes| == m.chunks && conn.Idle()
    modifies conn
    ensures conn.stalls == old(conn.stalls) && conn.pending == map[] && conn.inFlight <= PIPELINE_DEPTH
    ensures UpTo(log, m.chunks) && SettledOnce(log)
    ensures r.None? ==> !AllAcknowledged(m, log)
    ensures r.Some? ==> conn.inFlight == 0 && (r.value == 0 <==> Clean(log))
    ensures r == Some(0) ==> AllAcknowledged(m, log)
  {
    var s := Sweep(map[], 0, 0, 0);
    log := [];
    while s.completed < m.chunks
      invariant Swept(m, s, log)
      invariant conn.stalls == old(conn.stalls) && conn.pending == map[] && conn.inFlight <= |s.live|
      decreases m.chunks - s.next + |conn.inbox|
    {
      if s.next < m.chunks && |s.live| < PIPELINE_DEPTH {
        var ok := conn.SendAsync();
        SendSwept(m, s, log, ok);
        log := log + [SendEvent(m, s, ok)];
        s := AfterSend(s, ok);
        continue;
      }
      var resp := conn.RecvNext();
      if resp.None? {
        StoppedEarly(m, s, log);
        return None, log;
      }
      if resp.value.rid in s.live {
        ReplySwept(m, s, log, resp.value);
        log := log + [Settled(resp.value)];
        s := AfterReply(s, resp.value);
      }
    }
    SweepDone(m, s, log);
    r := Some(s.errors);
  }

  function ManifestTombstone(m: Manifest, manifestHash: Bytes): Event {
    Sent(Tombstone(m.chunks + 1, manifestHash))
  }

  /** Whenever the manifest's tombstone goes out, every chunk's has been acknowledged and none has failed. */
  ghost predicate ManifestLast(m: Manifest, manifestHash: Bytes, log: seq<Event>) {
    forall b :: 0 <= b < |log| && log[b].Sent? && log[b].request.rid > m.chunks ==>
      log[b] == ManifestTombstone(m, manifestHash) && AllAcknowledged(m, log[..b]) && Clean(log[..b])
  }

  lemma NoManifestYet(m: Manifest, manifestHash: Bytes, log: seq<Event>)
    requires UpTo(log, m.chunks)
    ensures ManifestLast(m, manifestHash, log)
  {
    assert forall b :: 0 <= b < |log| ==> log[b] in log;
  }

  lemma ManifestNow(m: Manifest, manifestHash: Bytes, log: seq<Event>)
    requires UpTo(log, m.chunks) && AllAcknowledged(m, log) && Clean(log)
    ensures ManifestLast(m, manifestHash, log + [ManifestTombstone(m, manifestHash)])
  {
    var log' := log + [ManifestTombstone(m, manifestHash)];
    assert log'[..|log|] == log;
    assert forall b :: 0 <= b < |log| ==> log'[b] == log[b] && log'[b] in log;
  }

  lemma ManifestStays(m: Manifest, manifestHash: Bytes, log: seq<Event>, e: Event)
    requires ManifestLast(m, manifestHash, log) && !e.Sent?
    ensures ManifestLast(m, manifestHash, log + [e])
  {
    var log' := log + [e];
    assert forall b :: 0 <= b < |log| ==> log'[b] == log[b] && log'[..b] == log[..b];
  }

  /** rm_chunked; true is exit code 0. Whatever the node answers and wherever the connection breaks, the
      manifest's tombstone is sent only after every chunk's was acknowledged, and it is sent whenever they all
      were and no send failed. Success is exactly its acknowledgement in a run without a failure. */
  method RmChunked(conn: Connection, m: Manifest, manifestHash: Bytes) returns (ok: bool, ghost log: seq<Event>)
    requires |m.hashes| == m.chunks && conn.Idle()
    modifies conn
    ensures conn.stalls == old(conn.stalls)
    ensures ManifestLast(m, manifestHash, log) && SettledOnce(log)
    ensures AllAcknowledged(m, log) && Clean(log) ==> ManifestTombstone(m, manifestHash) in log
    ensures ok <==> Clean(log) && !Unsettled(log, m.chunks + 1)
    ensures ok ==> ManifestTombstone(m, manifestHash) in log && conn.inFlight == 0
  {
    var errors;
    errors, log := SweepChunks(conn, m);
    NoManifestYet(m, manifestHash, log);
    if errors != Some(0) {
      return false, log;
    }
    var sent := conn.SendAsync();
    if !sent {
      OneMore(log, Refused(m.chunks + 1));
      ManifestStays(m, manifestHash, log, Refused(m.chunks + 1));
      log := log + [Refused(m.chunks + 1)];
      return false, log;
    }
    ManifestNow(m, manifestHash, log);
    OneMore(log, ManifestTombstone(m, manifestHash));
    log := log + [ManifestTombstone(m, manifestHash)];
    var resp := conn.RecvFor(m.chunks + 1);
    if resp.None? {
      return false, log;
    }
    OneMore(log, Settled(resp.value));
    ManifestStays(m, manifestHash, log, Settled(resp.value));
    log := log + [Settled(resp.value)];
    ok := Acks(resp.value, DELETE_ACK);
  }
}
