/** get_chunked: chunks are requested up to eight at a time, replies arrive in any order, failed ones are asked
    for again under fresh request ids, and each chunk is written at its own offset (cli/src/chunked.cpp). */
module ChunkedDownload {
  import opened Basics
  import opened Octets
  import opened Pipeline
  import opened ChunkPlan
  import opened ChunkedUpload

  const STATUS_FOUND: byte := 1

  /** The loop's locals. `out` is the output file; `attempts[i]` counts the retries of chunk `i`. */
  datatype Fetch = Fetch(live: map<nat, nat>, attempts: seq<nat>, rid: nat, next: nat, completed: nat, out: Bytes)

  /** What the run did, for the proof only: the requests in order, the replies taken, the chunks written. */
  datatype Trace = Trace(asked: seq<Request>, heard: seq<Reply>, writes: seq<nat>)

  function ExpectedLength(m: Manifest, i: nat): nat {
    if i + 1 == m.chunks then (m.total - i * m.chunkSize) % TWO_64 else m.chunkSize
  }

  /** A write at an offset; past the end it extends the file. */
  function Pwrite(out: Bytes, offset: nat, data: Bytes): (r: Bytes)
    ensures offset + |data| <= |out| ==> |r| == |out|
  {
    if offset + |data| <= |out| then out[..offset] + data + out[offset + |data|..]
    else if offset <= |out| then out[..offset] + data
    else out + seq(offset - |out|, _ => 0) + data
  }

  predicate Found(m: Reply) {
    m.ty == READ_RESPONSE && m.payload != [] && m.payload[0] == STATUS_FOUND
  }

  /** Request ids count the requests, so each id names one request. */
  predicate AskedInOrder(asked: seq<Request>) {
    forall j :: 0 <= j < |asked| ==> asked[j].Read? && asked[j].rid == j + 1
  }

  predicate Answers(asked: seq<Request>, r: Reply, hash: Bytes) {
    Found(r) && 1 <= r.rid <= |asked| && asked[r.rid - 1] == Read(r.rid, hash)
  }

  /** `r` answers a request for chunk `i`'s hash and holds what stands at chunk `i` of the output. */
  predicate Brings(c: ChunkCodec, m: Manifest, t: Trace, out: Bytes, i: nat, r: Reply)
    requires i < |m.hashes|
  {
    Answers(t.asked, r, m.hashes[i]) && c.unwrap(r.payload[1..]) == Plain(Chunk(out, m.chunkSize, i))
  }

  /** What stands at chunk `i` of the output came out of a reply to a request for chunk `i`'s hash. */
  ghost predicate Written(c: ChunkCodec, m: Manifest, t: Trace, out: Bytes, i: nat)
    requires i < |m.hashes|
  {
    exists r :: r in t.heard && Brings(c, m, t, out, i, r)
  }

  predicate Injective(live: map<nat, nat>) {
    forall k, l :: k in live && l in live && live[k] == live[l] ==> k == l
  }

  ghost predicate Awaited(live: map<nat, nat>, i: nat) {
    exists k :: k in live && live[k] == i
  }

  /** Each live id asked for its chunk, and no chunk is live twice, or live and written. */
  ghost predicate LiveSound(m: Manifest, p: Fetch, t: Trace, skip: Option<nat>)
    requires |m.hashes| == m.chunks
  {
    && AskedInOrder(t.asked) && p.rid == |t.asked| + 1 && p.next <= m.chunks
    && Injective(p.live)
    && forall k :: k in p.live ==>
         && 1 <= k < p.rid && p.live[k] < p.next && t.asked[k - 1] == Read(k, m.hashes[p.live[k]])
         && p.live[k] !in t.writes && skip != Some(p.live[k])
  }

  /** Every chunk up to `next` is awaited, written, or the one being handled; none is written twice. */
  ghost predicate Accounted(p: Fetch, t: Trace, skip: Option<nat>) {
    && NoRepeats(t.writes)
    && (forall i :: i in t.writes ==> i < p.next && skip != Some(i))
    && (forall i :: 0 <= i < p.next ==> i in t.writes || Awaited(p.live, i) || skip == Some(i))
  }

  predicate Counted(m: Manifest, p: Fetch, t: Trace, skip: Option<nat>) {
    && |p.attempts| == m.chunks && |p.live| <= PIPELINE_DEPTH && |t.writes| == p.completed
    && (skip.Some? ==> skip.value < p.next)
    && p.next == p.completed + |p.live| + if skip.Some? then 1 else 0
  }

  /** Request bookkeeping; `skip` is the chunk whose reply is being handled, if any. */
  ghost predicate Booked(m: Manifest, p: Fetch, t: Trace, skip: Option<nat>)
    requires |m.hashes| == m.chunks
  {
    LiveSound(m, p, t, skip) && Accounted(p, t, skip) && Counted(m, p, t, skip)
  }

  /** The chunks cover the file; the last may be short, or empty. */
  predicate Covers(m: Manifest) {
    m.chunks > 0 && (m.chunks - 1) * m.chunkSize <= m.total <= m.chunks * m.chunkSize && m.total < TWO_64
  }

  /** Some reply unwrapped to a text of that length. */
  ghost predicate HasText(c: ChunkCodec, t: Trace, n: nat) {
    exists r :: r in t.heard && Found(r) && c.unwrap(r.payload[1..]).Plain? && |c.unwrap(r.payload[1..]).text| == n
  }

  lemma TextStays(c: ChunkCodec, t: Trace, t': Trace, n: nat)
    requires HasText(c, t, n) && forall r :: r in t.heard ==> r in t'.heard
    ensures HasText(c, t', n)
  {
  }

  ghost predicate ContentGood(c: ChunkCodec, m: Manifest, p: Fetch, t: Trace)
    requires |m.hashes| == m.chunks
  {
    && (forall i :: i in t.writes ==> HasText(c, t, ExpectedLength(m, i)))
    && (Covers(m) ==>
          |p.out| == m.total && forall i :: i in t.writes && i < m.chunks ==> Written(c, m, t, p.out, i))
  }

  lemma PwriteElsewhere(out: Bytes, o: nat, pt: Bytes, a: nat, b: nat)
    requires o + |pt| <= |out| && a <= b <= |out| && (b <= o || o + |pt| <= a)
    ensures Pwrite(out, o, pt)[a..b] == out[a..b]
  {
  }

  lemma PwriteHere(out: Bytes, o: nat, pt: Bytes)
    requires o + |pt| <= |out|
    ensures Pwrite(out, o, pt)[o..o + |pt|] == pt
  {
  }

  /** Where chunk `i` starts and ends. */
  function Start(m: Manifest, i: nat): nat {
    i * m.chunkSize
  }

  function End(m: Manifest, i: nat): nat {
    if i + 1 == m.chunks then m.total else Start(m, i + 1)
  }

  lemma ChunkPlace(m: Manifest, i: nat)
    requires Covers(m) && i < m.chunks
    ensures Start(m, i) <= Start(m, i) + ExpectedLength(m, i) == End(m, i) <= m.total
  {
    Multiples(i, m.chunks - 1, m.chunkSize);
    if i + 1 < m.chunks {
      Multiples(i + 1, m.chunks - 1, m.chunkSize);
    }
  }

  lemma ChunkAt(m: Manifest, out: Bytes, i: nat)
    requires Covers(m) && i < m.chunks && |out| == m.total
    requires Start(m, i) <= End(m, i) <= m.total
    ensures Chunk(out, m.chunkSize, i) == out[Start(m, i)..End(m, i)]
  {
  }

  lemma Apart(m: Manifest, i: nat, j: nat)
    requires i < j < m.chunks
    ensures End(m, i) <= Start(m, j)
  {
    Multiples(i + 1, j, m.chunkSize);
  }

  /** A write of the expected length fills chunk `i`. */
  lemma PwriteFills(m: Manifest, out: Bytes, i: nat, pt: Bytes)
    requires Covers(m) && |out| == m.total && i < m.chunks
    requires |pt| == ExpectedLength(m, i)
    ensures |Pwrite(out, Start(m, i), pt)| == m.total && Chunk(Pwrite(out, Start(m, i), pt), m.chunkSize, i) == pt
  {
    ChunkPlace(m, i);
    PwriteHere(out, Start(m, i), pt);
    ChunkAt(m, Pwrite(out, Start(m, i), pt), i);
  }

  /** It leaves the other chunks alone. */
  lemma PwriteSpares(m: Manifest, out: Bytes, i: nat, pt: Bytes, j: nat)
    requires Covers(m) && |out| == m.total
    requires i < m.chunks && j < m.chunks && i != j && |pt| == ExpectedLength(m, i)
    ensures Chunk(Pwrite(out, Start(m, i), pt), m.chunkSize, j) == Chunk(out, m.chunkSize, j)
  {
    ChunkPlace(m, i);
    ChunkPlace(m, j);
    if i < j {
      Apart(m, i, j);
    } else {
      Apart(m, j, i);
    }
    PwriteElsewhere(out, Start(m, i), pt, Start(m, j), End(m, j));
    ChunkAt(m, out, j);
    ChunkAt(m, Pwrite(out, Start(m, i), pt), j);
  }

  lemma WrittenGrows(c: ChunkCodec, m: Manifest, t: Trace, t': Trace, out: Bytes, out': Bytes, i: nat)
    requires i < |m.hashes| && Written(c, m, t, out, i)
    requires t.asked <= t'.asked && (forall r :: r in t.heard ==> r in t'.heard)
    requires Chunk(out', m.chunkSize, i) == Chunk(out, m.chunkSize, i)
    ensures Written(c, m, t', out', i)
  {
    var r :| r in t.heard && Brings(c, m, t, out, i, r);
    assert Answers(t'.asked, r, m.hashes[i]);
  }

  /** Asking again, or hearing more, keeps what was written good. */
  lemma ContentGrows(c: ChunkCodec, m: Manifest, p: Fetch, t: Trace, p': Fetch, t': Trace)
    requires |m.hashes| == m.chunks && ContentGood(c, m, p, t)
    requires p'.out == p.out && t'.writes == t.writes && t.asked <= t'.asked
    requires forall r :: r in t.heard ==> r in t'.heard
    ensures ContentGood(c, m, p', t')
  {
    forall i | i in t.writes
      ensures HasText(c, t', ExpectedLength(m, i))
    {
      TextStays(c, t, t', ExpectedLength(m, i));
    }
    if Covers(m) {
      forall i | i in t.writes && i < m.chunks
        ensures Written(c, m, t', p'.out, i)
      {
        WrittenGrows(c, m, t, t', p.out, p'.out, i);
      }
    }
  }

  function Asked(m: Manifest, t: Trace, rid: nat, i: nat): Trace
    requires i < |m.hashes|
  {
    t.(asked := t.asked + [Read(rid, m.hashes[i])])
  }

  function Placed(p: Fetch, i: nat): Fetch {
    p.(rid := p.rid + 1, live := p.live[p.rid := i], next := if i == p.next then p.next + 1 else p.next)
  }

  lemma AskLive(m: Manifest, p: Fetch, t: Trace, i: nat, skip: Option<nat>)
    requires |m.hashes| == m.chunks && i < m.chunks && Booked(m, p, t, skip)
    requires if skip.Some? then i == skip.value else i == p.next
    ensures LiveSound(m, Placed(p, i), Asked(m, t, p.rid, i), None)
  {
  }

  /** Asking for the chunk at hand, or for the next one, puts it in the books as awaited. */
  lemma AskBooked(m: Manifest, p: Fetch, t: Trace, i: nat, skip: Option<nat>)
    requires |m.hashes| == m.chunks && i < m.chunks && Booked(m, p, t, skip) && |p.live| < PIPELINE_DEPTH
    requires if skip.Some? then i == skip.value else i == p.next
    ensures Booked(m, Placed(p, i), Asked(m, t, p.rid, i), None)
  {
    var p', t' := Placed(p, i), Asked(m, t, p.rid, i);
    assert p.rid !in p.live;
    assert |p'.live| == |p.live| + 1;
    AskLive(m, p, t, i, skip);
    forall j | 0 <= j < p'.next && j !in t'.writes
      ensures Awaited(p'.live, j)
    {
      if j == i {
        assert p'.live[p.rid] == i;
      } else {
        var k :| k in p.live && p.live[k] == j;
        assert p'.live[k] == j;
      }
    }
  }

  /** One read request for chunk `i`, under a fresh id. */
  method Ask(conn: Connection, m: Manifest, p: Fetch, i: nat, ghost t: Trace, ghost skip: Option<nat>)
    returns (ok: bool, p': Fetch, ghost t': Trace)
    requires |m.hashes| == m.chunks && i < m.chunks && Booked(m, p, t, skip)
    requires if skip.Some? then i == skip.value else i == p.next
    requires conn.inFlight <= |p.live| < PIPELINE_DEPTH
    modifies conn
    ensures conn.inbox == old(conn.inbox) && conn.pending == old(conn.pending) && conn.stalls == old(conn.stalls)
    ensures conn.inFlight <= |p.live| + 1
    ensures ok ==> t' == Asked(m, t, p.rid, i) && p' == Placed(p, i)
    ensures ok ==> Booked(m, p', t', None) && conn.inFlight <= |p'.live|
  {
    AskBooked(m, p, t, i, skip);
    t' := Asked(m, t, p.rid, i);
    p' := Placed(p, i);
    ok := conn.SendAsync();
    if ok {
      assert p.rid !in p.live;
    }
  }

  /** Takes the answered id out of the live map. */
  lemma TakenOut(m: Manifest, p: Fetch, t: Trace, k: nat)
    requires |m.hashes| == m.chunks && Booked(m, p, t, None) && k in p.live
    ensures Booked(m, p.(live := p.live - {k}), t, Some(p.live[k]))
    ensures |p.live - {k}| == |p.live| - 1
  {
    DropOne(p.live, k);
    var live := p.live - {k};
    forall i | 0 <= i < p.next && i !in t.writes && i != p.live[k]
      ensures Awaited(live, i)
    {
      var l :| l in p.live && p.live[l] == i;
      assert live[l] == i;
    }
  }

  /** Hearing one more reply, or counting a retry, changes nothing in the books. */
  lemma StillBooked(m: Manifest, p: Fetch, p': Fetch, t: Trace, t': Trace, skip: Option<nat>)
    requires |m.hashes| == m.chunks && Booked(m, p, t, skip)
    requires p' == p.(attempts := p'.attempts) && |p'.attempts| == |p.attempts| && t' == t.(heard := t'.heard)
    ensures Booked(m, p', t', skip)
  {
    assert forall i :: Awaited(p'.live, i) <==> Awaited(p.live, i);
  }

  lemma DoneBooked(m: Manifest, p: Fetch, t: Trace, i: nat, out: Bytes)
    requires |m.hashes| == m.chunks && Booked(m, p, t, Some(i))
    ensures Booked(m, p.(out := out, completed := p.completed + 1), t.(writes := t.writes + [i]), None)
  {
    var p', t' := p.(out := out, completed := p.completed + 1), t.(writes := t.writes + [i]);
    assert forall j :: j in t'.writes <==> j in t.writes || j == i;
    assert forall j :: Awaited(p'.live, j) <==> Awaited(p.live, j);
  }

  /** Writing the chunk that a reply carried, at its place. */
  lemma DoneGood(c: ChunkCodec, m: Manifest, p: Fetch, t: Trace, i: nat, r: Reply, pt: Bytes)
    requires |m.hashes| == m.chunks && i < m.chunks && ContentGood(c, m, p, t)
    requires r in t.heard && Answers(t.asked, r, m.hashes[i]) && c.unwrap(r.payload[1..]) == Plain(pt)
    requires |pt| == ExpectedLength(m, i) && i !in t.writes
    ensures ContentGood(c, m, p.(out := Pwrite(p.out, Start(m, i), pt), completed := p.completed + 1),
                        t.(writes := t.writes + [i]))
  {
    var p' := p.(out := Pwrite(p.out, Start(m, i), pt), completed := p.completed + 1);
    var t' := t.(writes := t.writes + [i]);
    forall j | j in t'.writes
      ensures HasText(c, t', ExpectedLength(m, j))
    {
      assert j == i || HasText(c, t, ExpectedLength(m, j));
    }
    if Covers(m) {
      PwriteFills(m, p.out, i, pt);
      forall j | j in t'.writes && j < m.chunks
        ensures Written(c, m, t', p'.out, j)
      {
        if j == i {
          assert Answers(t'.asked, r, m.hashes[i]);
        } else {
          PwriteSpares(m, p.out, i, pt, j);
          WrittenGrows(c, m, t, t', p.out, p'.out, j);
        }
      }
    }
  }

  /** Phase B: one reply. A stray one is dropped; a refusal or an undecodable blob is asked for again while the
      chunk has attempts left; a blob of the wrong kind or length ends the download; a good one is written. */
  method Take(conn: Connection, c: ChunkCodec, m: Manifest, p: Fetch, r: Reply, ghost t: Trace)
    returns (ok: bool, p': Fetch, ghost t': Trace)
    requires |m.hashes| == m.chunks && Booked(m, p, t, None) && ContentGood(c, m, p, t)
    requires conn.inFlight <= if r.rid in p.live then |p.live| - 1 else |p.live|
    modifies conn
    ensures conn.inbox == old(conn.inbox) && conn.pending == old(conn.pending) && conn.stalls == old(conn.stalls)
    ensures conn.inFlight <= |p.live|
    ensures ok ==> Booked(m, p', t', None) && ContentGood(c, m, p', t')
    ensures ok ==> conn.inFlight <= |p'.live| && p'.next == p.next
  {
    t' := t.(heard := t.heard + [r]);
    StillBooked(m, p, p, t, t', None);
    ContentGrows(c, m, p, t, p, t');
    p' := p;
    if r.rid !in p.live {
      return true, p', t';
    }
    var i := p.live[r.rid];
    assert t'.asked[r.rid - 1] == Read(r.rid, m.hashes[i]);
    TakenOut(m, p, t', r.rid);
    p' := p.(live := p.live - {r.rid});
    ContentGrows(c, m, p, t', p', t');
    ok, p', t' := Settle(conn, c, m, p', i, r, t');
  }

  /** What becomes of chunk `i`, whose reply is `r`. */
  method Settle(conn: Connection, c: ChunkCodec, m: Manifest, p: Fetch, i: nat, r: Reply, ghost t: Trace)
    returns (ok: bool, p': Fetch, ghost t': Trace)
    requires |m.hashes| == m.chunks && i < m.chunks && Booked(m, p, t, Some(i)) && ContentGood(c, m, p, t)
    requires r in t.heard && 1 <= r.rid <= |t.asked| && t.asked[r.rid - 1] == Read(r.rid, m.hashes[i])
    requires conn.inFlight <= |p.live| < PIPELINE_DEPTH
    modifies conn
    ensures conn.inbox == old(conn.inbox) && conn.pending == old(conn.pending) && conn.stalls == old(conn.stalls)
    ensures conn.inFlight <= |p.live| + 1
    ensures ok ==> Booked(m, p', t', None) && ContentGood(c, m, p', t')
    ensures ok ==> conn.inFlight <= |p'.live| && p'.next == p.next
  {
    var text := if Found(r) then c.unwrap(r.payload[1..]) else Undecodable;
    if text.Undecodable? {
      if p.attempts[i] >= RETRY_ATTEMPTS {
        return false, p, t;
      }
      ok, p', t' := Retry(conn, c, m, p, i, t);
      return;
    }
    if !text.Plain? || |text.text| != ExpectedLength(m, i) {
      return false, p, t;
    }
    DoneBooked(m, p, t, i, Pwrite(p.out, Start(m, i), text.text));
    DoneGood(c, m, p, t, i, r, text.text);
    t' := t.(writes := t.writes + [i]);
    p' := p.(out := Pwrite(p.out, Start(m, i), text.text), completed := p.completed + 1);
    ok := true;
  }

  method Retry(conn: Connection, c: ChunkCodec, m: Manifest, p: Fetch, i: nat, ghost t: Trace)
    returns (ok: bool, p': Fetch, ghost t': Trace)
    requires |m.hashes| == m.chunks && i < m.chunks && Booked(m, p, t, Some(i)) && ContentGood(c, m, p, t)
    requires conn.inFlight <= |p.live| < PIPELINE_DEPTH
    modifies conn
    ensures conn.inbox == old(conn.inbox) && conn.pending == old(conn.pending) && conn.stalls == old(conn.stalls)
    ensures conn.inFlight <= |p.live| + 1
    ensures ok ==> Booked(m, p', t', None) && ContentGood(c, m, p', t')
    ensures ok ==> conn.inFlight <= |p'.live| && p'.next == p.next
  {
    var q := p.(attempts := p.attempts[i := p.attempts[i] + 1]);
    StillBooked(m, p, q, t, t, Some(i));
    ok, p', t' := Ask(conn, m, q, i, t, Some(i));
    if ok {
      ContentGrows(c, m, p, t, p', t');
    }
  }

  /** The manifest's fields are 32 and 64 bits wide, and no text fills half of a 64-bit space. */
  ghost predicate FieldsFit(c: ChunkCodec, m: Manifest) {
    && m.chunkSize < TWO_32 && 0 < m.chunks <= MAX_CHUNKS && m.total < TWO_64 && m.total <= m.chunks * m.chunkSize
    && forall blob :: c.unwrap(blob).Plain? ==> 2 * |c.unwrap(blob).text| < TWO_64
  }

  /** A manifest whose last chunk would start past the end asks for a length that no text has. */
  lemma UncoveredAsksTooMuch(c: ChunkCodec, m: Manifest, t: Trace)
    requires FieldsFit(c, m) && HasText(c, t, ExpectedLength(m, m.chunks - 1))
    ensures Covers(m)
  {
    Multiples(m.chunks - 1, MAX_CHUNKS, m.chunkSize);
    WrapsFar(m.total, (m.chunks - 1) * m.chunkSize);
  }

  lemma WrapsFar(total: nat, start: nat)
    requires start <= MAX_CHUNKS * TWO_32
    ensures total < start ==> 2 * ((total - start) % TWO_64) >= TWO_64
  {
    if total < start {
      assert (total - start) % TWO_64 == total - start + TWO_64;
    }
  }

  /** The two-phase loop and the final digest check. On success every chunk was written exactly once and stands where a
      reply to its own hash put it. Backpressure is never entered. */
  method GetChunked(conn: Connection, c: ChunkCodec, m: Manifest) returns (r: Option<Bytes>, ghost t: Trace)
    requires |m.hashes| == m.chunks && conn.Idle()
    modifies conn
    ensures conn.stalls == old(conn.stalls) && conn.pending == map[] && conn.inFlight <= PIPELINE_DEPTH
    ensures r.Some? ==> conn.Idle() && c.sha3(r.value) == m.sha3
    ensures r.Some? ==> |t.writes| == m.chunks && NoRepeats(t.writes) && forall i :: 0 <= i < m.chunks ==> i in t.writes
    ensures r.Some? && (Covers(m) || FieldsFit(c, m)) ==>
      |r.value| == m.total && forall i :: 0 <= i < m.chunks ==> Written(c, m, t, r.value, i)
  {
    var p := Fetch(map[], seq(m.chunks, _ => 0), 1, 0, 0, seq(m.total, _ => 0));
    t := Trace([], [], []);
    while p.completed < m.chunks
      invariant Booked(m, p, t, None) && ContentGood(c, m, p, t)
      invariant conn.stalls == old(conn.stalls) && conn.pending == map[] && conn.inFlight <= |p.live|
      decreases m.chunks - p.next + |conn.inbox|
    {
      var ok;
      if p.next < m.chunks && |p.live| < PIPELINE_DEPTH {
        ghost var before, beforeTrace := p, t;
        ok, p, t := Ask(conn, m, p, p.next, t, None);
        if !ok {
          return None, t;
        }
        ContentGrows(c, m, before, beforeTrace, p, t);
        continue;
      }
      var resp := conn.RecvNext();
      if resp.None? {
        return None, t;
      }
      ok, p, t := Take(conn, c, m, p, resp.value, t);
      if !ok {
        return None, t;
      }
    }
    assert p.live == map[];
    if c.sha3(p.out) != m.sha3 {
      return None, t;
    }
    r := Some(p.out);
    if FieldsFit(c, m) {
      UncoveredAsksTooMuch(c, m, t);
    }
  }

  // The round trip.

  /** The node answered truthfully: a found reply carries the blob stored under the hash that was asked for. */
  ghost predicate HonestReads(store: map<Bytes, Bytes>, t: Trace) {
    forall r :: r in t.heard && Found(r) && 1 <= r.rid <= |t.asked| && t.asked[r.rid - 1].Read? ==>
      t.asked[r.rid - 1].hash in store && r.payload[1..] == store[t.asked[r.rid - 1].hash]
  }

  lemma {:induction false} SameChunksSameFile(a: Bytes, b: Bytes, chunkSize: nat, n: nat)
    requires forall i :: 0 <= i < n ==> Chunk(a, chunkSize, i) == Chunk(b, chunkSize, i)
    ensures Absorbed(a, chunkSize, n) == Absorbed(b, chunkSize, n)
  {
    if n > 0 {
      SameChunksSameFile(a, b, chunkSize, n - 1);
    }
  }

  /** From a faithful manifest and truthful answers, what was written is the file. */
  lemma DownloadIsFile(c: ChunkCodec, store: map<Bytes, Bytes>, file: Bytes, m: Manifest, t: Trace, out: Bytes)
    requires Faithful(c, store, file, m) && HonestReads(store, t)
    requires |out| == m.total && forall i :: 0 <= i < m.chunks ==> Written(c, m, t, out, i)
    ensures out == file
  {
    forall i | 0 <= i < m.chunks
      ensures Chunk(out, m.chunkSize, i) == Chunk(file, m.chunkSize, i)
    {
      assert Written(c, m, t, out, i);
      var r :| r in t.heard && Brings(c, m, t, out, i, r);
      assert r.payload[1..] == store[m.hashes[i]];
    }
    SameChunksSameFile(out, file, m.chunkSize, m.chunks);
    AbsorbedIsFile(out, m.chunkSize, m.chunks);
    AbsorbedIsFile(file, m.chunkSize, m.chunks);
  }

  // From the hash of a manifest.

  /** cdb get of one hash: fetch the blob, open the manifest in it, download what it describes. None is an error exit.
      `first` is the request for the manifest and what came back. */
  method GetFile(conn: Connection, c: ChunkCodec, mc: ManifestCodec, hash: Bytes, cap: nat)
    returns (r: Option<Bytes>, ghost m: Option<Manifest>, ghost first: Trace, ghost t: Trace)
    requires conn.Idle()
    modifies conn
    ensures conn.stalls == old(conn.stalls) && conn.inFlight <= PIPELINE_DEPTH
    ensures r.Some? ==> m.Some? && ManifestValid(m.value, cap) && c.sha3(r.value) == m.value.sha3
    ensures m.Some? ==> Opens(c, mc, hash, cap, first, m.value)
    ensures r.Some? && (Covers(m.value) || FieldsFit(c, m.value)) ==>
      && |r.value| == m.value.total
      && forall i :: 0 <= i < m.value.chunks ==> Written(c, m.value, t, r.value, i)
  {
    m, first, t := None, Trace([Read(1, hash)], [], []), Trace([], [], []);
    var ok := conn.SendAsync();
    if !ok {
      return None, m, first, t;
    }
    var resp := conn.RecvNext();
    while resp.Some? && resp.value.rid != 1
      invariant conn.stalls == old(conn.stalls) && conn.pending == map[]
      invariant conn.inFlight <= if resp.Some? then 0 else 1
      decreases resp.Some?, |conn.inbox|
    {
      resp := conn.RecvNext();
    }
    if resp.None? || !Found(resp.value) {
      return None, m, first, t;
    }
    first := first.(heard := [resp.value]);
    var text := c.unwrapManifest(resp.value.payload[1..]);
    if text.None? {
      return None, m, first, t;
    }
    var manifest := DecodeManifest(mc, text.value, cap);
    m := manifest;
    if manifest.None? {
      return None, m, first, t;
    }
    r, t := GetChunked(conn, c, manifest.value);
  }

  /** The manifest was read from a reply to the request for its hash, and the decoder accepts it. */
  ghost predicate Opens(c: ChunkCodec, mc: ManifestCodec, hash: Bytes, cap: nat, first: Trace, m: Manifest) {
    && first.asked == [Read(1, hash)] && |first.heard| == 1 && Answers(first.asked, first.heard[0], hash)
    && var text := c.unwrapManifest(first.heard[0].payload[1..]);
       text.Some? && DecodeManifest(mc, text.value, cap) == Some(m) && ManifestValid(m, cap)
  }

  /** A truthful answer opens to the manifest that was published. */
  lemma OpensPublished(c: ChunkCodec, mc: ManifestCodec, store: map<Bytes, Bytes>, file: Bytes, hash: Bytes, cap: nat,
                       first: Trace, published: Manifest, m: Manifest)
    requires Recovers(c) && CodecLaw(mc) && |mc.write(published)| + 4 < TWO_32
    requires Published(c, mc, store, file, published, hash)
    requires Opens(c, mc, hash, cap, first, m) && HonestReads(store, first)
    ensures m == published
  {
    var r := first.heard[0];
    assert r in first.heard && r.payload[1..] == store[hash];
    var text := EncodeManifest(mc, published);
    assert c.unwrapManifest(store[hash]) == Some(text);
    assert text[4..] == mc.write(published);
  }

  /** The node told the truth about what it stored and what it served. */
  ghost predicate KeptItsWord(store: map<Bytes, Bytes>, sent: seq<Request>, heard: seq<Reply>, first: Trace, t: Trace) {
    HonestAcks(store, sent, heard) && HonestReads(store, first) && HonestReads(store, t)
  }

  /** Put then get: for every file, every order of replies, every pattern of refused sends and retries, on any two
      connections, what a download of the printed hash gives is the file, byte for byte, and the digest check plays no
      part in it. */
  method PutThenGet(up: Connection, down: Connection, c: ChunkCodec, mc: ManifestCodec, file: Bytes, filename: Bytes,
                    cap: nat, recipients: nat, capDown: nat, ghost store: map<Bytes, Bytes>)
    returns (r: Option<Bytes>, ghost m: Option<Manifest>, ghost sent: seq<Request>, ghost heard: seq<Reply>,
             ghost first: Trace, ghost t: Trace)
    requires up != down && up.Idle() && down.Idle() && Recovers(c) && CodecLaw(mc)
    modifies up, down
    ensures r.Some? ==> m.Some?
    ensures r.Some? && |mc.write(m.value)| + 4 < TWO_32 && KeptItsWord(store, sent, heard, first, t) ==> r.value == file
  {
    first, t := Trace([], [], []), Trace([], [], []);
    var hash;
    hash, m, sent, heard := PutChunked(up, c, mc, file, filename, cap, recipients);
    if hash.None? {
      return None, m, sent, heard, first, t;
    }
    ghost var read;
    r, read, first, t := GetFile(down, c, mc, hash.value, capDown);
    if r.Some? && |mc.write(m.value)| + 4 < TWO_32 && KeptItsWord(store, sent, heard, first, t) {
      assert Published(c, mc, store, file, m.value, hash.value);
      OpensPublished(c, mc, store, file, hash.value, capDown, first, m.value, read.value);
      FileFits(cap, recipients, |file|);
      DownloadIsFile(c, store, file, m.value, t, r.value);
    }
  }

  lemma FileFits(cap: nat, recipients: nat, total: nat)
    requires PlanUpload(cap, recipients, total).Some?
    ensures total < TWO_64
  {
  }
}
