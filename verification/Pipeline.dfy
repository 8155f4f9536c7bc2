/** The client connection's pipelining primitives (cli/src/pipeline_pump.h, cli/src/connection.cpp). */
module Pipeline {
  import opened Octets

  const PIPELINE_DEPTH: nat := 8

  const DELETE_ACK: byte := 18
  const WRITE_ACK: byte := 30
  const READ_RESPONSE: byte := 32

  datatype Reply = Reply(ty: byte, rid: nat, payload: Bytes)

  /** `inbox` is what the node still has to say before the connection is lost, in arrival order; `accepts`
      says which attempts to send the transport lets through. A client run is good for every choice of both. */
  class Connection {
    var inbox: seq<Reply>
    const accepts: nat -> bool
    var attempts: nat
    var inFlight: nat
    var pending: map<nat, Reply>
    ghost var stalls: nat // turns of send_async's backpressure loop so far

    constructor (inbox: seq<Reply>, accepts: nat -> bool)
      ensures this.inbox == inbox && this.accepts == accepts && attempts == 0 && Idle()
    {
      this.inbox, this.accepts, attempts, inFlight, pending := inbox, accepts, 0, 0, map[];
      stalls := 0;
    }

    ghost predicate Idle()
      reads this
    {
      inFlight == 0 && pending == map[]
    }

    method Recv() returns (r: Option<Reply>)
      modifies this`inbox
      ensures old(inbox) == [] ==> r == None && inbox == []
      ensures old(inbox) != [] ==> r == Some(old(inbox)[0]) && inbox == old(inbox)[1..]
    {
      if inbox == [] {
        return None;
      }
      r := Some(inbox[0]);
      inbox := inbox[1..];
    }

    /** Sends, unless the pipeline is full. The backpressure loop stashes replies but never lowers
        `inFlight`, so a call that finds eight requests in flight can only end with the connection lost. */
    method SendAsync() returns (ok: bool)
      modifies this
      ensures ok <==> old(inFlight) < PIPELINE_DEPTH && accepts(old(attempts))
      ensures inFlight == if ok then old(inFlight) + 1 else old(inFlight)
      ensures old(inFlight) < PIPELINE_DEPTH ==>
        inbox == old(inbox) && pending == old(pending) && stalls == old(stalls) && attempts == old(attempts) + 1
      ensures old(inFlight) >= PIPELINE_DEPTH ==>
        inbox == [] && attempts == old(attempts) && stalls == old(stalls) + |old(inbox)| + 1
    {
      while inFlight >= PIPELINE_DEPTH
        invariant inFlight == old(inFlight) && attempts == old(attempts)
        invariant stalls + |inbox| == old(stalls) + |old(inbox)|
        invariant old(inFlight) < PIPELINE_DEPTH ==>
          inbox == old(inbox) && pending == old(pending) && stalls == old(stalls)
        decreases |inbox|
      {
        stalls := stalls + 1;
        var msg := Recv();
        if msg.None? {
          return false;
        }
        pending := pending[msg.value.rid := msg.value];
      }
      ok := accepts(attempts);
      attempts := attempts + 1;
      if ok {
        inFlight := inFlight + 1;
      }
    }

    /** The next reply in arrival order, a stashed one first. */
    method RecvNext() returns (r: Option<Reply>)
      modifies this`inbox, this`pending, this`inFlight
      ensures old(pending) == map[] ==> pending == map[]
      ensures old(pending) == map[] && old(inbox) == [] ==> r == None && inFlight == old(inFlight) && inbox == []
      ensures old(pending) == map[] && old(inbox) != [] ==> r == Some(old(inbox)[0]) && inbox == old(inbox)[1..]
      ensures r.Some? ==> inFlight == if old(inFlight) > 0 then old(inFlight) - 1 else 0
      ensures old(pending) != map[] ==> inbox == old(inbox) && r.Some?
      ensures old(pending) != map[] ==>
        exists k :: k in old(pending) && r.value == old(pending)[k] && pending == old(pending) - {k}
    {
      if pending != map[] {
        var k :| k in pending;
        r := Some(pending[k]);
        pending := pending - {k};
        if inFlight > 0 {
          inFlight := inFlight - 1;
        }
        return;
      }
      r := Recv();
      if r.Some? && inFlight > 0 {
        inFlight := inFlight - 1;
      }
    }

    /** The reply to one request; others that arrive first are stashed. */
    method RecvFor(rid: nat) returns (r: Option<Reply>)
      modifies this`inbox, this`pending, this`inFlight
      ensures r.Some? ==> inFlight == if old(inFlight) > 0 then old(inFlight) - 1 else 0
      ensures r.None? ==> inFlight == old(inFlight) && inbox == [] && rid !in old(pending)
      ensures r.Some? ==> r.value in old(inbox) || (rid in old(pending) && r.value == old(pending)[rid])
      ensures rid !in old(pending) && r.Some? ==> r.value.rid == rid
      ensures rid !in old(pending) ==> rid !in pending
    {
      if rid in pending {
        r := Some(pending[rid]);
        pending := pending - {rid};
        if inFlight > 0 {
          inFlight := inFlight - 1;
        }
        return;
      }
      while true
        invariant inFlight == old(inFlight)
        invariant rid !in pending
        invariant forall m :: m in inbox ==> m in old(inbox)
        decreases |inbox|
      {
        r := Recv();
        if r.None? {
          return;
        }
        if r.value.rid == rid {
          if inFlight > 0 {
            inFlight := inFlight - 1;
          }
          return;
        }
        pending := pending[r.value.rid := r.value];
      }
    }
  }
}
