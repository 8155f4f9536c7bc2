/** When does a connection's run() return (db/net/connection.cpp)? It waits for the message loop and for the drain
    coroutine, and the drain coroutine ends only on a closed connection. */
module ConnectionEnd {
  import opened Octets
  import opened Frames
  import opened MessageStream
  import T = Transport
  import Q = SendQueue

  /** The send queue's events: those of the other coroutines, and the loop's close if it makes one. */
  function WithLoop(before: seq<Q.Event>, closes: bool, after: seq<Q.Event>): seq<Q.Event> {
    before + (if closes then [Q.Close] else []) + after
  }

  lemma {:induction false} ClosedStays(authenticated: bool, evs: seq<Q.Event>, more: seq<Q.Event>)
    requires Q.Run(authenticated, evs).closed
    ensures Q.Run(authenticated, evs + more).closed
    decreases |more|
  {
    if more == [] {
      assert evs + more == evs;
    } else {
      var before, e := more[..|more| - 1], more[|more| - 1];
      ClosedStays(authenticated, evs, before);
      assert (evs + more)[..|evs + more| - 1] == evs + before;
      Q.StepClosesIff(Q.Run(authenticated, evs + before), e);
    }
  }

  /** At rest the drain coroutine has exited exactly if the connection is closed. */
  lemma AtRest(authenticated: bool, evs: seq<Q.Event>)
    requires Q.Quiet(Q.Run(authenticated, evs))
    ensures Q.Run(authenticated, evs).drain.Exited? <==> Q.Run(authenticated, evs).closed
  {
    Q.EveryRunSound(authenticated, evs);
  }

  /** For every input and every interleaving: if the message loop closes the connection, the drain coroutine exits; if
      it does not and nobody else does, the drain coroutine comes to rest asleep, and run() does not return. */
  lemma RunReturns(a: Aead, c: Codec, input: Bytes, counter: nat, authenticated: bool, before: seq<Q.Event>,
                   after: seq<Q.Event>)
    requires Q.Quiet(Q.Run(authenticated, WithLoop(before, T.LoopCloses(a, c, input, counter), after)))
    ensures var closes := T.LoopCloses(a, c, input, counter);
      var s := Q.Run(authenticated, WithLoop(before, closes, after));
      && (closes ==> s.drain.Exited?)
      && (!closes ==> (s.drain.Exited? <==> !Q.NeverCloses(authenticated, before + after)))
  {
    var closes := T.LoopCloses(a, c, input, counter);
    var all := WithLoop(before, closes, after);
    AtRest(authenticated, all);
    if closes {
      assert (before + [Q.Close])[..|before|] == before;
      ClosedStays(authenticated, before + [Q.Close], after);
    } else {
      assert all == before + after;
      Q.OpenIff(authenticated, all);
    }
  }

  /** A stream that just ends leaves the connection open and the drain coroutine asleep. */
  lemma LostReadSleeps(a: Aead, c: Codec, counter: nat)
    ensures !T.LoopCloses(a, c, [], counter)
    ensures var s := Q.Run(true, [Q.Start]); s.drain == Q.Sleeping(false) && !s.closed
  {
    var one := [Q.Start];
    assert one[..0] == [];
    assert Q.Run(true, one) == Q.Next(Q.Initial(true), Q.Start);
  }
}
