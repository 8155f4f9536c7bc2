/** From the coroutines that queue messages to the callback at the far end (db/net/connection.cpp): the drain coroutine
    of a send queue writes through the sender of its connection, while any coroutine queues or closes in between. */
module SendPath {
  import opened Basics
  import opened Octets
  import opened Frames
  import opened MessageStream
  import Q = SendQueue
  import T = Transport

  /** One uninterrupted segment of some coroutine. The write of a message comes back when it does. */
  datatype Step = Start | Enqueue(id: nat) | CloseGracefully(id: nat) | Close | WriteReturns | Wake

  /** The messages whose waiters were told true, in the order in which they were told. */
  function Acked(message: Q.Item -> Message, signals: seq<Q.Signal>): seq<Message> {
    if signals == [] then []
    else
      var last := signals[|signals| - 1];
      Acked(message, signals[..|signals| - 1]) + if last.ok then [message(last.item)] else []
  }

  lemma AckedOneMore(message: Q.Item -> Message, signals: seq<Q.Signal>, s: Q.Signal)
    ensures Acked(message, signals + [s]) == Acked(message, signals) + if s.ok then [message(s.item)] else []
  {
    assert (signals + [s])[..|signals|] == signals;
  }

  lemma {:induction false} FailuresNotAcked(message: Q.Item -> Message, signals: seq<Q.Signal>, items: seq<Q.Item>)
    ensures Acked(message, signals + Q.Failures(items)) == Acked(message, signals)
    decreases |items|
  {
    if items == [] {
      assert signals + [] == signals;
    } else {
      var s := Q.Signal(items[0], false);
      assert signals + Q.Failures(items) == (signals + [s]) + Q.Failures(items[1..]);
      FailuresNotAcked(message, signals + [s], items[1..]);
      AckedOneMore(message, signals, s);
    }
  }

  lemma ContinueAcks(message: Q.Item -> Message, s: Q.State)
    ensures Acked(message, Q.Continue(s).signals) == Acked(message, s.signals)
  {
    FailuresNotAcked(message, s.signals, s.queue);
  }

  lemma WriteAcks(message: Q.Item -> Message, s: Q.State, ok: bool)
    requires s.drain.Writing?
    ensures Acked(message, Q.FinishWrite(s, ok).signals) ==
      Acked(message, s.signals) + if ok then [message(s.drain.item)] else []
  {
    var s' := s.(signals := s.signals + [Q.Signal(s.drain.item, ok)]);
    AckedOneMore(message, s.signals, Q.Signal(s.drain.item, ok));
    if ok {
      ContinueAcks(message, s');
    } else {
      FailuresNotAcked(message, s'.signals, s'.queue);
      ContinueAcks(message, Q.FailAll(s'));
    }
  }

  /** What a step has acknowledged: only a write that comes back true is. */
  function NewlyAcked(message: Q.Item -> Message, s: Q.State, e: Q.Event): seq<Message> {
    if e == Q.WriteDone(true) && s.drain.Writing? then [message(s.drain.item)] else []
  }

  lemma StepAcks(message: Q.Item -> Message, s: Q.State, e: Q.Event)
    ensures Acked(message, Q.Next(s, e).signals) == Acked(message, s.signals) + NewlyAcked(message, s, e)
  {
    if s.drain.Writing? && e.WriteDone? {
      WriteAcks(message, s, e.ok);
    } else if s.drain.Writing? && e.NonceExhausted? {
      WriteAcks(message, Q.CloseNow(s), false);
    } else {
      ContinueAcks(message, s);
      assert Acked(message, s.signals) + [] == Acked(message, s.signals);
    }
  }

  // A goodbye ends what the callback gets, and nothing else is behind it.

  /** Plain messages are not goodbyes; goodbyes are. */
  ghost predicate Marked(message: Q.Item -> Message) {
    forall i :: T.Ends(message(i)) <==> i.goodbye
  }

  lemma {:induction false} CallsOneMore(msgs: seq<Message>, m: Message)
    ensures T.Calls(msgs + [m]) ==
      if T.SaysGoodbye(msgs) || T.Ends(m) then T.Calls(msgs) else T.Calls(msgs) + T.Callable(m)
    ensures T.SaysGoodbye(msgs + [m]) <==> T.SaysGoodbye(msgs) || T.Ends(m)
    decreases |msgs|
  {
    if msgs == [] {
      assert (msgs + [m])[1..] == [] && T.Callable(m) + [] == T.Callable(m) && [] + T.Callable(m) == T.Callable(m);
    } else {
      var rest := msgs[1..];
      assert (msgs + [m])[1..] == rest + [m];
      CallsOneMore(rest, m);
      Regroup(T.Callable(msgs[0]), T.Calls(rest), T.Callable(m));
    }
  }

  /** Of the acknowledged messages those that go to a callback. */
  function ForCallback(message: Q.Item -> Message, signals: seq<Q.Signal>): seq<Message> {
    if signals == [] then []
    else
      var last := signals[|signals| - 1];
      ForCallback(message, signals[..|signals| - 1]) +
      if last.ok && T.ToCallback(message(last.item)) then [message(last.item)] else []
  }

  /** A goodbye among the signals is followed by goodbyes only. */
  predicate InOrder(signals: seq<Q.Signal>) {
    forall i, j :: 0 <= i < j < |signals| && signals[i].item.goodbye ==> signals[j].item.goodbye
  }

  predicate GoodbyeSignalled(signals: seq<Q.Signal>) {
    exists i :: 0 <= i < |signals| && signals[i].item.goodbye
  }

  lemma {:induction false} NothingBehindGoodbye(message: Q.Item -> Message, signals: seq<Q.Signal>)
    requires Marked(message) && InOrder(signals)
    ensures T.Calls(Acked(message, signals)) == ForCallback(message, signals)
    ensures T.SaysGoodbye(Acked(message, signals)) ==> GoodbyeSignalled(signals)
    decreases |signals|
  {
    if signals != [] {
      var before, last := signals[..|signals| - 1], signals[|signals| - 1];
      NothingBehindGoodbye(message, before);
      if GoodbyeSignalled(before) {
        var i :| 0 <= i < |before| && before[i].item.goodbye;
        assert signals[i].item.goodbye;
      }
      if last.ok {
        CallsOneMore(Acked(message, before), message(last.item));
      } else {
        assert Acked(message, before) + [] == Acked(message, before);
      }
    }
  }

  lemma {:induction false} ItemAt(signals: seq<Q.Signal>, i: nat)
    requires i < |signals|
    ensures Q.Items(signals)[i] == signals[i].item
  {
    if i > 0 {
      ItemAt(signals[1..], i - 1);
    }
  }

  lemma SignalsInOrder(s: Q.State)
    requires Q.Sound(s)
    ensures InOrder(s.signals)
  {
    forall i, j | 0 <= i < j < |s.signals| && s.signals[i].item.goodbye
      ensures s.signals[j].item.goodbye
    {
      ItemAt(s.signals, i);
      ItemAt(s.signals, j);
      assert s.accepted[i] == Q.Items(s.signals)[i] && s.accepted[j] == Q.Items(s.signals)[j];
    }
  }

  // The drain coroutine stops with the connection.

  lemma StepExits(s: Q.State, e: Q.Event)
    requires Q.NoLostWakeup(s)
    ensures s.drain.Exited? || (s.drain.Writing? && e.NonceExhausted?) ==> Q.Next(s, e).drain.Exited?
  {
  }

  /** `e` is what `step` comes to. */
  predicate Realises(e: Q.Event, step: Step) {
    match step
    case Start => e == Q.Start
    case Enqueue(id) => e == Q.Enqueue(id)
    case CloseGracefully(id) => e == Q.CloseGracefully(id)
    case Close => e == Q.Close
    case WriteReturns => e.WriteDone? || e.NonceExhausted?
    case Wake => e == Q.Wake
  }

  predicate Realised(trace: seq<Q.Event>, steps: seq<Step>) {
    |trace| == |steps| && forall i :: 0 <= i < |steps| ==> Realises(trace[i], steps[i])
  }

  lemma RealisedOneMore(trace: seq<Q.Event>, e: Q.Event, steps: seq<Step>, i: nat)
    requires i < |steps| && Realised(trace, steps[..i]) && Realises(e, steps[i])
    ensures Realised(trace + [e], steps[..i + 1])
  {
  }

  lemma RunOneMore(authenticated: bool, evs: seq<Q.Event>, e: Q.Event)
    ensures Q.Run(authenticated, evs + [e]) == Q.Next(Q.Run(authenticated, evs), e)
  {
    assert (evs + [e])[..|evs|] == evs;
  }

  /** One direction of a connection. `message` gives the queued messages by the names of their waiters. */
  class Connection {
    const message: Q.Item -> Message
    const queue: Q.Queue
    const sender: T.Sender
    ghost const authenticated: bool
    ghost var trace: seq<Q.Event>

    ghost predicate Valid()
      reads this, queue, sender
    {
      && sender.Valid() && queue.Value() == Q.Run(authenticated, trace)
      && (forall i :: Sendable(message(i))) && (forall m :: m in Also(sender.done, sender.failed) ==> Sendable(m))
      && sender.done == Acked(message, queue.signals)
      && (sender.closed ==> queue.drain.Exited?)
    }

    constructor (message: Q.Item -> Message, authenticated: bool, aead: Aead, codec: Codec, room: nat, base: nat)
      requires AeadLaw(aead) && CodecLaw(codec) && base <= NONCE_LIMIT && forall i :: Sendable(message(i))
      ensures Valid() && fresh(queue) && fresh(sender) && this.message == message && trace == []
    {
      this.message, this.authenticated, this.trace := message, authenticated, [];
      var q := new Q.Queue(authenticated);
      var s := new T.Sender(aead, codec, room, base);
      queue, sender := q, s;
    }

    /** The write that the drain coroutine waits for comes back. */
    method FinishWrite() returns (ghost e: Q.Event)
      requires queue.drain.Writing? && sender.Valid() && !sender.closed && Sendable(message(queue.drain.item))
      modifies queue, sender
      ensures queue.Value() == Q.Next(old(queue.Value()), e)
      ensures sender.Valid()
      ensures e == Q.WriteDone(true) ==>
        sender.failed.None? && sender.done == old(sender.done) + [message(old(queue.drain.item))]
      ensures e != Q.WriteDone(true) ==>
        && sender.done == old(sender.done)
        && (sender.failed == old(sender.failed) || sender.failed == Some(message(old(queue.drain.item))))
      ensures sender.closed <==> e == Q.NonceExhausted
      ensures e == Q.WriteDone(true) || e == Q.WriteDone(false) || e == Q.NonceExhausted
    {
      var ok := sender.SendMessage(message(queue.drain.item));
      if sender.closed {
        queue.Close();
        e := Q.NonceExhausted;
      } else {
        e := Q.WriteDone(ok);
      }
      queue.AfterWrite(ok);
    }

    /** A segment that writes nothing. */
    method TouchQueue(step: Step) returns (ghost e: Q.Event)
      requires !step.WriteReturns?
      modifies queue
      ensures Realises(e, step) && queue.Value() == Q.Next(old(queue.Value()), e)
    {
      match step {
        case Start =>
          if queue.drain.NotStarted? {
            queue.Proceed();
          }
          e := Q.Start;
        case Enqueue(id) =>
          var waits := queue.EnqueueSend(id);
          e := Q.Enqueue(id);
        case CloseGracefully(id) =>
          var waits := queue.CloseGracefully(id);
          e := Q.CloseGracefully(id);
        case Close =>
          queue.Close();
          e := Q.Close;
        case Wake =>
          if queue.drain.Sleeping? {
            queue.Proceed();
          }
          e := Q.Wake;
      }
    }

    /** One segment. */
    method Take(step: Step) returns (ghost e: Q.Event)
      requires Valid()
      modifies this, queue, sender
      ensures Valid() && Realises(e, step) && trace == old(trace) + [e]
    {
      Q.EveryRunSound(authenticated, trace);
      ghost var before := queue.Value();
      e := Q.WriteDone(false);
      if !step.WriteReturns? {
        e := TouchQueue(step);
      } else if queue.drain.Writing? {
        e := FinishWrite();
      }
      StepAcks(message, before, e);
      StepExits(before, e);
      RunOneMore(authenticated, trace, e);
      trace := trace + [e];
    }

    /** Any number of segments, in any order. */
    method Serve(steps: seq<Step>)
      requires Valid() && trace == []
      modifies this, queue, sender
      ensures Valid() && Realised(trace, steps)
    {
      for i := 0 to |steps|
        invariant Valid() && Realised(trace, steps[..i])
      {
        ghost var before := trace;
        ghost var e := Take(steps[i]);
        RealisedOneMore(before, e, steps, i);
      }
      assert steps[..|steps|] == steps;
    }
  }

  /** Over every interleaving, and wherever the socket broke: the callback at the far end gets the messages whose
      waiters were told true, in that order and once each, pings, pongs and goodbyes aside. */
  lemma CallbackGetsAcked(c: Connection)
    requires c.Valid() && Marked(c.message) && forall i :: !Oversized(c.message(i))
    ensures var s := c.sender;
      T.HandleAll(T.Heard([], 0, false), Parsed(Node, s.codec, Opened(s.aead, s.socket, s.base)))
      == T.Heard(ForCallback(c.message, c.queue.signals), T.Pings(s.done), T.SaysGoodbye(s.done))
  {
    AckedOf(c.message, c.queue.signals);
    T.CallbackGetsSent(c.sender);
    Q.EveryRunSound(c.authenticated, c.trace);
    SignalsInOrder(c.queue.Value());
    NothingBehindGoodbye(c.message, c.queue.signals);
  }

  lemma {:induction false} AckedOf(message: Q.Item -> Message, signals: seq<Q.Signal>)
    ensures forall m :: m in Acked(message, signals) ==> exists i :: m == message(i)
  {
    if signals != [] {
      AckedOf(message, signals[..|signals| - 1]);
    }
  }
}
