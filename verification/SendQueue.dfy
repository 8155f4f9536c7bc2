/** The send queue of a connection (db/net/connection.cpp): any number of coroutines queue messages and wait,
    one drain coroutine writes them and signals each waiter. Coroutines switch only where they await, so a run
    is a sequence of the uninterrupted segments below, in any order. */
module SendQueue {
  const MAX_SEND_QUEUE: nat := 1024

  /** A queued message; `id` names the waiter. */
  datatype Item = Item(id: nat, goodbye: bool)

  /** Where the drain coroutine is suspended. `signalled`: the timer it sleeps on has been cancelled. */
  datatype Drain = NotStarted | Writing(item: Item) | Sleeping(signalled: bool) | Exited

  datatype Signal = Signal(item: Item, ok: bool)

  /** `accepted` and `signals` record what was queued and which waiters were woken, in order. */
  datatype State = State(queue: seq<Item>, closed: bool, closing: bool, authenticated: bool, drain: Drain,
                         accepted: seq<Item>, signals: seq<Signal>)

  datatype Event =
    | Start
    | Enqueue(id: nat)
    | CloseGracefully(id: nat)
    | Close
    | WriteDone(ok: bool)    // the last write of the current message came back
    | NonceExhausted         // send_encrypted refused and closed the connection
    | Wake

  function Initial(authenticated: bool): State {
    State([], false, false, authenticated, NotStarted, [], [])
  }

  /** Cancelling a timer nobody waits on does nothing. */
  function Nudge(d: Drain): Drain {
    if d.Sleeping? then Sleeping(true) else d
  }

  function CloseNow(s: State): State {
    if s.closed then s else s.(closed := true, drain := Nudge(s.drain))
  }

  function Push(s: State, item: Item): State {
    s.(queue := s.queue + [item], accepted := s.accepted + [item], closing := s.closing || item.goodbye,
       drain := Nudge(s.drain))
  }

  function EnqueueSend(s: State, id: nat): State {
    if s.closed || s.closing then s
    else if |s.queue| >= MAX_SEND_QUEUE then CloseNow(s)
    else Push(s, Item(id, false))
  }

  /** Does not look at `closing`: a second graceful close queues a second goodbye. */
  function BeginClose(s: State, id: nat): State {
    if s.closed || !s.authenticated then CloseNow(s)
    else if |s.queue| >= MAX_SEND_QUEUE then CloseNow(s)
    else Push(s, Item(id, true))
  }

  function Failures(items: seq<Item>): (r: seq<Signal>)
    ensures |r| == |items|
  {
    if items == [] then [] else [Signal(items[0], false)] + Failures(items[1..])
  }

  function FailAll(s: State): State {
    s.(queue := [], signals := s.signals + Failures(s.queue))
  }

  /** The drain coroutine from the head of its loops to its next await. */
  function Continue(s: State): State {
    if s.closed then FailAll(s).(drain := Exited)
    else if s.queue != [] then s.(queue := s.queue[1..], drain := Writing(s.queue[0]))
    else s.(drain := Sleeping(false))
  }

  function FinishWrite(s: State, ok: bool): State
    requires s.drain.Writing?
  {
    var s' := s.(signals := s.signals + [Signal(s.drain.item, ok)]);
    Continue(if ok then s' else FailAll(s'))
  }

  predicate Enabled(s: State, e: Event) {
    match e
    case Start => s.drain.NotStarted?
    case WriteDone(_) => s.drain.Writing?
    case NonceExhausted => s.drain.Writing?
    case Wake => s.drain.Sleeping?
    case _ => true
  }

  /** An event that the drain coroutine is not waiting for leaves the state as it is. */
  function Next(s: State, e: Event): State {
    if !Enabled(s, e) then s
    else
      match e
      case Start => Continue(s)
      case Enqueue(id) => EnqueueSend(s, id)
      case CloseGracefully(id) => BeginClose(s, id)
      case Close => CloseNow(s)
      case WriteDone(ok) => FinishWrite(s, ok)
      case NonceExhausted => FinishWrite(CloseNow(s), false)
      case Wake => Continue(s)
  }

  function Run(authenticated: bool, evs: seq<Event>): State {
    if evs == [] then Initial(authenticated) else Next(Run(authenticated, evs[..|evs| - 1]), evs[|evs| - 1])
  }

  // What every run keeps.

  function Items(signals: seq<Signal>): (r: seq<Item>)
    ensures |r| == |signals|
  {
    if signals == [] then [] else [signals[0].item] + Items(signals[1..])
  }

  function Current(d: Drain): seq<Item> {
    if d.Writing? then [d.item] else []
  }

  /** Everything accepted has been signalled, is being written, or is queued, once each and in this order. */
  predicate Conserved(s: State) {
    s.accepted == Items(s.signals) + Current(s.drain) + s.queue
  }

  /** Goodbyes come last: nothing but another goodbye is accepted after one. */
  predicate GoodbyesLast(s: State) {
    && (forall i, j :: 0 <= i < j < |s.accepted| && s.accepted[i].goodbye ==> s.accepted[j].goodbye)
    && (s.closing <==> exists i :: 0 <= i < |s.accepted| && s.accepted[i].goodbye)
  }

  /** The drain coroutine sleeps unsignalled only with nothing to do, and exits only on a closed connection. */
  predicate NoLostWakeup(s: State) {
    && (s.drain == Sleeping(false) ==> s.queue == [] && !s.closed)
    && (s.drain.Exited? ==> s.queue == [] && s.closed)
    && |s.queue| <= MAX_SEND_QUEUE
  }

  predicate Sound(s: State) {
    Conserved(s) && GoodbyesLast(s) && NoLostWakeup(s)
  }

  lemma {:induction false} ItemsAppend(a: seq<Signal>, b: seq<Signal>)
    ensures Items(a + b) == Items(a) + Items(b)
  {
    if a == [] {
      assert a + b == b;
    } else {
      assert (a + b)[1..] == a[1..] + b;
      ItemsAppend(a[1..], b);
    }
  }

  lemma {:induction false} FailuresItems(items: seq<Item>)
    ensures Items(Failures(items)) == items
  {
    if items != [] {
      FailuresItems(items[1..]);
      assert Failures(items)[1..] == Failures(items[1..]);
    }
  }

  lemma FailAllConserves(s: State)
    requires s.accepted == Items(s.signals) + s.queue
    ensures FailAll(s).accepted == Items(FailAll(s).signals)
  {
    ItemsAppend(s.signals, Failures(s.queue));
    FailuresItems(s.queue);
  }

  /** Resuming the loop with nothing in hand. */
  lemma ContinueSound(s: State)
    requires s.accepted == Items(s.signals) + s.queue && GoodbyesLast(s) && |s.queue| <= MAX_SEND_QUEUE
    ensures Sound(Continue(s))
  {
    FailAllConserves(s);
    if !s.closed && s.queue != [] {
      assert Items(s.signals) + s.queue == Items(s.signals) + [s.queue[0]] + s.queue[1..];
    }
  }

  lemma FinishSound(s: State, ok: bool)
    requires Sound(s) && s.drain.Writing?
    ensures Sound(FinishWrite(s, ok))
  {
    var s' := s.(signals := s.signals + [Signal(s.drain.item, ok)]);
    ItemsAppend(s.signals, [Signal(s.drain.item, ok)]);
    assert Items([Signal(s.drain.item, ok)]) == [s.drain.item] + Items([]);
    assert s'.accepted == Items(s'.signals) + s'.queue;
    FailAllConserves(s');
    if ok {
      ContinueSound(s');
    } else {
      assert FailAll(s').accepted == Items(FailAll(s').signals) + [];
      ContinueSound(FailAll(s'));
    }
  }

  lemma PushSound(s: State, item: Item)
    requires Sound(s) && !s.closed && |s.queue| < MAX_SEND_QUEUE && (s.closing ==> item.goodbye)
    ensures Sound(Push(s, item))
  {
    var s' := Push(s, item);
    assert Current(s'.drain) == Current(s.drain);
    assert s'.accepted[|s.accepted|] == item;
    if s.closing {
      var i :| 0 <= i < |s.accepted| && s.accepted[i].goodbye;
      assert s'.accepted[i].goodbye;
    }
  }

  lemma CloseSound(s: State)
    requires Sound(s)
    ensures Sound(CloseNow(s))
  {
    assert Current(CloseNow(s).drain) == Current(s.drain);
  }

  lemma StepSound(s: State, e: Event)
    requires Sound(s)
    ensures Sound(Next(s, e))
  {
    if !Enabled(s, e) {
      return;
    }
    CloseSound(s);
    match e
    case Start => ContinueSound(s);
    case Wake => ContinueSound(s);
    case Enqueue(id) =>
      if !s.closed && !s.closing && |s.queue| < MAX_SEND_QUEUE {
        PushSound(s, Item(id, false));
      }
    case CloseGracefully(id) =>
      if !s.closed && s.authenticated && |s.queue| < MAX_SEND_QUEUE {
        PushSound(s, Item(id, true));
      }
    case Close =>
    case WriteDone(ok) => FinishSound(s, ok);
    case NonceExhausted => FinishSound(CloseNow(s), false);
  }

  /** In every run: accepted messages are signalled once each and in order, goodbyes come last, and the drain
      coroutine never sleeps on a non-empty queue without a wakeup under way. */
  lemma {:induction false} EveryRunSound(authenticated: bool, evs: seq<Event>)
    ensures Sound(Run(authenticated, evs))
    decreases |evs|
  {
    if evs != [] {
      EveryRunSound(authenticated, evs[..|evs| - 1]);
      StepSound(Run(authenticated, evs[..|evs| - 1]), evs[|evs| - 1]);
    }
  }

  /** A graceful close queues a goodbye exactly on an open, authenticated connection with room in its queue, whether or
      not one is queued already. */
  lemma GoodbyeQueuedIff(s: State, id: nat)
    ensures BeginClose(s, id).accepted == s.accepted + [Item(id, true)] <==>
      !s.closed && s.authenticated && |s.queue| < MAX_SEND_QUEUE
    ensures BeginClose(s, id).accepted == s.accepted + [Item(id, true)] || BeginClose(s, id).accepted == s.accepted
  {
  }

  /** So another can follow a goodbye. */
  lemma TwoGoodbyes()
    ensures Run(true, [CloseGracefully(1), CloseGracefully(2)]).accepted == [Item(1, true), Item(2, true)]
  {
    var one := [CloseGracefully(1)];
    assert [CloseGracefully(1), CloseGracefully(2)][..1] == one && one[..0] == [];
    assert Run(true, one) == Next(Initial(true), CloseGracefully(1));
  }

  // What closes the connection.

  predicate Closes(s: State, e: Event) {
    match e
    case Close => true
    case CloseGracefully(_) => !s.authenticated || |s.queue| >= MAX_SEND_QUEUE
    case Enqueue(_) => !s.closing && |s.queue| >= MAX_SEND_QUEUE
    case NonceExhausted => s.drain.Writing?
    case _ => false
  }

  predicate NeverCloses(authenticated: bool, evs: seq<Event>) {
    evs == [] ||
    (NeverCloses(authenticated, evs[..|evs| - 1]) && !Closes(Run(authenticated, evs[..|evs| - 1]), evs[|evs| - 1]))
  }

  lemma StepClosesIff(s: State, e: Event)
    ensures Next(s, e).closed <==> s.closed || Closes(s, e)
  {
  }

  /** A connection stays open exactly if no event closes it. */
  lemma {:induction false} OpenIff(authenticated: bool, evs: seq<Event>)
    ensures !Run(authenticated, evs).closed <==> NeverCloses(authenticated, evs)
    decreases |evs|
  {
    if evs != [] {
      OpenIff(authenticated, evs[..|evs| - 1]);
      StepClosesIff(Run(authenticated, evs[..|evs| - 1]), evs[|evs| - 1]);
    }
  }

  /** The drain coroutine has nothing left to do. */
  predicate Quiet(s: State) {
    s.drain == Sleeping(false) || s.drain.Exited?
  }

  /** Whenever it is quiet, every accepted waiter has been signalled, exactly once. */
  lemma QuietMeansAllSignalled(authenticated: bool, evs: seq<Event>)
    requires Quiet(Run(authenticated, evs))
    ensures Run(authenticated, evs).accepted == Items(Run(authenticated, evs).signals)
  {
    EveryRunSound(authenticated, evs);
    var s := Run(authenticated, evs);
    assert Items(s.signals) + [] + [] == Items(s.signals);
  }

  /** The drain coroutine's own next step. */
  function DrainEvent(s: State, ok: bool): Event
    requires !Quiet(s)
  {
    match s.drain
    case NotStarted => Start
    case Writing(_) => WriteDone(ok)
    case Sleeping(_) => Wake
  }

  function Work(s: State): nat {
    3 * |s.queue| + if s.drain.Writing? then 2 else if Quiet(s) then 0 else 4
  }

  /** Each of its steps brings it closer to quiet, whatever the writes return. */
  lemma DrainProgress(s: State, ok: bool)
    requires !Quiet(s)
    ensures Enabled(s, DrainEvent(s, ok)) && Work(Next(s, DrainEvent(s, ok))) < Work(s)
  {
  }

  /** The queue as the object the coroutines share. Each method is one uninterrupted segment. */
  class Queue {
    var queue: seq<Item>
    var closed: bool
    var closing: bool
    var authenticated: bool
    var drain: Drain
    var signals: seq<Signal>
    ghost var accepted: seq<Item>

    constructor (authenticated: bool)
      ensures Value() == Initial(authenticated)
    {
      queue, closed, closing, this.authenticated, drain, signals := [], false, false, authenticated, NotStarted, [];
      accepted := [];
    }

    ghost function Value(): State
      reads this
    {
      State(queue, closed, closing, authenticated, drain, accepted, signals)
    }

    method Close()
      modifies this`closed, this`drain
      ensures Value() == Next(old(Value()), Event.Close)
    {
      if closed {
        return;
      }
      closed := true;
      drain := Nudge(drain);
    }

    /** True: the caller now waits for its signal. */
    method EnqueueSend(id: nat) returns (waits: bool)
      modifies this
      ensures Value() == Next(old(Value()), Enqueue(id))
      ensures waits <==> Value().accepted == old(accepted) + [Item(id, false)]
    {
      if closed || closing {
        return false;
      }
      if |queue| >= MAX_SEND_QUEUE {
        Close();
        return false;
      }
      queue := queue + [Item(id, false)];
      accepted := accepted + [Item(id, false)];
      drain := Nudge(drain);
      waits := true;
    }

    method CloseGracefully(id: nat) returns (waits: bool)
      modifies this
      ensures Value() == Next(old(Value()), Event.CloseGracefully(id))
      ensures waits <==> Value().accepted == old(accepted) + [Item(id, true)]
    {
      if closed || !authenticated {
        Close();
        return false;
      }
      if |queue| >= MAX_SEND_QUEUE {
        Close();
        return false;
      }
      queue := queue + [Item(id, true)];
      accepted := accepted + [Item(id, true)];
      closing := true;
      drain := Nudge(drain);
      waits := true;
    }

    method FailRemaining()
      modifies this`queue, this`signals
      ensures Value() == FailAll(old(Value()))
    {
      while queue != []
        invariant signals + Failures(queue) == old(signals) + Failures(old(queue))
        decreases |queue|
      {
        assert Failures(queue) == [Signal(queue[0], false)] + Failures(queue[1..]);
        signals := signals + [Signal(queue[0], false)];
        queue := queue[1..];
      }
    }

    /** The drain coroutine: on to its next await. */
    method Proceed()
      modifies this`queue, this`signals, this`drain
      ensures Value() == Continue(old(Value()))
    {
      if !closed && queue != [] {
        drain := Writing(queue[0]);
        queue := queue[1..];
        return;
      }
      if !closed {
        drain := Sleeping(false);
        return;
      }
      FailRemaining();
      drain := Exited;
    }

    method AfterWrite(ok: bool)
      requires drain.Writing?
      modifies this`queue, this`signals, this`drain
      ensures Value() == Next(old(Value()), WriteDone(ok))
    {
      signals := signals + [Signal(drain.item, ok)];
      if !ok {
        FailRemaining();
      }
      Proceed();
    }
  }
}
