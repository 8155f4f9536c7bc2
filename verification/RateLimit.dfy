/** The per-connection token bucket (db/peer/message_dispatcher.cpp, db/peer/connection_manager.cpp), in the 64-bit
    arithmetic it is written in. */
module RateLimit {
  import opened Basics
  import opened Octets

  datatype Bucket = Bucket(tokens: nat, last: nat)

  /** The outcome of one attempt to take `bytes` tokens. */
  datatype Outcome = Outcome(bucket: Bucket, ok: bool)

  /** What the bucket means: it gains rate/1000 tokens a millisecond, whole tokens only, up to the burst. */
  function Consume(b: Bucket, now: nat, bytes: nat, rate: nat, burst: nat): Outcome
    requires b.last <= now
  {
    var tokens := Min(b.tokens + rate * (now - b.last) / 1000, burst);
    if bytes > tokens then Outcome(Bucket(tokens, now), false) else Outcome(Bucket(tokens - bytes, now), true)
  }

  /** The most a refill can use, computed with wrap-around. */
  function MaxElapsed(rate: nat, burst: nat): nat
    requires rate > 0
  {
    (burst * 1000 % TWO_64 / rate + 1) % TWO_64
  }

  function Refill(rate: nat, burst: nat, elapsed: nat): nat
    requires rate > 0
  {
    rate * Min(elapsed, MaxElapsed(rate, burst)) % TWO_64 / 1000
  }

  /** The limits under which the 64-bit computation is exact. */
  predicate InRange(rate: nat, burst: nat) {
    rate > 0 && burst * 1000 + rate < TWO_64
  }

  lemma QuotientBounds(x: nat, d: nat)
    requires d > 0
    ensures d * (x / d) <= x < d * (x / d) + d
  {
  }

  lemma ProductOrder(k: nat, a: nat, b: nat)
    requires a <= b
    ensures k * a <= k * b
  {
  }

  lemma AtLeast(d: nat, k: nat)
    requires d >= 1
    ensures k <= d * k
  {
    assert d * k == (d - 1) * k + k;
  }

  lemma Distributes(k: nat, a: nat)
    ensures k * (a + 1) == k * a + k
  {
  }

  lemma MaxElapsedIs(rate: nat, burst: nat) returns (q: nat)
    requires InRange(rate, burst)
    ensures MaxElapsed(rate, burst) == q + 1 && rate * q <= burst * 1000 < rate * q + rate
  {
    q := burst * 1000 / rate;
    QuotientBounds(burst * 1000, rate);
    AtLeast(rate, q);
  }

  /** Before the cap the product does not wrap. */
  lemma RefillExact(rate: nat, burst: nat, elapsed: nat, q: nat)
    requires InRange(rate, burst) && MaxElapsed(rate, burst) == q + 1 && rate * q <= burst * 1000 && elapsed <= q + 1
    ensures Refill(rate, burst, elapsed) == rate * elapsed / 1000 <= burst + rate
  {
    ProductOrder(rate, elapsed, q + 1);
    Distributes(rate, q);
    NoWrap(rate * elapsed, rate, burst);
  }

  lemma NoWrap(p: nat, rate: nat, burst: nat)
    requires p <= burst * 1000 + rate < TWO_64
    ensures p % TWO_64 / 1000 == p / 1000 <= burst + rate
  {
  }

  /** Past it the bucket fills, by either formula. */
  lemma RefillFull(rate: nat, burst: nat, elapsed: nat, q: nat)
    requires InRange(rate, burst) && MaxElapsed(rate, burst) == q + 1 && elapsed > q + 1
    requires rate * q <= burst * 1000 < rate * q + rate
    ensures burst <= Refill(rate, burst, elapsed) <= burst + rate && burst <= rate * elapsed / 1000
  {
    Distributes(rate, q);
    ProductOrder(rate, q + 1, elapsed);
    NoWrap(rate * (q + 1), rate, burst);
    AtLeastBurst(rate * (q + 1), burst);
    AtLeastBurst(rate * elapsed, burst);
  }

  lemma AtLeastBurst(p: nat, burst: nat)
    requires burst * 1000 <= p
    ensures burst <= p / 1000
  {
  }

  /** Capping the elapsed time stops the overflow and changes nothing: past the cap the bucket is full anyway. */
  lemma CapHarmless(rate: nat, burst: nat, elapsed: nat, tokens: nat)
    requires InRange(rate, burst) && tokens <= burst
    ensures Min((tokens + Refill(rate, burst, elapsed)) % TWO_64, burst) == Min(tokens + rate * elapsed / 1000, burst)
  {
    var q := MaxElapsedIs(rate, burst);
    if elapsed <= q + 1 {
      RefillExact(rate, burst, elapsed, q);
    } else {
      RefillFull(rate, burst, elapsed, q);
    }
    SameLevel(tokens, rate, burst, Refill(rate, burst, elapsed), rate * elapsed / 1000);
  }

  lemma SameLevel(tokens: nat, rate: nat, burst: nat, refill: nat, gain: nat)
    requires burst * 1000 + rate < TWO_64 && tokens <= burst && refill <= burst + rate
    requires refill == gain || (refill >= burst && gain >= burst)
    ensures Min((tokens + refill) % TWO_64, burst) == Min(tokens + gain, burst)
  {
    assert tokens + refill < TWO_64;
  }

  class TokenBucket {
    var tokens: nat
    var last: nat

    /** A new connection starts with a full bucket. */
    constructor (burst: nat, now: nat)
      ensures tokens == burst && last == now
    {
      tokens, last := burst, now;
    }

    /** try_consume_tokens. Within range the wrap-around arithmetic gives exactly the meaning above. */
    method TryConsume(now: nat, bytes: nat, rate: nat, burst: nat) returns (ok: bool)
      requires last <= now < TWO_64 && rate > 0 && burst < TWO_64
      modifies this
      ensures InRange(rate, burst) && old(tokens) <= burst ==>
        Outcome(Bucket(tokens, last), ok) == Consume(Bucket(old(tokens), old(last)), now, bytes, rate, burst)
      ensures last == now && tokens <= burst
    {
      var refill := Refill(rate, burst, now - last);
      if InRange(rate, burst) && tokens <= burst {
        CapHarmless(rate, burst, now - last, tokens);
      }
      tokens := Min((tokens + refill) % TWO_64, burst);
      last := now;
      ok := bytes <= tokens;
      if ok {
        tokens := tokens - bytes;
      }
    }
  }

  // Whole runs.

  /** A message: when it came, its size, and whether it is a write or a delete. */
  datatype Arrival = Arrival(at: nat, bytes: nat, gated: bool)

  function Clock(start: nat, arrivals: seq<Arrival>): nat {
    if arrivals == [] then start else arrivals[|arrivals| - 1].at
  }

  predicate InOrder(start: nat, arrivals: seq<Arrival>) {
    if arrivals == [] then true
    else
      var before, m := arrivals[..|arrivals| - 1], arrivals[|arrivals| - 1];
      InOrder(start, before) && Clock(start, before) <= m.at
  }

  /** The bucket after some messages, the write and delete bytes that were let through, and the bytes of every kind that
      took tokens. */
  datatype Tally = Tally(bucket: Bucket, routed: nat, spent: nat)

  function Route(b: Bucket, arrivals: seq<Arrival>, rate: nat, burst: nat): (t: Tally)
    requires InOrder(b.last, arrivals)
    ensures t.bucket.last == Clock(b.last, arrivals)
    decreases |arrivals|
  {
    if arrivals == [] then Tally(b, 0, 0)
    else
      var m := arrivals[|arrivals| - 1];
      var t := Route(b, arrivals[..|arrivals| - 1], rate, burst);
      var o := Consume(t.bucket, m.at, m.bytes, rate, burst);
      Tally(o.bucket, if m.gated && o.ok then t.routed + m.bytes else t.routed,
            if o.ok then t.spent + m.bytes else t.spent)
  }

  lemma ConsumeConserves(b: Bucket, now: nat, bytes: nat, rate: nat, burst: nat)
    requires b.last <= now
    ensures var o := Consume(b, now, bytes, rate, burst);
      && 1000 * (o.bucket.tokens + if o.ok then bytes else 0) <= 1000 * b.tokens + rate * (now - b.last)
      && o.bucket.tokens <= burst
  {
  }

  /** Conservation over a run: tokens left and tokens spent never exceed what was there plus what time brought, and what
      is routed is spent. */
  lemma {:induction false} RunConserves(b: Bucket, arrivals: seq<Arrival>, rate: nat, burst: nat)
    requires InOrder(b.last, arrivals)
    ensures var t := Route(b, arrivals, rate, burst);
      && 1000 * (t.bucket.tokens + t.spent) <= 1000 * b.tokens + rate * (Clock(b.last, arrivals) - b.last)
      && t.routed <= t.spent
    decreases |arrivals|
  {
    if arrivals != [] {
      var before, m := arrivals[..|arrivals| - 1], arrivals[|arrivals| - 1];
      RunConserves(b, before, rate, burst);
      var t := Route(b, before, rate, burst);
      ConsumeConserves(t.bucket, m.at, m.bytes, rate, burst);
      var c := Clock(b.last, before);
      assert rate * (m.at - b.last) == rate * (c - b.last) + rate * (m.at - c);
    }
  }

  /** The rate bound, from any moment on: over any stretch of a connection's life the write and delete bytes let
      through are at most the burst plus rate times the elapsed time. */
  lemma RateBound(b: Bucket, arrivals: seq<Arrival>, rate: nat, burst: nat)
    requires InOrder(b.last, arrivals) && b.tokens <= burst
    ensures Route(b, arrivals, rate, burst).routed <= burst + rate * (Clock(b.last, arrivals) - b.last) / 1000
  {
    RunConserves(b, arrivals, rate, burst);
    var t := Route(b, arrivals, rate, burst);
    var time := rate * (Clock(b.last, arrivals) - b.last);
    assert 1000 * t.routed <= 1000 * burst + time;
    assert t.routed <= (1000 * burst + time) / 1000;
  }

  // The other side of it.

  /** A point of a run from which its budget can be counted: the start, or the arrival before place `from`, if the
      bucket was full then. Gives the level and the time there and what had been spent before. */
  datatype Mark = Mark(level: nat, time: nat, spent: nat)

  function MarkAt(b: Bucket, arrivals: seq<Arrival>, from: nat, rate: nat, burst: nat): Mark
    requires InOrder(b.last, arrivals) && from <= |arrivals|
  {
    if from == 0 then Mark(b.tokens, b.last, 0)
    else
      PrefixInOrder(b.last, arrivals, from - 1);
      Mark(burst, arrivals[from - 1].at, Route(b, arrivals[..from - 1], rate, burst).spent)
  }

  lemma {:induction false} PrefixInOrder(start: nat, arrivals: seq<Arrival>, n: nat)
    requires InOrder(start, arrivals) && n <= |arrivals|
    ensures InOrder(start, arrivals[..n])
    decreases |arrivals|
  {
    if n == |arrivals| {
      assert arrivals[..n] == arrivals;
    } else {
      var before := arrivals[..|arrivals| - 1];
      PrefixInOrder(start, before, n);
      assert before[..n] == arrivals[..n];
    }
  }

  /** Since the mark, what is left and what was spent fall short of the level there and of what time brought by less
      than one token a message. */
  predicate Kept(b: Bucket, arrivals: seq<Arrival>, from: nat, rate: nat, burst: nat)
    requires InOrder(b.last, arrivals) && from <= |arrivals|
  {
    var t, k := Route(b, arrivals, rate, burst), MarkAt(b, arrivals, from, rate, burst);
    1000 * (t.bucket.tokens + t.spent - k.spent) + 999 * (|arrivals| - from)
      >= 1000 * k.level + rate * (Clock(b.last, arrivals) - k.time)
  }

  /** One refill that does not fill the bucket loses less than a token. */
  lemma RefillKeeps(b: Bucket, now: nat, bytes: nat, rate: nat, burst: nat)
    requires b.last <= now && b.tokens + rate * (now - b.last) / 1000 <= burst
    ensures var o := Consume(b, now, bytes, rate, burst);
      1000 * (o.bucket.tokens + if o.ok then bytes else 0) + 999 >= 1000 * b.tokens + rate * (now - b.last)
  {
  }

  lemma Later(rate: nat, t0: nat, t1: nat, t2: nat)
    requires t0 <= t1 <= t2
    ensures rate * (t2 - t0) == rate * (t1 - t0) + rate * (t2 - t1)
  {
  }

  /** The mark of a shorter run is a mark of the longer one. */
  lemma MarkStays(b: Bucket, arrivals: seq<Arrival>, from: nat, rate: nat, burst: nat)
    requires InOrder(b.last, arrivals) && arrivals != [] && from < |arrivals|
    ensures MarkAt(b, arrivals, from, rate, burst) == MarkAt(b, arrivals[..|arrivals| - 1], from, rate, burst)
    ensures MarkAt(b, arrivals, from, rate, burst).time <= Clock(b.last, arrivals[..|arrivals| - 1])
  {
    var before := arrivals[..|arrivals| - 1];
    if from > 0 {
      assert before[..from - 1] == arrivals[..from - 1];
      InTime(b.last, before, from - 1);
    } else {
      InTime(b.last, before, |before|);
    }
  }

  lemma {:induction false} InTime(start: nat, arrivals: seq<Arrival>, n: nat)
    requires InOrder(start, arrivals) && n <= |arrivals|
    ensures start <= Clock(start, arrivals) && (n < |arrivals| ==> arrivals[n].at <= Clock(start, arrivals))
    decreases |arrivals|
  {
    if arrivals != [] {
      var before := arrivals[..|arrivals| - 1];
      InTime(start, before, if n < |before| then n else |before|);
    }
  }

  lemma KeptUncapped(b: Bucket, arrivals: seq<Arrival>, from: nat, rate: nat, burst: nat)
    requires InOrder(b.last, arrivals) && from < |arrivals| && Kept(b, arrivals[..|arrivals| - 1], from, rate, burst)
    requires var t := Route(b, arrivals[..|arrivals| - 1], rate, burst);
      t.bucket.tokens + rate * (arrivals[|arrivals| - 1].at - t.bucket.last) / 1000 <= burst
    ensures Kept(b, arrivals, from, rate, burst)
  {
    var before, m := arrivals[..|arrivals| - 1], arrivals[|arrivals| - 1];
    var t, k := Route(b, before, rate, burst), MarkAt(b, arrivals, from, rate, burst);
    MarkStays(b, arrivals, from, rate, burst);
    RefillKeeps(t.bucket, m.at, m.bytes, rate, burst);
    Later(rate, k.time, t.bucket.last, m.at);
  }

  lemma KeptWhenFull(b: Bucket, arrivals: seq<Arrival>, rate: nat, burst: nat)
    requires InOrder(b.last, arrivals) && arrivals != []
    requires var t := Route(b, arrivals[..|arrivals| - 1], rate, burst);
      t.bucket.tokens + rate * (arrivals[|arrivals| - 1].at - t.bucket.last) / 1000 > burst
    ensures Kept(b, arrivals, |arrivals|, rate, burst)
  {
  }

  /** The bucket was full when the arrival before place `from` came. */
  predicate Full(b: Bucket, arrivals: seq<Arrival>, from: nat, rate: nat, burst: nat)
    requires InOrder(b.last, arrivals) && 0 < from <= |arrivals|
  {
    PrefixInOrder(b.last, arrivals, from - 1);
    PrefixInOrder(b.last, arrivals, from);
    assert arrivals[..from][..from - 1] == arrivals[..from - 1];
    var t := Route(b, arrivals[..from - 1], rate, burst);
    t.bucket.tokens + rate * (arrivals[from - 1].at - t.bucket.last) / 1000 > burst
  }

  lemma FullStays(b: Bucket, arrivals: seq<Arrival>, from: nat, rate: nat, burst: nat)
    requires InOrder(b.last, arrivals) && 0 < from < |arrivals|
    requires Full(b, arrivals[..|arrivals| - 1], from, rate, burst)
    ensures Full(b, arrivals, from, rate, burst)
  {
    assert arrivals[..|arrivals| - 1][..from - 1] == arrivals[..from - 1];
  }

  /** Every run has such a mark: nothing but the burst and less than a token a message is lost. */
  lemma {:induction false} RunKeeps(b: Bucket, arrivals: seq<Arrival>, rate: nat, burst: nat) returns (from: nat)
    requires InOrder(b.last, arrivals)
    ensures from <= |arrivals| && Kept(b, arrivals, from, rate, burst)
    ensures from > 0 ==> Full(b, arrivals, from, rate, burst)
    decreases |arrivals|
  {
    if arrivals == [] {
      from := 0;
    } else {
      var before, m := arrivals[..|arrivals| - 1], arrivals[|arrivals| - 1];
      from := RunKeeps(b, before, rate, burst);
      var t := Route(b, before, rate, burst);
      if t.bucket.tokens + rate * (m.at - t.bucket.last) / 1000 <= burst {
        KeptUncapped(b, arrivals, from, rate, burst);
        if from > 0 {
          FullStays(b, arrivals, from, rate, burst);
        }
      } else {
        from := |arrivals|;
        KeptWhenFull(b, arrivals, rate, burst);
      }
    }
  }

  /** The partner of the rate bound: a message is refused only if, since the start or since a moment when the bucket was
      full, the bytes spent and its own exceed the level then and rate times the elapsed time, less one token for
      each message in between. */
  lemma RefusedOnlyOverBudget(b: Bucket, arrivals: seq<Arrival>, rate: nat, burst: nat) returns (from: nat)
    requires InOrder(b.last, arrivals) && arrivals != []
    requires var m := arrivals[|arrivals| - 1];
      !Consume(Route(b, arrivals[..|arrivals| - 1], rate, burst).bucket, m.at, m.bytes, rate, burst).ok
    ensures from <= |arrivals| && (from > 0 ==> Full(b, arrivals, from, rate, burst))
    ensures var t, k := Route(b, arrivals, rate, burst), MarkAt(b, arrivals, from, rate, burst);
      1000 * (t.spent - k.spent + arrivals[|arrivals| - 1].bytes)
        > 1000 * k.level + rate * (Clock(b.last, arrivals) - k.time) - 999 * (|arrivals| - from)
  {
    from := RunKeeps(b, arrivals, rate, burst);
  }
}
