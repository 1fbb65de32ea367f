/** The token bucket that paces MCP calls, over real time, with its rate bound. */
module TokenBucket {
  import opened Wrappers

  // ---- The life of a bucket: clock readings, each of which refills it, and tokens taken ----

  datatype Event = Reading(at: real) | Take

  datatype Bucket = Bucket(tokens: real, last: real)

  function Min(a: real, b: real): real { if a <= b then a else b }

  // The tokens that flow in between two times
  function Flow(rate: real, from: real, to: real): real { (to - from) * rate }

  function Refill(b: Bucket, rate: real, now: real): Bucket {
    Bucket(Min(rate, b.tokens + Flow(rate, b.last, now)), now)
  }

  function After(rate: real, start: real, events: seq<Event>): Bucket {
    if events == [] then Bucket(rate, start)
    else
      var b := After(rate, start, events[..|events| - 1]);
      match events[|events| - 1]
      case Reading(now) => Refill(b, rate, now)
      case Take => Bucket(b.tokens - 1.0, b.last)
  }

  // The clock never goes back, and a token is only taken when there is one.
  ghost predicate Legal(rate: real, start: real, events: seq<Event>) {
    events == [] ||
      var front, b := events[..|events| - 1], After(rate, start, events[..|events| - 1]);
      && Legal(rate, start, front)
      && match events[|events| - 1]
         case Reading(now) => b.last <= now
         case Take => b.tokens >= 1.0
  }

  // The times at which tokens were taken: the clock reading each grant was decided on
  function Grants(rate: real, start: real, events: seq<Event>): seq<real> {
    if events == [] then []
    else
      var front, before := events[..|events| - 1], Grants(rate, start, events[..|events| - 1]);
      if events[|events| - 1].Take? then before + [After(rate, start, front).last] else before
  }

  function CountIn(times: seq<real>, s: real, t: real): nat {
    if times == [] then 0
    else CountIn(times[..|times| - 1], s, t) + if s <= times[|times| - 1] <= t then 1 else 0
  }

  lemma {:induction false} CountInIsNumber(times: seq<real>, s: real, t: real)
    ensures CountIn(times, s, t) == |set i | 0 <= i < |times| && s <= times[i] <= t|
  {
    if times == [] {
    } else {
      var front, n := times[..|times| - 1], |times| - 1;
      CountInIsNumber(front, s, t);
      var before := set i | 0 <= i < |front| && s <= front[i] <= t;
      var all := set i | 0 <= i < |times| && s <= times[i] <= t;
      if s <= times[n] <= t { assert all == before + {n}; } else { assert all == before; }
    }
  }

  // ---- Arithmetic of the flow ----

  lemma FlowGrows(rate: real, s: real, a: real, b: real)
    requires rate > 0.0 && a <= b
    ensures Flow(rate, s, a) <= Flow(rate, s, b)
  {}

  lemma FlowIsPositive(rate: real, a: real, b: real)
    requires rate > 0.0 && a <= b
    ensures Flow(rate, a, b) >= 0.0
  {}

  lemma FlowSplits(rate: real, s: real, a: real, b: real)
    ensures Flow(rate, s, b) == Flow(rate, s, a) + Flow(rate, a, b)
  {}

  // A refill keeps "granted plus left <= one bucket plus what flowed in since s".
  lemma RefillKeepsBound(rate: real, granted: real, b: Bucket, s: real, now: real)
    requires rate > 0.0 && granted + b.tokens <= rate + Flow(rate, s, b.last)
    ensures granted + Refill(b, rate, now).tokens <= rate + Flow(rate, s, now)
  {
    FlowSplits(rate, s, b.last, now);
  }

  lemma {:induction false} TokensInRange(rate: real, start: real, events: seq<Event>)
    requires rate > 0.0 && Legal(rate, start, events)
    ensures 0.0 <= After(rate, start, events).tokens <= rate
  {
    if events == [] {
    } else {
      var front := events[..|events| - 1];
      TokensInRange(rate, start, front);
      if events[|events| - 1].Reading? {
        FlowIsPositive(rate, After(rate, start, front).last, events[|events| - 1].at);
      }
    }
  }

  // Every grant is no later than the last reading.
  lemma {:induction false} GrantsArePast(rate: real, start: real, events: seq<Event>)
    requires Legal(rate, start, events)
    ensures forall i | 0 <= i < |Grants(rate, start, events)| ::
            Grants(rate, start, events)[i] <= After(rate, start, events).last
  {
    if events == [] {
    } else {
      GrantsArePast(rate, start, events[..|events| - 1]);
    }
  }

  lemma {:induction false} CountNone(times: seq<real>, s: real, t: real)
    requires forall i | 0 <= i < |times| :: times[i] < s
    ensures CountIn(times, s, t) == 0
  {
    if times == [] {
    } else {
      CountNone(times[..|times| - 1], s, t);
    }
  }

  lemma CountSnoc(times: seq<real>, x: real, s: real, t: real)
    ensures CountIn(times + [x], s, t) == CountIn(times, s, t) + if s <= x <= t then 1 else 0
  {
    assert (times + [x])[..|times|] == times;
  }

  lemma {:induction false} SameCount(times: seq<real>, s: real, t: real, u: real)
    requires t <= u && forall i | 0 <= i < |times| :: times[i] <= t
    ensures CountIn(times, s, t) == CountIn(times, s, u)
  {
    if times == [] {
    } else {
      SameCount(times[..|times| - 1], s, t, u);
    }
  }

  lemma PotentialAtReading(rate: real, before: seq<real>, b: Bucket, s: real, now: real)
    requires rate > 0.0 && b.last <= now && s <= now && forall i | 0 <= i < |before| :: before[i] <= b.last
    requires s <= b.last ==> CountIn(before, s, b.last) as real + b.tokens <= rate + Flow(rate, s, b.last)
    ensures CountIn(before, s, now) as real + Refill(b, rate, now).tokens <= rate + Flow(rate, s, now)
  {
    if s <= b.last {
      SameCount(before, s, b.last, now);
      RefillKeepsBound(rate, CountIn(before, s, b.last) as real, b, s, now);
    } else {
      CountNone(before, s, now);
      FlowIsPositive(rate, s, now);
    }
  }

  // What was granted since s, plus what is left, is at most one full bucket plus what has flowed in since s.
  lemma {:induction false} Potential(rate: real, start: real, events: seq<Event>, s: real)
    requires rate > 0.0 && Legal(rate, start, events) && s <= After(rate, start, events).last
    ensures var b := After(rate, start, events);
            CountIn(Grants(rate, start, events), s, b.last) as real + b.tokens <= rate + Flow(rate, s, b.last)
  {
    if events == [] {
      FlowIsPositive(rate, s, start);
    } else {
      var front := events[..|events| - 1];
      var b, before := After(rate, start, front), Grants(rate, start, front);
      GrantsArePast(rate, start, front);
      if s <= b.last { Potential(rate, start, front, s); }
      match events[|events| - 1]
      case Reading(now) => PotentialAtReading(rate, before, b, s, now);
      case Take => CountSnoc(before, b.last, s, b.last);
    }
  }

  // Right after a token was taken, no grant is later, so the potential bounds the count.
  lemma BoundAtTake(rate: real, start: real, events: seq<Event>, s: real, t: real)
    requires rate > 0.0 && Legal(rate, start, events) && s <= After(rate, start, events).last <= t
    ensures CountIn(Grants(rate, start, events), s, t) as real <= rate + Flow(rate, s, t)
  {
    var last := After(rate, start, events).last;
    Potential(rate, start, events, s);
    TokensInRange(rate, start, events);
    GrantsArePast(rate, start, events);
    SameCount(Grants(rate, start, events), s, last, t);
    FlowGrows(rate, s, last, t);
  }

  // The rate bound: over every life of the bucket, at most rate + rate * (t - s) grants fall in [s, t].
  lemma {:induction false} RateBound(rate: real, start: real, events: seq<Event>, s: real, t: real)
    requires rate > 0.0 && Legal(rate, start, events) && s <= t
    ensures CountIn(Grants(rate, start, events), s, t) as real <= rate + rate * (t - s)
  {
    assert Flow(rate, s, t) == rate * (t - s);
    if events == [] {
      FlowIsPositive(rate, s, t);
    } else {
      var front := events[..|events| - 1];
      var b := After(rate, start, front);
      RateBound(rate, start, front, s, t);
      CountSnoc(Grants(rate, start, front), b.last, s, t);
      if events[|events| - 1].Take? && s <= b.last <= t {
        BoundAtTake(rate, start, events, s, t);
      }
    }
  }

  // ---- One acquire, fed with the clock readings it gets to see ----

  // The loop after used readings: take a token if there is one, else sleep and refill from the next reading. The
  // result says how many readings were used in all; None means still waiting.
  function Wait(b: Bucket, rate: real, readings: seq<real>, used: nat): (Bucket, Option<nat>)
    decreases |readings| - used
  {
    if b.tokens >= 1.0 then (Bucket(b.tokens - 1.0, b.last), Some(used))
    else if used >= |readings| then (b, None)
    else Wait(Refill(b, rate, readings[used]), rate, readings, used + 1)
  }

  // How long the loop sleeps before it looks again
  function Nap(b: Bucket, rate: real): real
    requires rate > 0.0
  {
    (1.0 - b.tokens) / rate
  }

  lemma NapFlow(b: Bucket, rate: real, now: real)
    requires rate > 0.0 && now >= b.last + Nap(b, rate)
    ensures Flow(rate, b.last, now) >= 1.0 - b.tokens == Flow(rate, b.last, b.last + Nap(b, rate))
  {
    var woken := b.last + Nap(b, rate);
    FlowGrows(rate, b.last, woken, now);
    assert Flow(rate, b.last, woken) == Nap(b, rate) * rate == 1.0 - b.tokens;
  }

  // With a rate of at least one and a sleep that lasts at least as long as asked, one sleep is enough.
  lemma OneNapIsEnough(b: Bucket, rate: real, readings: seq<real>, used: nat)
    requires rate >= 1.0 && b.tokens < 1.0 && used < |readings| && readings[used] >= b.last + Nap(b, rate)
    ensures Wait(b, rate, readings, used).1 == Some(used + 1)
  {
    NapFlow(b, rate, readings[used]);
    assert Refill(b, rate, readings[used]).tokens >= 1.0;
  }

  // With a rate below one the bucket never holds a token, and the caller waits for ever.
  lemma {:induction false} SlowBucketStarves(b: Bucket, rate: real, readings: seq<real>, used: nat)
    requires 0.0 < rate < 1.0 && b.tokens <= rate
    ensures Wait(b, rate, readings, used).1.None?
    decreases |readings| - used
  {
    if used < |readings| { SlowBucketStarves(Refill(b, rate, readings[used]), rate, readings, used + 1); }
  }

  // So a waiting caller is served after one honest sleep, from every state of the bucket, exactly when rate >= 1.
  lemma ServedExactlyFromRateOne(rate: real)
    requires rate > 0.0
    ensures rate >= 1.0 <==>
            forall b: Bucket, now: real | 0.0 <= b.tokens <= rate && b.tokens < 1.0 && now >= b.last + Nap(b, rate) ::
              Wait(b, rate, [now], 0).1.Some?
  {
    if rate >= 1.0 {
      forall b: Bucket, now: real | 0.0 <= b.tokens <= rate && b.tokens < 1.0 && now >= b.last + Nap(b, rate)
        ensures Wait(b, rate, [now], 0).1.Some?
      {
        OneNapIsEnough(b, rate, [now], 0);
      }
    } else {
      var b := Bucket(rate, 0.0);
      var now := Nap(b, rate);
      SlowBucketStarves(b, rate, [now], 0);
      assert now >= b.last + Nap(b, rate) && Wait(b, rate, [now], 0).1.None?;
    }
  }

  function Readings(readings: seq<real>): seq<Event> {
    if readings == [] then [] else Readings(readings[..|readings| - 1]) + [Reading(readings[|readings| - 1])]
  }

  class TokenBucket {
    const rate: real
    const start: real
    var tokens: real
    var last: real
    ghost var events: seq<Event>

    constructor (rate: real, now: real)
      requires rate > 0.0
      ensures Valid() && this.rate == rate && this.start == now && events == []
    {
      this.rate, start, tokens, last, events := rate, now, rate, now, [];
    }

    ghost predicate Valid()
      reads this
    {
      rate > 0.0 && Legal(rate, start, events) && Bucket(tokens, last) == After(rate, start, events)
    }

    method Read(now: real)
      requires Valid() && last <= now
      modifies this
      ensures Valid() && events == old(events) + [Reading(now)]
      ensures Bucket(tokens, last) == Refill(old(Bucket(tokens, last)), rate, now)
    {
      assert (events + [Reading(now)])[..|events|] == events;
      tokens := Min(rate, tokens + Flow(rate, last, now));
      last := now;
      events := events + [Reading(now)];
    }

    method TakeOne()
      requires Valid() && tokens >= 1.0
      modifies this
      ensures Valid() && events == old(events) + [Take]
      ensures tokens == old(tokens) - 1.0 && last == old(last)
    {
      assert (events + [Take])[..|events|] == events;
      tokens := tokens - 1.0;
      events := events + [Take];
    }

    // Refills from the first reading, then waits for a token, refilling from one fresh reading after each sleep;
    // gives up waiting only when the readings run out. Every step is a legal event, so the rate bound applies.
    method Acquire(readings: seq<real>) returns (granted: bool, used: nat)
      requires Valid() && readings != [] && last <= readings[0]
      requires forall i | 0 < i < |readings| :: readings[i - 1] <= readings[i]
      modifies this
      ensures Valid() && used <= |readings|
      ensures (Bucket(tokens, last), if granted then Some(used) else None)
              == Wait(Refill(old(Bucket(tokens, last)), rate, readings[0]), rate, readings, 1)
      ensures granted ==> events == old(events) + Readings(readings[..used]) + [Take]
      ensures !granted ==> events == old(events) + Readings(readings[..used])
    {
      Read(readings[0]);
      used := 1;
      ghost var first := Bucket(tokens, last);
      assert Readings(readings[..1]) == [Reading(readings[0])] by { assert readings[..1][..0] == []; }
      while tokens < 1.0
        invariant Valid() && 1 <= used <= |readings| && last == readings[used - 1]
        invariant events == old(events) + Readings(readings[..used])
        invariant Wait(first, rate, readings, 1) == Wait(Bucket(tokens, last), rate, readings, used)
        decreases |readings| - used
      {
        if used == |readings| { return false, used; }
        Read(readings[used]);
        assert readings[..used + 1][..used] == readings[..used];
        used := used + 1;
      }
      TakeOne();
      granted := true;
    }
  }
}
