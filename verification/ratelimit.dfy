/** The sliding-window login limiter: a dict of deques that forgets old hits and stale keys, proved against the
    full, unbounded history of accepted attempts. */
module RateLimit {
  datatype Ip = Ip(text: string)

  datatype Hit = Hit(ip: Ip, at: real)

  // ---- The specification: count over the whole history ----

  // The times of one client's hits, oldest first
  function Times(history: seq<Hit>, ip: Ip): seq<real> {
    if history == [] then []
    else
      var front, h := Times(history[..|history| - 1], ip), history[|history| - 1];
      if h.ip == ip then front + [h.at] else front
  }

  // How many of these times lie in (now - window, now]
  function InWindow(times: seq<real>, now: real, window: real): nat {
    if times == [] then 0
    else
      var t := times[|times| - 1];
      InWindow(times[..|times| - 1], now, window) + if now - window < t <= now then 1 else 0
  }

  // That is: the count of the indices whose times lie in it
  lemma {:induction false} InWindowIsNumber(times: seq<real>, now: real, window: real)
    ensures InWindow(times, now, window) == |set i | 0 <= i < |times| && now - window < times[i] <= now|
  {
    if times == [] {
    } else {
      var front, n := times[..|times| - 1], |times| - 1;
      InWindowIsNumber(front, now, window);
      var before := set i | 0 <= i < |front| && now - window < front[i] <= now;
      var all := set i | 0 <= i < |times| && now - window < times[i] <= now;
      if now - window < times[n] <= now { assert all == before + {n}; } else { assert all == before; }
    }
  }

  predicate Allowed(history: seq<Hit>, ip: Ip, now: real, limit: int, window: real) {
    InWindow(Times(history, ip), now, window) < limit
  }

  // The history after one more attempt
  function Next(history: seq<Hit>, a: Hit, limit: int, window: real): seq<Hit> {
    if Allowed(history, a.ip, a.at, limit, window) then history + [a] else history
  }

  // The accepted attempts among these
  function Accepted(attempts: seq<Hit>, limit: int, window: real): seq<Hit> {
    if attempts == [] then []
    else Next(Accepted(attempts[..|attempts| - 1], limit, window), attempts[|attempts| - 1], limit, window)
  }

  // ---- Sorted lists of times ----

  // Nondecreasing and no later than now
  ghost predicate UpTo(times: seq<real>, now: real) {
    times == [] || (times[|times| - 1] <= now && UpTo(times[..|times| - 1], times[|times| - 1]))
  }

  lemma {:induction false} UpToAll(times: seq<real>, now: real)
    requires UpTo(times, now)
    ensures forall i | 0 <= i < |times| :: times[i] <= now
  {
    if times == [] {
    } else {
      UpToAll(times[..|times| - 1], times[|times| - 1]);
    }
  }

  lemma {:induction false} UpToFromFirst(times: seq<real>, now: real)
    requires UpTo(times, now)
    ensures forall i | 0 <= i < |times| :: times[0] <= times[i]
  {
    if |times| > 1 {
      var front := times[..|times| - 1];
      UpToFromFirst(front, times[|times| - 1]);
      UpToAll(front, times[|times| - 1]);
      assert times[0] == front[0];
      forall i | 0 <= i < |times| ensures times[0] <= times[i] {
        if i < |front| { assert times[i] == front[i]; }
      }
    }
  }

  lemma {:induction false} UpToDrop(times: seq<real>, now: real, n: nat)
    requires UpTo(times, now) && n <= |times|
    ensures UpTo(times[n..], now)
  {
    if n < |times| {
      UpToDrop(times[..|times| - 1], times[|times| - 1], n);
      assert times[n..][..|times[n..]| - 1] == times[..|times| - 1][n..];
    }
  }

  lemma {:induction false} CountNone(times: seq<real>, now: real, window: real)
    requires forall i | 0 <= i < |times| :: times[i] <= now - window
    ensures InWindow(times, now, window) == 0
  {
    if times == [] {
    } else {
      CountNone(times[..|times| - 1], now, window);
    }
  }

  // Counting the whole list is counting the suffix that is in the window, when the rest is too old.
  lemma {:induction false} CountSuffix(times: seq<real>, n: nat, now: real, window: real)
    requires n <= |times|
    requires forall i | 0 <= i < n :: times[i] <= now - window
    requires forall i | n <= i < |times| :: now - window < times[i] <= now
    ensures InWindow(times, now, window) == |times| - n
  {
    if n == |times| {
      CountNone(times, now, window);
    } else {
      CountSuffix(times[..|times| - 1], n, now, window);
    }
  }

  // ---- The limiter ----

  // kept is the end of times, and what is missing is too old to matter at this clock or later.
  ghost predicate Remembers(kept: seq<real>, times: seq<real>, clock: real, window: real) {
    && |kept| <= |times| && kept == times[|times| - |kept|..]
    && (forall i | 0 <= i < |times| - |kept| :: times[i] <= clock - window)
    && UpTo(times, clock)
  }

  function Deque(hits: map<Ip, seq<real>>, ip: Ip): seq<real> {
    if ip in hits then hits[ip] else []
  }

  predicate IsStale(deque: seq<real>, now: real, window: real) {
    deque == [] || now - deque[|deque| - 1] > window
  }

  function StaleKeys(hits: map<Ip, seq<real>>, now: real, window: real): set<Ip> {
    set ip | ip in hits && IsStale(hits[ip], now, window)
  }

  lemma PopLeft(kept: seq<real>, times: seq<real>, now: real, window: real)
    requires Remembers(kept, times, now, window) && kept != [] && kept[0] <= now - window
    ensures Remembers(kept[1..], times, now, window)
  {
    assert times[|times| - |kept|] == kept[0];
  }

  // Once the old hits are popped, the deque holds exactly the hits in the window.
  lemma KeptAreInWindow(kept: seq<real>, times: seq<real>, now: real, window: real)
    requires Remembers(kept, times, now, window) && (kept == [] || kept[0] > now - window)
    ensures InWindow(times, now, window) == |kept|
  {
    var n := |times| - |kept|;
    UpToAll(times, now);
    UpToDrop(times, now, n);
    UpToFromFirst(kept, now);
    forall i | n <= i < |times| ensures now - window < times[i] { assert times[i] == kept[i - n]; }
    CountSuffix(times, n, now, window);
  }

  // Pops the hits that have left the window; what stays is what the window of the whole history holds.
  method PopOld(kept: seq<real>, ghost times: seq<real>, now: real, window: real) returns (deque: seq<real>)
    requires Remembers(kept, times, now, window)
    ensures Remembers(deque, times, now, window) && |deque| == InWindow(times, now, window)
  {
    deque := kept;
    var cutoff := now - window;
    while deque != [] && deque[0] <= cutoff
      invariant Remembers(deque, times, now, window)
    {
      PopLeft(deque, times, now, window);
      deque := deque[1..];
    }
    KeptAreInWindow(deque, times, now, window);
  }

  // Every client's deque remembers that client's times.
  ghost predicate AllRemember(hits: map<Ip, seq<real>>, history: seq<Hit>, clock: real, window: real) {
    forall ip :: Remembers(Deque(hits, ip), Times(history, ip), clock, window)
  }

  lemma ForgetsStale(kept: seq<real>, times: seq<real>, now: real, window: real)
    requires Remembers(kept, times, now, window) && IsStale(kept, now, window)
    ensures Remembers([], times, now, window)
  {
    if kept != [] {
      UpToAll(times[..|times| - 1], times[|times| - 1]);
      assert times[|times| - 1] == kept[|kept| - 1];
      forall i | 0 <= i < |times| ensures times[i] <= now - window {
        if i < |times| - 1 { assert times[i] == times[..|times| - 1][i]; }
      }
    }
  }

  lemma PopForgets(hits: map<Ip, seq<real>>, history: seq<Hit>, ip: Ip, now: real, window: real)
    requires AllRemember(hits, history, now, window) && ip in hits && IsStale(hits[ip], now, window)
    ensures AllRemember(hits - {ip}, history, now, window)
  {
    assert Remembers(Deque(hits, ip), Times(history, ip), now, window);
    ForgetsStale(hits[ip], Times(history, ip), now, window);
    forall other ensures Remembers(Deque(hits - {ip}, other), Times(history, other), now, window) {
      if other != ip { assert Deque(hits - {ip}, other) == Deque(hits, other); }
    }
  }

  lemma StoreKept(hits: map<Ip, seq<real>>, history: seq<Hit>, ip: Ip, deque: seq<real>, now: real, window: real)
    requires AllRemember(hits, history, now, window) && Remembers(deque, Times(history, ip), now, window)
    ensures AllRemember(hits[ip := deque], history, now, window)
  {
    forall other ensures Remembers(Deque(hits[ip := deque], other), Times(history, other), now, window) {
      if other != ip { assert Deque(hits[ip := deque], other) == Deque(hits, other); }
    }
  }

  lemma TimesOfOthers(history: seq<Hit>, h: Hit, ip: Ip)
    ensures Times(history + [h], ip) == if h.ip == ip then Times(history, ip) + [h.at] else Times(history, ip)
  {
    assert (history + [h])[..|history|] == history;
  }

  lemma RemembersNew(kept: seq<real>, history: seq<Hit>, ip: Ip, now: real, window: real)
    requires Remembers(kept, Times(history, ip), now, window)
    ensures Remembers(kept + [now], Times(history + [Hit(ip, now)], ip), now, window)
  {
    var times := Times(history, ip);
    TimesOfOthers(history, Hit(ip, now), ip);
    assert (times + [now])[..|times|] == times;
    assert (times + [now])[|times| - |kept|..] == kept + [now];
  }

  lemma StoreAccepted(hits: map<Ip, seq<real>>, history: seq<Hit>, ip: Ip, deque: seq<real>, now: real, window: real)
    requires AllRemember(hits, history, now, window) && Remembers(deque, Times(history, ip), now, window)
    ensures AllRemember(hits[ip := deque + [now]], history + [Hit(ip, now)], now, window)
  {
    var hits' := hits[ip := deque + [now]];
    RemembersNew(deque, history, ip, now, window);
    forall other ensures Remembers(Deque(hits', other), Times(history + [Hit(ip, now)], other), now, window) {
      TimesOfOthers(history, Hit(ip, now), other);
      if other != ip { assert Deque(hits', other) == Deque(hits, other); }
    }
  }

  lemma RemembersLater(kept: seq<real>, times: seq<real>, clock: real, now: real, window: real)
    requires Remembers(kept, times, clock, window) && clock <= now
    ensures Remembers(kept, times, now, window)
  {}

  class Limiter {
    const limit: int
    const window: real
    const maxKeys: nat
    var hits: map<Ip, seq<real>>
    ghost var history: seq<Hit>
    ghost var clock: real

    constructor (limit: int, window: real, maxKeys: nat)
      ensures this.limit == limit && this.window == window && this.maxKeys == maxKeys
      ensures Valid() && history == []
    {
      this.limit, this.window, this.maxKeys := limit, window, maxKeys;
      hits, history, clock := map[], [], 0.0;
    }

    ghost predicate Valid()
      reads this
    {
      AllRemember(hits, history, clock, window)
    }

    // Time passes.
    ghost method Advance(now: real)
      requires Valid() && clock <= now
      modifies this`clock
      ensures Valid() && clock == now
    {
      forall ip ensures Remembers(Deque(hits, ip), Times(history, ip), now, window) {
        RemembersLater(Deque(hits, ip), Times(history, ip), clock, now, window);
      }
      clock := now;
    }

    method Pop(ip: Ip)
      requires Valid() && ip in hits && IsStale(hits[ip], clock, window)
      modifies this`hits
      ensures Valid() && hits == old(hits) - {ip}
    {
      PopForgets(hits, history, ip, clock, window);
      hits := hits - {ip};
    }

    // Drops exactly the keys whose every timestamp has aged out of the window.
    method Prune(now: real)
      requires Valid() && clock == now
      modifies this`hits
      ensures Valid()
      ensures hits == map ip | ip in old(hits) && old(hits)[ip] != []
                               && now - old(hits)[ip][|old(hits)[ip]| - 1] <= window :: old(hits)[ip]
    {
      ghost var before := hits;
      ghost var all := StaleKeys(hits, now, window);
      var stale := StaleKeys(hits, now, window);
      while stale != {}
        invariant Valid() && stale <= all && hits == before - (all - stale)
      {
        var ip :| ip in stale;
        Pop(ip);
        stale := stale - {ip};
      }
    }

    // Accepts exactly when fewer than limit earlier accepted attempts of this client lie in the window of the whole
    // history, and records the attempt exactly when it is accepted.
    method CheckAndRecord(ip: Ip, now: real) returns (ok: bool)
      requires Valid() && clock <= now
      modifies this
      ensures Valid() && clock == now
      ensures ok == Allowed(old(history), ip, now, limit, window)
      ensures history == Next(old(history), Hit(ip, now), limit, window)
    {
      Advance(now);
      if ip !in hits && |hits| >= maxKeys {
        Prune(now);
      }
      var deque := PopOld(Deque(hits, ip), Times(history, ip), now, window);
      ok := |deque| < limit;
      if ok {
        StoreAccepted(hits, history, ip, deque, now, window);
        deque := deque + [now];
        history := history + [Hit(ip, now)];
      } else {
        StoreKept(hits, history, ip, deque, now, window);
      }
      hits := hits[ip := deque];
    }
  }

  // ---- Over every run ----

  lemma {:induction false} AcceptedUpTo(attempts: seq<Hit>, ip: Ip, now: real, limit: int, window: real)
    requires forall i, j | 0 <= i < j < |attempts| :: attempts[i].at <= attempts[j].at
    requires attempts == [] || attempts[|attempts| - 1].at <= now
    ensures UpTo(Times(Accepted(attempts, limit, window), ip), now)
  {
    if attempts == [] {
    } else {
      var front, a := attempts[..|attempts| - 1], attempts[|attempts| - 1];
      assert front == [] || front[|front| - 1].at <= a.at;
      AcceptedUpTo(front, ip, a.at, limit, window);
      var history := Accepted(front, limit, window);
      TimesOfOthers(history, a, ip);
      var times := Times(history, ip);
      assert (times + [a.at])[..|times|] == times;
    }
  }

  lemma UpToWeaken(times: seq<real>, x: real, y: real)
    requires UpTo(times, x) && x <= y
    ensures UpTo(times, y)
  {}

  // Moving the window up past the last time only loses hits.
  lemma {:induction false} LaterCountsLess(times: seq<real>, x: real, t: real, window: real)
    requires UpTo(times, x) && x <= t
    ensures InWindow(times, t, window) <= InWindow(times, x, window)
  {
    if times == [] {
    } else {
      var front, last := times[..|times| - 1], times[|times| - 1];
      UpToAll(times, x);
      UpToWeaken(front, last, x);
      LaterCountsLess(front, x, t, window);
    }
  }

  // Over every run and for every time t, at most limit attempts of one client are accepted in (t - window, t].
  lemma {:induction false} NeverMoreThanLimit(attempts: seq<Hit>, ip: Ip, t: real, limit: int, window: real)
    requires forall i, j | 0 <= i < j < |attempts| :: attempts[i].at <= attempts[j].at
    ensures InWindow(Times(Accepted(attempts, limit, window), ip), t, window) <= if limit < 0 then 0 else limit
  {
    if attempts == [] {
    } else {
      var front, a := attempts[..|attempts| - 1], attempts[|attempts| - 1];
      NeverMoreThanLimit(front, ip, t, limit, window);
      var history := Accepted(front, limit, window);
      TimesOfOthers(history, a, ip);
      if a.ip == ip && Allowed(history, ip, a.at, limit, window) && t - window < a.at <= t {
        assert front == [] || front[|front| - 1].at <= a.at;
        AcceptedUpTo(front, ip, a.at, limit, window);
        LaterCountsLess(Times(history, ip), a.at, t, window);
      }
      var times := Times(history, ip);
      assert (times + [a.at])[..|times|] == times;
    }
  }

  // The attempts of one client
  function Only(attempts: seq<Hit>, ip: Ip): seq<Hit> {
    if attempts == [] then []
    else
      var front, a := Only(attempts[..|attempts| - 1], ip), attempts[|attempts| - 1];
      if a.ip == ip then front + [a] else front
  }

  // Isolation: what a client gets depends on its own attempts alone.
  lemma {:induction false} OthersDoNotMatter(attempts: seq<Hit>, ip: Ip, limit: int, window: real)
    ensures Times(Accepted(attempts, limit, window), ip) == Times(Accepted(Only(attempts, ip), limit, window), ip)
  {
    if attempts == [] {
    } else {
      var front, a := attempts[..|attempts| - 1], attempts[|attempts| - 1];
      OthersDoNotMatter(front, ip, limit, window);
      TimesOfOthers(Accepted(front, limit, window), a, ip);
      if a.ip == ip {
        var own := Only(front, ip);
        assert (own + [a])[..|own|] == own;
        TimesOfOthers(Accepted(own, limit, window), a, ip);
      }
    }
  }

  lemma AcceptedNext(attempts: seq<Hit>, i: nat, limit: int, window: real)
    requires i < |attempts|
    ensures Accepted(attempts[..i + 1], limit, window) ==
            Next(Accepted(attempts[..i], limit, window), attempts[i], limit, window)
  {
    assert attempts[..i + 1][..i] == attempts[..i];
  }

  // The limiter, run on any attempts in clock order, accepts what the specification accepts.
  method Replay(attempts: seq<Hit>, limit: int, window: real, maxKeys: nat) returns (accepted: seq<Hit>)
    requires forall i, j | 0 <= i < j < |attempts| :: attempts[i].at <= attempts[j].at
    ensures accepted == Accepted(attempts, limit, window)
  {
    var limiter := new Limiter(limit, window, maxKeys);
    accepted := [];
    if attempts != [] { limiter.clock := attempts[0].at; }
    for i := 0 to |attempts|
      invariant limiter.Valid() && limiter.limit == limit && limiter.window == window
      invariant i < |attempts| ==> limiter.clock <= attempts[i].at
      invariant accepted == limiter.history == Accepted(attempts[..i], limit, window)
    {
      var ok := limiter.CheckAndRecord(attempts[i].ip, attempts[i].at);
      AcceptedNext(attempts, i, limit, window);
      if ok { accepted := accepted + [attempts[i]]; }
    }
    assert attempts[..|attempts|] == attempts;
  }

  // ---- Why the order of the readings matters ----

  // The deque after popping
  function Popped(deque: seq<real>, cutoff: real): seq<real> {
    if deque != [] && deque[0] <= cutoff then Popped(deque[1..], cutoff) else deque
  }

  function Live(deque: seq<real>, cutoff: real): nat {
    if deque == [] then 0 else Live(deque[1..], cutoff) + if deque[0] > cutoff then 1 else 0
  }

  lemma {:induction false} LiveAtMost(deque: seq<real>, cutoff: real)
    ensures Live(deque, cutoff) <= |deque|
    ensures Live(deque, cutoff) == |deque| <==> forall i | 0 <= i < |deque| :: deque[i] > cutoff
  {
    if deque == [] {
    } else {
      var rest := deque[1..];
      LiveAtMost(rest, cutoff);
      assert forall i | 0 < i < |deque| :: deque[i] == rest[i - 1];
      assert forall i | 0 <= i < |rest| :: rest[i] == deque[i + 1];
    }
  }

  lemma {:induction false} OrderedPops(deque: seq<real>, cutoff: real)
    requires forall i, j | 0 <= i < j < |deque| :: deque[i] <= deque[j]
    ensures |Popped(deque, cutoff)| == Live(deque, cutoff)
  {
    if deque != [] && deque[0] <= cutoff {
      OrderedPops(deque[1..], cutoff);
    } else {
      LiveAtMost(deque, cutoff);
    }
  }

  // A dead hit behind a live one is not popped.
  lemma {:induction false} HiddenHitLingers(deque: seq<real>, cutoff: real, i: nat, j: nat)
    requires i < j < |deque| && deque[i] > cutoff >= deque[j]
    ensures |Popped(deque, cutoff)| > Live(deque, cutoff)
  {
    if deque[0] <= cutoff {
      HiddenHitLingers(deque[1..], cutoff, i - 1, j - 1);
    } else {
      LiveAtMost(deque, cutoff);
    }
  }

  // Popping from the left leaves as many hits as are alive, at every cutoff, exactly when the readings are in order.
  // The monotonic clock, read without an await before the lock, puts them in order.
  lemma PoppingCountsExactlyInOrder(deque: seq<real>)
    ensures (forall i, j | 0 <= i < j < |deque| :: deque[i] <= deque[j]) <==>
              forall cutoff :: |Popped(deque, cutoff)| == Live(deque, cutoff)
  {
    if forall i, j | 0 <= i < j < |deque| :: deque[i] <= deque[j] {
      forall cutoff ensures |Popped(deque, cutoff)| == Live(deque, cutoff) { OrderedPops(deque, cutoff); }
    } else {
      var i, j :| 0 <= i < j < |deque| && deque[i] > deque[j];
      HiddenHitLingers(deque, deque[j], i, j);
    }
  }
}
