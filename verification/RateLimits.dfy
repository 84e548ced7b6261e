/**
 * The sliding-window limiter of src/ops/limits.ts and the fixed-window limiter that Redis runs
 * (src/redis.ts), each for one key; keys do not affect one another.
 */
module RateLimits {
  import opened Basics

  datatype Answer = Answer(allowed: bool, remaining: int, resetAt: int)

  // ---------------------------------------------------------------- sliding window

  function Recent(hits: seq<int>, start: int): (r: seq<int>)
    ensures |r| <= |hits|
    decreases |hits|
  {
    if hits == [] then []
    else
      var front, last := Recent(hits[..|hits|-1], start), hits[|hits|-1];
      if last > start then front + [last] else front
  }

  function Slide(hits: seq<int>, now: int, windowMs: int, most: int): (seq<int>, Answer) {
    var prior := Recent(hits, now - windowMs);
    if |prior| >= most then (prior, Answer(false, 0, (if prior == [] then now else prior[0]) + windowMs))
    else (prior + [now], Answer(true, Max(0, most - |prior| - 1), now + windowMs))
  }

  /** MemoryRateLimiter */
  class MemoryRateLimiter {
    const windowMs: int
    const most: int
    var hits: map<string, seq<int>>

    constructor (windowMs: int, maxRequests: int)
      ensures this.windowMs == windowMs && most == maxRequests && hits == map[]
    {
      this.windowMs, most, hits := windowMs, maxRequests, map[];
    }

    function Hits(key: string): seq<int>
      reads this
    {
      if key in hits then hits[key] else []
    }

    method Consume(key: string, now: int) returns (a: Answer)
      modifies this
      ensures (Hits(key), a) == Slide(old(Hits(key)), now, windowMs, most)
      ensures forall k :: k != key ==> Hits(k) == old(Hits(k))
    {
      var windowStart := now - windowMs;
      var prior := Recent(if key in hits then hits[key] else [], windowStart);
      if |prior| >= most {
        hits := hits[key := prior];
        var oldest := if prior == [] then now else prior[0];
        return Answer(false, 0, oldest + windowMs);
      }
      prior := prior + [now];
      hits := hits[key := prior];
      a := Answer(true, Max(0, most - |prior|), now + windowMs);
    }
  }

  predicate AtMost(times: seq<int>, bound: int) { forall i :: 0 <= i < |times| ==> times[i] <= bound }

  predicate AtLeast(times: seq<int>, bound: int) { forall i :: 0 <= i < |times| ==> times[i] >= bound }

  // Each time is at most the ones after it.
  predicate Ascending(times: seq<int>)
    decreases |times|
  {
    times != [] ==> AtMost(times[..|times|-1], times[|times|-1]) && Ascending(times[..|times|-1])
  }

  /** One key's limiter with the times it has ever allowed and the time of its last request. */
  datatype Sliding = Sliding(hits: seq<int>, admitted: seq<int>, last: int)

  function SlideOn(s: Sliding, now: int, windowMs: int, most: int): Sliding {
    var (hits, a) := Slide(s.hits, now, windowMs, most);
    Sliding(hits, if a.allowed then s.admitted + [now] else s.admitted, now)
  }

  function Played(s: Sliding, times: seq<int>, windowMs: int, most: int): Sliding
    decreases |times|
  {
    if times == [] then s else Played(SlideOn(s, times[0], windowMs, most), times[1..], windowMs, most)
  }

  // The clock does not go back.
  predicate Ordered(from: int, times: seq<int>)
    decreases |times|
  {
    times == [] || (from <= times[0] && Ordered(times[0], times[1..]))
  }

  // Those times in the half-open window [from, from + windowMs).
  function Within(times: seq<int>, from: int, windowMs: int): (r: seq<int>)
    decreases |times|
  {
    if times == [] then []
    else
      var front, last := Within(times[..|times|-1], from, windowMs), times[|times|-1];
      if from <= last < from + windowMs then front + [last] else front
  }

  lemma {:induction false} RecentOfRecent(times: seq<int>, a: int, b: int)
    requires a <= b
    ensures Recent(Recent(times, a), b) == Recent(times, b)
    decreases |times|
  {
    if times != [] {
      RecentOfRecent(times[..|times|-1], a, b);
      var front, last := Recent(times[..|times|-1], a), times[|times|-1];
      assert (front + [last])[..|front|] == front;
    }
  }

  lemma RecentAppend(times: seq<int>, t: int, start: int)
    requires t > start
    ensures Recent(times + [t], start) == Recent(times, start) + [t]
  {
    assert (times + [t])[..|times|] == times;
  }

  lemma WithinAppend(times: seq<int>, t: int, from: int, windowMs: int)
    ensures Within(times + [t], from, windowMs)
            == Within(times, from, windowMs) + (if from <= t < from + windowMs then [t] else [])
  {
    assert (times + [t])[..|times|] == times;
  }

  lemma {:induction false} WithinIsRecent(times: seq<int>, from: int, windowMs: int, start: int)
    requires start < from
    ensures |Within(times, from, windowMs)| <= |Recent(times, start)|
    decreases |times|
  {
    if times != [] { WithinIsRecent(times[..|times|-1], from, windowMs, start); }
  }

  lemma {:induction false} RecentAtMost(times: seq<int>, start: int, bound: int)
    requires AtMost(times, bound)
    ensures AtMost(Recent(times, start), bound)
    decreases |times|
  {
    if times != [] { RecentAtMost(times[..|times|-1], start, bound); }
  }

  lemma {:induction false} RecentAscending(times: seq<int>, start: int)
    requires Ascending(times)
    ensures Ascending(Recent(times, start))
    decreases |times|
  {
    if times != [] {
      var front, last := times[..|times|-1], times[|times|-1];
      RecentAscending(front, start);
      RecentAtMost(front, start, last);
      LateAppend(Recent(front, start), last);
    }
  }

  lemma {:induction false} FirstIsLeast(times: seq<int>)
    requires times != [] && Ascending(times)
    ensures AtLeast(times, times[0])
    decreases |times|
  {
    if |times| > 1 {
      var front, last := times[..|times|-1], times[|times|-1];
      FirstIsLeast(front);
      assert front[0] <= last;
      assert times == front + [last];
    }
  }

  // The limiter remembers exactly what it allowed within the last window.
  predicate Recalls(s: Sliding, windowMs: int) { s.hits == Recent(s.admitted, s.last - windowMs) }

  predicate Remembers(s: Sliding, windowMs: int, most: nat) {
    |s.hits| <= most && Ascending(s.hits) && AtMost(s.hits, s.last) && Recalls(s, windowMs)
  }

  // One request, given what is left of the hits.
  lemma SlideShape(s: Sliding, now: int, windowMs: int, most: nat, prior: seq<int>)
    requires prior == Recent(s.hits, now - windowMs)
    ensures SlideOn(s, now, windowMs, most)
            == if |prior| < most then Sliding(prior + [now], s.admitted + [now], now) else Sliding(prior, s.admitted, now)
  {
  }

  lemma RecallsAppended(prior: seq<int>, admitted: seq<int>, now: int, windowMs: int)
    requires prior == Recent(admitted, now - windowMs) && windowMs >= 1
    ensures Recalls(Sliding(prior + [now], admitted + [now], now), windowMs)
  {
    RecentAppend(admitted, now, now - windowMs);
  }

  lemma SlideRecalls(s: Sliding, now: int, windowMs: int, most: nat) returns (prior: seq<int>)
    requires Recalls(s, windowMs) && s.last <= now && windowMs >= 1
    ensures prior == Recent(s.hits, now - windowMs) == Recent(s.admitted, now - windowMs)
    ensures Recalls(SlideOn(s, now, windowMs, most), windowMs)
  {
    prior := Recent(s.hits, now - windowMs);
    PriorIsRecent(s.hits, s.admitted, s.last - windowMs, now - windowMs);
    SlideShape(s, now, windowMs, most, prior);
    RecallsAppended(prior, s.admitted, now, windowMs);
  }

  ghost predicate WindowsHold(admitted: seq<int>, windowMs: int, most: nat) {
    forall from :: |Within(admitted, from, windowMs)| <= most
  }

  lemma PriorFacts(s: Sliding, now: int, windowMs: int, most: nat)
    requires Remembers(s, windowMs, most) && s.last <= now && windowMs >= 1
    ensures var prior := Recent(s.hits, now - windowMs);
            prior == Recent(s.admitted, now - windowMs) && Ascending(prior) && AtMost(prior, now) && |prior| <= most
  {
    PriorIsRecent(s.hits, s.admitted, s.last - windowMs, now - windowMs);
    PriorInOrder(s.hits, now - windowMs, s.last, now);
  }

  lemma PriorInOrder(hits: seq<int>, start: int, last: int, now: int)
    requires Ascending(hits) && AtMost(hits, last) && last <= now
    ensures Ascending(Recent(hits, start)) && AtMost(Recent(hits, start), now)
  {
    RecentAscending(hits, start);
    LaterAtMost(hits, last, now);
    RecentAtMost(hits, start, now);
  }

  lemma PriorIsRecent(hits: seq<int>, admitted: seq<int>, a: int, b: int)
    requires hits == Recent(admitted, a) && a <= b
    ensures Recent(hits, b) == Recent(admitted, b)
  {
    RecentOfRecent(admitted, a, b);
  }

  lemma LaterAtMost(times: seq<int>, a: int, b: int)
    requires AtMost(times, a) && a <= b
    ensures AtMost(times, b)
  {
  }

  lemma RemembersOne(prior: seq<int>, admitted: seq<int>, now: int, windowMs: int, most: nat)
    requires prior == Recent(admitted, now - windowMs) && Ascending(prior) && AtMost(prior, now) && |prior| < most && windowMs >= 1
    ensures Remembers(Sliding(prior + [now], admitted + [now], now), windowMs, most)
  {
    RecentAppend(admitted, now, now - windowMs);
    LateAppend(prior, now);
  }

  lemma LateAppend(times: seq<int>, t: int)
    requires Ascending(times) && AtMost(times, t)
    ensures Ascending(times + [t]) && AtMost(times + [t], t)
  {
    assert (times + [t])[..|times|] == times;
  }

  lemma SlideRemembers(s: Sliding, now: int, windowMs: int, most: nat)
    requires Remembers(s, windowMs, most) && s.last <= now && windowMs >= 1
    ensures Remembers(SlideOn(s, now, windowMs, most), windowMs, most)
    ensures Recent(s.hits, now - windowMs) == Recent(s.admitted, now - windowMs)
  {
    PriorFacts(s, now, windowMs, most);
    var prior := Recent(s.hits, now - windowMs);
    if |prior| < most {
      RemembersOne(prior, s.admitted, now, windowMs, most);
    }
  }

  // One window, one more request.
  lemma OneWindowHolds(admitted: seq<int>, now: int, windowMs: int, most: nat, from: int)
    requires |Within(admitted, from, windowMs)| <= most && |Recent(admitted, now - windowMs)| < most
    ensures |Within(admitted + [now], from, windowMs)| <= most
  {
    WithinAppend(admitted, now, from, windowMs);
    if from <= now < from + windowMs { WithinIsRecent(admitted, from, windowMs, now - windowMs); }
  }

  lemma AllWindowsHold(admitted: seq<int>, now: int, windowMs: int, most: nat)
    requires WindowsHold(admitted, windowMs, most) && |Recent(admitted, now - windowMs)| < most
    ensures WindowsHold(admitted + [now], windowMs, most)
  {
    forall from ensures |Within(admitted + [now], from, windowMs)| <= most {
      OneWindowHolds(admitted, now, windowMs, most, from);
    }
  }

  lemma AdmittedBySlide(s: Sliding, now: int, windowMs: int, most: nat)
    ensures SlideOn(s, now, windowMs, most).admitted
            == if |Recent(s.hits, now - windowMs)| < most then s.admitted + [now] else s.admitted
  {
  }

  lemma SlideHolds(s: Sliding, now: int, windowMs: int, most: nat)
    requires Recent(s.hits, now - windowMs) == Recent(s.admitted, now - windowMs) && WindowsHold(s.admitted, windowMs, most)
    ensures WindowsHold(SlideOn(s, now, windowMs, most).admitted, windowMs, most)
  {
    AdmittedBySlide(s, now, windowMs, most);
    if |Recent(s.hits, now - windowMs)| < most { AllWindowsHold(s.admitted, now, windowMs, most); }
  }

  lemma {:induction false} PlayedHolds(s: Sliding, times: seq<int>, windowMs: int, most: nat)
    requires Recalls(s, windowMs) && WindowsHold(s.admitted, windowMs, most) && Ordered(s.last, times) && windowMs >= 1
    ensures WindowsHold(Played(s, times, windowMs, most).admitted, windowMs, most)
    decreases |times|
  {
    if times != [] {
      var prior := SlideRecalls(s, times[0], windowMs, most);
      SlideHolds(s, times[0], windowMs, most);
      PlayedHolds(SlideOn(s, times[0], windowMs, most), times[1..], windowMs, most);
    }
  }

  function Unused(start: int): Sliding { Sliding([], [], start) }

  /** Under any non-decreasing times, no half-open window of windowMs ever holds more than maxRequests allowed requests. */
  lemma SlidingWindowHolds(start: int, times: seq<int>, windowMs: int, most: nat, from: int)
    requires Ordered(start, times) && windowMs >= 1
    ensures |Within(Played(Unused(start), times, windowMs, most).admitted, from, windowMs)| <= most
  {
    assert WindowsHold(Unused(start).admitted, windowMs, most) by {
      forall f ensures |Within([], f, windowMs)| <= most { }
    }
    PlayedHolds(Unused(start), times, windowMs, most);
    assert WindowsHold(Played(Unused(start), times, windowMs, most).admitted, windowMs, most);
  }

  lemma {:induction false} NothingDropped(hits: seq<int>, start: int, least: int)
    requires AtLeast(hits, least) && least > start
    ensures Recent(hits, start) == hits
    decreases |hits|
  {
    if hits != [] {
      NothingDropped(hits[..|hits|-1], start, least);
      assert hits == hits[..|hits|-1] + [hits[|hits|-1]];
    }
  }

  lemma {:induction false} FirstDropped(hits: seq<int>, start: int)
    requires hits != [] && hits[0] <= start
    ensures |Recent(hits, start)| < |hits|
    decreases |hits|
  {
    if |hits| > 1 { FirstDropped(hits[..|hits|-1], start); }
  }

  lemma FullStep(s: Sliding, now: int, windowMs: int, most: nat)
    requires |s.hits| == most && Recent(s.hits, now - windowMs) == s.hits
    ensures SlideOn(s, now, windowMs, most) == s.(last := now)
  {
  }

  // While the oldest hit has not left the window, further requests are denied and change nothing.
  lemma {:induction false} StillFull(s: Sliding, more: seq<int>, least: int, windowMs: int, most: nat)
    requires |s.hits| == most && AtLeast(s.hits, least) && AtMost(more, least + windowMs - 1)
    ensures Played(s, more, windowMs, most).hits == s.hits && Played(s, more, windowMs, most).admitted == s.admitted
    decreases |more|
  {
    if more != [] {
      NothingDropped(s.hits, more[0] - windowMs, least);
      FullStep(s, more[0], windowMs, most);
      StillFull(SlideOn(s, more[0], windowMs, most), more[1..], least, windowMs, most);
    }
  }

  /**
   * A denial names the first moment at which the key is allowed again: every request before
   * resetAt is denied, and the first one at or after it is allowed.
   */
  lemma DeniedUntilReset(start: int, times: seq<int>, now: int, windowMs: int, most: nat, more: seq<int>, next: int)
    requires windowMs >= 1 && most >= 1 && Ordered(start, times) && now >= Played(Unused(start), times, windowMs, most).last
    requires !Slide(Played(Unused(start), times, windowMs, most).hits, now, windowMs, most).1.allowed
    requires AtMost(more, Slide(Played(Unused(start), times, windowMs, most).hits, now, windowMs, most).1.resetAt - 1)
    ensures var s := Played(Unused(start), times, windowMs, most);
            var resetAt := Slide(s.hits, now, windowMs, most).1.resetAt;
            var later := Played(SlideOn(s, now, windowMs, most), more, windowMs, most);
            && later.admitted == s.admitted
            && (Slide(later.hits, next, windowMs, most).1.allowed <==> next >= resetAt)
  {
    PlayedRemembers(Unused(start), times, windowMs, most);
    FullUntilReset(Played(Unused(start), times, windowMs, most), now, windowMs, most, more, next);
  }

  lemma {:induction false} PlayedRemembers(s: Sliding, times: seq<int>, windowMs: int, most: nat)
    requires Remembers(s, windowMs, most) && Ordered(s.last, times) && windowMs >= 1
    ensures Remembers(Played(s, times, windowMs, most), windowMs, most)
    decreases |times|
  {
    if times != [] {
      SlideRemembers(s, times[0], windowMs, most);
      PlayedRemembers(SlideOn(s, times[0], windowMs, most), times[1..], windowMs, most);
    }
  }

  lemma FullUntilReset(s: Sliding, now: int, windowMs: int, most: nat, more: seq<int>, next: int)
    requires windowMs >= 1 && most >= 1 && Remembers(s, windowMs, most) && now >= s.last
    requires !Slide(s.hits, now, windowMs, most).1.allowed
    requires AtMost(more, Slide(s.hits, now, windowMs, most).1.resetAt - 1)
    ensures var resetAt := Slide(s.hits, now, windowMs, most).1.resetAt;
            var later := Played(SlideOn(s, now, windowMs, most), more, windowMs, most);
            && later.admitted == s.admitted
            && (Slide(later.hits, next, windowMs, most).1.allowed <==> next >= resetAt)
  {
    PriorFacts(s, now, windowMs, most);
    var full := SlideOn(s, now, windowMs, most);
    FirstIsLeast(full.hits);
    StillFull(full, more, full.hits[0], windowMs, most);
    NextAfterFull(full.hits, next, windowMs, most);
  }

  lemma NextAfterFull(hits: seq<int>, next: int, windowMs: int, most: nat)
    requires most >= 1 && |hits| == most && Ascending(hits)
    ensures Slide(hits, next, windowMs, most).1.allowed <==> next >= hits[0] + windowMs
  {
    FirstIsLeast(hits);
    if next >= hits[0] + windowMs { FirstDropped(hits, next - windowMs); } else { NothingDropped(hits, next - windowMs, hits[0]); }
  }

  // ---------------------------------------------------------------- fixed window

  datatype Counter = Counter(count: nat, expiresAt: int)

  // The script: INCR, PEXPIRE on the first hit, PTTL.
  function Count(c: Option<Counter>, clock: int, windowMs: int): Counter {
    var current := if c.Some? && c.value.expiresAt > clock then c.value.count + 1 else 1;
    Counter(current, if current == 1 then clock + windowMs else c.value.expiresAt)
  }

  // `sent` is the caller's clock.
  function CountAnswer(c: Counter, clock: int, sent: int, most: int): Answer {
    Answer(c.count <= most, Max(0, most - c.count), sent + Max(0, c.expiresAt - clock))
  }

  predicate KeyAccepted(key: string) { key != "" && '\0' !in key && '\r' !in key && '\n' !in key }

  /** RedisRateLimiter, with the counters of the server it calls. */
  class RedisRateLimiter {
    const prefix: string
    const windowMs: int
    const most: int
    var counters: map<string, Counter>
    var clock: int

    constructor (prefix: string, windowMs: int, maxRequests: int)
      requires windowMs >= 1 && maxRequests >= 1
      ensures this.prefix == prefix && this.windowMs == windowMs && most == maxRequests && counters == map[]
    {
      this.prefix, this.windowMs, most, counters, clock := prefix, windowMs, maxRequests, map[], 0;
    }

    function CounterOf(key: string): Option<Counter>
      reads this
    {
      if prefix + ":" + key in counters then Some(counters[prefix + ":" + key]) else None
    }

    // None where the source throws.
    method Consume(key: string, now: int) returns (a: Option<Answer>)
      modifies this`counters
      ensures a.Some? <==> KeyAccepted(key)
      ensures a.Some? ==> CounterOf(key) == Some(Count(old(CounterOf(key)), clock, windowMs))
                          && a.value == CountAnswer(Count(old(CounterOf(key)), clock, windowMs), clock, now, most)
      ensures a.None? ==> counters == old(counters)
      ensures forall k :: k != key ==> CounterOf(k) == old(CounterOf(k))
    {
      if key == "" || '\0' in key || '\r' in key || '\n' in key { return None; }
      var name := prefix + ":" + key;
      var current := if name in counters && counters[name].expiresAt > clock then counters[name].count + 1 else 1;
      var expiresAt := if current == 1 then clock + windowMs else counters[name].expiresAt;
      counters := counters[name := Counter(current, expiresAt)];
      var ttl := Max(0, expiresAt - clock);
      a := Some(Answer(current <= most, Max(0, most - current), now + ttl));
      forall k | k != key ensures prefix + ":" + k != name {
        assert (prefix + ":" + k)[|prefix| + 1..] == k && name[|prefix| + 1..] == key;
      }
    }
  }

  /** One key's counter, the times it has ever allowed, and the time of its last request. */
  datatype Fixed = Fixed(counter: Option<Counter>, admitted: seq<int>, last: int)

  // One request: what it was answered decides whether it was admitted.
  function CountOn(s: Fixed, now: int, windowMs: int, most: nat): Fixed {
    var c := Count(s.counter, now, windowMs);
    Fixed(Some(c), if CountAnswer(c, now, now, most).allowed then s.admitted + [now] else s.admitted, now)
  }

  function Counted(s: Fixed, times: seq<int>, windowMs: int, most: nat): Fixed
    decreases |times|
  {
    if times == [] then s else Counted(CountOn(s, times[0], windowMs, most), times[1..], windowMs, most)
  }

  // How many lie strictly between two times, and how many strictly after one.
  function Between(times: seq<int>, after: int, before: int): nat
    decreases |times|
  {
    if times == [] then 0
    else Between(times[..|times|-1], after, before) + (if after < times[|times|-1] < before then 1 else 0)
  }

  // How many lie in the half-open window [from, from + windowMs).
  function InWindow(times: seq<int>, from: int, windowMs: int): nat { Between(times, from - 1, from + windowMs) }

  function After(times: seq<int>, after: int): nat
    decreases |times|
  {
    if times == [] then 0 else After(times[..|times|-1], after) + (if after < times[|times|-1] then 1 else 0)
  }

  lemma CountAppend(times: seq<int>, t: int, after: int, before: int)
    ensures Between(times + [t], after, before) == Between(times, after, before) + (if after < t < before then 1 else 0)
    ensures After(times + [t], after) == After(times, after) + (if after < t then 1 else 0)
  {
    assert (times + [t])[..|times|] == times;
  }

  // Counting in two parts over-counts at most.
  lemma {:induction false} CountSplit(times: seq<int>, after: int, cut: int, before: int)
    ensures Between(times, after, before) <= Between(times, after, cut) + After(times, cut - 1)
    decreases |times|
  {
    if times != [] { CountSplit(times[..|times|-1], after, cut, before); }
  }

  lemma {:induction false} CountSmaller(times: seq<int>, a: int, b: int, before: int)
    requires a <= b
    ensures Between(times, b, before) <= Between(times, a, before) <= After(times, a)
    ensures After(times, b) <= After(times, a)
    decreases |times|
  {
    if times != [] { CountSmaller(times[..|times|-1], a, b, before); }
  }

  lemma {:induction false} NoneAfter(times: seq<int>, bound: int)
    requires AtMost(times, bound)
    ensures After(times, bound) == 0
    decreases |times|
  {
    if times != [] { NoneAfter(times[..|times|-1], bound); }
  }

  function Opened(c: Counter, windowMs: int): int { c.expiresAt - windowMs }

  // What the current window has admitted, and what the window before it left behind.
  predicate WindowKeeps(s: Fixed, windowMs: int, most: nat) {
    if s.counter.None? then s.admitted == []
    else
      var c := s.counter.value;
      var began := Opened(c, windowMs);
      && c.count >= 1 && began <= s.last && AtMost(s.admitted, c.expiresAt - 1)
      && After(s.admitted, began - 1) <= Min(c.count, most)
      && After(s.admitted, began) <= Min(c.count, most) - 1
      && Between(s.admitted, began - windowMs, began) <= most - 1
  }

  ghost predicate AtMostTwice(s: Fixed, windowMs: int, most: nat) {
    forall from :: InWindow(s.admitted, from, windowMs) <= 2 * most - 1
  }

  lemma OpenKeeps(s: Fixed, now: int, windowMs: int, most: nat)
    requires WindowKeeps(s, windowMs, most) && s.last <= now && windowMs >= 1 && most >= 1
    requires s.counter.None? || s.counter.value.expiresAt <= now
    ensures WindowKeeps(CountOn(s, now, windowMs, most), windowMs, most)
  {
    var adm := s.admitted;
    NoneAfter(adm, now - 1) by { assert AtMost(adm, now - 1); }
    CountAppend(adm, now, now - 1, now);
    CountAppend(adm, now, now, now);
    CountAppend(adm, now, now - windowMs, now);
    CountSmaller(adm, now - 1, now, now);
    if s.counter.Some? { CountSmaller(adm, Opened(s.counter.value, windowMs), now - windowMs, now); }
  }

  lemma JoinKeeps(s: Fixed, now: int, windowMs: int, most: nat)
    requires WindowKeeps(s, windowMs, most) && s.last <= now && windowMs >= 1 && most >= 1
    requires s.counter.Some? && s.counter.value.expiresAt > now
    ensures WindowKeeps(CountOn(s, now, windowMs, most), windowMs, most)
  {
    var began := Opened(s.counter.value, windowMs);
    CountAppend(s.admitted, now, began - 1, began);
    CountAppend(s.admitted, now, began, began);
    CountAppend(s.admitted, now, began - windowMs, began);
  }

  lemma CountKeeps(s: Fixed, now: int, windowMs: int, most: nat)
    requires WindowKeeps(s, windowMs, most) && s.last <= now && windowMs >= 1 && most >= 1
    ensures WindowKeeps(CountOn(s, now, windowMs, most), windowMs, most)
  {
    if s.counter.None? || s.counter.value.expiresAt <= now { OpenKeeps(s, now, windowMs, most); } else { JoinKeeps(s, now, windowMs, most); }
  }

  lemma CountHolds(s: Fixed, now: int, windowMs: int, most: nat, from: int)
    requires WindowKeeps(s, windowMs, most) && s.last <= now && windowMs >= 1 && most >= 1
    requires InWindow(s.admitted, from, windowMs) <= 2 * most - 1
    ensures InWindow(CountOn(s, now, windowMs, most).admitted, from, windowMs) <= 2 * most - 1
  {
    CountKeeps(s, now, windowMs, most);
    var s2 := CountOn(s, now, windowMs, most);
    CountAppend(s.admitted, now, from - 1, from + windowMs);
    if from <= now < from + windowMs {
      var began := Opened(s2.counter.value, windowMs);
      CountSplit(s2.admitted, from - 1, began, from + windowMs);
      CountSmaller(s2.admitted, began - windowMs, from - 1, began);
    }
  }

  lemma {:induction false} CountedHolds(s: Fixed, times: seq<int>, windowMs: int, most: nat)
    requires WindowKeeps(s, windowMs, most) && AtMostTwice(s, windowMs, most) && Ordered(s.last, times) && windowMs >= 1 && most >= 1
    ensures AtMostTwice(Counted(s, times, windowMs, most), windowMs, most)
    decreases |times|
  {
    if times != [] {
      var s2 := CountOn(s, times[0], windowMs, most);
      CountKeeps(s, times[0], windowMs, most);
      forall from ensures InWindow(s2.admitted, from, windowMs) <= 2 * most - 1 {
        CountHolds(s, times[0], windowMs, most, from);
      }
      CountedHolds(s2, times[1..], windowMs, most);
    }
  }

  /**
   * The fixed-window limiter never allows as many as twice its maximum in any half-open window of
   * windowMs: at most 2 * maxRequests - 1.
   */
  lemma FixedWindowHolds(start: int, times: seq<int>, windowMs: int, most: nat, from: int)
    requires Ordered(start, times) && windowMs >= 1 && most >= 1
    ensures InWindow(Counted(Fixed(None, [], start), times, windowMs, most).admitted, from, windowMs) <= 2 * most - 1
  {
    var s := Fixed(None, [], start);
    forall f ensures InWindow(s.admitted, f, windowMs) <= 2 * most - 1 { }
    CountedHolds(s, times, windowMs, most);
    assert AtMostTwice(Counted(s, times, windowMs, most), windowMs, most);
  }

  // ---------------------------------------------------------------- the bound is reached

  function Repeat(t: int, n: nat): (r: seq<int>)
    ensures |r| == n
  {
    if n == 0 then [] else [t] + Repeat(t, n - 1)
  }

  lemma {:induction false} CountedAppend(s: Fixed, a: seq<int>, b: seq<int>, windowMs: int, most: nat)
    ensures Counted(s, a + b, windowMs, most) == Counted(Counted(s, a, windowMs, most), b, windowMs, most)
    decreases |a|
  {
    if a == [] {
      assert a + b == b;
    } else {
      assert (a + b)[1..] == a[1..] + b;
      CountedAppend(CountOn(s, a[0], windowMs, most), a[1..], b, windowMs, most);
    }
  }

  // n more requests at one moment of an open window that has room for them are all allowed.
  lemma {:induction false} Fill(s: Fixed, t: int, n: nat, windowMs: int, most: nat)
    requires s.counter.Some? && s.counter.value.count >= 1 && s.counter.value.expiresAt > t && s.counter.value.count + n <= most
    ensures var s2 := Counted(s, Repeat(t, n), windowMs, most);
            && s2.counter == Some(Counter(s.counter.value.count + n, s.counter.value.expiresAt))
            && s2.admitted == s.admitted + Repeat(t, n)
    decreases n
  {
    if n > 0 {
      FillOne(s, t, n, windowMs, most);
      Fill(CountOn(s, t, windowMs, most), t, n - 1, windowMs, most);
      JoinOne(s.admitted, t, n);
    } else {
      assert s.admitted + [] == s.admitted;
    }
  }

  lemma FillOne(s: Fixed, t: int, n: nat, windowMs: int, most: nat)
    requires n > 0 && s.counter.Some? && s.counter.value.count >= 1 && s.counter.value.expiresAt > t && s.counter.value.count < most
    ensures CountOn(s, t, windowMs, most) == Fixed(Some(Counter(s.counter.value.count + 1, s.counter.value.expiresAt)), s.admitted + [t], t)
    ensures Counted(s, Repeat(t, n), windowMs, most) == Counted(CountOn(s, t, windowMs, most), Repeat(t, n - 1), windowMs, most)
  {
    assert Repeat(t, n)[1..] == Repeat(t, n - 1);
  }

  lemma {:induction false} BetweenAppend(a: seq<int>, b: seq<int>, after: int, before: int)
    ensures Between(a + b, after, before) == Between(a, after, before) + Between(b, after, before)
    decreases |b|
  {
    if b == [] {
      assert a + b == a;
    } else {
      assert (a + b)[..|a + b| - 1] == a + b[..|b| - 1];
      BetweenAppend(a, b[..|b| - 1], after, before);
    }
  }

  lemma {:induction false} BetweenRepeat(t: int, n: nat, after: int, before: int)
    requires after < t < before
    ensures Between(Repeat(t, n), after, before) == n
    decreases n
  {
    if n > 0 {
      BetweenRepeat(t, n - 1, after, before);
      BetweenAppend([t], Repeat(t, n - 1), after, before);
      assert Between([t], after, before) == 1;
    }
  }

  lemma {:induction false} OrderedRepeat(from: int, t: int, n: nat, rest: seq<int>)
    requires from <= t && Ordered(t, rest)
    ensures Ordered(from, Repeat(t, n) + rest)
    decreases n
  {
    if n == 0 {
      assert Repeat(t, n) + rest == rest;
    } else {
      assert (Repeat(t, n) + rest)[1..] == Repeat(t, n - 1) + rest;
      OrderedRepeat(t, t, n - 1, rest);
    }
  }

  // One request opens a window, the others come at its last moment, and the next window fills at once.
  function Burst(windowMs: int, most: nat): seq<int>
    requires most >= 1
  {
    [0] + (Repeat(windowMs - 1, most - 1) + Repeat(windowMs, most))
  }

  /** Windows of at least two milliseconds reach the bound, whatever the maximum. */
  lemma FixedWindowIsTight(windowMs: int, most: nat)
    requires windowMs >= 2 && most >= 1
    ensures Ordered(0, Burst(windowMs, most))
    ensures InWindow(Counted(Fixed(None, [], 0), Burst(windowMs, most), windowMs, most).admitted, windowMs - 1, windowMs) == 2 * most - 1
  {
    BurstOrdered(windowMs, most);
    BurstAdmitted(windowMs, most);
    BurstWithin(windowMs, most);
  }

  lemma JoinOne(front: seq<int>, t: int, n: nat)
    requires n > 0
    ensures (front + [t]) + Repeat(t, n - 1) == front + Repeat(t, n)
  {
  }

  // The limiter allows the whole burst.
  lemma BurstAdmitted(windowMs: int, most: nat)
    requires windowMs >= 2 && most >= 1
    ensures Counted(Fixed(None, [], 0), Burst(windowMs, most), windowMs, most).admitted
            == ([0] + Repeat(windowMs - 1, most - 1)) + Repeat(windowMs, most)
  {
    var s1 := CountOn(Fixed(None, [], 0), 0, windowMs, most);
    assert s1 == Fixed(Some(Counter(1, windowMs)), [0], 0);
    BurstSplit(Repeat(windowMs - 1, most - 1), Repeat(windowMs, most), windowMs, most);
    Fill(s1, windowMs - 1, most - 1, windowMs, most);
    BurstSecond(Counted(s1, Repeat(windowMs - 1, most - 1), windowMs, most), windowMs, most);
  }

  lemma BurstSplit(a: seq<int>, b: seq<int>, windowMs: int, most: nat)
    requires most >= 1
    ensures var s1 := CountOn(Fixed(None, [], 0), 0, windowMs, most);
            Counted(Fixed(None, [], 0), [0] + (a + b), windowMs, most) == Counted(Counted(s1, a, windowMs, most), b, windowMs, most)
  {
    assert ([0] + (a + b))[1..] == a + b;
    CountedAppend(CountOn(Fixed(None, [], 0), 0, windowMs, most), a, b, windowMs, most);
  }

  lemma BurstSecond(s: Fixed, windowMs: int, most: nat)
    requires windowMs >= 2 && most >= 1 && s.counter.Some? && s.counter.value.expiresAt == windowMs
    ensures Counted(s, Repeat(windowMs, most), windowMs, most).admitted == s.admitted + Repeat(windowMs, most)
  {
    var s1 := CountOn(s, windowMs, windowMs, most);
    assert Repeat(windowMs, most)[1..] == Repeat(windowMs, most - 1);
    assert Counted(s, Repeat(windowMs, most), windowMs, most) == Counted(s1, Repeat(windowMs, most - 1), windowMs, most);
    Fill(s1, windowMs, most - 1, windowMs, most);
    JoinOne(s.admitted, windowMs, most);
  }

  // All of it but the first request lies in one window.
  lemma BurstWithin(windowMs: int, most: nat)
    requires windowMs >= 2 && most >= 1
    ensures InWindow(([0] + Repeat(windowMs - 1, most - 1)) + Repeat(windowMs, most), windowMs - 1, windowMs) == 2 * most - 1
  {
    var after, before := windowMs - 2, 2 * windowMs - 1;
    BetweenAppend([0] + Repeat(windowMs - 1, most - 1), Repeat(windowMs, most), after, before);
    BetweenAppend([0], Repeat(windowMs - 1, most - 1), after, before);
    BetweenRepeat(windowMs - 1, most - 1, after, before);
    BetweenRepeat(windowMs, most, after, before);
    FirstIsBefore(after, before);
  }

  lemma FirstIsBefore(after: int, before: int)
    requires after >= 0
    ensures Between([0], after, before) == 0
  {
  }

  lemma BurstOrdered(windowMs: int, most: nat)
    requires windowMs >= 2 && most >= 1
    ensures Ordered(0, Burst(windowMs, most))
  {
    var a, b := Repeat(windowMs - 1, most - 1), Repeat(windowMs, most);
    assert b + [] == b;
    OrderedRepeat(windowMs - 1, windowMs, most, []);
    OrderedRepeat(0, windowMs - 1, most - 1, b);
    assert Burst(windowMs, most)[1..] == a + b;
  }

  // ---------------------------------------------------------------- windows of one millisecond

  ghost predicate AtMostOnce(s: Fixed, most: nat) {
    forall from :: InWindow(s.admitted, from, 1) <= most
  }

  lemma InstantHolds(s: Fixed, now: int, most: nat, from: int)
    requires WindowKeeps(s, 1, most) && s.last <= now && most >= 1 && InWindow(s.admitted, from, 1) <= most
    ensures InWindow(CountOn(s, now, 1, most).admitted, from, 1) <= most
  {
    CountKeeps(s, now, 1, most);
    var s2 := CountOn(s, now, 1, most);
    CountAppend(s.admitted, now, from - 1, from + 1);
    if from == now { CountSmaller(s2.admitted, now - 1, now - 1, now + 1); }
  }

  lemma {:induction false} InstantsHold(s: Fixed, times: seq<int>, most: nat)
    requires WindowKeeps(s, 1, most) && AtMostOnce(s, most) && Ordered(s.last, times) && most >= 1
    ensures AtMostOnce(Counted(s, times, 1, most), most)
    decreases |times|
  {
    if times != [] {
      var s2 := CountOn(s, times[0], 1, most);
      CountKeeps(s, times[0], 1, most);
      forall from ensures InWindow(s2.admitted, from, 1) <= most { InstantHolds(s, times[0], most, from); }
      InstantsHold(s2, times[1..], most);
    }
  }

  /** A window of one millisecond is a single moment, and there the limiter allows no more than its maximum. */
  lemma OneMillisecondWindow(start: int, times: seq<int>, most: nat, from: int)
    requires Ordered(start, times) && most >= 1
    ensures InWindow(Counted(Fixed(None, [], start), times, 1, most).admitted, from, 1) <= most
  {
    var s := Fixed(None, [], start);
    forall f ensures InWindow(s.admitted, f, 1) <= most { }
    InstantsHold(s, times, most);
    assert AtMostOnce(Counted(s, times, 1, most), most);
  }
}
