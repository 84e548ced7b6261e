/**
 * What the limiters' answers mean to a caller: `remaining` is how many more requests pass before
 * the window moves, and `resetAt` when a denied key passes again or a quota is whole again.
 */
module RateAnswers {
  import opened Basics
  import opened RateLimits

  // ---------------------------------------------------------------- sliding window

  // One request is taken if there is room, and then there is room for one less.
  lemma OneMore(front: seq<int>, more: seq<int>, room: nat)
    requires more != []
    ensures (if room > 0 then front + [more[0]] else front) + more[1..][..Min(|more| - 1, Max(0, room - 1))]
            == front + more[..Min(|more|, room)]
  {
    if room > 0 {
      var n := Min(|more|, room);
      assert more[..n] == [more[0]] + more[1..][..n - 1];
    }
  }

  lemma InWindowStep(s: Sliding, t: int, windowMs: int, most: nat)
    requires Recent(s.hits, t - windowMs) == s.hits && |s.hits| <= most
    ensures SlideOn(s, t, windowMs, most)
            == if |s.hits| < most then Sliding(s.hits + [t], s.admitted + [t], t) else s.(last := t)
  {
  }

  // While the least remembered time stays in the window, as many more pass as there is room.
  lemma {:induction false} RoomInWindow(s: Sliding, more: seq<int>, least: int, windowMs: int, most: nat)
    requires |s.hits| <= most && AtLeast(s.hits, least) && AtLeast(more, least) && AtMost(more, least + windowMs - 1)
    ensures Played(s, more, windowMs, most).admitted == s.admitted + more[..Min(|more|, most - |s.hits|)]
    decreases |more|
  {
    if more == [] {
      assert s.admitted + [] == s.admitted;
    } else {
      NothingDropped(s.hits, more[0] - windowMs, least);
      InWindowStep(s, more[0], windowMs, most);
      RoomInWindow(SlideOn(s, more[0], windowMs, most), more[1..], least, windowMs, most);
      OneMore(s.admitted, more, most - |s.hits|);
    }
  }

  lemma {:induction false} OrderedAtLeast(from: int, times: seq<int>, bound: int)
    requires Ordered(from, times) && bound <= from
    ensures AtLeast(times, bound)
    decreases |times|
  {
    if times != [] {
      OrderedAtLeast(times[0], times[1..], bound);
      assert times == [times[0]] + times[1..];
    }
  }

  /** Of the requests that follow an answer before the oldest remembered one leaves the window, exactly the first `remaining` pass. */
  lemma SlidingRemaining(start: int, times: seq<int>, s: Sliding, now: int, windowMs: int, most: nat, more: seq<int>)
    requires windowMs >= 1 && most >= 1 && Ordered(start, times) && s == Played(Unused(start), times, windowMs, most)
    requires s.last <= now && Ordered(now, more)
    requires var hits := SlideOn(s, now, windowMs, most).hits; hits != [] ==> AtMost(more, hits[0] + windowMs - 1)
    ensures var remaining := Slide(s.hits, now, windowMs, most).1.remaining;
            var after := SlideOn(s, now, windowMs, most);
            after.hits != [] && Played(after, more, windowMs, most).admitted == after.admitted + more[..Min(|more|, remaining)]
  {
    PlayedRemembers(Unused(start), times, windowMs, most);
    PriorFacts(s, now, windowMs, most);
    var prior := Recent(s.hits, now - windowMs);
    AnswerShape(s, now, windowMs, most, prior);
    RemainingAnswer(prior, s.admitted, now, windowMs, most, more, SlideOn(s, now, windowMs, most));
  }

  lemma AnswerShape(s: Sliding, now: int, windowMs: int, most: nat, prior: seq<int>)
    requires prior == Recent(s.hits, now - windowMs)
    ensures SlideOn(s, now, windowMs, most) == AfterOne(prior, s.admitted, now, most)
    ensures Slide(s.hits, now, windowMs, most).1.remaining == Max(0, most - |prior| - 1)
  {
  }

  function AfterOne(prior: seq<int>, admitted: seq<int>, now: int, most: nat): Sliding {
    if |prior| < most then Sliding(prior + [now], admitted + [now], now) else Sliding(prior, admitted, now)
  }

  lemma RemainingAnswer(prior: seq<int>, admitted: seq<int>, now: int, windowMs: int, most: nat, more: seq<int>, after: Sliding)
    requires most >= 1 && |prior| <= most && Ascending(prior) && AtMost(prior, now) && Ordered(now, more)
    requires after == AfterOne(prior, admitted, now, most) && (after.hits != [] ==> AtMost(more, after.hits[0] + windowMs - 1))
    ensures after.hits != []
    ensures Played(after, more, windowMs, most).admitted == after.admitted + more[..Min(|more|, Max(0, most - |prior| - 1))]
  {
    if |prior| < most {
      RemainingAfter(prior, admitted, now, windowMs, most, more);
    } else {
      RemainingFrom(after, now, windowMs, most, more);
    }
  }

  lemma RemainingAfter(prior: seq<int>, admitted: seq<int>, now: int, windowMs: int, most: nat, more: seq<int>)
    requires |prior| < most && Ascending(prior) && AtMost(prior, now) && Ordered(now, more)
    requires AtMost(more, (prior + [now])[0] + windowMs - 1)
    ensures var after := Sliding(prior + [now], admitted + [now], now);
            Played(after, more, windowMs, most).admitted == after.admitted + more[..Min(|more|, most - |prior| - 1)]
  {
    LateAppend(prior, now);
    RemainingFrom(Sliding(prior + [now], admitted + [now], now), now, windowMs, most, more);
  }

  lemma RemainingFrom(s: Sliding, now: int, windowMs: int, most: nat, more: seq<int>)
    requires s.hits != [] && |s.hits| <= most && Ascending(s.hits) && AtMost(s.hits, now) && Ordered(now, more)
    requires AtMost(more, s.hits[0] + windowMs - 1)
    ensures Played(s, more, windowMs, most).admitted == s.admitted + more[..Min(|more|, most - |s.hits|)]
  {
    FirstIsLeast(s.hits);
    OrderedAtLeast(now, more, s.hits[0]);
    RoomInWindow(s, more, s.hits[0], windowMs, most);
  }

  // All hits up to `last` have left the window, or the one at `last` has not.
  lemma {:induction false} AllDropped(hits: seq<int>, start: int)
    requires AtMost(hits, start)
    ensures Recent(hits, start) == []
    decreases |hits|
  {
    if hits != [] { AllDropped(hits[..|hits|-1], start); }
  }

  /** `resetAt` of an allowed answer is when the whole quota is back: the next request finds all of it at or after that time, and less before. */
  lemma WholeAgainAtReset(start: int, times: seq<int>, s: Sliding, now: int, windowMs: int, most: nat, next: int)
    requires windowMs >= 1 && most >= 1 && Ordered(start, times) && s == Played(Unused(start), times, windowMs, most)
    requires s.last <= now && Slide(s.hits, now, windowMs, most).1.allowed
    ensures var a := Slide(s.hits, now, windowMs, most).1;
            var b := Slide(SlideOn(s, now, windowMs, most).hits, next, windowMs, most).1;
            b.allowed && b.remaining == most - 1 <==> next >= a.resetAt
  {
    PlayedRemembers(Unused(start), times, windowMs, most);
    PriorFacts(s, now, windowMs, most);
    WholeFrom(Recent(s.hits, now - windowMs), now, windowMs, most, next);
  }

  lemma WholeFrom(prior: seq<int>, now: int, windowMs: int, most: nat, next: int)
    requires most >= 1 && AtMost(prior, now) && |prior| < most
    ensures var b := Slide(prior + [now], next, windowMs, most).1;
            b.allowed && b.remaining == most - 1 <==> next >= now + windowMs
  {
    if next >= now + windowMs {
      LaterAtMost(prior + [now], now, next - windowMs);
      AllDropped(prior + [now], next - windowMs);
    } else {
      RecentAppend(prior, now, next - windowMs);
    }
  }

  // ---------------------------------------------------------------- fixed window

  lemma OpenStep(s: Fixed, t: int, windowMs: int, most: nat)
    requires s.counter.Some? && s.counter.value.count >= 1 && t < s.counter.value.expiresAt
    ensures CountOn(s, t, windowMs, most)
            == Fixed(Some(Counter(s.counter.value.count + 1, s.counter.value.expiresAt)),
                     if s.counter.value.count < most then s.admitted + [t] else s.admitted, t)
  {
  }

  // While the window is open, as many more pass as the counter leaves room for.
  lemma {:induction false} RoomInCounter(s: Fixed, more: seq<int>, windowMs: int, most: nat)
    requires s.counter.Some? && s.counter.value.count >= 1
    requires forall i :: 0 <= i < |more| ==> more[i] < s.counter.value.expiresAt
    ensures var s2 := Counted(s, more, windowMs, most);
            && s2.admitted == s.admitted + more[..Min(|more|, Max(0, most - s.counter.value.count))]
            && s2.counter == Some(Counter(s.counter.value.count + |more|, s.counter.value.expiresAt))
    decreases |more|
  {
    if more == [] {
      assert s.admitted + [] == s.admitted;
    } else {
      OpenStep(s, more[0], windowMs, most);
      RoomInCounter(CountOn(s, more[0], windowMs, most), more[1..], windowMs, most);
      OneMore(s.admitted, more, Max(0, most - s.counter.value.count));
    }
  }

  // The answer to a request that reaches the server at `clock` and was sent at `sent`.
  function AnswerAt(s: Fixed, clock: int, sent: int, windowMs: int, most: nat): Answer {
    CountAnswer(Count(s.counter, clock, windowMs), clock, sent, most)
  }

  /**
   * Of the requests that follow an answer before its `resetAt`, exactly the first `remaining`
   * pass; none of them does after a denial. Times are the server's; the caller's clock may differ.
   */
  lemma FixedRemaining(start: int, times: seq<int>, clock: int, sent: int, windowMs: int, most: nat, more: seq<int>)
    requires windowMs >= 1 && most >= 1
    requires var a := AnswerAt(Counted(Fixed(None, [], start), times, windowMs, most), clock, sent, windowMs, most);
             forall i :: 0 <= i < |more| ==> more[i] - clock < a.resetAt - sent
    ensures var s := Counted(Fixed(None, [], start), times, windowMs, most);
            var a := AnswerAt(s, clock, sent, windowMs, most);
            var after := CountOn(s, clock, windowMs, most);
            && after.admitted == s.admitted + (if a.allowed then [clock] else [])
            && Counted(after, more, windowMs, most).admitted == after.admitted + more[..Min(|more|, a.remaining)]
            && (!a.allowed ==> a.remaining == 0)
  {
    var s := Counted(Fixed(None, [], start), times, windowMs, most);
    assert s.admitted + [] == s.admitted;
    RoomInCounter(CountOn(s, clock, windowMs, most), more, windowMs, most);
  }

  /**
   * `resetAt` is when the window ends: after any requests before it, the next one finds the whole
   * quota at or after it and less before; so a denied key is denied until then and allowed from then on.
   */
  lemma FixedReset(start: int, times: seq<int>, clock: int, sent: int, windowMs: int, most: nat, more: seq<int>, next: int)
    requires windowMs >= 1 && most >= 1
    requires var a := AnswerAt(Counted(Fixed(None, [], start), times, windowMs, most), clock, sent, windowMs, most);
             forall i :: 0 <= i < |more| ==> more[i] - clock < a.resetAt - sent
    ensures var s := Counted(Fixed(None, [], start), times, windowMs, most);
            var a := AnswerAt(s, clock, sent, windowMs, most);
            var b := AnswerAt(Counted(CountOn(s, clock, windowMs, most), more, windowMs, most), next, next, windowMs, most);
            && (b.allowed && b.remaining == most - 1 <==> next - clock >= a.resetAt - sent)
            && (!a.allowed ==> (b.allowed <==> next - clock >= a.resetAt - sent))
  {
    var s := Counted(Fixed(None, [], start), times, windowMs, most);
    RoomInCounter(CountOn(s, clock, windowMs, most), more, windowMs, most);
  }
}
