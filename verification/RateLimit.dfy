/** The sliding-window rate limiter: a pruned list of admitted times per key. */
module RateLimit {

  /** What the limiter does with a request. With no request allowed and none remembered,
      it reads the first element of an empty list. */
  datatype Verdict = Admitted | Refused(retryAfter: int) | IndexError

  /** The remembered times that are still in the window that ends now. */
  function Prune(hits: seq<real>, windowStart: real): seq<real> {
    if hits == [] then []
    else
      var front := Prune(hits[..|hits| - 1], windowStart);
      if hits[|hits| - 1] > windowStart then front + [hits[|hits| - 1]] else front
  }

  /** Truncation toward zero, as Python's int() does it. */
  function Truncate(x: real): int {
    if x >= 0.0 then x.Floor else -((-x).Floor)
  }

  /** How long until the oldest time in the window leaves it. */
  function Remaining(oldest: real, seconds: int, now: real): real {
    seconds as real - (now - oldest)
  }

  /** The advice, in whole seconds. */
  function RetryAfter(oldest: real, seconds: int, now: real): int {
    Truncate(Remaining(oldest, seconds, now)) + 1
  }

  /** The verdict on a request, given the remembered times in its window. */
  function Judge(inWindow: seq<real>, times: int, seconds: int, now: real): Verdict {
    if |inWindow| < times then Admitted
    else if inWindow == [] then IndexError
    else Refused(RetryAfter(inWindow[0], seconds, now))
  }

  /** One decision from a list of admitted times. */
  function Decide(hits: seq<real>, times: int, seconds: int, now: real): Verdict {
    Judge(Prune(hits, now - seconds as real), times, seconds, now)
  }

  /** The list stored after that decision: a refusal stores nothing. */
  function Store(hits: seq<real>, times: int, seconds: int, now: real): seq<real> {
    if Decide(hits, times, seconds, now).Admitted? then Prune(hits, now - seconds as real) + [now] else hits
  }

  class RateLimiter {
    const times: int
    const seconds: int
    var hits: map<string, seq<real>>

    constructor (times: int, seconds: int)
      ensures this.times == times && this.seconds == seconds && hits == map[]
    {
      this.times, this.seconds := times, seconds;
      hits := map[];
    }

    function HitsOf(key: string): seq<real>
      reads this
    {
      if key in hits then hits[key] else []
    }

    /** One request: `enabled` is the setting, and reading a new key makes it an empty list. */
    method Call(key: string, now: real, enabled: bool) returns (v: Verdict)
      modifies this
      ensures !enabled ==> v == Admitted && hits == old(hits)
      ensures enabled ==> v == Decide(old(HitsOf(key)), times, seconds, now)
      ensures enabled ==> hits == old(hits)[key := Store(old(HitsOf(key)), times, seconds, now)]
    {
      if !enabled {
        return Admitted;
      }
      var windowStart := now - seconds as real;
      if key !in hits {
        hits := hits[key := []];
      }
      var remembered := hits[key];
      var inWindow := [];
      for k := 0 to |remembered|
        invariant inWindow == Prune(remembered[..k], windowStart)
      {
        assert remembered[..k + 1][..k] == remembered[..k];
        if remembered[k] > windowStart {
          inWindow := inWindow + [remembered[k]];
        }
      }
      assert remembered[..|remembered|] == remembered;
      if |inWindow| >= times {
        if inWindow == [] {
          return IndexError;
        }
        var retryAfter := Truncate(seconds as real - (now - inWindow[0])) + 1;
        return Refused(retryAfter);
      }
      hits := hits[key := inWindow + [now]];
      return Admitted;
    }
  }

  // ----- One key's requests, from the first on -----

  ghost predicate Sorted(s: seq<real>) {
    forall i, j | 0 <= i < j < |s| :: s[i] <= s[j]
  }

  /** The list stored for a key after these requests. */
  function Stored(requests: seq<real>, times: int, seconds: int): seq<real> {
    if requests == [] then []
    else
      var last := |requests| - 1;
      Store(Stored(requests[..last], times, seconds), times, seconds, requests[last])
  }

  /** Whether the limiter admits request `i`. */
  predicate Admits(requests: seq<real>, times: int, seconds: int, i: nat)
    requires i < |requests|
  {
    Decide(Stored(requests[..i], times, seconds), times, seconds, requests[i]).Admitted?
  }

  /** The times of the requests that a choice picks. */
  function Picked(requests: seq<real>, choice: seq<bool>): seq<real>
    requires |choice| == |requests|
  {
    if requests == [] then []
    else
      var last := |requests| - 1;
      var front := Picked(requests[..last], choice[..last]);
      if choice[last] then front + [requests[last]] else front
  }

  /** The limiter's own choice. */
  function Choice(requests: seq<real>, times: int, seconds: int): (choice: seq<bool>)
    ensures |choice| == |requests|
  {
    seq(|requests|, i requires 0 <= i < |requests| => Admits(requests, times, seconds, i))
  }

  /** All the admitted times: what a limiter that never forgets would have stored. */
  function History(requests: seq<real>, times: int, seconds: int): seq<real> {
    Picked(requests, Choice(requests, times, seconds))
  }

  /** Requests of many keys, one after another. */
  datatype Request = Request(key: string, at: real)

  /** The limiter's table after these requests. */
  function Table(log: seq<Request>, times: int, seconds: int): map<string, seq<real>> {
    if log == [] then map[]
    else
      var last := log[|log| - 1];
      var before := Table(log[..|log| - 1], times, seconds);
      before[last.key := Store(if last.key in before then before[last.key] else [], times, seconds, last.at)]
  }

  function TimesOf(log: seq<Request>, key: string): seq<real> {
    if log == [] then []
    else
      var front := TimesOf(log[..|log| - 1], key);
      if log[|log| - 1].key == key then front + [log[|log| - 1].at] else front
  }

  /** What is stored for a key depends on that key's requests alone. */
  lemma {:induction false} KeysAreIndependent(log: seq<Request>, times: int, seconds: int, key: string)
    ensures key in Table(log, times, seconds) <==> TimesOf(log, key) != []
    ensures key in Table(log, times, seconds) ==>
              Table(log, times, seconds)[key] == Stored(TimesOf(log, key), times, seconds)
  {
    if log != [] {
      var front, last := log[..|log| - 1], log[|log| - 1];
      KeysAreIndependent(front, times, seconds, key);
      if last.key == key {
        var at := TimesOf(front, key);
        assert (at + [last.at])[..|at|] == at;
        assert at == [] ==> Stored(at, times, seconds) == [];
      }
    }
  }

  // ----- Pruning -----

  lemma PruneAppend(a: seq<real>, x: real, start: real)
    ensures Prune(a + [x], start) == if x > start then Prune(a, start) + [x] else Prune(a, start)
  {
    assert (a + [x])[..|a|] == a;
  }

  lemma {:induction false} PruneTwice(s: seq<real>, early: real, late: real)
    requires early <= late
    ensures Prune(Prune(s, early), late) == Prune(s, late)
  {
    if s != [] {
      var front, last := s[..|s| - 1], s[|s| - 1];
      PruneTwice(front, early, late);
      PruneAppend(Prune(front, early), last, late);
    }
  }

  /** Pruning keeps everything exactly when everything is in the window. */
  lemma {:induction false} PruneLength(s: seq<real>, start: real)
    ensures |Prune(s, start)| <= |s|
    ensures |Prune(s, start)| == |s| <==> forall i | 0 <= i < |s| :: s[i] > start
    ensures |Prune(s, start)| == |s| ==> Prune(s, start) == s
  {
    if s != [] {
      var last := |s| - 1;
      PruneLength(s[..last], start);
      assert Prune(s, start) ==
             if s[last] > start then Prune(s[..last], start) + [s[last]] else Prune(s[..last], start);
      assert forall i | 0 <= i < last :: s[..last][i] == s[i];
    }
  }

  ghost predicate AtMost(s: seq<real>, end: real) {
    forall i | 0 <= i < |s| :: s[i] <= end
  }

  lemma {:induction false} PruneSorted(s: seq<real>, start: real, end: real)
    requires Sorted(s) && AtMost(s, end)
    ensures Sorted(Prune(s, start)) && AtMost(Prune(s, start), end)
  {
    if s != [] {
      var last := |s| - 1;
      assert AtMost(s[..last], s[last]);
      PruneSorted(s[..last], start, s[last]);
    }
  }

  // ----- The stored list stands for the whole history -----

  lemma HistorySnoc(requests: seq<real>, times: int, seconds: int)
    requires requests != []
    ensures
      var last := |requests| - 1;
      History(requests, times, seconds) ==
      if Admits(requests, times, seconds, last) then History(requests[..last], times, seconds) + [requests[last]]
      else History(requests[..last], times, seconds)
  {
    var last := |requests| - 1;
    var all, front := Choice(requests, times, seconds), Choice(requests[..last], times, seconds);
    forall i | 0 <= i < last ensures all[..last][i] == front[i] {
      assert requests[..last][..i] == requests[..i];
    }
    assert all[..last] == front;
  }

  lemma SortedFront(requests: seq<real>)
    requires Sorted(requests) && requests != []
    ensures Sorted(requests[..|requests| - 1]) && AtMost(requests[..|requests| - 1], requests[|requests| - 1])
  {}

  lemma StoreLooksAlike(stored: seq<real>, history: seq<real>, times: int, seconds: int, t: real, start: real)
    requires t - seconds as real <= start && Prune(stored, start) == Prune(history, start)
    ensures Prune(Store(stored, times, seconds, t), start) ==
            Prune(if Decide(stored, times, seconds, t).Admitted? then history + [t] else history, start)
  {
    PruneTwice(stored, t - seconds as real, start);
    PruneAppend(Prune(stored, t - seconds as real), t, start);
    PruneAppend(history, t, start);
  }

  /** From the last request's window on, the stored list and the whole history look the same. */
  lemma {:induction false} StoredLooksLikeHistory(requests: seq<real>, times: int, seconds: int, start: real)
    requires Sorted(requests)
    requires requests != [] ==> requests[|requests| - 1] - seconds as real <= start
    ensures Prune(Stored(requests, times, seconds), start) == Prune(History(requests, times, seconds), start)
  {
    if requests != [] {
      var last := |requests| - 1;
      var front, t := requests[..last], requests[last];
      SortedFront(requests);
      StoredLooksLikeHistory(front, times, seconds, start);
      HistorySnoc(requests, times, seconds);
      StoreLooksAlike(Stored(front, times, seconds), History(front, times, seconds), times, seconds, t, start);
    }
  }

  /** Forgetting is invisible: the pruned list decides every later request as the full history would. */
  lemma PrunedListDecides(requests: seq<real>, times: int, seconds: int, now: real)
    requires Sorted(requests) && (requests != [] ==> requests[|requests| - 1] <= now)
    ensures Decide(Stored(requests, times, seconds), times, seconds, now)
         == Decide(History(requests, times, seconds), times, seconds, now)
  {
    hide Stored, History, Prune, Judge;
    StoredLooksLikeHistory(requests, times, seconds, now - seconds as real);
  }

  lemma StoreStaysSmall(stored: seq<real>, times: int, seconds: int, t: real)
    requires Sorted(stored) && AtMost(stored, t) && (0 <= times ==> |stored| <= times)
    ensures
      var after := Store(stored, times, seconds, t);
      Sorted(after) && AtMost(after, t) && (0 <= times ==> |after| <= times)
  {
    PruneSorted(stored, t - seconds as real, t);
  }

  lemma AtMostLater(s: seq<real>, t: real, end: real)
    requires AtMost(s, t) && t <= end
    ensures AtMost(s, end)
  {}

  /** The stored list stays sorted and never grows beyond `times`. */
  lemma {:induction false} StoredIsSmall(requests: seq<real>, times: int, seconds: int, end: real)
    requires Sorted(requests) && AtMost(requests, end)
    ensures Sorted(Stored(requests, times, seconds)) && AtMost(Stored(requests, times, seconds), end)
    ensures 0 <= times ==> |Stored(requests, times, seconds)| <= times
  {
    if requests != [] {
      var last := |requests| - 1;
      SortedFront(requests);
      StoredIsSmall(requests[..last], times, seconds, requests[last]);
      StoreStaysSmall(Stored(requests[..last], times, seconds), times, seconds, requests[last]);
      AtMostLater(Stored(requests, times, seconds), requests[last], end);
    }
  }

  // ----- The window bound -----

  /** How many of these times lie in the half-open interval (start, start + seconds]. */
  function CountIn(s: seq<real>, start: real, seconds: int): nat {
    if s == [] then 0
    else
      var last := s[|s| - 1];
      CountIn(s[..|s| - 1], start, seconds) + if start < last <= start + seconds as real then 1 else 0
  }

  ghost predicate WindowBound(s: seq<real>, times: int, seconds: int) {
    forall start: real :: CountIn(s, start, seconds) <= times
  }

  lemma CountAppend(s: seq<real>, x: real, start: real, seconds: int)
    ensures CountIn(s + [x], start, seconds) ==
            CountIn(s, start, seconds) + if start < x <= start + seconds as real then 1 else 0
  {
    assert (s + [x])[..|s|] == s;
  }

  lemma {:induction false} CountAtMostPruned(s: seq<real>, start: real, seconds: int, early: real)
    requires early <= start
    ensures CountIn(s, start, seconds) <= |Prune(s, early)|
  {
    if s != [] {
      CountAtMostPruned(s[..|s| - 1], start, seconds, early);
    }
  }

  lemma {:induction false} CountIsPruned(s: seq<real>, end: real, seconds: int)
    requires AtMost(s, end)
    ensures CountIn(s, end - seconds as real, seconds) == |Prune(s, end - seconds as real)|
  {
    if s != [] {
      CountIsPruned(s[..|s| - 1], end, seconds);
    }
  }

  lemma {:induction false} HistoryIsPast(requests: seq<real>, times: int, seconds: int, end: real)
    requires AtMost(requests, end)
    ensures AtMost(History(requests, times, seconds), end)
  {
    if requests != [] {
      HistorySnoc(requests, times, seconds);
      HistoryIsPast(requests[..|requests| - 1], times, seconds, end);
    }
  }

  /** The same count in [start, start + seconds), the interval that is open on the other side. */
  function CountFrom(s: seq<real>, start: real, seconds: int): nat {
    if s == [] then 0
    else
      var last := s[|s| - 1];
      CountFrom(s[..|s| - 1], start, seconds) + if start <= last < start + seconds as real then 1 else 0
  }

  lemma CountFromAppend(s: seq<real>, x: real, start: real, seconds: int)
    ensures CountFrom(s + [x], start, seconds) ==
            CountFrom(s, start, seconds) + if start <= x < start + seconds as real then 1 else 0
  {
    assert (s + [x])[..|s|] == s;
  }

  lemma {:induction false} CountFromAtMostPruned(s: seq<real>, start: real, seconds: int, early: real)
    requires early < start
    ensures CountFrom(s, start, seconds) <= |Prune(s, early)|
  {
    if s != [] {
      CountFromAtMostPruned(s[..|s| - 1], start, seconds, early);
    }
  }

  /** No interval of `seconds`, open on either side, holds more than `times`. */
  ghost predicate BothBounds(s: seq<real>, times: int, seconds: int) {
    && WindowBound(s, times, seconds)
    && forall start: real :: CountFrom(s, start, seconds) <= times
  }

  /** Where the window that ends now has room, one more keeps the bound. */
  lemma RoomKeepsBound(h: seq<real>, t: real, times: int, seconds: int)
    requires BothBounds(h, times, seconds) && |Prune(h, t - seconds as real)| < times
    ensures BothBounds(h + [t], times, seconds)
  {
    forall start: real
      ensures CountIn(h + [t], start, seconds) <= times && CountFrom(h + [t], start, seconds) <= times
    {
      CountAppend(h, t, start, seconds);
      CountFromAppend(h, t, start, seconds);
      assert CountIn(h, start, seconds) <= times && CountFrom(h, start, seconds) <= times;
      if start < t <= start + seconds as real {
        CountAtMostPruned(h, start, seconds, t - seconds as real);
      }
      if start <= t < start + seconds as real {
        CountFromAtMostPruned(h, start, seconds, t - seconds as real);
      }
    }
  }

  /** Whatever the requests, at most `times` of those admitted lie in any half-open interval of `seconds`. */
  lemma {:induction false} LimiterKeepsBound(requests: seq<real>, times: int, seconds: int)
    requires Sorted(requests) && 0 <= times
    ensures BothBounds(History(requests, times, seconds), times, seconds)
  {
    hide BothBounds;
    if requests == [] {
      NothingKeepsBound(times, seconds);
    } else {
      var last := |requests| - 1;
      var front, t := requests[..last], requests[last];
      SortedFront(requests);
      LimiterKeepsBound(front, times, seconds);
      HistorySnoc(requests, times, seconds);
      if Admits(requests, times, seconds, last) {
        PrunedListDecides(front, times, seconds, t);
        RoomKeepsBound(History(front, times, seconds), t, times, seconds);
      }
    }
  }

  lemma NothingKeepsBound(times: int, seconds: int)
    requires 0 <= times
    ensures BothBounds([], times, seconds)
  {}

  // ----- Greedy optimality -----

  /** `g` is ahead of `o`: it has at least as many times, and each of its first ones is no later. */
  ghost predicate Ahead(g: seq<real>, o: seq<real>) {
    |o| <= |g| && forall j | 0 <= j < |o| :: g[j] <= o[j]
  }

  /** Lists of one length, one ahead of the other: the one behind has no fewer recent times. */
  lemma {:induction false} AheadHasFewerRecent(g: seq<real>, o: seq<real>, start: real)
    requires |g| == |o| && Ahead(g, o)
    ensures |Prune(g, start)| <= |Prune(o, start)|
  {
    if g != [] {
      AheadHasFewerRecent(g[..|g| - 1], o[..|o| - 1], start);
    }
  }

  lemma {:induction false} PruneNothingLeft(s: seq<real>, start: real)
    requires AtMost(s, start)
    ensures Prune(s, start) == []
  {
    if s != [] {
      PruneNothingLeft(s[..|s| - 1], start);
    }
  }

  lemma {:induction false} PickedIsPast(requests: seq<real>, choice: seq<bool>, end: real)
    requires |choice| == |requests| && AtMost(requests, end)
    ensures AtMost(Picked(requests, choice), end)
  {
    if requests != [] {
      PickedIsPast(requests[..|requests| - 1], choice[..|requests| - 1], end);
    }
  }

  /** If the choice behind could still take time `t`, the limiter has room for it too. */
  lemma RoomForBoth(g: seq<real>, o: seq<real>, times: int, seconds: int, t: real)
    requires |g| == |o| && Ahead(g, o) && AtMost(g, t) && AtMost(o, t)
    requires WindowBound(o + [t], times, seconds) && (times != 0 || 0 < seconds)
    ensures |Prune(g, t - seconds as real)| < times
  {
    var start := t - seconds as real;
    assert CountIn(o + [t], start, seconds) <= times;
    CountAppend(o, t, start, seconds);
    CountIsPruned(o, t, seconds);
    AheadHasFewerRecent(g, o, start);
    if seconds <= 0 {
      PruneNothingLeft(g, start);
    }
  }

  lemma BoundOfFront(s: seq<real>, x: real, times: int, seconds: int)
    requires WindowBound(s + [x], times, seconds)
    ensures WindowBound(s, times, seconds)
  {
    forall start: real ensures CountIn(s, start, seconds) <= times {
      assert CountIn(s + [x], start, seconds) <= times;
      CountAppend(s, x, start, seconds);
    }
  }

  /** The limiter stays ahead of every choice that keeps the bound. */
  lemma {:induction false} GreedyStaysAhead(requests: seq<real>, times: int, seconds: int, choice: seq<bool>)
    requires Sorted(requests) && |choice| == |requests| && (times != 0 || 0 < seconds)
    requires WindowBound(Picked(requests, choice), times, seconds)
    ensures Ahead(History(requests, times, seconds), Picked(requests, choice))
  {
    if requests != [] {
      var last := |requests| - 1;
      var front, t := requests[..last], requests[last];
      var g, o := History(front, times, seconds), Picked(front, choice[..last]);
      SortedFront(requests);
      if choice[last] {
        BoundOfFront(o, t, times, seconds);
      }
      GreedyStaysAhead(front, times, seconds, choice[..last]);
      HistorySnoc(requests, times, seconds);
      HistoryIsPast(front, times, seconds, t);
      PickedIsPast(front, choice[..last], t);
      if choice[last] && |g| == |o| {
        PrunedListDecides(front, times, seconds, t);
        RoomForBoth(g, o, times, seconds, t);
      }
    }
  }

  /** Greedy is optimal: after every prefix of the requests, the limiter has admitted at least as many
      as any other way of admitting them that keeps at most `times` in every window. */
  lemma GreedyIsOptimal(requests: seq<real>, times: int, seconds: int, choice: seq<bool>, n: nat)
    requires Sorted(requests) && n <= |requests| && |choice| == n
    requires times != 0 || 0 < seconds
    requires WindowBound(Picked(requests[..n], choice), times, seconds)
    ensures |Picked(requests[..n], choice)| <= |History(requests[..n], times, seconds)|
  {
    GreedyStaysAhead(requests[..n], times, seconds, choice);
  }

  /** The one exception: a limiter that allows nothing, in windows that hold nothing. Every choice keeps that bound. */
  lemma AllowingNothingIsNotOptimal(at: real, seconds: int)
    requires seconds <= 0
    ensures WindowBound(Picked([at], [true]), 0, seconds)
    ensures |Picked([at], [true])| == 1 && History([at], 0, seconds) == []
  {
    assert [true][..0] == [] && [at][..0] == [];
    assert Picked([at], [true]) == [at];
    forall start: real ensures CountIn([at], start, seconds) <= 0 {
      assert CountIn([at], start, seconds) == CountIn([], start, seconds);
    }
    assert !Admits([at], 0, seconds, 0);
    HistorySnoc([at], 0, seconds);
  }

  // ----- A limiter that allows nothing -----

  /** With no request allowed, nothing is ever remembered, and every request ends in the exception. */
  lemma {:induction false} NothingAllowedRaises(requests: seq<real>, times: int, seconds: int, now: real)
    requires times <= 0
    ensures Stored(requests, times, seconds) == []
    ensures Decide(Stored(requests, times, seconds), times, seconds, now) == IndexError
  {
    if requests != [] {
      NothingAllowedRaises(requests[..|requests| - 1], times, seconds, requests[|requests| - 1]);
    }
  }

  // ----- Retry-After -----

  /** int() drops the fraction, on either side of zero. */
  lemma TruncateDropsFraction(x: real)
    ensures 0.0 <= x ==> Truncate(x) as real <= x < Truncate(x) as real + 1.0
    ensures x <= 0.0 ==> Truncate(x) as real - 1.0 < x <= Truncate(x) as real
  {}

  lemma AdviceIsCeiling(oldest: real, seconds: int, now: real)
    requires 0.0 < Remaining(oldest, seconds, now)
    ensures
      var left, advice := Remaining(oldest, seconds, now), RetryAfter(oldest, seconds, now);
      1 <= advice && left < advice as real <= left + 1.0
  {}

  lemma PrunedWhenOldestLeft(hits: seq<real>, start: real)
    requires Sorted(hits) && hits != []
    ensures |Prune(hits, start)| == |hits| <==> start < hits[0]
    ensures start < hits[0] ==> Prune(hits, start) == hits
    ensures |Prune(hits, start)| <= |hits|
  {
    PruneLength(hits, start);
    if start < hits[0] {
      assert forall i | 0 <= i < |hits| :: hits[0] <= hits[i];
    }
  }

  /** A full list admits at `at` exactly when its oldest time has left the window; refusing, it advises
      from that time. */
  lemma FullListDecides(hits: seq<real>, times: int, seconds: int, at: real)
    requires Sorted(hits) && |hits| == times && 1 <= times
    ensures Decide(hits, times, seconds, at) ==
            if hits[0] <= at - seconds as real then Admitted else Refused(RetryAfter(hits[0], seconds, at))
  {
    PrunedWhenOldestLeft(hits, at - seconds as real);
  }

  /** A list that refuses is full, when it never holds more than `times`. */
  lemma RefusingListIsFull(hits: seq<real>, times: int, seconds: int, now: real)
    requires 1 <= times && |hits| <= times && Decide(hits, times, seconds, now).Refused?
    ensures |hits| == times && Store(hits, times, seconds, now) == hits
  {
    PruneLength(hits, now - seconds as real);
  }

  /** A refused caller that comes back after `wait`, with no other request on the key, is admitted exactly when it
      waited for the remaining time. The advice is enough, is at least one second, and is at most a second too long. */
  lemma RetryAfterIsTight(requests: seq<real>, times: int, seconds: int, now: real, wait: real)
    requires Sorted(requests) && AtMost(requests, now) && 1 <= times && 0.0 <= wait
    requires Decide(Stored(requests, times, seconds), times, seconds, now).Refused?
    ensures
      var hits := Stored(requests, times, seconds);
      var advice := Decide(hits, times, seconds, now).retryAfter;
      && hits != [] && Store(hits, times, seconds, now) == hits
      && (Decide(hits, times, seconds, now + wait).Admitted? <==> Remaining(hits[0], seconds, now) <= wait)
      && Remaining(hits[0], seconds, now) < advice as real <= Remaining(hits[0], seconds, now) + 1.0
      && 1 <= advice
  {
    var hits := Stored(requests, times, seconds);
    StoredIsSmall(requests, times, seconds, now);
    RefusingListIsFull(hits, times, seconds, now);
    FullListDecides(hits, times, seconds, now);
    FullListDecides(hits, times, seconds, now + wait);
    AdviceIsCeiling(hits[0], seconds, now);
  }
}
