/**
 The sliding-window rate limiter. The implementation keeps, per key, the timestamps that
 may still count and prunes the rest; it is proved to decide exactly as if it kept every
 allowed request, and no window ever holds more than the maximum.
*/
module RateLimiters {
  type Key = string

  function CountFrom(times: seq<int>, low: int): nat {
    if times == [] then 0
    else CountFrom(times[..|times|-1], low) + if times[|times|-1] >= low then 1 else 0
  }

  /** How many of the times lie in the closed interval. */
  function CountIn(times: seq<int>, low: int, high: int): nat {
    if times == [] then 0
    else CountIn(times[..|times|-1], low, high) + if low <= times[|times|-1] <= high then 1 else 0
  }

  ghost predicate Sorted(times: seq<int>) {
    forall i, j :: 0 <= i < j < |times| ==> times[i] <= times[j]
  }

  datatype Config = Config(maxRequests: int, windowMs: int)

  function TimesOf(m: map<Key, seq<int>>, key: Key): seq<int> {
    if key in m then m[key] else []
  }

  /** The naive limiter: look at every request of the key that was ever allowed. */
  predicate NaiveAllows(c: Config, history: seq<int>, now: int) {
    CountFrom(history, now - c.windowMs) < c.maxRequests
  }

  datatype Event = Ask(key: Key, now: int) | Sweep(now: int)

  /** What a call adds to the full record of allowed requests. */
  function Recorded(c: Config, history: map<Key, seq<int>>, e: Event): map<Key, seq<int>> {
    if e.Ask? && NaiveAllows(c, TimesOf(history, e.key), e.now) then
      history[e.key := TimesOf(history, e.key) + [e.now]]
    else history
  }

  /** The kept timestamps are the whole history of a key except for a prefix in which
      nothing can count again from `clock` on. */
  ghost predicate Keeps(kept: seq<int>, history: seq<int>, c: Config, clock: int) {
    && |kept| <= |history|
    && kept == history[|history| - |kept|..]
    && (forall i :: 0 <= i < |history| - |kept| ==> history[i] < clock - c.windowMs)
    && Sorted(history)
    && forall i :: 0 <= i < |history| ==> history[i] <= clock
  }

  lemma {:induction false} CountSuffix(history: seq<int>, drop: nat, low: int)
    requires drop <= |history| && forall i :: 0 <= i < drop ==> history[i] < low
    ensures CountFrom(history, low) == CountFrom(history[drop..], low)
  {
    if drop < |history| {
      CountSuffix(history[..|history|-1], drop, low);
      assert history[drop..][..|history|-1-drop] == history[..|history|-1][drop..];
    } else {
      CountNone(history, low);
    }
  }

  lemma {:induction false} CountNone(times: seq<int>, low: int)
    requires forall i :: 0 <= i < |times| ==> times[i] < low
    ensures CountFrom(times, low) == 0
  {
    if times != [] {
      CountNone(times[..|times|-1], low);
    }
  }

  lemma {:induction false} CountAll(times: seq<int>, low: int)
    requires forall i :: 0 <= i < |times| ==> times[i] >= low
    ensures CountFrom(times, low) == |times|
  {
    if times != [] {
      CountAll(times[..|times|-1], low);
    }
  }

  class RateLimiter {
    const config: Config
    var windows: map<Key, seq<int>>
    /** Every allowed request of every key, never pruned. */
    ghost var history: map<Key, seq<int>>
    /** The latest clock reading. */
    ghost var clock: int

    ghost predicate Valid()
      reads this
    {
      forall key :: key in windows || key in history ==>
        Keeps(TimesOf(windows, key), TimesOf(history, key), config, clock)
    }

    constructor (maxRequests: int, windowMs: int, now: int)
      ensures Valid() && config == Config(maxRequests, windowMs) && history == map[] && clock == now
    {
      config := Config(maxRequests, windowMs);
      windows, history, clock := map[], map[], now;
    }

    method IsAllowed(key: Key, now: int) returns (allowed: bool)
      requires Valid() && clock <= now
      modifies this
      ensures Valid() && clock == now
      ensures allowed <==> NaiveAllows(config, TimesOf(old(history), key), now)
      ensures allowed <==> CountIn(TimesOf(old(history), key), now - config.windowMs, now) < config.maxRequests
      ensures history == Recorded(config, old(history), Ask(key, now))
    {
      hide Keeps, CountFrom, CountIn;
      var cutoff := now - config.windowMs;
      var timestamps := if key in windows then windows[key] else [];
      ghost var all := TimesOf(history, key);
      KeepsLater(timestamps, all, config, clock, now);
      while |timestamps| > 0 && timestamps[0] < cutoff
        modifies {}
        invariant Keeps(timestamps, all, config, now)
        decreases |timestamps|
      {
        KeepsPruned(timestamps, all, config, now);
        timestamps := timestamps[1..];
      }
      PrunedDecides(timestamps, all, config, now);
      KeepsPast(timestamps, all, config, now);
      CountToNow(all, cutoff, now);
      ghost var was := clock;
      clock := now;
      if |timestamps| >= config.maxRequests {
        windows := windows[key := timestamps];
        OthersKept(old(windows), old(history), windows, history, config, was, now, key);
        return false;
      }
      windows := windows[key := timestamps + [now]];
      history := history[key := all + [now]];
      KeepsMore(timestamps, all, config, now);
      OthersKept(old(windows), old(history), windows, history, config, was, now, key);
      return true;
    }

    /** cleanup: keys whose every timestamp has expired are forgotten. */
    method Cleanup(now: int)
      requires Valid() && clock <= now
      modifies this
      ensures Valid() && clock == now && history == Recorded(config, old(history), Sweep(now))
      ensures forall key :: key in windows <==>
                key in old(windows) && SomeCounts(old(windows)[key], now - config.windowMs)
      ensures forall key :: key in windows ==> windows[key] == old(windows)[key]
    {
      hide Keeps, Stale, SomeCounts;
      var cutoff := now - config.windowMs;
      ghost var was := clock;
      clock := now;
      windows := map key | key in windows && !Stale(windows[key], cutoff) :: windows[key];
      forall key | key in old(windows)
        ensures Stale(old(windows)[key], cutoff) <==> !SomeCounts(old(windows)[key], cutoff)
      {
        StaleExactly(old(windows)[key], TimesOf(history, key), config, was, cutoff);
      }
      forall key | key in windows || key in history
        ensures Keeps(TimesOf(windows, key), TimesOf(history, key), config, clock)
      {
        KeepsLater(TimesOf(old(windows), key), TimesOf(history, key), config, was, now);
        if key !in windows {
          ForgetStale(TimesOf(old(windows), key), TimesOf(history, key), config, now);
        }
      }
    }
  }

  predicate Stale(times: seq<int>, cutoff: int) {
    |times| == 0 || times[|times|-1] < cutoff
  }

  /** One of the times has not expired. */
  predicate SomeCounts(times: seq<int>, cutoff: int) {
    exists i :: 0 <= i < |times| && times[i] >= cutoff
  }

  /** The last timestamp decides for all, because they ascend. */
  lemma StaleExactly(kept: seq<int>, history: seq<int>, c: Config, clock: int, cutoff: int)
    requires Keeps(kept, history, c, clock)
    ensures Stale(kept, cutoff) <==> !SomeCounts(kept, cutoff)
  {
    var drop := |history| - |kept|;
    forall i | 0 <= i < |kept|
      ensures kept[i] <= kept[|kept|-1]
    {
      assert kept[i] == history[drop + i] && kept[|kept|-1] == history[|history|-1];
    }
  }

  lemma KeepsPast(kept: seq<int>, history: seq<int>, c: Config, clock: int)
    requires Keeps(kept, history, c, clock)
    ensures forall i :: 0 <= i < |history| ==> history[i] <= clock
  {
  }

  /** Nothing lies after now, so what counts from a time on is what lies between it and now. */
  lemma {:induction false} CountToNow(times: seq<int>, low: int, now: int)
    requires forall i :: 0 <= i < |times| ==> times[i] <= now
    ensures CountFrom(times, low) == CountIn(times, low, now)
  {
    if times != [] {
      CountToNow(times[..|times|-1], low, now);
    }
  }

  lemma KeepsLater(kept: seq<int>, history: seq<int>, c: Config, clock: int, now: int)
    requires (kept == [] && history == []) || Keeps(kept, history, c, clock)
    requires clock <= now
    ensures Keeps(kept, history, c, now)
  {
  }

  lemma KeepsPruned(kept: seq<int>, history: seq<int>, c: Config, now: int)
    requires Keeps(kept, history, c, now)
    requires |kept| > 0 && kept[0] < now - c.windowMs
    ensures Keeps(kept[1..], history, c, now)
  {
    var drop := |history| - |kept|;
    assert history[drop] == kept[0];
    assert kept[1..] == history[drop + 1..];
  }

  lemma ForgetStale(kept: seq<int>, history: seq<int>, c: Config, now: int)
    requires Keeps(kept, history, c, now) && Stale(kept, now - c.windowMs)
    ensures Keeps([], history, c, now)
  {
    if kept != [] {
      assert history[|history|-1] == kept[|kept|-1];
    }
  }

  lemma KeepsMore(kept: seq<int>, history: seq<int>, c: Config, now: int)
    requires Keeps(kept, history, c, now)
    ensures Keeps(kept + [now], history + [now], c, now)
  {
    assert (history + [now])[|history| - |kept|..] == history[|history| - |kept|..] + [now];
  }

  /** After pruning, the number of kept timestamps is the naive count. */
  lemma PrunedDecides(kept: seq<int>, history: seq<int>, c: Config, now: int)
    requires Keeps(kept, history, c, now)
    requires kept == [] || kept[0] >= now - c.windowMs
    ensures NaiveAllows(c, history, now) <==> |kept| < c.maxRequests
  {
    var drop, low := |history| - |kept|, now - c.windowMs;
    CountSuffix(history, drop, low);
    forall i | 0 <= i < |kept|
      ensures kept[i] >= low
    {
      assert kept[i] == history[drop + i] && kept[0] == history[drop];
    }
    CountAll(kept, low);
  }

  lemma OthersKept(w0: map<Key, seq<int>>, h0: map<Key, seq<int>>, w1: map<Key, seq<int>>, h1: map<Key, seq<int>>,
                   c: Config, clock: int, now: int, key: Key)
    requires clock <= now
    requires forall k :: k in w0 || k in h0 ==> Keeps(TimesOf(w0, k), TimesOf(h0, k), c, clock)
    requires forall k :: k != key ==> (k in w1 <==> k in w0) && (k in h1 <==> k in h0)
                                      && TimesOf(w1, k) == TimesOf(w0, k) && TimesOf(h1, k) == TimesOf(h0, k)
    requires Keeps(TimesOf(w1, key), TimesOf(h1, key), c, now)
    ensures forall k :: k in w1 || k in h1 ==> Keeps(TimesOf(w1, k), TimesOf(h1, k), c, now)
  {
    forall k | (k in w1 || k in h1) && k != key
      ensures Keeps(TimesOf(w1, k), TimesOf(h1, k), c, now)
    {
      KeepsLater(TimesOf(w0, k), TimesOf(h0, k), c, clock, now);
    }
  }

  // ---- Whole histories of the naive limiter ----

  /** The allowed requests of one key after it asked at the given times. */
  function Allowed(c: Config, asks: seq<int>): seq<int> {
    if asks == [] then []
    else
      var before, now := Allowed(c, asks[..|asks|-1]), asks[|asks|-1];
      if NaiveAllows(c, before, now) then before + [now] else before
  }

  function AtLeastZero(x: int): nat {
    if x < 0 then 0 else x
  }

  lemma {:induction false} AllowedInPast(c: Config, asks: seq<int>)
    requires Sorted(asks)
    ensures asks == [] ==> Allowed(c, asks) == []
    ensures forall i :: 0 <= i < |Allowed(c, asks)| ==> Allowed(c, asks)[i] <= asks[|asks|-1]
  {
    hide NaiveAllows;
    if asks != [] {
      AllowedInPast(c, asks[..|asks|-1]);
    }
  }

  /** No request is refused without need: one is allowed exactly when the closed window that ends
      with it holds fewer than maxRequests allowed ones. */
  lemma {:induction false} AllowedExactlyWithRoom(c: Config, asks: seq<int>)
    requires Sorted(asks) && asks != []
    ensures var before, now := Allowed(c, asks[..|asks|-1]), asks[|asks|-1];
      Allowed(c, asks) == if CountIn(before, now - c.windowMs, now) < c.maxRequests then before + [now] else before
  {
    hide CountFrom, CountIn, Allowed, Sorted;
    AllowedUnfold(c, asks);
    AllowedBefore(c, asks);
    CountToNow(Allowed(c, asks[..|asks|-1]), asks[|asks|-1] - c.windowMs, asks[|asks|-1]);
  }

  lemma {:induction false} AllowedBefore(c: Config, asks: seq<int>)
    requires Sorted(asks) && asks != []
    ensures var before := Allowed(c, asks[..|asks|-1]);
      forall i :: 0 <= i < |before| ==> before[i] <= asks[|asks|-1]
  {
    hide Allowed;
    var front := asks[..|asks|-1];
    assert front != [] ==> front[|front|-1] <= asks[|asks|-1];
    AllowedInPast(c, front);
  }

  lemma {:induction false} AllowedUnfold(c: Config, asks: seq<int>)
    requires asks != []
    ensures var before, now := Allowed(c, asks[..|asks|-1]), asks[|asks|-1];
      Allowed(c, asks) == if NaiveAllows(c, before, now) then before + [now] else before
  {
  }

  lemma {:induction false} CountInBelow(times: seq<int>, low: int, high: int, from: int)
    requires from <= low
    ensures CountIn(times, low, high) <= CountFrom(times, from)
  {
    if times != [] {
      CountInBelow(times[..|times|-1], low, high, from);
    }
  }

  /** Density: with a clock that never goes back, every closed interval of the window's
      length holds at most maxRequests allowed requests. */
  lemma {:induction false} WindowsNeverOverflow(c: Config, asks: seq<int>, low: int)
    requires Sorted(asks)
    ensures CountIn(Allowed(c, asks), low, low + c.windowMs) <= AtLeastZero(c.maxRequests)
  {
    if asks != [] {
      var front, now := asks[..|asks|-1], asks[|asks|-1];
      var before := Allowed(c, front);
      WindowsNeverOverflow(c, front, low);
      if NaiveAllows(c, before, now) && low <= now <= low + c.windowMs {
        CountInBelow(before, low, low + c.windowMs, now - c.windowMs);
        assert (before + [now])[..|before|] == before;
      } else if NaiveAllows(c, before, now) {
        assert (before + [now])[..|before|] == before;
      }
    }
  }

  /** n requests at one moment. */
  function Burst(now: int, n: nat): (asks: seq<int>)
    ensures |asks| == n && forall i :: 0 <= i < n ==> asks[i] == now
  {
    if n == 0 then [] else Burst(now, n - 1) + [now]
  }

  /** The bound is reached: maxRequests asks at one moment are all allowed. */
  lemma {:induction false} BurstAllowed(c: Config, now: int, n: nat)
    requires n <= c.maxRequests && c.windowMs >= 0
    ensures Allowed(c, Burst(now, n)) == Burst(now, n)
  {
    hide Allowed, CountFrom;
    if n == 0 {
      NoneAllowed(c);
    } else {
      var front, all := Burst(now, n - 1), Burst(now, n);
      BurstAllowed(c, now, n - 1);
      assert all == front + [now] && all[..n-1] == front;
      AllowedUnfold(c, all);
      CountAll(front, now - c.windowMs);
    }
  }

  lemma NoneAllowed(c: Config)
    ensures Allowed(c, []) == []
  {
  }

  // ---- Every trace of requests of many keys and clean-ups ----

  function HistoryAfter(c: Config, events: seq<Event>): map<Key, seq<int>> {
    if events == [] then map[]
    else Recorded(c, HistoryAfter(c, events[..|events|-1]), events[|events|-1])
  }

  /** The times at which one key asked. */
  function AsksOf(events: seq<Event>, key: Key): seq<int> {
    if events == [] then []
    else
      var before, e := AsksOf(events[..|events|-1], key), events[|events|-1];
      if e.Ask? && e.key == key then before + [e.now] else before
  }

  ghost predicate ClockForward(events: seq<Event>) {
    forall i, j :: 0 <= i < j < |events| ==> events[i].now <= events[j].now
  }

  /** A key's allowed requests depend on nothing but the times at which that key asked:
      not on the other keys, and not on when the clean-up ran. */
  lemma {:induction false} HistoryIsAllowed(c: Config, events: seq<Event>, key: Key)
    ensures TimesOf(HistoryAfter(c, events), key) == Allowed(c, AsksOf(events, key))
  {
    if events != [] {
      HistoryIsAllowed(c, events[..|events|-1], key);
      var before, e := AsksOf(events[..|events|-1], key), events[|events|-1];
      assert (before + [e.now])[..|before|] == before;
    }
  }

  lemma {:induction false} AsksSorted(events: seq<Event>, key: Key)
    requires ClockForward(events)
    ensures Sorted(AsksOf(events, key))
    ensures forall i :: 0 <= i < |AsksOf(events, key)| ==> AsksOf(events, key)[i] <= events[|events|-1].now
  {
    if events != [] {
      AsksSorted(events[..|events|-1], key);
    }
  }

  /** In every trace, no closed window of any key ever holds more than the maximum. */
  lemma TracesNeverOverflow(c: Config, events: seq<Event>, key: Key, low: int)
    requires ClockForward(events)
    ensures CountIn(TimesOf(HistoryAfter(c, events), key), low, low + c.windowMs) <= AtLeastZero(c.maxRequests)
  {
    hide *;
    HistoryIsAllowed(c, events, key);
    AsksSorted(events, key);
    WindowsNeverOverflow(c, AsksOf(events, key), low);
  }
}
