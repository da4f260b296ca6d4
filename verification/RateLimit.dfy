/**
 Cooldown and window limits over whole runs (`evaluate_policy`), and the truncated history from
 which the pipeline takes its decisions (`recent_delivery_times_for_rule`).  Instants are integers.
 */
module RateLimit {

  datatype Limits = Limits(cooldown: nat, window: nat, most: nat)

  /** How many of the times lie after `from` and not after `to`. */
  function Count(times: seq<int>, from: int, to: int): nat {
    if times == [] then 0 else (if from < times[0] <= to then 1 else 0) + Count(times[1..], from, to)
  }

  predicate CoolingDown(limits: Limits, times: seq<int>, now: int) {
    limits.cooldown > 0 && exists i :: 0 <= i < |times| && now - limits.cooldown < times[i] <= now
  }

  predicate Allowed(limits: Limits, times: seq<int>, now: int) {
    !CoolingDown(limits, times, now) && Count(times, now - limits.window, now) < limits.most
  }

  lemma {:induction false} CountConcat(a: seq<int>, b: seq<int>, from: int, to: int)
    ensures Count(a + b, from, to) == Count(a, from, to) + Count(b, from, to)
  {
    if a == [] {
      assert a + b == b;
    } else {
      assert (a + b)[1..] == a[1..] + b;
      CountConcat(a[1..], b, from, to);
    }
  }

  lemma {:induction false} CountOne(t: int, from: int, to: int)
    ensures Count([t], from, to) == if from < t <= to then 1 else 0
  {
    assert [t][1..] == [];
  }

  // ---- whole runs ---------------------------------------------------------------------------------

  /** The deliveries of a run: each decision instant that is allowed is a delivery. */
  function Deliveries(limits: Limits, decisions: seq<int>): seq<int> {
    if decisions == [] then []
    else
      var before, now := Deliveries(limits, decisions[..|decisions| - 1]), decisions[|decisions| - 1];
      if Allowed(limits, before, now) then before + [now] else before
  }

  predicate NeverBack(times: seq<int>) {
    forall i, j :: 0 <= i < j < |times| ==> times[i] <= times[j]
  }

  lemma {:induction false} DeliveriesUpTo(limits: Limits, decisions: seq<int>, now: int)
    requires forall i :: 0 <= i < |decisions| ==> decisions[i] <= now
    ensures forall i :: 0 <= i < |Deliveries(limits, decisions)| ==> Deliveries(limits, decisions)[i] <= now
  {
    if decisions != [] {
      DeliveriesUpTo(limits, decisions[..|decisions| - 1], now);
    }
  }

  /** Two deliveries are at least the cooldown apart. */
  lemma {:induction false} CooldownKept(limits: Limits, decisions: seq<int>)
    requires NeverBack(decisions)
    ensures NeverBack(Deliveries(limits, decisions))
    ensures forall i, j :: 0 <= i < j < |Deliveries(limits, decisions)| ==>
      Deliveries(limits, decisions)[j] - Deliveries(limits, decisions)[i] >= limits.cooldown
  {
    if decisions != [] {
      var n := |decisions| - 1;
      var before, now := Deliveries(limits, decisions[..n]), decisions[n];
      CooldownKept(limits, decisions[..n]);
      DeliveriesUpTo(limits, decisions[..n], now);
      if Allowed(limits, before, now) {
        forall i | 0 <= i < |before| ensures now - before[i] >= limits.cooldown {
          assert before[i] <= now;
        }
      }
    }
  }

  /** A window that ends later than the last time holds no more than one that ends there. */
  lemma {:induction false} CountShrinks(times: seq<int>, from: int, to: int, from': int, to': int)
    requires from <= from' && forall i :: 0 <= i < |times| ==> times[i] <= to
    ensures Count(times, from', to') <= Count(times, from, to)
  {
    if times != [] {
      CountShrinks(times[1..], from, to, from', to');
    }
  }

  /** Any span of the window's length, open at its start, holds at most the allowed number. */
  lemma {:induction false} WindowKept(limits: Limits, decisions: seq<int>, from: int)
    requires NeverBack(decisions)
    ensures Count(Deliveries(limits, decisions), from, from + limits.window) <= limits.most
  {
    if decisions != [] {
      var n := |decisions| - 1;
      var before, now := Deliveries(limits, decisions[..n]), decisions[n];
      WindowKept(limits, decisions[..n], from);
      if Allowed(limits, before, now) {
        CountConcat(before, [now], from, from + limits.window);
        CountOne(now, from, from + limits.window);
        if from < now <= from + limits.window {
          DeliveriesUpTo(limits, decisions[..n], now);
          CountShrinks(before, now - limits.window, now, from, from + limits.window);
        }
      }
    }
  }

  /** Deliveries are the cooldown apart, and no span of the window's length holds more than the allowed number. */
  ghost predicate WithinLimits(limits: Limits, times: seq<int>) {
    && (forall i, j :: 0 <= i < j < |times| ==> times[j] - times[i] >= limits.cooldown)
    && (forall from, to :: to == from + limits.window ==> Count(times, from, to) <= limits.most)
  }

  /**
   A delivery is allowed exactly when it leaves the deliveries within the limits: nothing is refused
   without need.
   */
  lemma {:induction false} AllowedIff(limits: Limits, times: seq<int>, now: int)
    requires WithinLimits(limits, times) && forall i :: 0 <= i < |times| ==> times[i] <= now
    requires limits.most > 0 || limits.window > 0
    ensures Allowed(limits, times, now) <==> WithinLimits(limits, times + [now])
  {
    hide Count;
    var more := times + [now];
    CountConcat(times, [now], now - limits.window, now);
    CountOne(now, now - limits.window, now);
    if Allowed(limits, times, now) {
      forall from, to | to == from + limits.window ensures Count(more, from, to) <= limits.most {
        CountConcat(times, [now], from, to);
        CountOne(now, from, to);
        if from < now <= to {
          CountShrinks(times, now - limits.window, now, from, to);
        }
      }
    }
    if WithinLimits(limits, more) {
      forall i | 0 <= i < |times| ensures times[i] <= now - limits.cooldown {
        assert more[i] == times[i] && more[|times|] == now;
      }
      assert Count(more, now - limits.window, now) <= limits.most;
      CountNothing(times, now);
    }
  }

  lemma {:induction false} CountNothing(times: seq<int>, at: int)
    ensures Count(times, at, at) == 0
  {
    if times != [] {
      CountNothing(times[1..], at);
    }
  }

  // ---- the truncated history --------------------------------------------------------------------------

  const PER_CHANNEL: nat := 8
  const OVERALL: nat := 32

  /** Newest first. */
  predicate Descending(times: seq<int>) {
    forall i, j :: 0 <= i < j < |times| ==> times[i] >= times[j]
  }

  function InsertDescending(t: int, times: seq<int>): seq<int> {
    if times == [] || t >= times[0] then [t] + times else [times[0]] + InsertDescending(t, times[1..])
  }

  function SortDescending(times: seq<int>): seq<int> {
    if times == [] then [] else InsertDescending(times[0], SortDescending(times[1..]))
  }

  function Newest(times: seq<int>, n: nat): seq<int> {
    if |times| <= n then times else times[..n]
  }

  /** The newest deliveries of each channel. */
  function Recent(channels: seq<seq<int>>): seq<int> {
    if channels == [] then [] else Newest(channels[0], PER_CHANNEL) + Recent(channels[1..])
  }

  function All(channels: seq<seq<int>>): seq<int> {
    if channels == [] then [] else channels[0] + All(channels[1..])
  }

  /** What the pipeline passes to the policy. */
  function Truncated(channels: seq<seq<int>>): seq<int> {
    Newest(SortDescending(Recent(channels)), OVERALL)
  }

  lemma {:induction false} InsertCounts(t: int, times: seq<int>, from: int, to: int)
    ensures Count(InsertDescending(t, times), from, to) == Count([t], from, to) + Count(times, from, to)
  {
    CountOne(t, from, to);
    if times == [] || t >= times[0] {
      assert ([t] + times)[1..] == times;
    } else {
      InsertCounts(t, times[1..], from, to);
      var rest := InsertDescending(t, times[1..]);
      assert ([times[0]] + rest)[1..] == rest;
    }
  }

  lemma {:induction false} InsertMember(t: int, times: seq<int>, x: int)
    ensures x in InsertDescending(t, times) <==> x == t || x in times
  {
    if times != [] && t < times[0] {
      InsertMember(t, times[1..], x);
      assert times == [times[0]] + times[1..];
    }
  }

  lemma {:induction false} InsertSorts(t: int, times: seq<int>)
    requires Descending(times)
    ensures Descending(InsertDescending(t, times))
  {
    if times != [] && t < times[0] {
      var rest := InsertDescending(t, times[1..]);
      InsertSorts(t, times[1..]);
      forall j | 0 <= j < |rest| ensures times[0] >= rest[j] {
        InsertMember(t, times[1..], rest[j]);
      }
    }
  }

  lemma {:induction false} SortFacts(times: seq<int>, from: int, to: int)
    ensures Descending(SortDescending(times))
    ensures Count(SortDescending(times), from, to) == Count(times, from, to)
    ensures forall x :: x in SortDescending(times) <==> x in times
  {
    if times != [] {
      var rest := SortDescending(times[1..]);
      SortFacts(times[1..], from, to);
      InsertSorts(times[0], rest);
      InsertCounts(times[0], rest, from, to);
      CountOne(times[0], from, to);
      forall x ensures x in SortDescending(times) <==> x in times {
        InsertMember(times[0], rest, x);
        assert times == [times[0]] + times[1..];
      }
    }
  }

  lemma {:induction false} CountAtMostLength(times: seq<int>, from: int, to: int)
    ensures Count(times, from, to) <= |times|
    ensures (exists i :: 0 <= i < |times| && from < times[i] <= to) <==> Count(times, from, to) > 0
  {
    if times != [] {
      CountAtMostLength(times[1..], from, to);
      assert forall i :: 0 < i < |times| ==> times[i] == times[1..][i - 1];
      if exists i :: 0 <= i < |times[1..]| && from < times[1..][i] <= to {
        var i :| 0 <= i < |times[1..]| && from < times[1..][i] <= to;
        assert times[i + 1] == times[1..][i];
      }
    }
  }

  /** Of times not after `to`, newest first, the newest `n` hold as many of a window as fit into `n`. */
  lemma {:induction false} NewestCount(times: seq<int>, n: nat, from: int, to: int)
    requires Descending(times) && forall i :: 0 <= i < |times| ==> times[i] <= to
    ensures Count(Newest(times, n), from, to) == if Count(times, from, to) <= n then Count(times, from, to) else n
  {
    hide Count;
    CountAtMostLength(times, from, to);
    if |times| > n {
      assert times == times[..n] + times[n..];
      CountConcat(times[..n], times[n..], from, to);
      CountAtMostLength(times[..n], from, to);
      if n < |times| && times[n] > from {
        AllCount(times[..n], from, to);
      } else {
        NoneCount(times[n..], from, to);
      }
    }
  }

  lemma {:induction false} AllCount(times: seq<int>, from: int, to: int)
    requires forall i :: 0 <= i < |times| ==> from < times[i] <= to
    ensures Count(times, from, to) == |times|
  {
    if times != [] {
      AllCount(times[1..], from, to);
    }
  }

  lemma {:induction false} NoneCount(times: seq<int>, from: int, to: int)
    requires forall i :: 0 <= i < |times| ==> times[i] <= from
    ensures Count(times, from, to) == 0
  {
    if times != [] {
      NoneCount(times[1..], from, to);
    }
  }

  predicate Histories(channels: seq<seq<int>>, now: int) {
    forall c :: 0 <= c < |channels| ==> Descending(channels[c]) && forall i :: 0 <= i < |channels[c]| ==> channels[c][i] <= now
  }

  /** Limiting each channel to its newest deliveries loses nothing below the limit of a channel. */
  lemma {:induction false} RecentCount(channels: seq<seq<int>>, from: int, now: int)
    requires Histories(channels, now)
    ensures Count(Recent(channels), from, now) <= Count(All(channels), from, now)
    ensures Count(Recent(channels), from, now) < PER_CHANNEL ==> Count(Recent(channels), from, now) == Count(All(channels), from, now)
    ensures forall i :: 0 <= i < |Recent(channels)| ==> Recent(channels)[i] <= now
  {
    if channels != [] {
      RecentCount(channels[1..], from, now);
      NewestCount(channels[0], PER_CHANNEL, from, now);
      CountConcat(Newest(channels[0], PER_CHANNEL), Recent(channels[1..]), from, now);
      CountConcat(channels[0], All(channels[1..]), from, now);
    }
  }

  lemma {:induction false} TruncatedCount(channels: seq<seq<int>>, from: int, now: int)
    requires Histories(channels, now)
    ensures var some, all := Count(Truncated(channels), from, now), Count(All(channels), from, now);
      some <= all && (some < PER_CHANNEL ==> some == all)
  {
    var recent := Recent(channels);
    RecentCount(channels, from, now);
    SortFacts(recent, from, now);
    var sorted := SortDescending(recent);
    forall i | 0 <= i < |sorted| ensures sorted[i] <= now {
      assert sorted[i] in recent;
    }
    NewestCount(sorted, OVERALL, from, now);
  }

  lemma {:induction false} SortLength(times: seq<int>)
    ensures |SortDescending(times)| == |times|
  {
    if times != [] {
      SortLength(times[1..]);
      InsertLength(times[0], SortDescending(times[1..]));
    }
  }

  lemma {:induction false} InsertLength(t: int, times: seq<int>)
    ensures |InsertDescending(t, times)| == |times| + 1
  {
    if times != [] && t < times[0] {
      InsertLength(t, times[1..]);
    }
  }

  /** The truncated history: the newest thirty-two of the times kept for the channels, newest first. */
  lemma {:induction false} TruncatedAre(channels: seq<seq<int>>)
    ensures var kept, recent := Truncated(channels), Recent(channels);
      && Descending(kept) && |kept| == (if |recent| > 32 then 32 else |recent|)
      && (forall t :: t in kept ==> t in recent)
      && (forall t, i :: t in recent && t !in kept && 0 <= i < |kept| ==> t <= kept[i])
  {
    hide SortDescending, Recent;
    var recent := Recent(channels);
    var sorted := SortDescending(recent);
    SortFacts(recent, 0, 0);
    SortLength(recent);
    var kept := Truncated(channels);
    forall t, i | t in recent && t !in kept && 0 <= i < |kept| ensures t <= kept[i] {
      var j :| 0 <= j < |sorted| && sorted[j] == t;
      assert forall k :: 0 <= k < |kept| ==> kept[k] == sorted[k] && kept[k] in kept;
    }
  }

  /** The limits under which no history is long enough for the truncation to matter. */
  predicate Harmless(limits: Limits) {
    limits.most <= 8 || limits.window <= limits.cooldown
  }

  /**
   The decision from the truncated history is the decision from the whole history when at most
   eight deliveries fit into a window, or when no delivery does because the cooldown lasts longer.
   */
  lemma {:induction false} TruncationIsHarmless(limits: Limits, channels: seq<seq<int>>, now: int)
    requires Histories(channels, now) && Harmless(limits)
    ensures Allowed(limits, Truncated(channels), now) <==> Allowed(limits, All(channels), now)
  {
    hide Truncated, All, Count;
    TruncatedCount(channels, now - limits.window, now);
    TruncatedCount(channels, now - limits.cooldown, now);
    CountAtMostLength(Truncated(channels), now - limits.cooldown, now);
    CountAtMostLength(All(channels), now - limits.cooldown, now);
    ShorterCount(Truncated(channels), now - limits.cooldown, now - limits.window, now);
    ShorterCount(All(channels), now - limits.cooldown, now - limits.window, now);
  }

  lemma {:induction false} ShorterCount(times: seq<int>, from: int, later: int, to: int)
    ensures from <= later ==> Count(times, later, to) <= Count(times, from, to)
  {
    if times != [] {
      ShorterCount(times[1..], from, later, to);
    }
  }

  /** The same time `n` times. */
  function Repeated(t: int, n: nat): (r: seq<int>)
    ensures |r| == n
  {
    seq(n, i => t)
  }

  /**
   Under any other limits it is not: when a channel holds as many deliveries as a window allows, at
   the instant at which the cooldown has just passed, only eight of them are seen.
   */
  lemma {:induction false} TruncationCanBeSeen(limits: Limits, now: int)
    requires !Harmless(limits)
    ensures var channels := [Repeated(now - limits.cooldown, limits.most)];
      Histories(channels, now) && Allowed(limits, Truncated(channels), now) && !Allowed(limits, All(channels), now)
  {
    hide Count, SortDescending;
    var times := Repeated(now - limits.cooldown, limits.most);
    var channels, seen, from := [times], times[..PER_CHANNEL], now - limits.window;
    assert channels[1..] == [];
    assert All(channels) == times + [] == times;
    assert Recent(channels) == seen + [] == seen;
    AllCount(times, from, now);
    AllCount(seen, from, now);
    SortFacts(seen, from, now);
    var sorted := SortDescending(seen);
    forall i | 0 <= i < |sorted| ensures sorted[i] == now - limits.cooldown {
      assert sorted[i] in sorted;
      assert sorted[i] in seen;
    }
    NewestCount(sorted, OVERALL, from, now);
  }

  /** The truncated history always gives the decision of the whole one exactly under these limits. */
  lemma {:induction false} TruncationIsHarmlessIff(limits: Limits)
    ensures Harmless(limits) <==>
      forall channels: seq<seq<int>>, now: int :: Histories(channels, now) ==>
        (Allowed(limits, Truncated(channels), now) <==> Allowed(limits, All(channels), now))
  {
    hide Histories, Allowed, Truncated, All;
    if Harmless(limits) {
      forall channels: seq<seq<int>>, now: int | Histories(channels, now)
        ensures Allowed(limits, Truncated(channels), now) <==> Allowed(limits, All(channels), now)
      {
        TruncationIsHarmless(limits, channels, now);
      }
    } else {
      TruncationCanBeSeen(limits, 0);
    }
  }
}
