/** Exactly when eviction makes the bounded limiter forget something that matters. */
module Eviction {
  import opened Admission

  function Repeat(now: Time, n: nat): (times: seq<Time>)
    ensures |times| == n && forall i :: 0 <= i < n ==> times[i] == now
  {
    seq(n, _ => now)
  }

  /** The map after `n` admitted attempts of `key` at one time, if it had no bucket. */
  function Burst(base: Buckets, key: Key, now: Time, n: nat): Buckets {
    if n == 0 then base else base[key := Bucket(Repeat(now, n), now)]
  }

  /** A map with room, in which nothing is expired. */
  ghost predicate Roomy(limits: Limits, base: Buckets, key: Key, now: Time) {
    && key !in base && |base| < limits.maximumBuckets
    && forall k :: k in base ==> !Expired(limits, now, base[k].lastSeen)
  }

  lemma {:induction false} NothingTrimmed(limits: Limits, attempts: seq<Time>, now: Time)
    requires limits.Valid() && forall i :: 0 <= i < |attempts| ==> attempts[i] == now
    ensures Trimmed(limits, attempts, now) == attempts
  {
  }

  lemma BurstStep(limits: Limits, base: Buckets, key: Key, now: Time, n: nat)
    requires limits.Valid() && Roomy(limits, base, key, now) && n < limits.attemptsPerWindow
    ensures AdmitStep(limits, Burst(base, key, now, n), key, now, Burst(base, key, now, n + 1), true)
    ensures Harmless(limits, Burst(base, key, now, n), Attempt(key, now), Burst(base, key, now, n + 1))
  {
    var before, after := Burst(base, key, now, n), Burst(base, key, now, n + 1);
    var queue := Queue(before, key);
    assert queue == Repeat(now, n);
    NothingTrimmed(limits, queue, now);
    assert queue + [now] == Repeat(now, n + 1);
    if n == 0 {
      assert Retained(limits, base, now) == base;
    }
    assert MadeRoom(limits, before, key, now, before);
    assert Admitted(limits, before, key, now, after, true);
  }

  datatype Run = Run(events: seq<Event>, states: seq<Buckets>, decisions: seq<bool>) {
    ghost predicate Valid(limits: Limits) {
      IsRun(limits, events, states, decisions) && Chronological(events)
    }

    /** The map that the run ends with. */
    function Last(): Buckets
      requires |states| == |events| + 1
    {
      states[|events|]
    }

    function Extended(event: Event, after: Buckets, admitted: bool): Run {
      Run(events + [event], states + [after], decisions + [admitted])
    }
  }

  /** One run continues another, by harmless calls. */
  ghost predicate Continues(limits: Limits, r: Run, r': Run) {
    && r'.Valid(limits)
    && r.events <= r'.events && r.states <= r'.states && r.decisions <= r'.decisions
    && HarmlessFrom(limits, r'.events, r'.states, |r.events|)
  }

  predicate NoLaterThan(events: seq<Event>, now: Time) {
    forall i :: 0 <= i < |events| && events[i].Attempt? ==> events[i].now <= now
  }

  lemma ChronologyExtends(events: seq<Event>, event: Event)
    requires Chronological(events) && (event.Attempt? ==> NoLaterThan(events, event.now))
    ensures Chronological(events + [event])
  {
  }

  lemma HarmlessExtends(limits: Limits, r: Run, from: nat, event: Event, after: Buckets, admitted: bool)
    requires |r.states| == |r.events| + 1 && HarmlessFrom(limits, r.events, r.states, from)
    requires Harmless(limits, r.Last(), event, after)
    ensures var r' := r.Extended(event, after, admitted); HarmlessFrom(limits, r'.events, r'.states, from)
  {
    var r' := r.Extended(event, after, admitted);
    forall i | from <= i < |r'.events|
      ensures Harmless(limits, r'.states[i], r'.events[i], r'.states[i + 1])
    {
      if i < |r.events| {
        assert r'.states[i] == r.states[i] && r'.states[i + 1] == r.states[i + 1] && r'.events[i] == r.events[i];
      }
    }
  }

  lemma ContinueOnce(limits: Limits, r: Run, r': Run, event: Event, after: Buckets, admitted: bool)
    requires Continues(limits, r, r') && |r.states| == |r.events| + 1
    requires Step(limits, r'.Last(), event, after, admitted) && Harmless(limits, r'.Last(), event, after)
    requires event.Attempt? ==> NoLaterThan(r'.events, event.now)
    ensures Continues(limits, r, r'.Extended(event, after, admitted))
    ensures LogOf(r'.events + [event], r'.decisions + [admitted]) == Logged(LogOf(r'.events, r'.decisions), event, admitted)
  {
    ExtendRun(limits, r'.events, r'.states, r'.decisions, event, after, admitted);
    ChronologyExtends(r'.events, event);
    HarmlessExtends(limits, r', |r.events|, event, after, admitted);
  }

  lemma LogGrows(log: Log, key: Key, now: Time, times: seq<Time>, n: nat)
    requires Times(log, key) == times + Repeat(now, n)
    ensures Times(Logged(log, Attempt(key, now), true), key) == times + Repeat(now, n + 1)
  {
    assert Repeat(now, n + 1) == Repeat(now, n) + [now];
  }

  lemma StillNoLater(events: seq<Event>, key: Key, now: Time)
    requires NoLaterThan(events, now)
    ensures NoLaterThan(events + [Attempt(key, now)], now)
  {
  }

  /** A run with a burst of `n` attempts at its end, after which the log has these times. */
  ghost predicate InBurst(limits: Limits, r: Run, r': Run, base: Buckets, key: Key, now: Time, n: nat, times: seq<Time>) {
    && Continues(limits, r, r') && r'.Last() == Burst(base, key, now, n) && NoLaterThan(r'.events, now)
    && Times(LogOf(r'.events, r'.decisions), key) == times + Repeat(now, n)
  }

  /** One attempt of a burst. */
  lemma BurstOnce(limits: Limits, r: Run, r': Run, base: Buckets, key: Key, now: Time, n: nat, times: seq<Time>)
    requires limits.Valid() && |r.states| == |r.events| + 1
    requires Roomy(limits, base, key, now) && n < limits.attemptsPerWindow
    requires InBurst(limits, r, r', base, key, now, n, times)
    ensures InBurst(limits, r, r'.Extended(Attempt(key, now), Burst(base, key, now, n + 1), true), base, key, now, n + 1,
                    times)
  {
    BurstStep(limits, base, key, now, n);
    ContinueOnce(limits, r, r', Attempt(key, now), Burst(base, key, now, n + 1), true);
    LogGrows(LogOf(r'.events, r'.decisions), key, now, times, n);
    StillNoLater(r'.events, key, now);
  }

  /** After a run that left room for an identity, up to N attempts of it at the time of
      the last one are all admitted, without harm. */
  lemma {:induction false} BurstContinues(limits: Limits, r: Run, r1: Run, base: Buckets, key: Key, now: Time, n: nat,
                                          times: seq<Time>)
      returns (r': Run)
    requires limits.Valid() && |r.states| == |r.events| + 1
    requires Roomy(limits, base, key, now) && n <= limits.attemptsPerWindow
    requires InBurst(limits, r, r1, base, key, now, 0, times)
    ensures InBurst(limits, r, r', base, key, now, n, times)
  {
    if n == 0 {
      r' := r1;
    } else {
      var before := BurstContinues(limits, r, r1, base, key, now, n - 1, times);
      BurstOnce(limits, r, before, base, key, now, n - 1, times);
      r' := before.Extended(Attempt(key, now), Burst(base, key, now, n), true);
    }
  }

  /* A harmful call leaves room for its victim as soon as the caller is forgotten. */

  lemma {:induction false} RecentHas(limits: Limits, times: seq<Time>, now: Time, i: nat)
    requires i < |times| && !Expired(limits, now, times[i])
    ensures Recent(limits, times, now) >= 1
  {
    if i > 0 {
      RecentHas(limits, times[1..], now, i - 1);
    }
  }

  /** A call that drops a bucket before its time, seen from after the call. */
  lemma AfterHarm(limits: Limits, buckets: Buckets, key: Key, now: Time, after: Buckets, admitted: bool, victim: Key)
    requires limits.Valid() && Bounded(limits, after) && AdmitStep(limits, buckets, key, now, after, admitted)
    requires victim in buckets && victim !in after
    ensures key in after && key != victim && Roomy(limits, after - {key}, victim, now)
  {
    var kept :| MadeRoom(limits, buckets, key, now, kept) && Admitted(limits, kept, key, now, after, admitted);
    assert after.Keys == kept.Keys + {key};
    assert (after - {key}).Keys == after.Keys - {key};
    assert key !in buckets;
    forall k | k in after - {key}
      ensures !Expired(limits, now, (after - {key})[k].lastSeen)
    {
      assert k in kept && kept[k] == Retained(limits, buckets, now)[k];
    }
  }

  /** What the log still knows of the victim. */
  lemma VictimIsLogged(limits: Limits, buckets: Buckets, log: Log, last: map<Key, Time>, t: Time, victim: Key, now: Time)
    requires Related(buckets, log, last, t) && victim in buckets && !AllExpired(limits, buckets[victim].attempts, now)
    ensures Recent(limits, Times(log, victim), now) >= 1
  {
    var queue, times := buckets[victim].attempts, Times(log, victim);
    var i :| 0 <= i < |queue| && !Expired(limits, now, queue[i]);
    RecentHas(limits, times, now, |times| - |queue| + i);
  }

  lemma ForgettingContinues(limits: Limits, r: Run, key: Key)
    requires r.Valid(limits)
    ensures var r1 := r.Extended(Forgotten(key), r.Last() - {key}, true);
            && Continues(limits, r, r1) && r1.Last() == r.Last() - {key}
            && LogOf(r1.events, r1.decisions) == LogOf(r.events, r.decisions) - {key}
  {
    ContinueOnce(limits, r, r, Forgotten(key), r.Last() - {key}, true);
  }

  /** Forgetting the caller of the last call starts a burst of another identity. */
  lemma ForgettingStarts(limits: Limits, r: Run, key: Key, victim: Key, now: Time)
    requires r.Valid(limits) && r.events != [] && r.events[|r.events| - 1] == Attempt(key, now) && key != victim
    ensures InBurst(limits, r, r.Extended(Forgotten(key), r.Last() - {key}, true), r.Last() - {key}, victim, now, 0,
                    Times(LogOf(r.events, r.decisions), victim))
  {
    LastTimeIsGreatest(r.events);
    ForgettingContinues(limits, r, key);
    assert Repeat(now, 0) == [];
  }

  lemma LastTimeIsGreatest(events: seq<Event>)
    requires Chronological(events) && events != [] && events[|events| - 1].Attempt?
    ensures NoLaterThan(events, events[|events| - 1].now)
  {
  }

  lemma VictimStaysLogged(limits: Limits, events: seq<Event>, states: seq<Buckets>, decisions: seq<bool>, victim: Key)
    requires limits.Valid() && IsRun(limits, events, states, decisions) && Chronological(events)
    requires events != [] && events[|events| - 1].Attempt? && events[|events| - 1].key != victim
    requires victim in states[|events| - 1]
    requires !AllExpired(limits, states[|events| - 1][victim].attempts, events[|events| - 1].now)
    ensures Recent(limits, Times(LogOf(events, decisions), victim), events[|events| - 1].now) >= 1
  {
    var n := |events| - 1;
    NeverRejectsTooMuch(limits, events, states, decisions, n);
    PrefixesUnfold(events, decisions, n + 1);
    assert events[..n + 1] == events && decisions[..n + 1] == decisions;
    VictimIsLogged(limits, states[n], LogOf(events[..n], decisions[..n]), LastAttempts(events[..n]), TimeAt(events[..n]),
                   victim, events[n].now);
  }

  /** The oracle refuses the N-th of N attempts if the log knows of another one within
      the window; so it cannot have made the same decisions. */
  lemma OneTooMany(limits: Limits, events: seq<Event>, decisions: seq<bool>, key: Key, now: Time, times: seq<Time>)
    requires limits.Valid() && |events| == |decisions|
    requires Times(LogOf(events, decisions), key) == times + Repeat(now, limits.attemptsPerWindow - 1)
    requires Recent(limits, times, now) >= 1
    ensures decisions + [true] != OracleDecisions(limits, events + [Attempt(key, now)])
  {
    var burst := Repeat(now, limits.attemptsPerWindow - 1);
    RecentOfAppend(limits, times, burst, now);
    RecentAtMostAll(limits, burst, now);
    var all := events + [Attempt(key, now)];
    assert all[..|events|] == events;
    var oracle := OracleDecisions(limits, all);
    assert oracle == OracleDecisions(limits, events) +
                     [OracleAllows(limits, LogOf(events, OracleDecisions(limits, events)), Attempt(key, now))];
    if OracleDecisions(limits, events) == decisions {
      assert oracle[|events|] != true;
    } else {
      assert oracle[..|events|] != (decisions + [true])[..|events|];
    }
  }

  /** The last call of a run, before and after. */
  ghost predicate LastHarmless(limits: Limits, r: Run)
    requires |r.states| == |r.events| + 1 && r.events != []
  {
    Harmless(limits, r.states[|r.events| - 1], r.events[|r.events| - 1], r.states[|r.events|])
  }

  lemma DroppedTooEarly(limits: Limits, buckets: Buckets, event: Event, after: Buckets) returns (victim: Key)
    requires !Harmless(limits, buckets, event, after)
    ensures event.Attempt? && victim in buckets && victim !in after
    ensures !AllExpired(limits, buckets[victim].attempts, event.now)
  {
    victim :| victim in buckets && victim !in after && !AllExpired(limits, buckets[victim].attempts, event.now);
  }

  /** The victim of a harmful call, once its caller is forgotten: there is room for it,
      and the log knows of an attempt of it within the window. */
  lemma VictimOf(limits: Limits, r: Run, key: Key, now: Time) returns (victim: Key)
    requires limits.Valid() && r.Valid(limits) && r.events != [] && !LastHarmless(limits, r)
    requires r.events[|r.events| - 1] == Attempt(key, now)
    ensures key != victim && Roomy(limits, r.Last() - {key}, victim, now)
    ensures Recent(limits, Times(LogOf(r.events, r.decisions), victim), now) >= 1
  {
    var n := |r.events| - 1;
    victim := DroppedTooEarly(limits, r.states[n], r.events[n], r.states[n + 1]);
    assert Step(limits, r.states[n], r.events[n], r.states[n + 1], r.decisions[n]);
    AlwaysBounded(limits, r.events, r.states, r.decisions, n + 1);
    AfterHarm(limits, r.states[n], key, now, r.states[n + 1], r.decisions[n], victim);
    VictimStaysLogged(limits, r.events, r.states, r.decisions, victim);
  }

  /** After a harmful call there is a harmless continuation in which the limiter and
      the oracle part: the caller is forgotten, and the victim attempts N times. */
  lemma HarmIsFelt(limits: Limits, r: Run) returns (r': Run)
    requires limits.Valid() && r.Valid(limits) && r.events != [] && !LastHarmless(limits, r)
    ensures Continues(limits, r, r') && r'.decisions != OracleDecisions(limits, r'.events)
  {
    var caller := r.events[|r.events| - 1];
    var key, now := caller.key, caller.now;
    var victim := VictimOf(limits, r, key, now);
    var base, times := r.Last() - {key}, Times(LogOf(r.events, r.decisions), victim);
    ForgettingStarts(limits, r, key, victim, now);
    var r1 := r.Extended(Forgotten(key), base, true);
    var r2 := BurstContinues(limits, r, r1, base, victim, now, limits.attemptsPerWindow - 1, times);
    BurstOnce(limits, r, r2, base, victim, now, limits.attemptsPerWindow - 1, times);
    OneTooMany(limits, r2.events, r2.decisions, victim, now, times);
    r' := r2.Extended(Attempt(victim, now), Burst(base, victim, now, limits.attemptsPerWindow), true);
  }

  /** The exact condition: after harmless calls, a further call is harmless if and only
      if, however the run continues by harmless calls, every decision is the oracle's. */
  lemma HarmlessExactly(limits: Limits, r: Run)
    requires limits.Valid() && r.Valid(limits) && r.events != []
    requires forall i :: 0 <= i < |r.events| - 1 ==> Harmless(limits, r.states[i], r.events[i], r.states[i + 1])
    ensures LastHarmless(limits, r) <==>
            forall r' :: Continues(limits, r, r') ==> r'.decisions == OracleDecisions(limits, r'.events)
  {
    if LastHarmless(limits, r) {
      forall r' | Continues(limits, r, r')
        ensures r'.decisions == OracleDecisions(limits, r'.events)
      {
        ContinuationAgrees(limits, r, r');
      }
    } else {
      var r' := HarmIsFelt(limits, r);
    }
  }

  lemma ContinuationAgrees(limits: Limits, r: Run, r': Run)
    requires limits.Valid() && r.Valid(limits) && HarmlessFrom(limits, r.events, r.states, 0)
    requires Continues(limits, r, r')
    ensures r'.decisions == OracleDecisions(limits, r'.events)
  {
    forall i | 0 <= i < |r'.events|
      ensures Harmless(limits, r'.states[i], r'.events[i], r'.states[i + 1])
    {
      if i < |r.events| {
        assert r'.states[i] == r.states[i] && r'.states[i + 1] == r.states[i + 1] && r'.events[i] == r.events[i];
      }
    }
    RunsAgree(limits, r'.events, r'.states, r'.decisions, |r'.events|);
    assert r'.decisions[..|r'.events|] == r'.decisions && r'.events[..|r'.events|] == r'.events;
  }

  /* Every limiter can be crowded. */

  /** The map after the identities below `n` attempted once, at time zero. */
  function Crowd(n: nat): (buckets: Buckets)
    ensures |buckets| == n && forall k: Key :: k in buckets <==> k < n
    ensures forall k :: k in buckets ==> buckets[k] == Bucket([0], 0)
  {
    if n == 0 then map[] else Crowd(n - 1)[n - 1 := Bucket([0], 0)]
  }

  lemma CrowdIsLive(limits: Limits, n: nat)
    requires limits.Valid()
    ensures Retained(limits, Crowd(n), 0) == Crowd(n)
  {
  }

  /** A new identity, once there is room for it. */
  lemma NewcomerIsAdmitted(limits: Limits, n: nat, kept: Buckets)
    requires limits.Valid() && MadeRoom(limits, Crowd(n), n, 0, kept) && n !in kept
    ensures AdmitStep(limits, Crowd(n), n, 0, kept[n := Bucket([0], 0)], true)
  {
    assert Trimmed(limits, [], 0) + [0] == [0];
    assert Admitted(limits, kept, n, 0, kept[n := Bucket([0], 0)], true);
  }

  lemma AppendOnce(limits: Limits, r: Run, key: Key, after: Buckets)
    requires r.Valid(limits) && Step(limits, r.Last(), Attempt(key, 0), after, true) && NoLaterThan(r.events, 0)
    ensures r.Extended(Attempt(key, 0), after, true).Valid(limits)
    ensures NoLaterThan(r.events + [Attempt(key, 0)], 0)
  {
    ExtendRun(limits, r.events, r.states, r.decisions, Attempt(key, 0), after, true);
    ChronologyExtends(r.events, Attempt(key, 0));
  }

  lemma {:induction false} CrowdGathers(limits: Limits, n: nat) returns (r: Run)
    requires limits.Valid() && n <= limits.maximumBuckets
    ensures r.Valid(limits) && r.Last() == Crowd(n) && NoLaterThan(r.events, 0)
  {
    if n == 0 {
      r := Run([], [map[]], []);
    } else {
      var before := CrowdGathers(limits, n - 1);
      CrowdIsLive(limits, n - 1);
      NewcomerIsAdmitted(limits, n - 1, Crowd(n - 1));
      AppendOnce(limits, before, n - 1, Crowd(n));
      r := before.Extended(Attempt(n - 1, 0), Crowd(n), true);
    }
  }

  /** Whatever its limits, a limiter can be brought to decide otherwise than the log: as
      many identities attempt as there is room for, then one more, which is forgotten
      again, and the evicted one attempts N times. */
  lemma EveryLimiterCanBeCrowded(limits: Limits) returns (r: Run)
    requires limits.Valid()
    ensures r.Valid(limits) && r.decisions != OracleDecisions(limits, r.events)
  {
    var n := limits.maximumBuckets;
    var before := CrowdGathers(limits, n);
    var kept := Crowd(n) - {0};
    CrowdIsLive(limits, n);
    assert IsOldest(Crowd(n), 0);
    NewcomerIsAdmitted(limits, n, kept);
    var after := kept[n := Bucket([0], 0)];
    AppendOnce(limits, before, n, after);
    var harmful := before.Extended(Attempt(n, 0), after, true);
    assert 0 in Crowd(n) && 0 !in after;
    assert !AllExpired(limits, Crowd(n)[0].attempts, 0) by {
      assert !Expired(limits, 0, Crowd(n)[0].attempts[0]);
    }
    r := HarmIsFelt(limits, harmful);
  }
}
