/** The bounded, per-identity sliding-window limiter, against an unbounded log. */
module Admission {

  /** A 32-byte identity hash, read as a number. */
  type Key = nat
  type Time = nat

  datatype Limits = Limits(maximumBuckets: nat, attemptsPerWindow: nat, window: nat) {
    predicate Valid() {
      maximumBuckets > 0 && attemptsPerWindow > 0 && window > 0
    }
  }

  datatype Bucket = Bucket(attempts: seq<Time>, lastSeen: Time)
  type Buckets = map<Key, Bucket>

  /** `saturating_duration_since`. */
  function Elapsed(now: Time, past: Time): nat {
    if past <= now then now - past else 0
  }

  predicate Expired(limits: Limits, now: Time, past: Time) {
    Elapsed(now, past) >= limits.window
  }

  /* One call, as a relation: which of several oldest buckets goes is left open. */

  function Retained(limits: Limits, buckets: Buckets, now: Time): Buckets {
    map k | k in buckets && !Expired(limits, now, buckets[k].lastSeen) :: buckets[k]
  }

  predicate IsOldest(buckets: Buckets, victim: Key) {
    victim in buckets && forall k :: k in buckets ==> buckets[victim].lastSeen <= buckets[k].lastSeen
  }

  predicate MadeRoom(limits: Limits, buckets: Buckets, key: Key, now: Time, kept: Buckets) {
    if key in buckets then kept == buckets
    else
      var live := Retained(limits, buckets, now);
      if |live| < limits.maximumBuckets then kept == live
      else exists victim :: victim in live && IsOldest(live, victim) && kept == live - {victim}
  }

  /** Attempts that left the window leave the queue from the front. */
  function Trimmed(limits: Limits, attempts: seq<Time>, now: Time): seq<Time> {
    if attempts != [] && Expired(limits, now, attempts[0]) then Trimmed(limits, attempts[1..], now) else attempts
  }

  function Queue(buckets: Buckets, key: Key): seq<Time> {
    if key in buckets then buckets[key].attempts else []
  }

  predicate Admitted(limits: Limits, kept: Buckets, key: Key, now: Time, after: Buckets, admitted: bool) {
    var trimmed := Trimmed(limits, Queue(kept, key), now);
    && admitted == (|trimmed| < limits.attemptsPerWindow)
    && after == kept[key := Bucket(if admitted then trimmed + [now] else trimmed, now)]
  }

  ghost predicate AdmitStep(limits: Limits, buckets: Buckets, key: Key, now: Time, after: Buckets, admitted: bool) {
    exists kept :: MadeRoom(limits, buckets, key, now, kept) && Admitted(limits, kept, key, now, after, admitted)
  }

  class KeyedRateLimiter {
    var buckets: Buckets
    const limits: Limits

    constructor (maximumBuckets: nat, attemptsPerWindow: nat, window: nat)
      requires maximumBuckets > 0 && attemptsPerWindow > 0 && window > 0
      ensures buckets == map[] && limits == Limits(maximumBuckets, attemptsPerWindow, window) && limits.Valid()
    {
      buckets := map[];
      limits := Limits(maximumBuckets, attemptsPerWindow, window);
    }

    method Forget(key: Key)
      modifies this
      ensures buckets == old(buckets) - {key}
    {
      buckets := buckets - {key};
    }

    /** The bucket whose last attempt is the oldest. */
    method Oldest() returns (victim: Key)
      requires buckets != map[]
      ensures IsOldest(buckets, victim)
    {
      victim :| victim in buckets;
      var rest := buckets.Keys - {victim};
      while rest != {}
        invariant victim in buckets && rest <= buckets.Keys
        invariant forall k :: k in buckets && k !in rest ==> buckets[victim].lastSeen <= buckets[k].lastSeen
        decreases rest
      {
        var k :| k in rest;
        if buckets[k].lastSeen < buckets[victim].lastSeen {
          victim := k;
        }
        rest := rest - {k};
      }
    }

    method AdmitAt(key: Key, now: Time) returns (admitted: bool)
      requires limits.Valid()
      modifies this
      ensures AdmitStep(limits, old(buckets), key, now, buckets, admitted)
    {
      if key !in buckets {
        buckets := Retained(limits, buckets, now);
        if |buckets| >= limits.maximumBuckets {
          var victim := Oldest();
          buckets := buckets - {victim};
        }
      }
      ghost var kept := buckets;
      assert MadeRoom(limits, old(buckets), key, now, kept);

      var attempts := if key in buckets then buckets[key].attempts else [];
      while attempts != [] && Expired(limits, now, attempts[0])
        invariant Trimmed(limits, attempts, now) == Trimmed(limits, Queue(kept, key), now)
        decreases |attempts|
      {
        attempts := attempts[1..];
      }
      admitted := |attempts| < limits.attemptsPerWindow;
      if admitted {
        attempts := attempts + [now];
      }
      buckets := buckets[key := Bucket(attempts, now)];
    }
  }

  /* Runs. */

  datatype Event = Attempt(key: Key, now: Time) | Forgotten(key: Key)

  ghost predicate Step(limits: Limits, buckets: Buckets, event: Event, after: Buckets, admitted: bool) {
    match event
    case Attempt(key, now) => AdmitStep(limits, buckets, key, now, after, admitted)
    case Forgotten(key) => after == buckets - {key} && admitted
  }

  /** `states[i]` is the map before event i, `decisions[i]` its outcome. */
  ghost predicate IsRun(limits: Limits, events: seq<Event>, states: seq<Buckets>, decisions: seq<bool>) {
    && |states| == |events| + 1 && |decisions| == |events|
    && states[0] == map[]
    && forall i :: 0 <= i < |events| ==> Step(limits, states[i], events[i], states[i + 1], decisions[i])
  }

  /* Bounds, for arbitrary clocks. */

  ghost predicate Bounded(limits: Limits, buckets: Buckets) {
    && |buckets| <= limits.maximumBuckets
    && forall k :: k in buckets ==> |buckets[k].attempts| <= limits.attemptsPerWindow
  }

  lemma {:induction false} TrimmedIsSuffix(limits: Limits, attempts: seq<Time>, now: Time)
    ensures |Trimmed(limits, attempts, now)| <= |attempts|
    ensures var d := |attempts| - |Trimmed(limits, attempts, now)|;
            && Trimmed(limits, attempts, now) == attempts[d..]
            && (forall i :: 0 <= i < d ==> Expired(limits, now, attempts[i]))
            && (d < |attempts| ==> !Expired(limits, now, attempts[d]))
  {
    if attempts != [] && Expired(limits, now, attempts[0]) {
      TrimmedIsSuffix(limits, attempts[1..], now);
    }
  }

  lemma MadeRoomIsBounded(limits: Limits, buckets: Buckets, key: Key, now: Time, kept: Buckets)
    requires limits.Valid() && Bounded(limits, buckets) && MadeRoom(limits, buckets, key, now, kept)
    ensures |kept.Keys + {key}| <= limits.maximumBuckets
    ensures forall k :: k in kept ==> k in buckets && kept[k] == buckets[k]
  {
    if key in buckets {
      assert kept.Keys + {key} == kept.Keys;
    } else {
      var live := Retained(limits, buckets, now);
      assert live.Keys <= buckets.Keys;
      SubsetSize(live.Keys, buckets.Keys);
      if |live| >= limits.maximumBuckets {
        var victim :| victim in live && IsOldest(live, victim) && kept == live - {victim};
        assert kept.Keys == live.Keys - {victim};
      }
    }
  }

  lemma {:induction false} SubsetSize<T>(a: set<T>, b: set<T>)
    requires a <= b
    ensures |a| <= |b|
  {
    if x :| x in a {
      SubsetSize(a - {x}, b - {x});
    }
  }

  lemma AdmitIsBounded(limits: Limits, buckets: Buckets, key: Key, now: Time, after: Buckets, admitted: bool)
    requires limits.Valid() && Bounded(limits, buckets) && AdmitStep(limits, buckets, key, now, after, admitted)
    ensures Bounded(limits, after)
  {
    var kept :| MadeRoom(limits, buckets, key, now, kept) && Admitted(limits, kept, key, now, after, admitted);
    MadeRoomIsBounded(limits, buckets, key, now, kept);
    assert after.Keys == kept.Keys + {key};
    TrimmedIsSuffix(limits, Queue(kept, key), now);
  }

  lemma StepIsBounded(limits: Limits, buckets: Buckets, event: Event, after: Buckets, admitted: bool)
    requires limits.Valid() && Bounded(limits, buckets) && Step(limits, buckets, event, after, admitted)
    ensures Bounded(limits, after)
  {
    match event
    case Attempt(key, now) => AdmitIsBounded(limits, buckets, key, now, after, admitted);
    case Forgotten(key) =>
      assert after.Keys == buckets.Keys - {key};
      SubsetSize(after.Keys, buckets.Keys);
  }

  /** In every run, whatever the clock does, the map and the queues stay bounded. */
  lemma {:induction false} AlwaysBounded(
    limits: Limits, events: seq<Event>, states: seq<Buckets>, decisions: seq<bool>, k: nat)
    requires limits.Valid() && IsRun(limits, events, states, decisions) && k < |states|
    ensures Bounded(limits, states[k])
  {
    if k > 0 {
      AlwaysBounded(limits, events, states, decisions, k - 1);
      StepIsBounded(limits, states[k - 1], events[k - 1], states[k], decisions[k - 1]);
    }
  }

  /* The oracle: an unbounded log of admitted attempts for each identity. */

  type Log = map<Key, seq<Time>>

  function Times(log: Log, key: Key): seq<Time> {
    if key in log then log[key] else []
  }

  /** How many of the times lie within the window that ends now. An attempt counts for
      less than one window: one that is exactly a window old does not count any more. */
  function Recent(limits: Limits, times: seq<Time>, now: Time): nat {
    if times == [] then 0
    else Recent(limits, times[1..], now) + if times[0] + limits.window > now then 1 else 0
  }

  /** The window of the limiter, which takes differences of times, is that of the oracle. */
  lemma ExpiredExactly(limits: Limits, now: Time, past: Time)
    requires limits.Valid()
    ensures Expired(limits, now, past) <==> past + limits.window <= now
  {
  }

  /** The number is that of the positions that hold such a time. */
  lemma {:induction false} RecentIsCount(limits: Limits, times: seq<Time>, now: Time)
    ensures Recent(limits, times, now) == |set i: nat | i < |times| && times[i] + limits.window > now|
  {
    var all := set i: nat | i < |times| && times[i] + limits.window > now;
    if times == [] {
      assert all == {};
    } else {
      RecentIsCount(limits, times[1..], now);
      var rest := set i: nat | i < |times[1..]| && times[1..][i] + limits.window > now;
      var first: set<nat> := if times[0] + limits.window > now then {0} else {};
      MovedSize(rest);
      forall i: nat
        ensures i in all <==> i in first + Moved(rest)
      {
        if 0 < i < |times| {
          assert times[1..][i - 1] == times[i];
        }
      }
      assert all == first + Moved(rest);
      assert first !! Moved(rest);
    }
  }

  function Moved(s: set<nat>): set<nat> {
    set i | i in s :: i + 1
  }

  lemma {:induction false} MovedSize(s: set<nat>)
    ensures |Moved(s)| == |s|
    ensures forall i: nat :: i in Moved(s) <==> i > 0 && i - 1 in s
  {
    forall i: nat
      ensures i in Moved(s) <==> i > 0 && i - 1 in s
    {
      if i > 0 && i - 1 in s {
        assert (i - 1) + 1 in Moved(s);
      }
    }
    if x :| x in s {
      MovedSize(s - {x});
      assert Moved(s) == Moved(s - {x}) + {x + 1};
    }
  }

  function OracleAllows(limits: Limits, log: Log, event: Event): bool {
    event.Forgotten? || Recent(limits, Times(log, event.key), event.now) < limits.attemptsPerWindow
  }

  function Logged(log: Log, event: Event, admitted: bool): Log {
    match event
    case Attempt(key, now) => if admitted then log[key := Times(log, key) + [now]] else log
    case Forgotten(key) => log - {key}
  }

  /** The log a sequence of decisions leaves behind. */
  function LogOf(events: seq<Event>, decisions: seq<bool>): Log
    requires |events| == |decisions|
  {
    if events == [] then map[]
    else
      var n := |events| - 1;
      Logged(LogOf(events[..n], decisions[..n]), events[n], decisions[n])
  }

  predicate Chronological(events: seq<Event>) {
    forall i, j :: 0 <= i < j < |events| && events[i].Attempt? && events[j].Attempt? ==> events[i].now <= events[j].now
  }

  /** The last attempt of each identity that was not forgotten since. */
  function LastAttempts(events: seq<Event>): map<Key, Time> {
    if events == [] then map[]
    else
      Seen(LastAttempts(events[..|events| - 1]), events[|events| - 1])
  }

  function Seen(last: map<Key, Time>, event: Event): map<Key, Time> {
    match event
    case Attempt(key, now) => last[key := now]
    case Forgotten(key) => last - {key}
  }

  function AttemptedWithin(limits: Limits, last: map<Key, Time>, now: Time): set<Key> {
    set k | k in last && last[k] + limits.window > now
  }

  /** Every identity that was not seen within the window finds room: fewer than
      `maximumBuckets` identities were. A caller can decide this from the calls. */
  predicate Uncrowded(limits: Limits, events: seq<Event>) {
    forall i :: 0 <= i < |events| && events[i].Attempt? ==>
      var within := AttemptedWithin(limits, LastAttempts(events[..i]), events[i].now);
      events[i].key in within || |within| < limits.maximumBuckets
  }

  /* A queue is the log with some oldest part cut off. */

  predicate IsSuffix(a: seq<Time>, b: seq<Time>) {
    |a| <= |b| && forall i :: 0 <= i < |a| ==> a[i] == b[|b| - |a| + i]
  }

  predicate Ascending(times: seq<Time>, bound: Time) {
    && (forall i, j :: 0 <= i < j < |times| ==> times[i] <= times[j])
    && (forall i :: 0 <= i < |times| ==> times[i] <= bound)
  }

  lemma {:induction false} RecentOfAppend(limits: Limits, a: seq<Time>, b: seq<Time>, now: Time)
    ensures Recent(limits, a + b, now) == Recent(limits, a, now) + Recent(limits, b, now)
  {
    if a == [] {
      assert a + b == b;
    } else {
      RecentOfAppend(limits, a[1..], b, now);
      assert (a + b)[1..] == a[1..] + b;
    }
  }

  lemma {:induction false} RecentAtMostAll(limits: Limits, times: seq<Time>, now: Time)
    requires limits.Valid()
    ensures Recent(limits, times, now) <= |times|
    ensures (forall i :: 0 <= i < |times| ==> Expired(limits, now, times[i])) ==> Recent(limits, times, now) == 0
    ensures (forall i :: 0 <= i < |times| ==> !Expired(limits, now, times[i])) ==> Recent(limits, times, now) == |times|
  {
    if times != [] {
      RecentAtMostAll(limits, times[1..], now);
    }
  }

  /** On an ascending queue, trimming the front leaves exactly the recent attempts. */
  lemma {:induction false} TrimmingCountsRecent(limits: Limits, attempts: seq<Time>, now: Time)
    requires limits.Valid() && Ascending(attempts, now)
    ensures |Trimmed(limits, attempts, now)| == Recent(limits, attempts, now)
  {
    if attempts != [] {
      if Expired(limits, now, attempts[0]) {
        TrimmingCountsRecent(limits, attempts[1..], now);
      } else {
        RecentAtMostAll(limits, attempts, now);
      }
    }
  }

  predicate CutOf(bucket: Bucket, times: seq<Time>, lastSeen: Time) {
    bucket.lastSeen == lastSeen && IsSuffix(bucket.attempts, times)
  }

  ghost predicate LogInv(log: Log, last: map<Key, Time>) {
    forall k :: k in log ==> k in last && Ascending(log[k], last[k])
  }

  ghost predicate CutInv(buckets: Buckets, log: Log, last: map<Key, Time>) {
    forall k :: k in buckets ==> k in last && CutOf(buckets[k], Times(log, k), last[k])
  }

  /** The relation between the limiter and the log of its own decisions, at time `t`. */
  ghost predicate Related(buckets: Buckets, log: Log, last: map<Key, Time>, t: Time) {
    && LogInv(log, last)
    && (forall k :: k in last ==> last[k] <= t)
    && CutInv(buckets, log, last)
  }

  /** The part of the log that a queue no longer holds has left the window. */
  predicate CutExpired(limits: Limits, queue: seq<Time>, times: seq<Time>, t: Time) {
    forall i :: 0 <= i < |times| - |queue| ==> Expired(limits, t, times[i])
  }

  /** What was cut off, or dropped with a bucket, has left the window. */
  ghost predicate NothingLost(limits: Limits, buckets: Buckets, log: Log, t: Time) {
    forall k :: k in log ==> CutExpired(limits, Queue(buckets, k), log[k], t)
  }

  /** Every attempt in the queue has left the window. */
  predicate AllExpired(limits: Limits, queue: seq<Time>, now: Time) {
    forall i :: 0 <= i < |queue| ==> Expired(limits, now, queue[i])
  }

  /** A call is harmless if the buckets that it drops hold nothing within the window.
      The map before the call decides that, up to the choice between oldest buckets. */
  ghost predicate Harmless(limits: Limits, buckets: Buckets, event: Event, after: Buckets) {
    event.Attempt? ==>
      forall k :: k in buckets && k !in after ==> AllExpired(limits, buckets[k].attempts, event.now)
  }

  /** The calls from the `from`-th on are harmless. */
  ghost predicate HarmlessFrom(limits: Limits, events: seq<Event>, states: seq<Buckets>, from: nat)
    requires |states| == |events| + 1
  {
    forall i :: from <= i < |events| ==> Harmless(limits, states[i], events[i], states[i + 1])
  }

  function TimeAt(events: seq<Event>): Time {
    if events == [] then 0
    else if events[|events| - 1].Attempt? then events[|events| - 1].now
    else TimeAt(events[..|events| - 1])
  }

  lemma {:induction false} TimeIsAnAttempt(events: seq<Event>)
    ensures TimeAt(events) == 0 || exists i :: 0 <= i < |events| && events[i].Attempt? && events[i].now == TimeAt(events)
  {
    if events != [] {
      var before := events[..|events| - 1];
      TimeIsAnAttempt(before);
      if events[|events| - 1].Forgotten? && TimeAt(before) != 0 {
        var i :| 0 <= i < |before| && before[i].Attempt? && before[i].now == TimeAt(before);
        assert events[i] == before[i];
      }
    }
  }

  lemma TimeAdvances(events: seq<Event>)
    requires Chronological(events) && events != []
    ensures TimeAt(events[..|events| - 1]) <= TimeAt(events)
    ensures Chronological(events[..|events| - 1])
  {
    TimeIsAnAttempt(events[..|events| - 1]);
  }

  /** After room was made at `now`, what is kept is still a cut of the log. */
  lemma RelatedAfterRoom(
    limits: Limits, buckets: Buckets, log: Log, last: map<Key, Time>, t: Time, key: Key, now: Time, kept: Buckets)
    requires Related(buckets, log, last, t) && t <= now && MadeRoom(limits, buckets, key, now, kept)
    ensures Related(kept, log, last, now)
    ensures forall k :: k in kept ==> k in buckets && kept[k] == buckets[k]
  {
  }

  lemma SuffixesGrow(queue: seq<Time>, times: seq<Time>, d: nat, now: Time)
    requires IsSuffix(queue, times) && d <= |queue|
    ensures IsSuffix(queue[d..], times) && IsSuffix(queue[d..] + [now], times + [now])
  {
  }

  lemma AscendingAppend(times: seq<Time>, bound: Time, now: Time)
    requires Ascending(times, bound) && bound <= now
    ensures Ascending(times + [now], now) && Ascending(times, now)
  {
  }

  /** The bucket that was attempted is a cut of the new log entry. */
  lemma CutAfterAdmission(limits: Limits, kept: Buckets, times: seq<Time>, key: Key, now: Time,
                          after: Buckets, admitted: bool)
    requires Admitted(limits, kept, key, now, after, admitted) && IsSuffix(Queue(kept, key), times)
    ensures CutOf(after[key], if admitted then times + [now] else times, now)
  {
    var queue := Queue(kept, key);
    var trimmed := Trimmed(limits, queue, now);
    TrimmedIsSuffix(limits, queue, now);
    SuffixesGrow(queue, times, |queue| - |trimmed|, now);
    assert after[key] == Bucket(if admitted then trimmed + [now] else trimmed, now);
  }

  lemma LogAfterAdmission(log: Log, last: map<Key, Time>, key: Key, now: Time, admitted: bool)
    requires LogInv(log, last) && (key in last ==> last[key] <= now)
    ensures LogInv(Logged(log, Attempt(key, now), admitted), last[key := now])
  {
    if key in log {
      AscendingAppend(log[key], last[key], now);
    }
  }

  lemma CutsAfterAdmission(
    limits: Limits, kept: Buckets, log: Log, last: map<Key, Time>, key: Key, now: Time, after: Buckets, log': Log)
    requires CutInv(kept, log, last) && key in after && CutOf(after[key], Times(log', key), now)
    requires after == kept[key := after[key]]
    requires forall k :: k != key ==> Times(log', k) == Times(log, k)
    ensures CutInv(after, log', last[key := now])
  {
    forall k | k in after && k != key
      ensures k in last && CutOf(after[k], Times(log', k), last[k])
    {
      assert k in kept;
    }
  }

  lemma RelatedAfterAdmission(
    limits: Limits, kept: Buckets, log: Log, last: map<Key, Time>, key: Key, now: Time, after: Buckets, admitted: bool)
    requires Related(kept, log, last, now) && Admitted(limits, kept, key, now, after, admitted)
    ensures Related(after, Logged(log, Attempt(key, now), admitted), last[key := now], now)
  {
    LogAfterAdmission(log, last, key, now, admitted);
    CutAfterAdmission(limits, kept, Times(log, key), key, now, after, admitted);
    CutsAfterAdmission(limits, kept, log, last, key, now, after, Logged(log, Attempt(key, now), admitted));
  }

  /** Trimming a suffix of the log never finds more recent attempts than the log. */
  lemma RejectionIsJustified(limits: Limits, queue: seq<Time>, times: seq<Time>, now: Time)
    requires limits.Valid() && IsSuffix(queue, times) && Ascending(times, now)
    ensures |Trimmed(limits, queue, now)| == Recent(limits, queue, now) <= Recent(limits, times, now)
    ensures CutExpired(limits, queue, times, now) ==> Recent(limits, queue, now) == Recent(limits, times, now)
  {
    var cut := |times| - |queue|;
    TrimmingCountsRecent(limits, queue, now);
    assert times == times[..cut] + times[cut..] && times[cut..] == queue;
    RecentOfAppend(limits, times[..cut], queue, now);
    RecentAtMostAll(limits, times[..cut], now);
  }

  /** One attempt keeps the relation, and a refusal is one the log agrees with. */
  lemma RelatedAttempt(
    limits: Limits, buckets: Buckets, log: Log, last: map<Key, Time>, t: Time, key: Key, now: Time,
    after: Buckets, admitted: bool)
    requires limits.Valid() && Related(buckets, log, last, t) && t <= now
    requires AdmitStep(limits, buckets, key, now, after, admitted)
    ensures Related(after, Logged(log, Attempt(key, now), admitted), last[key := now], now)
    ensures OracleAllows(limits, log, Attempt(key, now)) ==> admitted
  {
    var kept :| MadeRoom(limits, buckets, key, now, kept) && Admitted(limits, kept, key, now, after, admitted);
    RelatedAfterRoom(limits, buckets, log, last, t, key, now, kept);
    RelatedAfterAdmission(limits, kept, log, last, key, now, after, admitted);
    if key in log {
      AscendingAppend(log[key], last[key], now);
    }
    RejectionIsJustified(limits, Queue(kept, key), Times(log, key), now);
  }

  lemma RelatedStep(
    limits: Limits, buckets: Buckets, log: Log, last: map<Key, Time>, t: Time, event: Event,
    after: Buckets, admitted: bool)
    requires limits.Valid() && Related(buckets, log, last, t) && Step(limits, buckets, event, after, admitted)
    requires event.Attempt? ==> t <= event.now
    ensures Related(after, Logged(log, event, admitted), Seen(last, event), if event.Attempt? then event.now else t)
    ensures OracleAllows(limits, log, event) ==> admitted
  {
    if event.Attempt? {
      RelatedAttempt(limits, buckets, log, last, t, event.key, event.now, after, admitted);
    }
  }

  lemma PrefixesUnfold(events: seq<Event>, decisions: seq<bool>, k: nat)
    requires |events| == |decisions| && 0 < k <= |events|
    ensures LogOf(events[..k], decisions[..k]) ==
            Logged(LogOf(events[..k - 1], decisions[..k - 1]), events[k - 1], decisions[k - 1])
    ensures LastAttempts(events[..k]) ==
            Seen(LastAttempts(events[..k - 1]), events[k - 1])
    ensures Chronological(events) ==> TimeAt(events[..k - 1]) <= TimeAt(events[..k])
    ensures TimeAt(events[..k]) == if events[k - 1].Attempt? then events[k - 1].now else TimeAt(events[..k - 1])
  {
    assert events[..k][..k - 1] == events[..k - 1] && decisions[..k][..k - 1] == decisions[..k - 1];
    if Chronological(events) {
      TimeAdvances(events[..k]);
    }
  }

  /** With chronological times the limiter's maps are always a cut of the log of its
      own decisions, crowded or not; so it never rejects an attempt that the log
      would allow. */
  lemma {:induction false} NeverRejectsTooMuch(
    limits: Limits, events: seq<Event>, states: seq<Buckets>, decisions: seq<bool>, k: nat)
    requires limits.Valid() && IsRun(limits, events, states, decisions) && Chronological(events) && k <= |events|
    ensures Related(states[k], LogOf(events[..k], decisions[..k]), LastAttempts(events[..k]), TimeAt(events[..k]))
    ensures k > 0 && OracleAllows(limits, LogOf(events[..k - 1], decisions[..k - 1]), events[k - 1]) ==> decisions[k - 1]
  {
    if k > 0 {
      NeverRejectsTooMuch(limits, events, states, decisions, k - 1);
      PrefixesUnfold(events, decisions, k);
      RelatedStep(limits, states[k - 1], LogOf(events[..k - 1], decisions[..k - 1]), LastAttempts(events[..k - 1]),
                  TimeAt(events[..k - 1]), events[k - 1], states[k], decisions[k - 1]);
    }
  }

  lemma CutStaysExpired(limits: Limits, queue: seq<Time>, times: seq<Time>, t: Time, now: Time)
    requires CutExpired(limits, queue, times, t) && t <= now && limits.Valid()
    ensures CutExpired(limits, queue, times, now)
  {
  }

  lemma LostStaysLost(limits: Limits, buckets: Buckets, log: Log, t: Time, now: Time)
    requires limits.Valid() && NothingLost(limits, buckets, log, t) && t <= now
    ensures NothingLost(limits, buckets, log, now)
  {
    forall k | k in log
      ensures CutExpired(limits, Queue(buckets, k), log[k], now)
    {
      CutStaysExpired(limits, Queue(buckets, k), log[k], t, now);
    }
  }

  /** A bucket may go if what its queue holds, and what the queue lacks, is expired. */
  lemma DroppedQueueExpired(limits: Limits, queue: seq<Time>, times: seq<Time>, now: Time)
    requires IsSuffix(queue, times) && CutExpired(limits, queue, times, now) && AllExpired(limits, queue, now)
    ensures CutExpired(limits, [], times, now)
  {
    var cut := |times| - |queue|;
    forall i | 0 <= i < |times|
      ensures Expired(limits, now, times[i])
    {
      if i >= cut {
        assert times[i] == queue[i - cut];
      }
    }
  }

  /** Making room loses nothing if what it drops is expired. */
  lemma NothingLostInRoom(
    limits: Limits, buckets: Buckets, log: Log, last: map<Key, Time>, t: Time, key: Key, now: Time, kept: Buckets)
    requires limits.Valid() && Related(buckets, log, last, t) && NothingLost(limits, buckets, log, t) && t <= now
    requires MadeRoom(limits, buckets, key, now, kept)
    requires forall k :: k in buckets && k !in kept ==> AllExpired(limits, buckets[k].attempts, now)
    ensures NothingLost(limits, kept, log, now)
  {
    LostStaysLost(limits, buckets, log, t, now);
    forall k | k in log
      ensures CutExpired(limits, Queue(kept, k), log[k], now)
    {
      assert CutExpired(limits, Queue(buckets, k), log[k], now);
      if k in buckets && k !in kept {
        DroppedQueueExpired(limits, buckets[k].attempts, log[k], now);
      }
    }
  }

  /** Everything the queue of `key` lacks has left the window. */
  lemma QueueIsComplete(limits: Limits, kept: Buckets, log: Log, last: map<Key, Time>, key: Key, now: Time)
    requires limits.Valid() && Related(kept, log, last, now) && NothingLost(limits, kept, log, now)
    ensures IsSuffix(Queue(kept, key), Times(log, key)) && Ascending(Times(log, key), now)
    ensures CutExpired(limits, Queue(kept, key), Times(log, key), now)
  {
    if key in log {
      AscendingAppend(log[key], last[key], now);
    }
  }

  /** Trimming and appending keep the cut expired. */
  lemma TrimmedCutExpired(limits: Limits, queue: seq<Time>, times: seq<Time>, now: Time)
    requires IsSuffix(queue, times) && CutExpired(limits, queue, times, now)
    ensures CutExpired(limits, Trimmed(limits, queue, now), times, now)
    ensures CutExpired(limits, Trimmed(limits, queue, now) + [now], times + [now], now)
  {
    TrimmedIsSuffix(limits, queue, now);
    var cut := |times| - |queue|;
    forall i | 0 <= i < |times| - |Trimmed(limits, queue, now)|
      ensures Expired(limits, now, times[i])
    {
      if i >= cut {
        assert times[i] == queue[i - cut];
      }
    }
  }

  lemma NothingLostInAdmission(
    limits: Limits, kept: Buckets, log: Log, last: map<Key, Time>, key: Key, now: Time, after: Buckets, admitted: bool)
    requires limits.Valid() && Related(kept, log, last, now) && NothingLost(limits, kept, log, now)
    requires Admitted(limits, kept, key, now, after, admitted)
    ensures NothingLost(limits, after, Logged(log, Attempt(key, now), admitted), now)
    ensures admitted == OracleAllows(limits, log, Attempt(key, now))
  {
    QueueIsComplete(limits, kept, log, last, key, now);
    RejectionIsJustified(limits, Queue(kept, key), Times(log, key), now);
    TrimmedCutExpired(limits, Queue(kept, key), Times(log, key), now);
    assert forall k :: k != key ==> Queue(after, k) == Queue(kept, k);
  }

  lemma NothingLostAttempt(
    limits: Limits, buckets: Buckets, log: Log, last: map<Key, Time>, t: Time, key: Key, now: Time,
    after: Buckets, admitted: bool)
    requires limits.Valid() && Related(buckets, log, last, t) && NothingLost(limits, buckets, log, t) && t <= now
    requires AdmitStep(limits, buckets, key, now, after, admitted)
    requires Harmless(limits, buckets, Attempt(key, now), after)
    ensures NothingLost(limits, after, Logged(log, Attempt(key, now), admitted), now)
    ensures admitted == OracleAllows(limits, log, Attempt(key, now))
  {
    var kept :| MadeRoom(limits, buckets, key, now, kept) && Admitted(limits, kept, key, now, after, admitted);
    assert after.Keys == kept.Keys + {key};
    RelatedAfterRoom(limits, buckets, log, last, t, key, now, kept);
    NothingLostInRoom(limits, buckets, log, last, t, key, now, kept);
    NothingLostInAdmission(limits, kept, log, last, key, now, after, admitted);
  }

  /** The bounded limiter is the unbounded oracle: while calls are harmless, every
      decision is "fewer than N admitted attempts of this identity in the last window",
      through forgetting as well. */
  lemma {:induction false} RefinesOracle(
    limits: Limits, events: seq<Event>, states: seq<Buckets>, decisions: seq<bool>, k: nat)
    requires limits.Valid() && IsRun(limits, events, states, decisions) && Chronological(events)
    requires HarmlessFrom(limits, events, states, 0) && k <= |events|
    ensures NothingLost(limits, states[k], LogOf(events[..k], decisions[..k]), TimeAt(events[..k]))
    ensures k > 0 ==> decisions[k - 1] == OracleAllows(limits, LogOf(events[..k - 1], decisions[..k - 1]), events[k - 1])
  {
    if k > 0 {
      RefinesOracle(limits, events, states, decisions, k - 1);
      NeverRejectsTooMuch(limits, events, states, decisions, k - 1);
      PrefixesUnfold(events, decisions, k);
      var event := events[k - 1];
      assert Step(limits, states[k - 1], event, states[k], decisions[k - 1]);
      if event.Attempt? {
        NothingLostAttempt(limits, states[k - 1], LogOf(events[..k - 1], decisions[..k - 1]), LastAttempts(events[..k - 1]),
                           TimeAt(events[..k - 1]), event.key, event.now, states[k], decisions[k - 1]);
      }
    }
  }

  /** One more call. */
  lemma ExtendRun(limits: Limits, events: seq<Event>, states: seq<Buckets>, decisions: seq<bool>,
                  event: Event, after: Buckets, admitted: bool)
    requires IsRun(limits, events, states, decisions) && Step(limits, states[|events|], event, after, admitted)
    ensures IsRun(limits, events + [event], states + [after], decisions + [admitted])
    ensures LogOf(events + [event], decisions + [admitted]) == Logged(LogOf(events, decisions), event, admitted)
  {
    assert (events + [event])[..|events|] == events && (decisions + [admitted])[..|decisions|] == decisions;
  }

  /** The decisions of the oracle on its own. */
  function OracleDecisions(limits: Limits, events: seq<Event>): (decisions: seq<bool>)
    ensures |decisions| == |events|
  {
    if events == [] then []
    else
      var n := |events| - 1;
      var before := OracleDecisions(limits, events[..n]);
      before + [OracleAllows(limits, LogOf(events[..n], before), events[n])]
  }

  lemma OracleUnfolds(limits: Limits, events: seq<Event>, k: nat)
    requires 0 < k <= |events|
    ensures var before := OracleDecisions(limits, events[..k - 1]);
            OracleDecisions(limits, events[..k]) ==
            before + [OracleAllows(limits, LogOf(events[..k - 1], before), events[k - 1])]
  {
    assert events[..k][..k - 1] == events[..k - 1];
  }

  lemma AgreesOnce(limits: Limits, events: seq<Event>, decisions: seq<bool>, k: nat)
    requires |events| == |decisions| && 0 < k <= |events|
    requires decisions[..k - 1] == OracleDecisions(limits, events[..k - 1])
    requires decisions[k - 1] == OracleAllows(limits, LogOf(events[..k - 1], decisions[..k - 1]), events[k - 1])
    ensures decisions[..k] == OracleDecisions(limits, events[..k])
  {
    OracleUnfolds(limits, events, k);
    assert decisions[..k] == decisions[..k - 1] + [decisions[k - 1]];
  }

  /** Whole runs agree: the bounded limiter answers as if it kept everything. */
  lemma {:induction false} RunsAgree(
    limits: Limits, events: seq<Event>, states: seq<Buckets>, decisions: seq<bool>, k: nat)
    requires limits.Valid() && IsRun(limits, events, states, decisions) && Chronological(events)
    requires HarmlessFrom(limits, events, states, 0) && k <= |events|
    ensures decisions[..k] == OracleDecisions(limits, events[..k])
  {
    if k > 0 {
      RunsAgree(limits, events, states, decisions, k - 1);
      RefinesOracle(limits, events, states, decisions, k);
      AgreesOnce(limits, events, decisions, k);
    }
  }

  /* Without a crowd every call is harmless. */

  /** Whoever attempted within the window still has a bucket. */
  ghost predicate Present(limits: Limits, buckets: Buckets, last: map<Key, Time>, t: Time) {
    forall k :: k in last && !Expired(limits, t, last[k]) ==> k in buckets
  }

  lemma RoomWithoutCrowd(
    limits: Limits, buckets: Buckets, log: Log, last: map<Key, Time>, t: Time, key: Key, now: Time, kept: Buckets)
    requires limits.Valid() && CutInv(buckets, log, last) && Present(limits, buckets, last, t) && t <= now
    requires MadeRoom(limits, buckets, key, now, kept)
    requires var within := AttemptedWithin(limits, last, now);
             key in within || |within| < limits.maximumBuckets
    ensures Present(limits, kept, last, now)
    ensures forall k :: k in buckets && k !in kept ==> Expired(limits, now, buckets[k].lastSeen)
  {
    if key !in buckets {
      var live := Retained(limits, buckets, now);
      assert live.Keys == AttemptedWithin(limits, last, now);
      assert kept == live;
    }
  }

  /** A bucket whose last attempt has left the window holds nothing within it. */
  lemma ExpiredWithItsLast(limits: Limits, bucket: Bucket, times: seq<Time>, last: Time, now: Time)
    requires CutOf(bucket, times, last) && Ascending(times, last) && Expired(limits, now, last) && limits.Valid()
    ensures AllExpired(limits, bucket.attempts, now)
  {
  }

  lemma {:induction false} UncrowdedIsHarmless(
    limits: Limits, events: seq<Event>, states: seq<Buckets>, decisions: seq<bool>, k: nat)
    requires limits.Valid() && IsRun(limits, events, states, decisions) && Chronological(events)
    requires Uncrowded(limits, events) && k <= |events|
    ensures Present(limits, states[k], LastAttempts(events[..k]), TimeAt(events[..k]))
    ensures k > 0 ==> Harmless(limits, states[k - 1], events[k - 1], states[k])
  {
    if k > 0 {
      UncrowdedIsHarmless(limits, events, states, decisions, k - 1);
      NeverRejectsTooMuch(limits, events, states, decisions, k - 1);
      PrefixesUnfold(events, decisions, k);
      var event := events[k - 1];
      assert Step(limits, states[k - 1], event, states[k], decisions[k - 1]);
      if event.Attempt? {
        UncrowdedAttempt(limits, states[k - 1], LogOf(events[..k - 1], decisions[..k - 1]), LastAttempts(events[..k - 1]),
                         TimeAt(events[..k - 1]), event.key, event.now, states[k], decisions[k - 1]);
      }
    }
  }

  lemma UncrowdedAttempt(
    limits: Limits, buckets: Buckets, log: Log, last: map<Key, Time>, t: Time, key: Key, now: Time,
    after: Buckets, admitted: bool)
    requires limits.Valid() && Related(buckets, log, last, t) && Present(limits, buckets, last, t) && t <= now
    requires AdmitStep(limits, buckets, key, now, after, admitted)
    requires var within := AttemptedWithin(limits, last, now);
             key in within || |within| < limits.maximumBuckets
    ensures Present(limits, after, last[key := now], now)
    ensures Harmless(limits, buckets, Attempt(key, now), after)
  {
    var kept :| MadeRoom(limits, buckets, key, now, kept) && Admitted(limits, kept, key, now, after, admitted);
    RoomWithoutCrowd(limits, buckets, log, last, t, key, now, kept);
    assert after.Keys == kept.Keys + {key};
    forall k | k in buckets && k !in after
      ensures AllExpired(limits, buckets[k].attempts, now)
    {
      ExpiredWithItsLast(limits, buckets[k], Times(log, k), last[k], now);
    }
  }

  /** If every newly seen identity finds fewer than the maximum of others within the
      window, the limiter is the oracle. */
  lemma {:induction false} UncrowdedRunsAgree(limits: Limits, events: seq<Event>, states: seq<Buckets>, decisions: seq<bool>)
    requires limits.Valid() && IsRun(limits, events, states, decisions) && Chronological(events)
    requires Uncrowded(limits, events)
    ensures decisions == OracleDecisions(limits, events)
  {
    forall i | 0 <= i < |events|
      ensures Harmless(limits, states[i], events[i], states[i + 1])
    {
      UncrowdedIsHarmless(limits, events, states, decisions, i + 1);
    }
    RunsAgree(limits, events, states, decisions, |events|);
    assert decisions[..|events|] == decisions && events[..|events|] == events;
  }

  lemma CrowdOracle(limits: Limits, e0: Event, e1: Event, e2: Event)
    requires limits == Limits(1, 1, 10)
    requires e0 == Attempt(7, 0) && e1 == Attempt(8, 1) && e2 == Attempt(7, 2)
    ensures OracleDecisions(limits, [e0, e1, e2]) == [true, true, false]
    ensures !Uncrowded(limits, [e0, e1, e2])
  {
    var events := [e0, e1, e2];
    assert events[..2] == [e0, e1] && [e0, e1][..1] == [e0] && [e0][..0] == [] && [true][..0] == [];
    assert OracleDecisions(limits, [e0]) == [true];
    assert LogOf([], []) == map[];
    assert LogOf([e0], [true]) == map[7 := [0]] by {
      assert Times(map[], 7) + [0] == [0];
    }
    assert OracleDecisions(limits, [e0, e1]) == [true, true];
    assert [true, true][..1] == [true];
    assert LogOf([e0, e1], [true, true]) == map[7 := [0], 8 := [1]] by {
      assert Times(map[7 := [0]], 8) + [1] == [1];
    }
    assert Recent(limits, [0], 2) == 1;
    assert events[..1] == [e0] && LastAttempts([e0]) == map[7 := 0];
    assert AttemptedWithin(limits, LastAttempts(events[..1]), events[1].now) == {7};
  }

  function Only(key: Key, now: Time): Buckets {
    map[key := Bucket([now], now)]
  }

  /** Admitting one identity into an empty map. */
  lemma AdmitIntoEmpty(limits: Limits, key: Key, now: Time)
    requires limits == Limits(1, 1, 10)
    ensures AdmitStep(limits, map[], key, now, Only(key, now), true)
  {
    assert Retained(limits, map[], now) == map[];
    assert MadeRoom(limits, map[], key, now, map[]);
    assert Trimmed(limits, [], now) + [now] == [now];
    assert Admitted(limits, map[], key, now, Only(key, now), true);
  }

  lemma Evicted(limits: Limits, other: Key, t: Time, key: Key, now: Time)
    requires limits == Limits(1, 1, 10) && key != other && t <= now < t + 10
    ensures MadeRoom(limits, Only(other, t), key, now, map[])
  {
    var buckets := Only(other, t);
    assert Retained(limits, buckets, now) == buckets;
    assert IsOldest(buckets, other) && buckets - {other} == map[];
  }

  /** Admitting one identity where there is room for one, and another one has it. */
  lemma AdmitByEviction(limits: Limits, other: Key, t: Time, key: Key, now: Time)
    requires limits == Limits(1, 1, 10) && key != other && t <= now < t + 10
    ensures AdmitStep(limits, Only(other, t), key, now, Only(key, now), true)
  {
    Evicted(limits, other, t, key, now);
    assert Trimmed(limits, [], now) + [now] == [now];
    assert Admitted(limits, map[], key, now, Only(key, now), true);
  }

  lemma CrowdRun(limits: Limits)
    requires limits == Limits(1, 1, 10)
    ensures IsRun(limits, [Attempt(7, 0), Attempt(8, 1), Attempt(7, 2)], [map[], Only(7, 0), Only(8, 1), Only(7, 2)],
                  [true, true, true])
  {
    AdmitIntoEmpty(limits, 7, 0);
    ExtendRun(limits, [], [map[]], [], Attempt(7, 0), Only(7, 0), true);
    AdmitByEviction(limits, 7, 0, 8, 1);
    ExtendRun(limits, [Attempt(7, 0)], [map[], Only(7, 0)], [true], Attempt(8, 1), Only(8, 1), true);
    AdmitByEviction(limits, 8, 1, 7, 2);
    ExtendRun(limits, [Attempt(7, 0), Attempt(8, 1)], [map[], Only(7, 0), Only(8, 1)], [true, true], Attempt(7, 2),
              Only(7, 2), true);
  }

  /** In a crowd the limiter can admit too much: with room for one identity, a second
      one evicts the first, whose next attempt the oracle refuses. */
  lemma CrowdAdmitsTooMuch() returns (limits: Limits, events: seq<Event>, states: seq<Buckets>)
    ensures limits.Valid() && Chronological(events) && !Uncrowded(limits, events)
    ensures IsRun(limits, events, states, [true, true, true])
    ensures OracleDecisions(limits, events) == [true, true, false]
  {
    limits := Limits(1, 1, 10);
    events := [Attempt(7, 0), Attempt(8, 1), Attempt(7, 2)];
    states := [map[], Only(7, 0), Only(8, 1), Only(7, 2)];
    CrowdRun(limits);
    CrowdOracle(limits, events[0], events[1], events[2]);
  }
}
