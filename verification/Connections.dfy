/** Connection leases and the reconnect breaker of the Redis client. */
module Connections {
  import opened Common

  const U32_MAX: nat := 0xFFFF_FFFF
  const GENERATIONS: nat := 0xFFFF_FFFF_FFFF_FFFF  // distinct non-zero 64-bit generations
  const BACKOFF_MIN: nat := 100                     // milliseconds
  const BACKOFF_MAX: nat := 2000

  type Connection = nat

  /** `wrapping_add(1).max(1)` on 64 bits. */
  function NextGeneration(generation: nat): nat {
    var next := (generation + 1) % 0x1_0000_0000_0000_0000;
    if next < 1 then 1 else next
  }

  /** The generation a slot carries after `installs` connections were installed. */
  function GenerationOf(installs: nat): nat {
    if installs == 0 then 0 else (installs - 1) % GENERATIONS + 1
  }

  lemma NextIsSuccessor(generation: nat)
    requires generation <= GENERATIONS
    ensures NextGeneration(generation) == if generation == GENERATIONS then 1 else generation + 1
  {
  }

  lemma RemainderIs(n: nat, q: nat, r: nat)
    requires n == q * GENERATIONS + r && r < GENERATIONS
    ensures n % GENERATIONS == r
  {
  }

  lemma InstallsCount(installs: nat)
    ensures NextGeneration(GenerationOf(installs)) == GenerationOf(installs + 1)
  {
    if installs > 0 {
      var q, r := (installs - 1) / GENERATIONS, (installs - 1) % GENERATIONS;
      NextIsSuccessor(r + 1);
      if r == GENERATIONS - 1 {
        RemainderIs(installs, q + 1, 0);
      } else {
        RemainderIs(installs, q, r + 1);
      }
    }
  }

  /** Two leases carry the same generation exactly when 2^64 - 1 installs, or a
      multiple, lie between them. */
  lemma GenerationsRepeatExactlyAtWrap(older: nat, newer: nat)
    requires 1 <= older <= newer
    ensures GenerationOf(older) == GenerationOf(newer) <==> (newer - older) % GENERATIONS == 0
    ensures newer - older < GENERATIONS ==> (GenerationOf(older) == GenerationOf(newer) <==> older == newer)
  {
    var a, b := older - 1, newer - 1;
    assert a == (a / GENERATIONS) * GENERATIONS + a % GENERATIONS;
    assert b == (b / GENERATIONS) * GENERATIONS + b % GENERATIONS;
    var q, r := b / GENERATIONS - a / GENERATIONS, b % GENERATIONS - a % GENERATIONS;
    assert newer - older == q * GENERATIONS + r;
    if r < 0 {
      assert newer - older == (q - 1) * GENERATIONS + (GENERATIONS + r);
    }
  }

  /* The breaker. */

  function Pow2(n: nat): nat {
    if n == 0 then 1 else 2 * Pow2(n - 1)
  }

  lemma {:induction false} Pow2Grows(m: nat, n: nat)
    requires m <= n
    ensures 1 <= Pow2(m) <= Pow2(n)
    decreases n
  {
    if m < n {
      Pow2Grows(m, n - 1);
    } else if m > 0 {
      Pow2Grows(m - 1, n - 1);
    }
  }

  /** The delay `record_failure` computes from the saturated 32-bit counter. */
  function Backoff(failures: nat): nat {
    var exponent := Min(if failures == 0 then 0 else failures - 1, 31);
    Min(BACKOFF_MIN * Pow2(exponent), BACKOFF_MAX)
  }

  lemma SmallPowers()
    ensures Pow2(5) == 32 && Pow2(31) <= U32_MAX
  {
    assert Pow2(5) == 32 by { assert Pow2(3) == 8; }
    assert Pow2(8) == 256 by { assert Pow2(6) == 64; }
    assert Pow2(16) == 65536 by { assert Pow2(10) == 1024; assert Pow2(13) == 8192; }
    assert Pow2(24) == 65536 * 256 by { assert Pow2(18) == 65536 * 4; assert Pow2(21) == 65536 * 32; }
    assert Pow2(31) == 65536 * 32768 by { assert Pow2(27) == 65536 * 2048; assert Pow2(29) == 65536 * 8192; }
  }

  /** The exponent never shifts a 32-bit one out, and clamping it changes nothing:
      the n-th consecutive failure waits min(100 * 2^(n-1), 2000) ms for every n. */
  lemma BackoffIsExact(n: nat)
    requires n >= 1
    ensures Backoff(Min(n, U32_MAX)) == Min(BACKOFF_MIN * Pow2(n - 1), BACKOFF_MAX)
    ensures Pow2(Min(Min(n, U32_MAX) - 1, 31)) <= U32_MAX
  {
    SmallPowers();
    Pow2Grows(Min(Min(n, U32_MAX) - 1, 31), 31);
    if n - 1 > 31 {
      Pow2Grows(5, n - 1);
      Pow2Grows(5, 31);
    }
  }

  /* One client: the manager slot and the breaker. */

  datatype Slot = Slot(manager: Option<Connection>, generation: nat)
  datatype Breaker = Breaker(failures: nat, retryNotBefore: Option<nat>)

  /** `owed` are the leases whose manager was dropped and whose failure the breaker has
      not counted yet: another request may come in between. */
  datatype Client = Client(slot: Slot, breaker: Breaker, owed: multiset<nat>)

  const FRESH: Client := Client(Slot(None, 0), Breaker(0, None), multiset{})

  function Failed(b: Breaker, now: nat): Breaker {
    var failures := Min(b.failures + 1, U32_MAX);
    Breaker(failures, Some(now + Backoff(failures)))
  }

  /** What can happen to a client. A command error comes in two steps: the lease's
      manager is dropped if it is still installed, and then the failure is counted. An
      event carries the install number of the lease; the program only sees that lease's
      generation. */
  datatype Event =
    | Opened(connection: Connection)
    | OpenFailed(now: nat)
    | CommandSucceeded
    | LeaseFailed(lease: nat)
    | Recorded(lease: nat, now: nat)

  predicate Drops(c: Client, event: Event) {
    event.LeaseFailed? && c.slot.generation == GenerationOf(event.lease) && c.slot.manager.Some?
  }

  predicate Counts(c: Client, event: Event) {
    event.OpenFailed? || (event.Recorded? && event.lease in c.owed)
  }

  function After(c: Client, event: Event): Client {
    match event
    case Opened(connection) => c.(slot := Slot(Some(connection), NextGeneration(c.slot.generation)))
    case OpenFailed(now) => c.(breaker := Failed(c.breaker, now))
    case CommandSucceeded => c.(breaker := Breaker(0, None))
    case LeaseFailed(lease) =>
      if Drops(c, event) then c.(slot := c.slot.(manager := None), owed := c.owed + multiset{lease}) else c
    case Recorded(lease, now) =>
      if Counts(c, event) then c.(breaker := Failed(c.breaker, now), owed := c.owed - multiset{lease}) else c
  }

  function AfterAll(c: Client, events: seq<Event>): Client {
    if events == [] then c else After(AfterAll(c, events[..|events| - 1]), events[|events| - 1])
  }

  /** Failures are only counted after a drop. */
  predicate Feasible(c: Client, events: seq<Event>) {
    forall i :: 0 <= i < |events| && events[i].Recorded? ==> events[i].lease in AfterAll(c, events[..i]).owed
  }

  class RedisClient {
    var slot: Slot
    var breaker: Breaker
    /** The reconnect gate: at most one request establishes a connection. */
    var attempting: bool
    ghost var owed: multiset<nat>

    ghost function Value(): Client
      reads this
    {
      Client(slot, breaker, owed)
    }

    constructor ()
      ensures Value() == FRESH && !attempting
    {
      slot := Slot(None, 0);
      breaker := Breaker(0, None);
      attempting := false;
      owed := multiset{};
    }

    predicate Open(now: nat)
      reads this`breaker
    {
      breaker.retryNotBefore.Some? && breaker.retryNotBefore.value > now
    }

    /** The breaker is looked at twice, because an attempt that was running may open it
        before it leaves the gate. `between` is what other requests do meanwhile to the
        slot and the breaker; `taken` says whether one of them holds the gate when this
        one tries it, whoever held it at first. */
    method BeginAttempt(now: nat, between: seq<Event>, taken: bool, later: nat) returns (admitted: bool)
      requires Feasible(Value(), between)
      modifies this
      ensures admitted <==> Due(old(breaker).retryNotBefore, now) && !taken && Due(breaker.retryNotBefore, later)
      ensures admitted ==> attempting
      ensures !admitted ==> attempting == if Due(old(breaker).retryNotBefore, now) then taken else old(attempting)
      ensures Value() == if Due(old(breaker).retryNotBefore, now) then AfterAll(old(Value()), between) else old(Value())
    {
      if Open(now) {
        return false;
      }
      PerformAll(between);
      attempting := taken;
      if attempting {
        return false;
      }
      attempting := true;
      if Open(later) {
        attempting := false;
        return false;
      }
      return true;
    }

    method EndAttempt()
      modifies this`attempting
      ensures !attempting
    {
      attempting := false;
    }

    method Install(connection: Connection) returns (generation: nat)
      modifies this`slot
      ensures Value() == After(old(Value()), Opened(connection))
      ensures generation == slot.generation >= 1
    {
      generation := NextGeneration(slot.generation);
      slot := Slot(Some(connection), generation);
    }

    method RecordFailure(now: nat)
      modifies this`breaker
      ensures breaker == Failed(old(breaker), now)
    {
      var failures := if breaker.failures < U32_MAX then breaker.failures + 1 else U32_MAX;
      var exponent := if failures - 1 < 31 then failures - 1 else 31;
      var delay := BACKOFF_MIN * Pow2(exponent);
      if delay > BACKOFF_MAX {
        delay := BACKOFF_MAX;
      }
      breaker := Breaker(failures, Some(now + delay));
    }

    method RecordSuccess()
      modifies this`breaker
      ensures Value() == After(old(Value()), CommandSucceeded)
    {
      breaker := Breaker(0, None);
    }

    /** Afterwards no manager of that generation is installed; a manager of another
        generation is untouched; the caller learns whether it was the one to drop it. */
    method DropManager(generation: nat) returns (dropped: bool)
      modifies this`slot
      ensures !(slot.generation == generation && slot.manager.Some?)
      ensures slot.generation == old(slot).generation
      ensures slot.generation != generation ==> slot == old(slot)
      ensures dropped <==> slot != old(slot)
    {
      dropped := slot.generation == generation && slot.manager.Some?;
      if dropped {
        slot := slot.(manager := None);
      }
    }

    /** The two steps of a command error, with what other requests do in between. */
    method HandleCommandError(ghost lease: nat, generation: nat, between: seq<Event>, now: nat)
      requires generation == GenerationOf(lease)
      requires Feasible(After(Value(), LeaseFailed(lease)), between)
      requires Drops(Value(), LeaseFailed(lease)) ==>
                 lease in AfterAll(After(Value(), LeaseFailed(lease)), between).owed
      modifies this
      ensures var dropped := Drops(old(Value()), LeaseFailed(lease));
              var middle := AfterAll(After(old(Value()), LeaseFailed(lease)), between);
              Value() == if dropped then After(middle, Recorded(lease, now)) else middle
    {
      ghost var before := Value();
      var dropped := DropManager(generation);
      if dropped {
        owed := owed + multiset{lease};
      }
      assert Value() == After(before, LeaseFailed(lease));
      PerformAll(between);
      if dropped {
        RecordFailure(now);
        owed := owed - multiset{lease};
      }
    }

    method Perform(event: Event)
      requires event.Recorded? ==> event.lease in owed
      modifies this`slot, this`breaker, this`owed
      ensures Value() == After(old(Value()), event)
    {
      match event
      case Opened(connection) =>
        var _ := Install(connection);
      case OpenFailed(now) =>
        RecordFailure(now);
      case CommandSucceeded =>
        RecordSuccess();
      case LeaseFailed(lease) =>
        var dropped := DropManager(GenerationOf(lease));
        if dropped {
          owed := owed + multiset{lease};
        }
      case Recorded(lease, now) =>
        RecordFailure(now);
        owed := owed - multiset{lease};
    }

    method PerformAll(events: seq<Event>)
      requires Feasible(Value(), events)
      modifies this`slot, this`breaker, this`owed
      ensures Value() == AfterAll(old(Value()), events)
    {
      for i := 0 to |events|
        invariant Value() == AfterAll(old(Value()), events[..i])
      {
        assert events[..i + 1][..i] == events[..i];
        Perform(events[i]);
      }
      assert events[..|events|] == events;
    }
  }

  /** The deadline has been reached, or there is none. */
  predicate Due(deadline: Option<nat>, now: nat) {
    deadline == None || deadline.value <= now
  }

  /* Runs. */

  function Run(events: seq<Event>): Client {
    AfterAll(FRESH, events)
  }

  function Installs(events: seq<Event>): nat {
    if events == [] then 0
    else Installs(events[..|events| - 1]) + if events[|events| - 1].Opened? then 1 else 0
  }

  lemma GenerationStep(c: Client, event: Event)
    ensures After(c, event).slot.generation ==
            if event.Opened? then NextGeneration(c.slot.generation) else c.slot.generation
    ensures After(c, event).slot.manager.Some? ==> event.Opened? || c.slot.manager.Some?
  {
  }

  lemma {:induction false} GenerationTracksInstalls(events: seq<Event>)
    ensures Run(events).slot.generation == GenerationOf(Installs(events))
    ensures Run(events).slot.manager.Some? ==> Installs(events) >= 1
  {
    if events != [] {
      var before := events[..|events| - 1];
      GenerationTracksInstalls(before);
      GenerationStep(Run(before), events[|events| - 1]);
      InstallsCount(Installs(before));
    }
  }

  lemma DropIsAChange(c: Client, lease: nat)
    ensures After(c, LeaseFailed(lease)) != c <==> Drops(c, LeaseFailed(lease))
  {
  }

  lemma SmallModulo(n: nat)
    requires 0 < n < GENERATIONS
    ensures n % GENERATIONS != 0
  {
  }

  lemma StaleLease(c: Client, installs: nat, lease: nat)
    requires 1 <= lease < installs && c.slot.generation == GenerationOf(installs)
    ensures After(c, LeaseFailed(lease)) != c <==> c.slot.manager.Some? && (installs - lease) % GENERATIONS == 0
    ensures installs - lease < GENERATIONS ==> After(c, LeaseFailed(lease)) == c
  {
    GenerationsRepeatExactlyAtWrap(lease, installs);
    DropIsAChange(c, lease);
    if installs - lease < GENERATIONS {
      SmallModulo(installs - lease);
    }
  }

  /** An error from an older lease removes a newer manager exactly when a multiple of
      2^64 - 1 installs lies between them; short of that it changes nothing at all. */
  lemma {:induction false} StaleErrorsAreHarmless(events: seq<Event>, lease: nat)
    requires 1 <= lease < Installs(events)
    ensures After(Run(events), LeaseFailed(lease)) != Run(events) <==>
            Run(events).slot.manager.Some? && (Installs(events) - lease) % GENERATIONS == 0
    ensures Installs(events) - lease < GENERATIONS ==> After(Run(events), LeaseFailed(lease)) == Run(events)
  {
    GenerationTracksInstalls(events);
    StaleLease(Run(events), Installs(events), lease);
  }

  /** How often the manager of one lease was dropped, and how many failures of it the
      breaker counted. */
  function Dropped(events: seq<Event>, lease: nat): nat {
    if events == [] then 0
    else
      var before, last := events[..|events| - 1], events[|events| - 1];
      Dropped(before, lease) + if Drops(Run(before), last) && last.lease == lease then 1 else 0
  }

  function Counted(events: seq<Event>, lease: nat): nat {
    if events == [] then 0
    else
      var before, last := events[..|events| - 1], events[|events| - 1];
      Counted(before, lease) + if last.Recorded? && Counts(Run(before), last) && last.lease == lease then 1 else 0
  }

  /** Every failure that is counted is one that was owed. */
  lemma {:induction false} CountedAreDropped(events: seq<Event>, lease: nat)
    ensures Counted(events, lease) + Run(events).owed[lease] == Dropped(events, lease)
  {
    if events != [] {
      CountedAreDropped(events[..|events| - 1], lease);
    }
  }

  lemma {:induction false} EachLeaseIsDroppedOnce(events: seq<Event>, lease: nat)
    requires lease >= 1 && Installs(events) <= GENERATIONS
    requires forall i :: 0 <= i < |events| && events[i].LeaseFailed? ==>
               1 <= events[i].lease <= Installs(events[..i])
    ensures Dropped(events, lease) <= 1
    ensures Dropped(events, lease) == 1 ==> Installs(events) > lease || Run(events).slot.manager == None
    ensures Dropped(events, lease) == 1 ==> Installs(events) >= lease
  {
    if events != [] {
      var before, last := events[..|events| - 1], events[|events| - 1];
      forall i | 0 <= i < |before| && before[i].LeaseFailed?
        ensures 1 <= before[i].lease <= Installs(before[..i])
      {
        assert before[..i] == events[..i] && before[i] == events[i];
      }
      EachLeaseIsDroppedOnce(before, lease);
      GenerationTracksInstalls(before);
      if last.LeaseFailed? {
        assert events[..|events| - 1] == before;
        GenerationsRepeatExactlyAtWrap(last.lease, Installs(before));
      }
    }
  }

  /** Each installed connection adds at most one command failure to the breaker, in
      every run of fewer than 2^64 installs, whatever other requests do between the drop
      and the count. */
  lemma EachLeaseFailsOnce(events: seq<Event>, lease: nat)
    requires lease >= 1 && Installs(events) <= GENERATIONS
    requires forall i :: 0 <= i < |events| && events[i].LeaseFailed? ==>
               1 <= events[i].lease <= Installs(events[..i])
    ensures Counted(events, lease) <= 1
    ensures Counted(events, lease) == 1 ==> Dropped(events, lease) == 1 && lease !in Run(events).owed
  {
    CountedAreDropped(events, lease);
    EachLeaseIsDroppedOnce(events, lease);
  }

  /** Failures since the last success. */
  function ConsecutiveFailures(events: seq<Event>): nat {
    if events == [] || events[|events| - 1].CommandSucceeded? then 0
    else
      var before, last := events[..|events| - 1], events[|events| - 1];
      ConsecutiveFailures(before) + if Counts(Run(before), last) then 1 else 0
  }

  lemma FailedExactly(b: Breaker, n: nat, now: nat)
    requires b.failures == Min(n, U32_MAX)
    ensures Failed(b, now) == Breaker(Min(n + 1, U32_MAX), Some(now + Min(BACKOFF_MIN * Pow2(n), BACKOFF_MAX)))
  {
    BackoffIsExact(n + 1);
  }

  lemma BreakerStep(c: Client, event: Event, n: nat)
    requires c.breaker.failures == Min(n, U32_MAX) && (n == 0 ==> c.breaker.retryNotBefore == None)
    ensures event.CommandSucceeded? ==> After(c, event).breaker == Breaker(0, None)
    ensures Counts(c, event) ==>
              After(c, event).breaker ==
              Breaker(Min(n + 1, U32_MAX), Some(event.now + Min(BACKOFF_MIN * Pow2(n), BACKOFF_MAX)))
    ensures !Counts(c, event) && !event.CommandSucceeded? ==> After(c, event).breaker == c.breaker
  {
    if Counts(c, event) {
      FailedExactly(c.breaker, n, event.now);
    }
  }

  /** The breaker's state is a function of the failures since the last success: with
      none it is closed; after the n-th, at time `now`, it stays open for
      min(100 * 2^(n-1), 2000) ms. */
  lemma {:induction false} BreakerFollowsFailures(events: seq<Event>)
    ensures Run(events).breaker.failures == Min(ConsecutiveFailures(events), 0xFFFF_FFFF)
    ensures ConsecutiveFailures(events) == 0 ==> Run(events).breaker.retryNotBefore == None
    ensures events != [] && Counts(Run(events[..|events| - 1]), events[|events| - 1]) ==>
              Run(events).breaker.retryNotBefore ==
              Some(events[|events| - 1].now + Min(BACKOFF_MIN * Pow2(ConsecutiveFailures(events) - 1), BACKOFF_MAX))
  {
    if events != [] {
      var before, last := events[..|events| - 1], events[|events| - 1];
      BreakerFollowsFailures(before);
      BreakerStep(Run(before), last, ConsecutiveFailures(before));
    }
  }

  /** The time of the latest failure that was counted. */
  function LatestFailure(events: seq<Event>): nat {
    if events == [] then 0
    else
      var before, last := events[..|events| - 1], events[|events| - 1];
      if Counts(Run(before), last) then last.now else LatestFailure(before)
  }

  /** The deadline after the n-th failure in a row, at a time. */
  function Deadline(n: nat, latest: nat): Option<nat> {
    if n == 0 then None else Some(latest + Min(BACKOFF_MIN * Pow2(n - 1), BACKOFF_MAX))
  }

  lemma DeadlineStep(c: Client, event: Event, n: nat, latest: nat)
    requires c.breaker.failures == Min(n, U32_MAX) && c.breaker.retryNotBefore == Deadline(n, latest)
    ensures After(c, event).breaker.retryNotBefore ==
            if event.CommandSucceeded? then None
            else if Counts(c, event) then Deadline(n + 1, event.now) else Deadline(n, latest)
  {
    BreakerStep(c, event, n);
  }

  lemma FailuresUnfold(events: seq<Event>)
    requires events != []
    ensures var before, last := events[..|events| - 1], events[|events| - 1];
            && Run(events) == After(Run(before), last)
            && ConsecutiveFailures(events) == (if last.CommandSucceeded? then 0
                                               else ConsecutiveFailures(before) + if Counts(Run(before), last) then 1 else 0)
            && LatestFailure(events) == if Counts(Run(before), last) then last.now else LatestFailure(before)
  {
  }

  /** Whatever came after the latest failure, unless it was a success: the deadline is
      the exact delay after that failure. */
  lemma {:induction false} DeadlineFollowsFailures(events: seq<Event>)
    ensures Run(events).breaker.retryNotBefore == Deadline(ConsecutiveFailures(events), LatestFailure(events))
  {
    if events != [] {
      var before, last := events[..|events| - 1], events[|events| - 1];
      DeadlineFollowsFailures(before);
      BreakerFollowsFailures(before);
      FailuresUnfold(events);
      DeadlineStep(Run(before), last, ConsecutiveFailures(before), LatestFailure(before));
    }
  }

  /** An attempt after any run, with a free gate and nothing in between: it starts if and
      only if there was no failure since the last success, or min(100 * 2^(n-1), 2000) ms
      have passed since the latest of n failures. */
  method AttemptAfter(client: RedisClient, events: seq<Event>, now: nat) returns (admitted: bool)
    requires client.Value() == Run(events)
    modifies client
    ensures var n := ConsecutiveFailures(events);
            admitted <==> n == 0 || now >= LatestFailure(events) + Min(100 * Pow2(n - 1), 2000)
    ensures client.Value() == Run(events)
  {
    DeadlineFollowsFailures(events);
    assert Feasible(client.Value(), []);
    admitted := client.BeginAttempt(now, [], false, now);
  }
}
