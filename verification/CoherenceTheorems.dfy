/** What the cache protocol guarantees over whole runs. */
module CoherenceTheorems {
  import opened Common
  import opened CoherenceWord
  import opened CoherenceProtocol
  import opened CoherenceInvariant

  predicate Concerns(step: Step, id: OpId) {
    !step.Restart? && !step.EvictEpoch? && !step.EvictEntry? && step.id == id
  }

  lemma OthersUntouched(s: State, step: Step, id: OpId)
    requires Enabled(s, step) && !Concerns(step, id)
    ensures s.tasks.spawned <= Apply(s, step).tasks.spawned
    ensures id in Apply(s, step).tasks.ops ==> id in s.tasks.ops && Apply(s, step).tasks.ops[id] == s.tasks.ops[id]
  {
  }

  /* Hits are linearizable. */

  predicate HasSince(op: Op) {
    || op.LookupChecked? || op.LookupSafe? || op.LookupSent? || op.LookupReturned?
    || (HasGoal(op) && op.goal.LookupGoal?)
  }

  function SinceOf(op: Op): nat
    requires HasSince(op)
  {
    if HasGoal(op) then op.goal.since else op.since
  }

  /** Lookup `id` is past its first check, made at version `v`, or gone for good. */
  predicate Remembers(s: State, id: OpId, v: nat) {
    && id in s.tasks.spawned
    && (id in s.tasks.ops ==> !s.tasks.ops[id].LookupIdle?)
    && (id in s.tasks.ops && HasSince(s.tasks.ops[id]) ==> SinceOf(s.tasks.ops[id]) == v)
  }

  lemma RemembersLanding(s: State, id: OpId, delivered: bool, v: nat)
    requires id in s.redis.wire && Remembers(s, id, v)
    ensures Remembers(Landed(s, id, delivered), id, v)
  {
  }

  lemma RemembersRotation(s: State, step: Step, id: OpId, v: nat)
    requires Enabled(s, step) && IsRotationStep(step) && step.id == id && Remembers(s, id, v)
    ensures Remembers(ApplyRotation(s, step), id, v)
  {
  }

  lemma RemembersMove(s: State, step: Step, id: OpId, v: nat)
    requires Enabled(s, step) && IsMove(step) && step.id == id && Remembers(s, id, v)
    ensures Remembers(Go(s, id, Moved(s, step)), id, v)
  {
  }

  lemma RemembersStep(s: State, step: Step, id: OpId, v: nat)
    requires Enabled(s, step) && Remembers(s, id, v)
    ensures Remembers(Apply(s, step), id, v)
  {
    if !Concerns(step, id) {
      OthersUntouched(s, step, id);
    } else if step.Land? {
      RemembersLanding(s, id, step.delivered, v);
    } else if IsRotationStep(step) {
      RemembersRotation(s, step, id, v);
    } else if IsMove(step) {
      RemembersMove(s, step, id, v);
    }
  }

  lemma {:induction false} RemembersThroughout(states: seq<State>, steps: seq<Step>, i: nat, k: nat, id: OpId)
    requires IsRun(states, steps) && NeverWraps(states) && i < k < |states| && steps[i] == CheckLookup(id)
    ensures Remembers(states[k], id, states[i].origin.version)
  {
    if k == i + 1 {
      InvThroughout(states, steps, i);
    } else {
      RemembersThroughout(states, steps, i, k - 1, id);
      RemembersStep(states[k - 1], steps[k - 1], id, states[i].origin.version);
    }
  }

  lemma {:induction false} VersionsAreContinuous(states: seq<State>, steps: seq<Step>, i: nat, k: nat, v: nat)
      returns (j: nat)
    requires IsRun(states, steps) && i <= k < |states|
    requires states[i].origin.version <= v <= states[k].origin.version
    ensures i <= j <= k && states[j].origin.version == v
    decreases k - i
  {
    if states[i].origin.version == v {
      j := i;
    } else {
      assert states[i + 1] == Apply(states[i], steps[i]);
      VersionMovesByOne(states[i], steps[i]);
      j := VersionsAreContinuous(states, steps, i + 1, k, v);
    }
  }

  lemma VersionMovesByOne(s: State, step: Step)
    requires Enabled(s, step)
    ensures s.origin.version <= Apply(s, step).origin.version <= s.origin.version + 1
  {
  }

  /** Whatever interleaves with it, a lookup that returns a value returns the
      origin's rendering of its own route at some instant between its first
      active-mutation check and its return. */
  lemma HitsAreLinearizable(states: seq<State>, steps: seq<Step>, i: nat, k: nat, id: OpId) returns (j: nat)
    requires IsRun(states, steps) && NeverWraps(states) && i < k < |states|
    requires steps[i] == CheckLookup(id)
    requires id in states[k].tasks.ops && states[k].tasks.ops[id].LookupReturned? && states[k].tasks.ops[id].hit.Some?
    ensures i <= j <= k
    ensures states[k].tasks.ops[id].hit.value.route == states[k].tasks.ops[id].route
    ensures states[k].tasks.ops[id].hit.value.version == states[j].origin.version
  {
    InvThroughout(states, steps, k);
    RemembersThroughout(states, steps, i, k, id);
    var op := states[k].tasks.ops[id];
    assert OpInv(states[k].origin, states[k].cell.word, states[k].redis, op);
    j := VersionsAreContinuous(states, steps, i, k, op.hit.value.version);
  }

  /* A clean word means nothing live predates a dropped guard. */

  lemma SettledStep(s: State, step: Step)
    requires Inv(s) && Enabled(s, step)
    ensures s.origin.settled <= Apply(s, step).origin.settled
  {
  }

  lemma {:induction false} SettledGrows(states: seq<State>, steps: seq<Step>, i: nat, k: nat)
    requires IsRun(states, steps) && NeverWraps(states) && i <= k < |states|
    ensures states[i].origin.settled <= states[k].origin.settled
  {
    if i < k {
      SettledGrows(states, steps, i, k - 1);
      InvThroughout(states, steps, k - 1);
      SettledStep(states[k - 1], steps[k - 1]);
    }
  }

  /** Every copy tagged with the live generation: in Redis, in a store on the
      wire, or rendered and about to be stored. */
  ghost predicate TaggedLive(s: State, value: Value) {
    s.redis.epoch.Some? &&
    var g := s.redis.epoch.value;
    || (exists route :: (g, route) in s.redis.entries && s.redis.entries[(g, route)] == value)
    || (exists id :: id in s.redis.wire && s.redis.wire[id].StoreScript? && s.redis.wire[id].expected == g
                     && s.redis.wire[id].value == value)
    || (exists id :: id in s.tasks.ops && s.tasks.ops[id].Rendered? && s.tasks.ops[id].epoch == g
                     && s.tasks.ops[id].value == value)
  }

  lemma TaggedCopiesAreYoung(s: State, value: Value)
    requires Inv(s) && TaggedLive(s, value)
    ensures s.redis.birth[s.redis.epoch.value] <= value.version
  {
    var g := s.redis.epoch.value;
    if route :| (g, route) in s.redis.entries && s.redis.entries[(g, route)] == value {
      assert GoodCopy(s.redis, s.origin.version, g, route, value);
    } else if id :| id in s.redis.wire && s.redis.wire[id].StoreScript? && s.redis.wire[id].expected == g
                    && s.redis.wire[id].value == value {
      assert GoodCopy(s.redis, s.origin.version, g, s.redis.wire[id].route, value);
    } else {
      var id :| id in s.tasks.ops && s.tasks.ops[id].Rendered? && s.tasks.ops[id].epoch == g
                && s.tasks.ops[id].value == value;
      assert OpInv(s.origin, s.cell.word, s.redis, s.tasks.ops[id]);
    }
  }

  /** Whenever the word is clean, every copy tagged with the live generation was
      rendered at or after the commits of every mutation whose guard was dropped:
      also when an in-flight repair published while a mutation was active. */
  lemma CleanMeansFresh(states: seq<State>, steps: seq<Step>, i: nat, k: nat, id: OpId, value: Value)
    requires IsRun(states, steps) && NeverWraps(states) && i < k < |states|
    requires steps[i] == MarkDropped(id)
    requires Clean(states[k].cell.word) && TaggedLive(states[k], value)
    ensures states[i].origin.version <= value.version
  {
    assert states[i + 1].origin.settled == states[i].origin.version;
    SettledGrows(states, steps, i + 1, k);
    InvThroughout(states, steps, k);
    TaggedCopiesAreYoung(states[k], value);
  }

  /* Abandoned generations stay abandoned. */

  predicate Abandoned(s: State, generation: Generation) {
    generation in s.redis.birth && s.redis.epoch != Some(generation)
  }

  lemma AbandonedStep(s: State, step: Step, generation: Generation)
    requires MintInv(s.redis, s.tasks.spawned) && Enabled(s, step) && Abandoned(s, generation)
    ensures Abandoned(Apply(s, step), generation)
  {
    if step.Land? && !s.redis.wire[step.id].StoreScript? {
      assert s.redis.wire[step.id].minted != generation;
    }
  }

  /** Eviction of the epoch key, a SET that lands after its caller saw an error, a
      lost reply or a restart never makes a replaced generation live again. */
  lemma {:induction false} AbandonedForever(
    states: seq<State>, steps: seq<Step>, i: nat, j: nat, k: nat, generation: Generation)
    requires IsRun(states, steps) && NeverWraps(states) && i <= j <= k < |states|
    requires states[i].redis.epoch == Some(generation) && states[j].redis.epoch != Some(generation)
    ensures Abandoned(states[k], generation)
    decreases k
  {
    if j < k {
      AbandonedForever(states, steps, i, j, k - 1, generation);
      InvThroughout(states, steps, k - 1);
      AbandonedStep(states[k - 1], steps[k - 1], generation);
    } else {
      InvThroughout(states, steps, i);
      BirthsRemain(states, steps, i, k, generation);
    }
  }

  /** Hence a store that carries a replaced epoch changes nothing, and no lookup is
      answered from it. */
  lemma ReplacedEpochIsInvisible(
    states: seq<State>, steps: seq<Step>, i: nat, j: nat, k: nat, generation: Generation, id: OpId, delivered: bool)
    requires IsRun(states, steps) && NeverWraps(states) && i <= j <= k < |steps|
    requires states[i].redis.epoch == Some(generation) && states[j].redis.epoch != Some(generation)
    requires steps[k] == Land(id, delivered)
    ensures states[k].redis.wire[id].StoreScript? && states[k].redis.wire[id].expected == generation ==>
              states[k + 1].redis.entries == states[k].redis.entries
    ensures id in states[k + 1].tasks.ops && states[k + 1].tasks.ops[id].LookupReturned?
            && states[k].redis.wire[id].LookupScript? && states[k].tasks.ops[id].LookupSent? ==>
              states[k + 1].tasks.ops[id].epoch != generation
  {
    AbandonedForever(states, steps, i, j, k, generation);
    InvThroughout(states, steps, k);
    LandingAvoids(states[k], id, delivered, generation);
  }

  lemma LandingAvoids(s: State, id: OpId, delivered: bool, generation: Generation)
    requires MintInv(s.redis, s.tasks.spawned) && id in s.redis.wire && Abandoned(s, generation)
    ensures s.redis.wire[id].StoreScript? && s.redis.wire[id].expected == generation ==>
              Landed(s, id, delivered).redis.entries == s.redis.entries
    ensures id in s.tasks.ops && s.tasks.ops[id].LookupSent? && s.redis.wire[id].LookupScript?
            && Landed(s, id, delivered).tasks.ops[id].LookupReturned? ==>
              Landed(s, id, delivered).tasks.ops[id].epoch != generation
  {
  }

  lemma {:induction false} BirthsRemain(states: seq<State>, steps: seq<Step>, i: nat, k: nat, generation: Generation)
    requires IsRun(states, steps) && i <= k < |states| && generation in states[i].redis.birth
    ensures generation in states[k].redis.birth
    decreases k
  {
    if i < k {
      BirthsRemain(states, steps, i, k - 1, generation);
      BirthStep(states, steps, k - 1, generation);
    }
  }

  lemma BirthStep(states: seq<State>, steps: seq<Step>, k: nat, generation: Generation)
    requires IsRun(states, steps) && k < |steps| && generation in states[k].redis.birth
    ensures generation in states[k + 1].redis.birth
  {
    assert Enabled(states[k], steps[k]) && states[k + 1] == Apply(states[k], steps[k]);
  }

  /* No lost invalidation, no ABA. */

  predicate IsMark(step: Step) {
    step.MarkBegun? || step.MarkDropped?
  }

  lemma WordStep(s: State, step: Step)
    requires WordInv(s) && Enabled(s, step) && NoWrap(Apply(s, step)) && !step.Restart?
    ensures s.cell.word <= Apply(s, step).cell.word
    ensures IsMark(step) ==> s.cell.word + 2 <= Apply(s, step).cell.word
    ensures s.cell.word != Apply(s, step).cell.word ==> IsMark(step) || step.TryPublish?
  {
    if IsMark(step) {
      MarkStep(s, step);
    } else if step.TryPublish? {
      PublishOutcome(s, step.id);
    } else {
      WordUntouched(s, step);
    }
  }

  lemma MarkStep(s: State, step: Step)
    requires WordInv(s) && Enabled(s, step) && IsMark(step) && NoWrap(Apply(s, step))
    ensures s.cell.word + 2 <= Apply(s, step).cell.word
  {
    assert Apply(s, step).cell == Mark(s).cell;
    TruncationCommutes(s.cell.unwrapped);
  }

  lemma WordUntouched(s: State, step: Step)
    requires Enabled(s, step) && !step.Restart? && !IsMark(step) && !step.TryPublish?
    ensures Apply(s, step).cell.word == s.cell.word
  {
  }

  lemma WordGrowsOnce(states: seq<State>, steps: seq<Step>, k: nat)
    requires IsRun(states, steps) && NeverWraps(states) && k + 1 < |states| && !steps[k].Restart?
    ensures states[k].cell.word <= states[k + 1].cell.word
    ensures IsMark(steps[k]) ==> states[k].cell.word < states[k + 1].cell.word
  {
    InvThroughout(states, steps, k);
    assert NoWrap(states[k + 1]);
    WordStep(states[k], steps[k]);
  }

  lemma {:induction false} WordGrows(states: seq<State>, steps: seq<Step>, i: nat, k: nat)
    requires IsRun(states, steps) && NeverWraps(states) && i <= k < |states|
    requires forall m :: i <= m < k ==> !steps[m].Restart?
    ensures states[i].cell.word <= states[k].cell.word
  {
    if i < k {
      WordGrows(states, steps, i, k - 1);
      WordGrowsOnce(states, steps, k - 1);
    }
  }

  /** Within one process the word strictly increases across every invalidation. */
  lemma MarksMoveTheWord(states: seq<State>, steps: seq<Step>, i: nat, m: nat, k: nat)
    requires IsRun(states, steps) && NeverWraps(states) && i <= m < k < |states|
    requires (forall n :: i <= n < k ==> !steps[n].Restart?) && IsMark(steps[m])
    ensures states[i].cell.word < states[k].cell.word
  {
    WordGrows(states, steps, i, m);
    WordGrowsOnce(states, steps, m);
    WordGrows(states, steps, m + 1, k);
  }

  /** Operation `id` rotates with the ticket it read as `ticket`, or is gone. */
  predicate KeepsTicket(s: State, id: OpId, ticket: Word) {
    && id in s.tasks.spawned
    && (id in s.tasks.ops && HasTicket(s.tasks.ops[id]) ==> s.tasks.ops[id].ticket == ticket)
  }

  lemma KeepsTicketStep(s: State, step: Step, id: OpId, ticket: Word)
    requires Enabled(s, step) && KeepsTicket(s, id, ticket) && step != LoadTicket(id)
    ensures KeepsTicket(Apply(s, step), id, ticket)
  {
    if !Concerns(step, id) {
      OthersUntouched(s, step, id);
    }
  }

  lemma {:induction false} TicketThroughout(states: seq<State>, steps: seq<Step>, i: nat, k: nat, id: OpId)
    requires IsRun(states, steps) && NeverWraps(states) && i < k < |states|
    requires steps[i] == LoadTicket(id) && (forall m :: i < m < k ==> steps[m] != LoadTicket(id))
    ensures KeepsTicket(states[k], id, states[i].cell.word)
  {
    if k == i + 1 {
      InvThroughout(states, steps, i);
    } else {
      TicketThroughout(states, steps, i, k - 1, id);
      KeepsTicketStep(states[k - 1], steps[k - 1], id, states[i].cell.word);
    }
  }

  lemma PublishOutcome(s: State, id: OpId)
    requires WordInv(s) && Enabled(s, TryPublish(id)) && NoWrap(Apply(s, TryPublish(id)))
    ensures Apply(s, TryPublish(id)).cell.word ==
            if s.cell.word == s.tasks.ops[id].ticket then s.cell.word + 1 else s.cell.word
  {
    TruncationCommutes(s.cell.unwrapped);
  }

  /** Runs of fewer than 2^62 steps cannot wrap the word. */
  lemma {:induction false} ShortRunsNeverWrap(states: seq<State>, steps: seq<Step>, k: nat)
    requires IsRun(states, steps) && k < |states|
    ensures states[k].cell.unwrapped <= 1 + 3 * k
    ensures 1 + 3 * k < WORD_LIMIT ==> NoWrap(states[k])
  {
    if k > 0 {
      ShortRunsNeverWrap(states, steps, k - 1);
      UnwrappedStep(states[k - 1], steps[k - 1]);
    }
  }

  lemma UnwrappedStep(s: State, step: Step)
    requires Enabled(s, step)
    ensures Apply(s, step).cell.unwrapped <= s.cell.unwrapped + 3 || step.Restart?
    ensures step.Restart? ==> Apply(s, step).cell.unwrapped == 1
  {
  }
}
