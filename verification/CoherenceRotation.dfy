/** The mutex-serialized rotation loop: how often it turns, and when it publishes. */
module CoherenceRotation {
  import opened Common
  import opened CoherenceWord
  import opened CoherenceProtocol
  import opened CoherenceInvariant
  import opened CoherenceTheorems

  /** Every failed compare-exchange of a loop is paid for by a dirty mark made since
      the loop was entered, one more if its current ticket is already stale. */
  predicate LoopOpInv(cell: Cell, op: Op) {
    && (InLoop(op) ==> op.base + op.rounds <= cell.marks)
    && (HasTicket(op) && op.ticket != cell.word ==> op.base + op.rounds + 1 <= cell.marks)
  }

  ghost predicate LoopInv(s: State) {
    && (forall id :: id in s.tasks.ops && HoldsLock(s.tasks.ops[id]) ==> s.tasks.lock == Some(id))
    && (forall id :: id in s.tasks.ops ==> LoopOpInv(s.cell, s.tasks.ops[id]))
  }

  /** One task moves; the atomics do not. */
  lemma LoopTaskKeeps(s: State, tasks: Tasks, id: OpId)
    requires LoopInv(s)
    requires tasks.ops == (if id in tasks.ops then s.tasks.ops[id := tasks.ops[id]] else s.tasks.ops - {id})
    requires tasks.lock == s.tasks.lock || s.tasks.lock == None || s.tasks.lock == Some(id)
    requires id in tasks.ops ==> (HoldsLock(tasks.ops[id]) ==> tasks.lock == Some(id)) && LoopOpInv(s.cell, tasks.ops[id])
    ensures LoopInv(s.(tasks := tasks))
  {
  }

  lemma LoopMarkKeeps(s: State, id: OpId, op: Op)
    requires LoopInv(s) && IsMutation(op)
    ensures LoopInv(Go(Mark(s), id, op))
  {
  }

  /** The publisher leaves the loop, and nobody else is in it. */
  lemma LoopPublishKeeps(s: State, id: OpId)
    requires LoopInv(s) && id in s.tasks.ops && s.tasks.ops[id].RotationReplied?
    ensures LoopInv(Repaired(Publish(s), id, s.tasks.ops[id].goal))
  {
    var t := Repaired(Publish(s), id, s.tasks.ops[id].goal);
    forall other | other in t.tasks.ops && other != id
      ensures !HoldsLock(t.tasks.ops[other])
    {
      assert s.tasks.lock == Some(id);
    }
  }

  lemma LoopRotationKeeps(s: State, step: Step)
    requires LoopInv(s) && Enabled(s, step) && IsRotationStep(step)
    ensures LoopInv(ApplyRotation(s, step))
  {
    var id := step.id;
    var op, t := s.tasks.ops[id], ApplyRotation(s, step);
    assert LoopOpInv(s.cell, op);
    if step.TryPublish? && s.cell.word == op.ticket {
      LoopPublishKeeps(s, id);
    } else {
      LoopTaskKeeps(s, t.tasks, id);
    }
  }

  lemma LoopLandingKeeps(s: State, id: OpId, delivered: bool)
    requires LoopInv(s) && id in s.redis.wire
    ensures LoopInv(Landed(s, id, delivered))
  {
    var t := Landed(s, id, delivered);
    assert t.cell == s.cell;
    if id in s.tasks.ops {
      assert LoopOpInv(s.cell, s.tasks.ops[id]);
    }
    LoopTaskKeeps(s, t.tasks, id);
  }

  lemma LoopMoveKeeps(s: State, step: Step)
    requires LoopInv(s) && Enabled(s, step) && (IsMove(step) || IsSpawn(step))
    ensures LoopInv(Apply(s, step))
  {
    if step.id in s.tasks.ops {
      assert LoopOpInv(s.cell, s.tasks.ops[step.id]);
    }
    LoopTaskKeeps(s, Apply(s, step).tasks, step.id);
  }

  lemma LoopMutationKeeps(s: State, step: Step)
    requires LoopInv(s) && Enabled(s, step) && IsMutationStep(step)
    ensures LoopInv(ApplyMutation(s, step))
  {
    if IsMark(step) {
      LoopMarkKeeps(s, step.id, if step.MarkBegun? then MutationHeld else MutationMarked);
    }
  }

  lemma LoopOtherKeeps(s: State, step: Step)
    requires LoopInv(s) && Enabled(s, step)
    requires !IsRotationStep(step) && !step.Land? && !IsMutationStep(step) && !IsMove(step) && !IsSpawn(step)
    ensures LoopInv(Apply(s, step))
  {
  }

  lemma LoopPreserved(s: State, step: Step)
    requires LoopInv(s) && Enabled(s, step)
    ensures LoopInv(Apply(s, step))
  {
    if IsRotationStep(step) {
      LoopRotationKeeps(s, step);
    } else if step.Land? {
      LoopLandingKeeps(s, step.id, step.delivered);
    } else if IsMutationStep(step) {
      LoopMutationKeeps(s, step);
    } else if IsMove(step) || IsSpawn(step) {
      LoopMoveKeeps(s, step);
    } else {
      LoopOtherKeeps(s, step);
    }
  }

  lemma {:induction false} LoopThroughout(states: seq<State>, steps: seq<Step>, k: nat)
    requires IsRun(states, steps) && k < |states|
    ensures LoopInv(states[k])
  {
    if k > 0 {
      LoopThroughout(states, steps, k - 1);
      LoopPreserved(states[k - 1], steps[k - 1]);
    }
  }

  /* How often the loop sends a SET. */

  function Marks(steps: seq<Step>, i: nat, k: nat): nat
    requires i <= k <= |steps|
  {
    if i == k then 0 else Marks(steps, i, k - 1) + if IsMark(steps[k - 1]) then 1 else 0
  }

  function Sets(steps: seq<Step>, i: nat, k: nat, id: OpId): nat
    requires i <= k <= |steps|
  {
    if i == k then 0
    else Sets(steps, i, k - 1, id) + if steps[k - 1].SendRotation? && steps[k - 1].id == id then 1 else 0
  }

  predicate SetInFlight(op: Op) {
    op.RotationSent? || op.RotationReplied?
  }

  predicate PastLoop(op: Op) {
    op.LookupSafe? || op.LookupSent? || op.LookupReturned? || op.RenderPending? || op.Rendered? || op.StoreSent?
  }

  /** After `marks` invalidations and `sets` SETs since the loop was entered. */
  predicate Accounted(s: State, id: OpId, sets: nat, marks: nat) {
    && id in s.tasks.spawned
    && sets <= 1 + marks
    && (id in s.tasks.ops ==>
          var op := s.tasks.ops[id];
          || PastLoop(op)
          || (&& InLoop(op)
              && sets == op.rounds + (if SetInFlight(op) then 1 else 0)
              && op.base + marks == s.cell.marks))
  }

  lemma AccountedElsewhere(s: State, step: Step, id: OpId, sets: nat, marks: nat)
    requires LoopInv(s) && Enabled(s, step) && !Concerns(step, id) && Accounted(s, id, sets, marks)
    ensures Accounted(Apply(s, step), id, sets, marks + if IsMark(step) then 1 else 0)
  {
    OthersUntouched(s, step, id);
    MarksCounted(s, step);
  }

  lemma MarksCounted(s: State, step: Step)
    requires Enabled(s, step)
    ensures !step.Restart? ==> Apply(s, step).cell.marks == s.cell.marks + if IsMark(step) then 1 else 0
    ensures step.Restart? ==> Apply(s, step).tasks.ops == map[]
  {
  }

  lemma AccountedRotation(s: State, step: Step, id: OpId, sets: nat, marks: nat)
    requires LoopInv(s) && Enabled(s, step) && IsRotationStep(step) && step.id == id && Accounted(s, id, sets, marks)
    ensures Accounted(ApplyRotation(s, step), id, sets + (if step.SendRotation? then 1 else 0), marks)
  {
    assert LoopOpInv(s.cell, s.tasks.ops[id]);
  }

  lemma AccountedOther(s: State, step: Step, id: OpId, sets: nat, marks: nat)
    requires LoopInv(s) && Enabled(s, step) && Concerns(step, id) && !IsRotationStep(step)
    requires Accounted(s, id, sets, marks)
    ensures Accounted(Apply(s, step), id, sets, marks + if IsMark(step) then 1 else 0)
  {
  }

  lemma AccountedStep(s: State, step: Step, id: OpId, sets: nat, marks: nat)
    requires LoopInv(s) && Enabled(s, step) && Accounted(s, id, sets, marks)
    ensures Accounted(Apply(s, step), id,
                      sets + (if step.SendRotation? && step.id == id then 1 else 0),
                      marks + (if IsMark(step) then 1 else 0))
  {
    if !Concerns(step, id) {
      AccountedElsewhere(s, step, id, sets, marks);
    } else if IsRotationStep(step) {
      AccountedRotation(s, step, id, sets, marks);
    } else {
      AccountedOther(s, step, id, sets, marks);
    }
  }

  lemma {:induction false} AccountedThroughout(states: seq<State>, steps: seq<Step>, i: nat, k: nat, id: OpId)
    requires IsRun(states, steps) && NeverWraps(states) && i < k < |states| && steps[i] == CheckLocked(id)
    ensures Accounted(states[k], id, Sets(steps, i, k, id), Marks(steps, i, k))
  {
    if k == i + 1 {
      InvThroughout(states, steps, i);
    } else {
      AccountedThroughout(states, steps, i, k - 1, id);
      LoopThroughout(states, steps, k - 1);
      AccountedStep(states[k - 1], steps[k - 1], id, Sets(steps, i, k - 1, id), Marks(steps, i, k - 1));
    }
  }

  /** From the moment it holds the mutex, a rotation sends at most one SET more than
      there were invalidations meanwhile. */
  lemma RotationIsBounded(states: seq<State>, steps: seq<Step>, i: nat, k: nat, id: OpId)
    requires IsRun(states, steps) && NeverWraps(states) && i < k < |states| && steps[i] == CheckLocked(id)
    ensures Sets(steps, i, k, id) <= 1 + Marks(steps, i, k)
  {
    AccountedThroughout(states, steps, i, k, id);
  }

  /* When a publish succeeds. */

  lemma OnlyTheHolderPublishes(s: State, step: Step, id: OpId)
    requires LoopInv(s) && Enabled(s, step) && id in s.tasks.ops && HasTicket(s.tasks.ops[id])
    requires !step.Restart? && !IsMark(step) && step != TryPublish(id)
    ensures Apply(s, step).cell.word == s.cell.word
  {
  }

  /** Between reading its ticket and trying to publish, a rotation stays where it
      holds the ticket. */
  lemma {:induction false} TicketHeld(states: seq<State>, steps: seq<Step>, i: nat, m: nat, k: nat, id: OpId)
    requires IsRun(states, steps) && NeverWraps(states) && i < m <= k < |steps|
    requires steps[i] == LoadTicket(id) && steps[k] == TryPublish(id)
    requires forall n :: i < n < k ==> steps[n] != LoadTicket(id)
    ensures id in states[m].tasks.ops && HasTicket(states[m].tasks.ops[id])
    decreases k - m
  {
    if m < k {
      TicketHeld(states, steps, i, m + 1, k, id);
      InvThroughout(states, steps, m);
      SpawnedStays(states, steps, i, m, id);
      TicketComesFromTicket(states[m], steps[m], id);
    }
  }

  lemma {:induction false} SpawnedStays(states: seq<State>, steps: seq<Step>, i: nat, m: nat, id: OpId)
    requires IsRun(states, steps) && NeverWraps(states) && i <= m < |states| && id in states[i].tasks.ops
    ensures id in states[m].tasks.spawned
  {
    if m == i {
      InvThroughout(states, steps, i);
    } else {
      SpawnedStays(states, steps, i, m - 1, id);
      SpawnedGrows(states[m - 1], steps[m - 1]);
    }
  }

  lemma SpawnedGrows(s: State, step: Step)
    requires Enabled(s, step)
    ensures s.tasks.spawned <= Apply(s, step).tasks.spawned
  {
  }

  lemma TicketComesFromTicket(s: State, step: Step, id: OpId)
    requires Enabled(s, step) && step != LoadTicket(id) && id in s.tasks.spawned
    requires id in Apply(s, step).tasks.ops && HasTicket(Apply(s, step).tasks.ops[id])
    ensures id in s.tasks.ops && HasTicket(s.tasks.ops[id])
    ensures !step.Restart? && step != TryPublish(id)
  {
    if !Concerns(step, id) {
      OthersUntouched(s, step, id);
    }
  }

  lemma QuietStep(states: seq<State>, steps: seq<Step>, i: nat, m: nat, k: nat, id: OpId)
    requires IsRun(states, steps) && NeverWraps(states) && i < m < k < |steps|
    requires steps[i] == LoadTicket(id) && steps[k] == TryPublish(id) && !IsMark(steps[m])
    requires forall n :: i < n < k ==> steps[n] != LoadTicket(id)
    ensures states[m + 1].cell.word == states[m].cell.word
  {
    LoopThroughout(states, steps, m);
    TicketHeld(states, steps, i, m + 1, k, id);
    SpawnedStays(states, steps, i, m, id);
    TicketComesFromTicket(states[m], steps[m], id);
    OnlyTheHolderPublishes(states[m], steps[m], id);
  }

  /** While nothing is invalidated the word stays what the ticket says. */
  lemma {:induction false} QuietWordStands(states: seq<State>, steps: seq<Step>, i: nat, m: nat, k: nat, id: OpId)
    requires IsRun(states, steps) && NeverWraps(states) && i < m <= k < |steps|
    requires steps[i] == LoadTicket(id) && steps[k] == TryPublish(id)
    requires forall n :: i < n < k ==> steps[n] != LoadTicket(id)
    requires forall n :: i <= n < k ==> !IsMark(steps[n])
    ensures states[m].cell.word == states[i].cell.word
    decreases m
  {
    if m == i + 1 {
      WordUntouched(states[i], steps[i]);
    } else {
      QuietWordStands(states, steps, i, m - 1, k, id);
      QuietStep(states, steps, i, m - 1, k, id);
    }
  }

  lemma {:induction false} NoRestartWhileTicketed(states: seq<State>, steps: seq<Step>, i: nat, m: nat, k: nat, id: OpId)
    requires IsRun(states, steps) && NeverWraps(states) && i <= m < k < |steps|
    requires steps[i] == LoadTicket(id) && steps[k] == TryPublish(id)
    requires forall n :: i < n < k ==> steps[n] != LoadTicket(id)
    ensures !steps[m].Restart?
  {
    if i < m {
      TicketHeld(states, steps, i, m + 1, k, id);
      SpawnedStays(states, steps, i, m, id);
      TicketComesFromTicket(states[m], steps[m], id);
    }
  }

  /** No lost invalidation and no ABA: a publish makes the word clean exactly if
      nothing was invalidated since its ticket was read. */
  lemma PublishExactlyIfUndisturbed(states: seq<State>, steps: seq<Step>, i: nat, k: nat, id: OpId)
    requires IsRun(states, steps) && NeverWraps(states) && i < k < |steps|
    requires steps[i] == LoadTicket(id) && steps[k] == TryPublish(id)
    requires forall m :: i < m < k ==> steps[m] != LoadTicket(id)
    ensures states[k + 1].cell.word == states[k].cell.word + 1 <==> forall m :: i <= m < k ==> !IsMark(steps[m])
    ensures (exists m :: i <= m < k && IsMark(steps[m])) ==> states[k + 1].cell.word == states[k].cell.word
  {
    TicketThroughout(states, steps, i, k, id);
    InvThroughout(states, steps, k);
    assert NoWrap(states[k + 1]);
    PublishOutcome(states[k], id);
    if m :| i <= m < k && IsMark(steps[m]) {
      forall n | i <= n < k
        ensures !steps[n].Restart?
      {
        NoRestartWhileTicketed(states, steps, i, n, k, id);
      }
      MarksMoveTheWord(states, steps, i, m, k);
    } else {
      QuietWordStands(states, steps, i, k, k, id);
    }
  }
}
