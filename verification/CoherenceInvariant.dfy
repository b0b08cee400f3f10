/** The inductive invariant of the cache protocol, in layers that each look at one
    part of the state, and one preservation lemma for each kind of effect. */
module CoherenceInvariant {
  import opened Common
  import opened CoherenceWord
  import opened CoherenceProtocol

  /** The live generation, if any, became live at or after version `v`. */
  predicate EpochSince(r: Redis, v: nat) {
    r.epoch.Some? ==> r.epoch.value in r.birth && v <= r.birth[r.epoch.value]
  }

  /** A copy tagged with a generation was rendered after that generation became
      live, and not in the future. */
  predicate GoodCopy(r: Redis, version: nat, generation: Generation, route: Route, value: Value) {
    && generation in r.birth
    && value.route == route
    && r.birth[generation] <= value.version <= version
  }

  /* Layer 1: the atomics. */

  ghost predicate WordInv(s: State) {
    && NoWrap(s)
    && s.cell.word == s.cell.unwrapped
    && s.origin.settled <= s.origin.version
  }

  function Mutations(ops: map<OpId, Op>): set<OpId> {
    set id | id in ops && IsMutation(ops[id])
  }

  /** Commits are announced: while some commit is newer than the last dirty mark, a
      guard is held, and the counter shows it. */
  ghost predicate CountInv(o: Origin, active: nat, tasks: Tasks) {
    && active == |Mutations(tasks.ops)|
    && (o.settled < o.version ==> exists id :: id in tasks.ops && tasks.ops[id].MutationHeld?)
    && tasks.ops.Keys <= tasks.spawned
  }

  /* Layer 2: Redis. */

  /** Generations are minted once: one on the wire has never been live, and no two
      commands on the wire carry the same one. */
  ghost predicate MintInv(r: Redis, spawned: set<OpId>) {
    && r.birth.Keys <= r.drawn
    && r.wire.Keys <= spawned
    && (forall id :: id in r.wire && !r.wire[id].StoreScript? ==>
          r.wire[id].minted in r.drawn && r.wire[id].minted !in r.birth)
    && (forall a, b :: a in r.wire && b in r.wire && a != b && !r.wire[a].StoreScript? && !r.wire[b].StoreScript? ==>
          r.wire[a].minted != r.wire[b].minted)
  }

  ghost predicate RedisInv(r: Redis, version: nat) {
    && (r.epoch.Some? ==> r.epoch.value in r.birth)
    && (forall g :: g in r.birth ==> r.birth[g] <= version)
    && (forall key :: key in r.entries ==> GoodCopy(r, version, key.0, key.1, r.entries[key]))
    && (forall id :: id in r.wire && r.wire[id].StoreScript? ==>
          GoodCopy(r, version, r.wire[id].expected, r.wire[id].route, r.wire[id].value))
  }

  /** A clean word means the live generation is younger than every dirty mark. */
  ghost predicate CleanInv(s: State) {
    Clean(s.cell.word) ==> EpochSince(s.redis, s.origin.settled)
  }

  /* Layer 3: program counters. */

  predicate HasGoal(op: Op) {
    op.RepairEntered? || op.RepairChecked? || op.Waiting? || HoldsLock(op)
  }

  predicate HasTicket(op: Op) {
    op.Ticketed? || op.RotationSent? || op.RotationReplied?
  }

  predicate OpInv(o: Origin, word: Word, r: Redis, op: Op) {
    && (op.LookupChecked? ==> op.since <= o.settled)
    && (op.LookupSafe? || op.LookupSent? ==> op.since <= o.version && EpochSince(r, op.since))
    && (op.LookupReturned? ==> op.epoch in r.birth)
    && (op.LookupReturned? && op.hit.Some? ==>
          op.hit.value.route == op.route && op.since <= op.hit.value.version <= o.version)
    && (HasGoal(op) && op.goal.LookupGoal? ==> op.goal.since <= o.settled)
    && (HasTicket(op) ==> !Clean(op.ticket) && op.ticket <= word)
    && (op.RotationReplied? && op.ticket == word ==> EpochSince(r, o.settled))
    && (op.RenderPending? ==> op.epoch in r.birth)
    && (op.Rendered? ==> GoodCopy(r, o.version, op.epoch, op.route, op.value))
  }

  /** An operation has a command on the wire only while it waits for the reply. */
  predicate Awaits(op: Op, command: Command) {
    || (op.LookupSent? && command.LookupScript? && command.route == op.route)
    || (op.RotationSent? && command.SetEpoch?)
    || (op.StoreSent? && command.StoreScript?)
  }

  ghost predicate WireInv(ops: map<OpId, Op>, wire: map<OpId, Command>) {
    forall id :: id in ops && id in wire ==> Awaits(ops[id], wire[id])
  }

  ghost predicate OpsInv(o: Origin, word: Word, r: Redis, ops: map<OpId, Op>) {
    forall id :: id in ops ==> OpInv(o, word, r, ops[id])
  }

  ghost predicate Inv(s: State) {
    && WordInv(s)
    && CountInv(s.origin, s.cell.active, s.tasks)
    && MintInv(s.redis, s.tasks.spawned)
    && RedisInv(s.redis, s.origin.version)
    && CleanInv(s)
    && WireInv(s.tasks.ops, s.redis.wire)
    && OpsInv(s.origin, s.cell.word, s.redis, s.tasks.ops)
  }

  /* What an operation that does not move may rely on across a step. */

  ghost predicate RedisProgress(o: Origin, r: Redis, r': Redis) {
    && (forall g :: g in r.birth ==> g in r'.birth && r'.birth[g] == r.birth[g])
    && (r'.epoch == r.epoch || r'.epoch == None
        || (r'.epoch.value in r'.birth && o.version <= r'.birth[r'.epoch.value]))
  }

  /** The relation every step except a restart satisfies. */
  ghost predicate Progress(o: Origin, word: Word, r: Redis, o': Origin, word': Word, r': Redis) {
    && o.version <= o'.version && o.settled <= o'.settled
    && word <= word'
    && (word == word' ==> o.settled == o'.settled)
    && o.settled <= o.version
    && RedisProgress(o, r, r')
  }

  lemma OpInvStable(o: Origin, word: Word, r: Redis, o': Origin, word': Word, r': Redis, op: Op)
    requires Progress(o, word, r, o', word', r') && OpInv(o, word, r, op)
    ensures OpInv(o', word', r', op)
  {
  }

  lemma OpsInvStable(o: Origin, word: Word, r: Redis, o': Origin, word': Word, r': Redis, ops: map<OpId, Op>)
    requires Progress(o, word, r, o', word', r') && OpsInv(o, word, r, ops)
    ensures OpsInv(o', word', r', ops)
  {
    forall id | id in ops
      ensures OpInv(o', word', r', ops[id])
    {
      OpInvStable(o, word, r, o', word', r', ops[id]);
    }
  }

  /* Mutations. */

  lemma HeldMeansActive(s: State, id: OpId)
    requires CountInv(s.origin, s.cell.active, s.tasks) && id in s.tasks.ops && IsMutation(s.tasks.ops[id])
    ensures s.cell.active > 0
  {
    assert id in Mutations(s.tasks.ops);
  }

  lemma QuietMeansSettled(s: State)
    requires WordInv(s) && CountInv(s.origin, s.cell.active, s.tasks) && s.cell.active == 0
    ensures s.origin.settled == s.origin.version
  {
    if s.origin.settled < s.origin.version {
      var id :| id in s.tasks.ops && s.tasks.ops[id].MutationHeld?;
      HeldMeansActive(s, id);
    }
  }

  lemma CardinalOfMove(before: set<OpId>, after: set<OpId>, id: OpId)
    requires after - {id} == before - {id}
    ensures |after| - |before| == (if id in after then 1 else 0) - (if id in before then 1 else 0)
  {
    assert before == if id in before then (before - {id}) + {id} else before - {id};
    assert after == if id in after then (after - {id}) + {id} else after - {id};
  }

  /** Moving or removing one operation, counted. */
  lemma CountMoves(o: Origin, active: nat, tasks: Tasks, active': nat, tasks': Tasks, id: OpId)
    requires CountInv(o, active, tasks)
    requires tasks'.ops == (if id in tasks'.ops then tasks.ops[id := tasks'.ops[id]] else tasks.ops - {id})
    requires tasks.spawned <= tasks'.spawned && (id in tasks'.ops ==> id in tasks'.spawned)
    requires active' - active == (if id in tasks'.ops && IsMutation(tasks'.ops[id]) then 1 else 0)
                               - (if id in tasks.ops && IsMutation(tasks.ops[id]) then 1 else 0)
    requires id in tasks.ops && tasks.ops[id].MutationHeld? ==> o.settled == o.version
    ensures CountInv(o, active', tasks')
  {
    CardinalOfMove(Mutations(tasks.ops), Mutations(tasks'.ops), id);
    if o.settled < o.version {
      var held :| held in tasks.ops && tasks.ops[held].MutationHeld?;
      assert held in tasks'.ops && tasks'.ops[held].MutationHeld?;
    }
  }

  lemma EnterKeeps(s: State, id: OpId)
    requires Inv(s) && id !in s.tasks.spawned
    ensures Inv(Enter(s, id))
  {
    var t := Enter(s, id);
    CountMoves(s.origin, s.cell.active, s.tasks, t.cell.active, t.tasks, id);
  }

  lemma MarkProgresses(s: State)
    requires WordInv(s) && NoWrap(Mark(s))
    ensures WordInv(Mark(s)) && !Clean(Mark(s).cell.word)
    ensures Progress(s.origin, s.cell.word, s.redis, Mark(s).origin, Mark(s).cell.word, s.redis)
    ensures Mark(s).cell.word >= s.cell.word + 2
  {
    TruncationCommutes(s.cell.unwrapped);
  }

  lemma MarkKeeps(s: State, id: OpId, op: Op)
    requires Inv(s) && id in s.tasks.ops && IsMutation(s.tasks.ops[id]) && (op.MutationHeld? || op.MutationMarked?)
    requires NoWrap(Mark(s))
    ensures Inv(Go(Mark(s), id, op))
  {
    MarkProgresses(s);
    var t := Go(Mark(s), id, op);
    CountMoves(t.origin, s.cell.active, s.tasks, t.cell.active, t.tasks, id);
    OpsInvStable(s.origin, s.cell.word, s.redis, t.origin, t.cell.word, t.redis, s.tasks.ops);
  }

  lemma CommitKeeps(s: State, id: OpId)
    requires Inv(s) && id in s.tasks.ops && s.tasks.ops[id].MutationHeld?
    ensures Inv(Committed(s))
  {
    OpsInvStable(s.origin, s.cell.word, s.redis, Committed(s).origin, s.cell.word, s.redis, s.tasks.ops);
  }

  lemma LeaveMutationKeeps(s: State, id: OpId)
    requires Inv(s) && id in s.tasks.ops && s.tasks.ops[id].MutationMarked? && s.cell.active > 0
    ensures Inv(LeaveMutationOf(s, id))
  {
    var t := LeaveMutationOf(s, id);
    CountMoves(s.origin, s.cell.active, s.tasks, t.cell.active, t.tasks, id);
  }

  /* Tasks that are not mutations. */

  /** Only the non-mutation task `id` moves or leaves; the mutex may change hands. */
  lemma TaskKeeps(s: State, tasks: Tasks, id: OpId)
    requires Inv(s)
    requires tasks.ops == (if id in tasks.ops then s.tasks.ops[id := tasks.ops[id]] else s.tasks.ops - {id})
    requires s.tasks.spawned <= tasks.spawned && (id in tasks.ops ==> id in tasks.spawned)
    requires id in s.tasks.ops ==> !IsMutation(s.tasks.ops[id])
    requires id in tasks.ops ==>
               !IsMutation(tasks.ops[id]) && OpInv(s.origin, s.cell.word, s.redis, tasks.ops[id])
    requires id in tasks.ops && id in s.redis.wire ==> Awaits(tasks.ops[id], s.redis.wire[id])
    ensures Inv(s.(tasks := tasks))
  {
    CountMoves(s.origin, s.cell.active, s.tasks, s.cell.active, tasks, id);
  }

  lemma GoKeeps(s: State, id: OpId, op: Op)
    requires Inv(s) && id in s.tasks.ops && id !in s.redis.wire
    requires !IsMutation(s.tasks.ops[id]) && !IsMutation(op) && OpInv(s.origin, s.cell.word, s.redis, op)
    ensures Inv(Go(s, id, op))
  {
    TaskKeeps(s, Go(s, id, op).tasks, id);
  }

  lemma LeaveKeeps(s: State, id: OpId)
    requires Inv(s) && id in s.tasks.ops && !IsMutation(s.tasks.ops[id])
    ensures Inv(Leave(s, id))
  {
    TaskKeeps(s, Leave(s, id).tasks, id);
  }

  lemma MoveKeeps(s: State, step: Step)
    requires Inv(s) && Enabled(s, step) && IsMove(step)
    ensures Inv(Apply(s, step))
  {
    assert OpInv(s.origin, s.cell.word, s.redis, s.tasks.ops[step.id]);
    if s.cell.active == 0 {
      QuietMeansSettled(s);
    }
    GoKeeps(s, step.id, Moved(s, step));
  }

  lemma SpawnKeeps(s: State, step: Step)
    requires Inv(s) && Enabled(s, step) && IsSpawn(step)
    ensures Inv(Apply(s, step))
  {
    TaskKeeps(s, Apply(s, step).tasks, step.id);
  }

  /** A repair that found the word clean lets its lookup read. */
  lemma RepairedKeeps(s: State, id: OpId)
    requires Inv(s) && id in s.tasks.ops && id !in s.redis.wire && HasGoal(s.tasks.ops[id]) && Clean(s.cell.word)
    ensures Inv(Repaired(s, id, s.tasks.ops[id].goal))
  {
    assert OpInv(s.origin, s.cell.word, s.redis, s.tasks.ops[id]);
    TaskKeeps(s, Repaired(s, id, s.tasks.ops[id].goal).tasks, id);
  }

  /** A publish succeeds only on the word its ticket was read from, and then the
      live generation is younger than every mark. */
  lemma PublishKeeps(s: State, id: OpId)
    requires Inv(s) && id in s.tasks.ops && s.tasks.ops[id].RotationReplied?
    requires s.cell.word == s.tasks.ops[id].ticket && NoWrap(Publish(s))
    ensures Inv(Publish(s)) && Clean(Publish(s).cell.word)
  {
    var t := Publish(s);
    TruncationCommutes(s.cell.unwrapped);
    assert OpInv(s.origin, s.cell.word, s.redis, s.tasks.ops[id]);
    OpsInvStable(s.origin, s.cell.word, s.redis, t.origin, t.cell.word, t.redis, s.tasks.ops);
  }

  lemma TryPublishKeeps(s: State, id: OpId)
    requires Inv(s) && Enabled(s, TryPublish(id)) && NoWrap(Apply(s, TryPublish(id)))
    ensures Inv(Apply(s, TryPublish(id)))
  {
    var op := s.tasks.ops[id];
    assert OpInv(s.origin, s.cell.word, s.redis, op);
    if s.cell.word == op.ticket {
      PublishKeeps(s, id);
      RepairedKeeps(Publish(s), id);
    } else {
      GoKeeps(s, id, LoopTop(op.goal, op.base, op.rounds + 1));
    }
  }

  lemma AcquireKeeps(s: State, id: OpId)
    requires Inv(s) && Enabled(s, AcquireLock(id))
    ensures Inv(Apply(s, AcquireLock(id)))
  {
    assert OpInv(s.origin, s.cell.word, s.redis, s.tasks.ops[id]);
    TaskKeeps(s, Apply(s, AcquireLock(id)).tasks, id);
  }

  lemma WordReadKeeps(s: State, step: Step)
    requires Inv(s) && Enabled(s, step) && (step.RecheckWord? || step.LoadTicket?)
    ensures Inv(Apply(s, step))
  {
    var op := s.tasks.ops[step.id];
    assert OpInv(s.origin, s.cell.word, s.redis, op);
    if Clean(s.cell.word) {
      RepairedKeeps(s, step.id);
    } else {
      GoKeeps(s, step.id, if step.LoadTicket? then Ticketed(op.goal, op.base, op.rounds, s.cell.word)
                          else Waiting(op.goal));
    }
  }

  /* Commands. */

  lemma SendKeeps(s: State, id: OpId, op: Op, command: Command, r: Redis)
    requires Inv(s) && id in s.tasks.ops && id !in s.redis.wire && !IsMutation(s.tasks.ops[id]) && !IsMutation(op)
    requires OpInv(s.origin, s.cell.word, s.redis, op) && Awaits(op, command)
    requires !command.StoreScript? ==> command.minted !in s.redis.drawn && command.minted in r.drawn
    requires command.StoreScript? ==>
               GoodCopy(s.redis, s.origin.version, command.expected, command.route, command.value)
    requires s.redis.drawn <= r.drawn && r == s.redis.(wire := s.redis.wire[id := command], drawn := r.drawn)
    ensures Inv(Go(s, id, op).(redis := r))
  {
    var moved := Go(s, id, op);
    GoKeeps(s, id, op);
    assert MintInv(r, s.tasks.spawned);
    assert RedisInv(r, s.origin.version);
    OpsInvStable(s.origin, s.cell.word, s.redis, s.origin, s.cell.word, r, moved.tasks.ops);
  }

  lemma SendLookupKeeps(s: State, id: OpId, minted: Generation)
    requires Inv(s) && Enabled(s, SendLookup(id, minted))
    ensures Inv(Apply(s, SendLookup(id, minted)))
  {
    var op, t := s.tasks.ops[id], Apply(s, SendLookup(id, minted));
    assert OpInv(s.origin, s.cell.word, s.redis, op);
    SendKeeps(s, id, LookupSent(op.route, op.since), LookupScript(op.route, minted), t.redis);
  }

  lemma SendRotationKeeps(s: State, id: OpId, minted: Generation)
    requires Inv(s) && Enabled(s, SendRotation(id, minted))
    ensures Inv(Apply(s, SendRotation(id, minted)))
  {
    var op, t := s.tasks.ops[id], Apply(s, SendRotation(id, minted));
    assert OpInv(s.origin, s.cell.word, s.redis, op);
    SendKeeps(s, id, RotationSent(op.goal, op.base, op.rounds, op.ticket), SetEpoch(minted), t.redis);
  }

  lemma SendStoreKeeps(s: State, id: OpId)
    requires Inv(s) && Enabled(s, SendStore(id))
    ensures Inv(Apply(s, SendStore(id)))
  {
    var op, t := s.tasks.ops[id], Apply(s, SendStore(id));
    assert OpInv(s.origin, s.cell.word, s.redis, op);
    SendKeeps(s, id, StoreSent, StoreScript(op.epoch, op.route, op.value), t.redis);
  }

  /* Redis. */

  /** Redis changed, the rest did not. */
  lemma RedisKeeps(s: State, r: Redis)
    requires Inv(s) && RedisProgress(s.origin, s.redis, r)
    requires MintInv(r, s.tasks.spawned) && RedisInv(r, s.origin.version)
    requires forall id :: id in r.wire ==> id in s.redis.wire && r.wire[id] == s.redis.wire[id]
    ensures Inv(s.(redis := r))
  {
    OpsInvStable(s.origin, s.cell.word, s.redis, s.origin, s.cell.word, r, s.tasks.ops);
  }

  lemma TakenKeeps(s: State, id: OpId)
    requires Inv(s)
    ensures Inv(Taken(s, id))
  {
    RedisKeeps(s, Taken(s, id).redis);
  }

  /** A generation that was on the wire becomes live. */
  lemma BornKeeps(s: State, minted: Generation)
    requires Inv(s) && minted in s.redis.drawn && minted !in s.redis.birth
    requires forall id :: id in s.redis.wire && !s.redis.wire[id].StoreScript? ==> s.redis.wire[id].minted != minted
    ensures Inv(Born(s, minted)) && EpochSince(Born(s, minted).redis, s.origin.settled)
  {
    RedisKeeps(s, Born(s, minted).redis);
  }

  lemma StoredKeeps(s: State, expected: Generation, route: Route, value: Value)
    requires Inv(s) && GoodCopy(s.redis, s.origin.version, expected, route, value)
    ensures Inv(Stored(s, expected, route, value))
  {
    RedisKeeps(s, Stored(s, expected, route, value).redis);
  }

  lemma ExecutedKeeps(s: State, id: OpId)
    requires Inv(s) && id in s.redis.wire
    ensures Inv(Executed(Taken(s, id), s.redis.wire[id]))
    ensures s.redis.wire[id].SetEpoch? ==>
              EpochSince(Executed(Taken(s, id), s.redis.wire[id]).redis, s.origin.settled)
  {
    TakenKeeps(s, id);
    match s.redis.wire[id]
    case SetEpoch(minted) => BornKeeps(Taken(s, id), minted);
    case LookupScript(_, minted) => BornKeeps(Taken(s, id), minted);
    case StoreScript(expected, route, value) => StoredKeeps(Taken(s, id), expected, route, value);
  }

  lemma RepliedKeeps(s: State, id: OpId, command: Command)
    requires Inv(s) && id !in s.redis.wire && (id in s.tasks.ops ==> Awaits(s.tasks.ops[id], command))
    requires command.SetEpoch? ==> EpochSince(s.redis, s.origin.settled)
    ensures Inv(Replied(s, id, command))
  {
    var t := Replied(s, id, command);
    if id in s.tasks.ops && t != s {
      var op := s.tasks.ops[id];
      assert OpInv(s.origin, s.cell.word, s.redis, op);
      if op.LookupSent? {
        var key := (s.redis.epoch.value, op.route);
        if key in s.redis.entries {
          assert GoodCopy(s.redis, s.origin.version, key.0, key.1, s.redis.entries[key]);
        }
      }
      GoKeeps(s, id, t.tasks.ops[id]);
    }
  }

  lemma LandedKeeps(s: State, id: OpId, delivered: bool)
    requires Inv(s) && id in s.redis.wire
    ensures Inv(Landed(s, id, delivered))
  {
    var command := s.redis.wire[id];
    ExecutedKeeps(s, id);
    if delivered {
      var t := Executed(Taken(s, id), command);
      assert t.tasks == s.tasks && t.origin == s.origin && t.redis.wire == s.redis.wire - {id};
      RepliedKeeps(t, id, command);
    }
  }

  lemma EvictionKeeps(s: State, key: (Generation, Route))
    requires Inv(s)
    ensures Inv(EvictedEpoch(s)) && Inv(EvictedEntry(s, key))
  {
    RedisKeeps(s, EvictedEpoch(s).redis);
    RedisKeeps(s, EvictedEntry(s, key).redis);
  }

  lemma RestartKeeps(s: State)
    requires Inv(s)
    ensures Inv(Restarted(s))
  {
    assert Mutations(Restarted(s).tasks.ops) == {};
  }

  /* All steps. */

  lemma MutationStepKeeps(s: State, step: Step)
    requires Inv(s) && Enabled(s, step) && IsMutationStep(step) && NoWrap(ApplyMutation(s, step))
    ensures Inv(ApplyMutation(s, step))
  {
    match step
    case BeginMutation(id) => EnterKeeps(s, id);
    case MarkBegun(id) => MarkKeeps(s, id, MutationHeld);
    case Commit(id) => CommitKeeps(s, id);
    case MarkDropped(id) => MarkKeeps(s, id, MutationMarked);
    case LeaveMutation(id) => LeaveMutationKeeps(s, id);
  }

  lemma RotationStepKeeps(s: State, step: Step)
    requires Inv(s) && Enabled(s, step) && IsRotationStep(step) && NoWrap(Apply(s, step))
    ensures Inv(Apply(s, step))
  {
    match step
    case TryPublish(id) => TryPublishKeeps(s, id);
    case SendLookup(id, minted) => SendLookupKeeps(s, id, minted);
    case SendRotation(id, minted) => SendRotationKeeps(s, id, minted);
    case SendStore(id) => SendStoreKeeps(s, id);
    case Abandon(id) => LeaveKeeps(s, id);
    case AcquireLock(id) => AcquireKeeps(s, id);
    case _ => WordReadKeeps(s, step);
  }

  /** Every step keeps the invariant while the word stays below 2^64. */
  lemma InvPreserved(s: State, step: Step)
    requires Inv(s) && Enabled(s, step) && NoWrap(Apply(s, step))
    ensures Inv(Apply(s, step))
  {
    if IsMove(step) {
      MoveKeeps(s, step);
    } else if IsSpawn(step) {
      SpawnKeeps(s, step);
    } else if IsMutationStep(step) {
      MutationStepKeeps(s, step);
    } else if IsRotationStep(step) {
      RotationStepKeeps(s, step);
    } else {
      match step
      case Land(id, delivered) => LandedKeeps(s, id, delivered);
      case LoseCommand(id) => TakenKeeps(s, id);
      case EvictEpoch => EvictionKeeps(s, ("", ""));
      case EvictEntry(key) => EvictionKeeps(s, key);
      case Restart => RestartKeeps(s);
    }
  }

  lemma InitialInv(s: State)
    requires Initial(s)
    ensures Inv(s)
  {
    assert Mutations(s.tasks.ops) == {};
  }

  lemma {:induction false} InvThroughout(states: seq<State>, steps: seq<Step>, k: nat)
    requires IsRun(states, steps) && NeverWraps(states) && k < |states|
    ensures Inv(states[k])
  {
    if k == 0 {
      InitialInv(states[0]);
    } else {
      InvThroughout(states, steps, k - 1);
      assert NoWrap(states[k]);
      InvPreserved(states[k - 1], steps[k - 1]);
    }
  }
}
