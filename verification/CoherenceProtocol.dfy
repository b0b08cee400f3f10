/** The derivative-cache protocol as a state machine: canonical mutations under a
    guard, generation rotation, lookups, origin renders and stores interleave over
    the coherence word, the active-mutation counter and one Redis store. Every
    atomic access, every Redis command and every Lua script is one step; commands
    may fail, lose their reply or land after their caller has given up; keys may be
    evicted; the process may stop at any point and start again. */
module CoherenceProtocol {
  import opened Common
  import opened CoherenceWord

  type OpId = nat
  type Generation = string
  type Route = string

  const MAX_CACHE_VALUE_BYTES: int := 86 * 1024 * 1024

  /** What the origin produced for a route when the canonical store was at a version. */
  datatype Value = Rendering(route: Route, version: nat, size: nat)

  /** On whose behalf a rotation runs; `since` is the canonical version at the
      lookup's first active-mutation check. */
  datatype Goal = LookupGoal(route: Route, since: nat) | RepairGoal | CompletionGoal

  /** In-flight operations with their program counters. */
  datatype Op =
    // a canonical mutation and its guard
    | MutationEntered
    | MutationHeld
    | MutationMarked
    // lookup
    | LookupIdle(route: Route)
    | LookupChecked(route: Route, since: nat)
    | LookupSafe(route: Route, since: nat)
    | LookupSent(route: Route, since: nat)
    | LookupReturned(route: Route, since: nat, epoch: Generation, hit: Option<Value>)
    // repair_coherence, complete_mutation and the rotation loop
    | RepairEntered(goal: Goal)
    | RepairChecked(goal: Goal)
    | Waiting(goal: Goal)
    | Locked(goal: Goal)
    | LoopTop(goal: Goal, base: nat, rounds: nat)
    | LoopChecked(goal: Goal, base: nat, rounds: nat)
    | Ticketed(goal: Goal, base: nat, rounds: nat, ticket: Word)
    | RotationSent(goal: Goal, base: nat, rounds: nat, ticket: Word)
    | RotationReplied(goal: Goal, base: nat, rounds: nat, ticket: Word)
    // origin render and store
    | RenderPending(route: Route, epoch: Generation)
    | Rendered(route: Route, epoch: Generation, value: Value)
    | StoreSent

  /** Commands that were sent to Redis and have not run yet. */
  datatype Command =
    | SetEpoch(minted: Generation)
    | LookupScript(route: Route, minted: Generation)
    | StoreScript(expected: Generation, route: Route, value: Value)

  /** The canonical store: the number of commits, and its value at the latest
      dirty mark. */
  datatype Origin = Origin(version: nat, settled: nat)

  /** The two atomics; `unwrapped` is the word without 64-bit truncation and
      `marks` counts dirty marks. */
  datatype Cell = Cell(word: Word, unwrapped: nat, marks: nat, active: nat)

  /** The process: the holder of the generation-change mutex and the operations in
      flight; `spawned` are the identifiers used so far. */
  datatype Tasks = Tasks(lock: Option<OpId>, ops: map<OpId, Op>, spawned: set<OpId>)

  /** Redis and the commands on their way to it; `drawn` are the generations minted
      so far and `birth` the canonical version at which each became live. */
  datatype Redis = Redis(
    wire: map<OpId, Command>,
    drawn: set<Generation>,
    birth: map<Generation, nat>,
    epoch: Option<Generation>,
    entries: map<(Generation, Route), Value>)

  /** `settled`, `unwrapped`, `marks`, `spawned`, `drawn` and `birth` are history:
      no step reads them except to keep identifiers unique. */
  datatype State = State(origin: Origin, cell: Cell, tasks: Tasks, redis: Redis)

  predicate Initial(s: State) {
    && s.origin.settled == s.origin.version
    && s.cell == Cell(1, 1, 0, 0)
    && s.tasks == Tasks(None, map[], {})
    && s.redis == Redis(map[], {}, map[], None, map[])
  }

  datatype Step =
    | BeginMutation(id: OpId)
    | MarkBegun(id: OpId)
    | Commit(id: OpId)
    | MarkDropped(id: OpId)
    | LeaveMutation(id: OpId)
    | StartLookup(id: OpId, route: Route)
    | CheckLookup(id: OpId)
    | ObserveWord(id: OpId)
    | SendLookup(id: OpId, minted: Generation)
    | StartRepair(id: OpId)
    | CheckRepair(id: OpId)
    | RecheckWord(id: OpId)
    | StartCompletion(id: OpId)
    | AcquireLock(id: OpId)
    | CheckLocked(id: OpId)
    | CheckLoop(id: OpId)
    | LoadTicket(id: OpId)
    | SendRotation(id: OpId, minted: Generation)
    | TryPublish(id: OpId)
    | StartRender(id: OpId)
    | RenderOrigin(id: OpId, size: nat)
    | SendStore(id: OpId)
    | Abandon(id: OpId)
    | Land(id: OpId, delivered: bool)
    | LoseCommand(id: OpId)
    | EvictEpoch
    | EvictEntry(key: (Generation, Route))
    | Restart

  predicate IsMutation(op: Op) {
    op.MutationEntered? || op.MutationHeld? || op.MutationMarked?
  }

  predicate HoldsLock(op: Op) {
    op.Locked? || InLoop(op)
  }

  predicate InLoop(op: Op) {
    op.LoopTop? || op.LoopChecked? || op.Ticketed? || op.RotationSent? || op.RotationReplied?
  }

  predicate At(s: State, id: OpId) {
    id in s.tasks.ops
  }

  predicate Enabled(s: State, step: Step) {
    match step
    case BeginMutation(id) => id !in s.tasks.spawned
    case MarkBegun(id) => At(s, id) && s.tasks.ops[id].MutationEntered?
    case Commit(id) => At(s, id) && s.tasks.ops[id].MutationHeld?
    case MarkDropped(id) => At(s, id) && s.tasks.ops[id].MutationHeld?
    case LeaveMutation(id) => At(s, id) && s.tasks.ops[id].MutationMarked? && s.cell.active > 0
    case StartLookup(id, _) => id !in s.tasks.spawned
    case CheckLookup(id) => At(s, id) && s.tasks.ops[id].LookupIdle? && s.cell.active == 0
    case ObserveWord(id) => At(s, id) && s.tasks.ops[id].LookupChecked?
    case SendLookup(id, minted) => At(s, id) && s.tasks.ops[id].LookupSafe? && minted !in s.redis.drawn
    case StartRepair(id) => id !in s.tasks.spawned
    case CheckRepair(id) => At(s, id) && s.tasks.ops[id].RepairEntered? && s.cell.active == 0
    case RecheckWord(id) => At(s, id) && s.tasks.ops[id].RepairChecked?
    case StartCompletion(id) => id !in s.tasks.spawned && s.cell.active == 0
    case AcquireLock(id) => At(s, id) && s.tasks.ops[id].Waiting? && s.tasks.lock == None
    case CheckLocked(id) => At(s, id) && s.tasks.ops[id].Locked? && s.cell.active == 0
    case CheckLoop(id) => At(s, id) && s.tasks.ops[id].LoopTop? && s.cell.active == 0
    case LoadTicket(id) => At(s, id) && s.tasks.ops[id].LoopChecked?
    case SendRotation(id, minted) => At(s, id) && s.tasks.ops[id].Ticketed? && minted !in s.redis.drawn
    case TryPublish(id) => At(s, id) && s.tasks.ops[id].RotationReplied?
    case StartRender(id) => At(s, id) && s.tasks.ops[id].LookupReturned?
    case RenderOrigin(id, _) => At(s, id) && s.tasks.ops[id].RenderPending?
    case SendStore(id) => At(s, id) && s.tasks.ops[id].Rendered?
    case Abandon(id) => At(s, id) && !IsMutation(s.tasks.ops[id])
    case Land(id, _) => id in s.redis.wire
    case LoseCommand(id) => id in s.redis.wire
    case EvictEpoch => true
    case EvictEntry(key) => true
    case Restart => true
  }

  function Go(s: State, id: OpId, op: Op): State {
    s.(tasks := s.tasks.(ops := s.tasks.ops[id := op]))
  }

  function Spawn(s: State, id: OpId, op: Op): State {
    s.(tasks := s.tasks.(ops := s.tasks.ops[id := op], spawned := s.tasks.spawned + {id}))
  }

  /** Returning, failing or being cancelled drops a held mutex guard. */
  function Unlock(tasks: Tasks, id: OpId): Tasks {
    if tasks.lock == Some(id) then tasks.(lock := None) else tasks
  }

  function Leave(s: State, id: OpId): State {
    var tasks := Unlock(s.tasks, id);
    s.(tasks := tasks.(ops := tasks.ops - {id}))
  }

  function Enter(s: State, id: OpId): State {
    Spawn(s, id, MutationEntered).(cell := s.cell.(active := s.cell.active + 1))
  }

  function Mark(s: State): State {
    s.(origin := s.origin.(settled := s.origin.version),
       cell := s.cell.(word := Dirtied(s.cell.word), unwrapped := DirtiedUnbounded(s.cell.unwrapped),
                       marks := s.cell.marks + 1))
  }

  function Committed(s: State): State {
    s.(origin := s.origin.(version := s.origin.version + 1))
  }

  function LeaveMutationOf(s: State, id: OpId): State
    requires s.cell.active > 0
  {
    s.(tasks := s.tasks.(ops := s.tasks.ops - {id}), cell := s.cell.(active := s.cell.active - 1))
  }

  /** A successful compare-exchange. */
  function Publish(s: State): State {
    s.(cell := s.cell.(word := Published(s.cell.word), unwrapped := s.cell.unwrapped + 1))
  }

  /** A repair that found or made the word clean: a lookup goes on, others return. */
  function Repaired(s: State, id: OpId, goal: Goal): State {
    match goal
    case LookupGoal(route, since) => Go(s.(tasks := Unlock(s.tasks, id)), id, LookupSafe(route, since))
    case _ => Leave(s, id)
  }

  function Send(s: State, id: OpId, command: Command): State {
    s.(redis := s.redis.(wire := s.redis.wire[id := command]))
  }

  function SendMinted(s: State, id: OpId, command: Command): State
    requires !command.StoreScript?
  {
    s.(redis := s.redis.(wire := s.redis.wire[id := command], drawn := s.redis.drawn + {command.minted}))
  }

  /** A command leaves the wire. */
  function Taken(s: State, id: OpId): State {
    s.(redis := s.redis.(wire := s.redis.wire - {id}))
  }

  /** A generation becomes the value of the epoch key. */
  function Born(s: State, minted: Generation): State {
    s.(redis := s.redis.(epoch := Some(minted), birth := s.redis.birth[minted := s.origin.version]))
  }

  /** LOOKUP_SCRIPT's SET NX. */
  function EnsureEpoch(s: State, minted: Generation): State {
    if s.redis.epoch == None then Born(s, minted) else s
  }

  function ReadEntry(redis: Redis, epoch: Generation, route: Route): Option<Value> {
    if (epoch, route) in redis.entries && redis.entries[(epoch, route)].size <= MAX_CACHE_VALUE_BYTES
    then Some(redis.entries[(epoch, route)])
    else None
  }

  /** STORE_SCRIPT. */
  function Stored(s: State, expected: Generation, route: Route, value: Value): State {
    if s.redis.epoch == Some(expected)
    then s.(redis := s.redis.(entries := s.redis.entries[(expected, route) := value]))
    else s
  }

  /** The reply reaches the caller, if that caller still waits for it. */
  function Replied(s: State, id: OpId, command: Command): State {
    if At(s, id) && s.tasks.ops[id].RotationSent? && command.SetEpoch? then
      var op := s.tasks.ops[id];
      Go(s, id, RotationReplied(op.goal, op.base, op.rounds, op.ticket))
    else if At(s, id) && s.tasks.ops[id].LookupSent? && command.LookupScript? && s.redis.epoch.Some? then
      var op, epoch := s.tasks.ops[id], s.redis.epoch.value;
      Go(s, id, LookupReturned(op.route, op.since, epoch, ReadEntry(s.redis, epoch, command.route)))
    else
      s
  }

  function Executed(s: State, command: Command): State {
    match command
    case SetEpoch(minted) => Born(s, minted)
    case LookupScript(_, minted) => EnsureEpoch(s, minted)
    case StoreScript(expected, route, value) => Stored(s, expected, route, value)
  }

  /** One command runs in Redis; `delivered` says whether the reply gets through. */
  function Landed(s: State, id: OpId, delivered: bool): State
    requires id in s.redis.wire
  {
    var command := s.redis.wire[id];
    var t := Executed(Taken(s, id), command);
    if delivered then Replied(t, id, command) else t
  }

  function EvictedEpoch(s: State): State {
    s.(redis := s.redis.(epoch := None))
  }

  function EvictedEntry(s: State, key: (Generation, Route)): State {
    s.(redis := s.redis.(entries := s.redis.entries - {key}))
  }

  /** The process dies with everything it holds; a new one starts dirty. What was
      already sent may still land. */
  function Restarted(s: State): State {
    s.(origin := s.origin.(settled := s.origin.version),
       cell := Cell(1, 1, s.cell.marks + 1, 0),
       tasks := s.tasks.(lock := None, ops := map[]))
  }

  /** Where a step of one task goes that touches nothing but the task itself. */
  function Moved(s: State, step: Step): Op
    requires Enabled(s, step) && IsMove(step)
  {
    var op := s.tasks.ops[step.id];
    match step
    case CheckLookup(_) => LookupChecked(op.route, s.origin.version)
    case ObserveWord(_) =>
      if Clean(s.cell.word) then LookupSafe(op.route, op.since) else RepairEntered(LookupGoal(op.route, op.since))
    case CheckRepair(_) => RepairChecked(op.goal)
    case CheckLocked(_) => LoopTop(op.goal, s.cell.marks, 0)
    case CheckLoop(_) => LoopChecked(op.goal, op.base, op.rounds)
    case StartRender(_) => RenderPending(op.route, op.epoch)
    case RenderOrigin(_, size) => Rendered(op.route, op.epoch, Rendering(op.route, s.origin.version, size))
  }

  predicate IsMove(step: Step) {
    || step.CheckLookup? || step.ObserveWord? || step.CheckRepair? || step.CheckLocked? || step.CheckLoop?
    || step.StartRender? || step.RenderOrigin?
  }

  predicate IsSpawn(step: Step) {
    step.StartLookup? || step.StartRepair? || step.StartCompletion?
  }

  /** The operation a start step creates. */
  function Spawned(step: Step): Op
    requires IsSpawn(step)
  {
    match step
    case StartLookup(_, route) => LookupIdle(route)
    case StartRepair(_) => RepairEntered(RepairGoal)
    case StartCompletion(_) => Waiting(CompletionGoal)
  }

  function Apply(s: State, step: Step): State
    requires Enabled(s, step)
  {
    if IsMove(step) then Go(s, step.id, Moved(s, step))
    else if IsSpawn(step) then Spawn(s, step.id, Spawned(step))
    else if step.Restart? then Restarted(s)
    else if step.EvictEpoch? then EvictedEpoch(s)
    else if step.EvictEntry? then EvictedEntry(s, step.key)
    else if step.Land? then Landed(s, step.id, step.delivered)
    else if step.LoseCommand? then Taken(s, step.id)
    else if IsMutationStep(step) then ApplyMutation(s, step)
    else ApplyRotation(s, step)
  }

  predicate IsMutationStep(step: Step) {
    step.BeginMutation? || step.MarkBegun? || step.Commit? || step.MarkDropped? || step.LeaveMutation?
  }

  function ApplyMutation(s: State, step: Step): State
    requires Enabled(s, step) && IsMutationStep(step)
  {
    match step
    case BeginMutation(id) => Enter(s, id)
    case MarkBegun(id) => Go(Mark(s), id, MutationHeld)
    case Commit(id) => Committed(s)
    case MarkDropped(id) => Go(Mark(s), id, MutationMarked)
    case LeaveMutation(id) => LeaveMutationOf(s, id)
  }

  predicate IsRotationStep(step: Step) {
    || step.RecheckWord? || step.AcquireLock? || step.LoadTicket? || step.TryPublish? || step.Abandon?
    || step.SendLookup? || step.SendRotation? || step.SendStore?
  }

  function ApplyRotation(s: State, step: Step): State
    requires Enabled(s, step) && IsRotationStep(step)
  {
    var op := s.tasks.ops[step.id];
    match step
    case RecheckWord(id) => if Clean(s.cell.word) then Repaired(s, id, op.goal) else Go(s, id, Waiting(op.goal))
    case AcquireLock(id) => Go(s.(tasks := s.tasks.(lock := Some(id))), id, Locked(op.goal))
    case LoadTicket(id) =>
      if Clean(s.cell.word) then Repaired(s, id, op.goal)
      else Go(s, id, Ticketed(op.goal, op.base, op.rounds, s.cell.word))
    case TryPublish(id) =>
      if s.cell.word == op.ticket then Repaired(Publish(s), id, op.goal)
      else Go(s, id, LoopTop(op.goal, op.base, op.rounds + 1))
    case SendLookup(id, minted) =>
      SendMinted(Go(s, id, LookupSent(op.route, op.since)), id, LookupScript(op.route, minted))
    case SendRotation(id, minted) =>
      SendMinted(Go(s, id, RotationSent(op.goal, op.base, op.rounds, op.ticket)), id, SetEpoch(minted))
    case SendStore(id) => Send(Go(s, id, StoreSent), id, StoreScript(op.epoch, op.route, op.value))
    case Abandon(id) => Leave(s, id)
  }

  predicate IsRun(states: seq<State>, steps: seq<Step>) {
    && |states| == |steps| + 1
    && Initial(states[0])
    && (forall i :: 0 <= i < |steps| ==> Enabled(states[i], steps[i]))
    && (forall i :: 0 <= i < |steps| ==> states[i + 1] == Apply(states[i], steps[i]))
  }

  /** The word has not been incremented past 64 bits since the process started. */
  predicate NoWrap(s: State) {
    s.cell.unwrapped < WORD_LIMIT
  }

  predicate NeverWraps(states: seq<State>) {
    forall i :: 0 <= i < |states| ==> NoWrap(states[i])
  }
}
