/** What a lookup achieves when nothing interferes, from any state of the protocol. */
module CoherenceProgress {
  import opened Common
  import opened CoherenceWord
  import opened CoherenceProtocol

  /** Steps of any transition relation, one after the other. */
  ghost predicate Path<S(!new), A>(next: (S, A, S) -> bool, s: S, steps: seq<A>, t: S)
    decreases |steps|
  {
    if steps == [] then s == t
    else exists m :: next(s, steps[0], m) && Path(next, m, steps[1..], t)
  }

  lemma {:induction false} PathsJoin<S(!new), A>(next: (S, A, S) -> bool, s: S, before: seq<A>, t: S, after: seq<A>, u: S)
    requires Path(next, s, before, t) && Path(next, t, after, u)
    ensures Path(next, s, before + after, u)
    decreases |before|
  {
    if before == [] {
      assert before + after == after;
    } else {
      var m :| next(s, before[0], m) && Path(next, m, before[1..], t);
      PathsJoin(next, m, before[1..], t, after, u);
      assert (before + after)[0] == before[0] && (before + after)[1..] == before[1..] + after;
    }
  }

  lemma PathGoesOn<S(!new), A>(next: (S, A, S) -> bool, s: S, before: seq<A>, t: S, step: A, u: S)
    requires Path(next, s, before, t) && next(t, step, u)
    ensures Path(next, s, before + [step], u)
  {
    assert [step][0] == step && [step][1..] == [];
    assert Path(next, u, [step][1..], u);
    PathsJoin(next, s, before, t, [step], u);
  }

  predicate StepTo(s: State, step: Step, t: State) {
    Enabled(s, step) && t == Apply(s, step)
  }

  ghost predicate Leads(s: State, steps: seq<Step>, t: State) {
    Path(StepTo, s, steps, t)
  }

  /** What the cache holds for a route under a generation, if it is not too big: 86 MiB. */
  function Held(s: State, g: Generation, route: Route): Option<Value> {
    if (g, route) in s.redis.entries && s.redis.entries[(g, route)].size <= 90_177_536
    then Some(s.redis.entries[(g, route)])
    else None
  }

  /** No mutation is active. */
  predicate Quiet(s: State) {
    s.cell.active == 0
  }

  /** The last two steps of a lookup: the script is sent, runs and answers. */
  lemma ScriptAnswers(s: State, before: seq<Step>, t: State, id: OpId, route: Route, since: nat, g: Generation,
                      minted: Generation) returns (u: State)
    requires Leads(s, before, t) && At(t, id) && t.tasks.ops[id] == LookupSafe(route, since)
    requires t.redis.epoch == Some(g) && minted !in t.redis.drawn
    ensures Leads(s, before + [SendLookup(id, minted)] + [Land(id, true)], u)
    ensures At(u, id) && u.tasks.ops[id] == LookupReturned(route, since, g, Held(t, g, route))
    ensures u.redis.entries == t.redis.entries && u.redis.epoch == t.redis.epoch && u.origin == t.origin
    ensures u.cell == t.cell && u.redis.drawn == t.redis.drawn + {minted} && u.tasks.spawned == t.tasks.spawned
    ensures u.tasks.lock == t.tasks.lock
  {
    var sent := Apply(t, SendLookup(id, minted));
    PathGoesOn(StepTo, s, before, t, SendLookup(id, minted), sent);
    u := Apply(sent, Land(id, true));
    PathGoesOn(StepTo, s, before + [SendLookup(id, minted)], sent, Land(id, true), u);
  }

  /** With a clean word, a lookup in five steps returns what the live generation holds
      for its route. */
  lemma CleanLookupAnswers(s: State, id: OpId, route: Route, g: Generation, minted: Generation)
      returns (steps: seq<Step>, u: State)
    requires Quiet(s) && s.cell.word % 2 == 0 && s.redis.epoch == Some(g)
    requires id !in s.tasks.spawned && minted !in s.redis.drawn
    ensures |steps| == 5 && Leads(s, steps, u)
    ensures At(u, id) && u.tasks.ops[id] == LookupReturned(route, s.origin.version, g, Held(s, g, route))
    ensures u.redis.entries == s.redis.entries && u.redis.epoch == s.redis.epoch && u.origin == s.origin
    ensures u.cell == s.cell && u.redis.drawn == s.redis.drawn + {minted} && u.tasks.spawned == s.tasks.spawned + {id}
  {
    var idle := Apply(s, StartLookup(id, route));
    var checked := Apply(idle, CheckLookup(id));
    var safe := Apply(checked, ObserveWord(id));
    PathGoesOn(StepTo, s, [], s, StartLookup(id, route), idle);
    PathGoesOn(StepTo, s, [] + [StartLookup(id, route)], idle, CheckLookup(id), checked);
    PathGoesOn(StepTo, s, [] + [StartLookup(id, route)] + [CheckLookup(id)], checked, ObserveWord(id), safe);
    var before := [] + [StartLookup(id, route)] + [CheckLookup(id)] + [ObserveWord(id)];
    u := ScriptAnswers(s, before, safe, id, route, s.origin.version, g, minted);
    steps := before + [SendLookup(id, minted)] + [Land(id, true)];
  }

  /** If the epoch key is gone, the lookup itself makes its freshly minted generation
      live, and finds nothing that was stored under an older one. */
  lemma LookupMintsEpoch(s: State, before: seq<Step>, t: State, id: OpId, route: Route, since: nat, minted: Generation)
      returns (u: State)
    requires Leads(s, before, t) && At(t, id) && t.tasks.ops[id] == LookupSafe(route, since)
    requires t.redis.epoch == None && minted !in t.redis.drawn
    ensures Leads(s, before + [SendLookup(id, minted)] + [Land(id, true)], u)
    ensures At(u, id) && u.tasks.ops[id] == LookupReturned(route, since, minted, Held(t, minted, route))
    ensures u.redis.epoch == Some(minted) && u.redis.entries == t.redis.entries && u.cell == t.cell
  {
    var sent := Apply(t, SendLookup(id, minted));
    PathGoesOn(StepTo, s, before, t, SendLookup(id, minted), sent);
    u := Apply(sent, Land(id, true));
    PathGoesOn(StepTo, s, before + [SendLookup(id, minted)], sent, Land(id, true), u);
  }

  /** From a miss, four steps render the page and put it into the cache. */
  lemma MissIsFilled(s: State, id: OpId, route: Route, since: nat, g: Generation, size: nat)
      returns (steps: seq<Step>, u: State)
    requires At(s, id) && s.tasks.ops[id] == LookupReturned(route, since, g, None) && s.redis.epoch == Some(g)
    ensures |steps| == 4 && Leads(s, steps, u)
    ensures u.redis.entries == s.redis.entries[(g, route) := Rendering(route, s.origin.version, size)]
    ensures u.redis.epoch == s.redis.epoch && u.origin == s.origin && u.cell == s.cell
    ensures u.redis.drawn == s.redis.drawn && u.tasks.spawned == s.tasks.spawned
  {
    var rendering, t := MissIsRendered(s, id, route, since, g, size);
    var storing: seq<Step>;
    storing, u := RenderingIsStored(t, id, route, g, Rendering(route, s.origin.version, size));
    PathsJoin(StepTo, s, rendering, t, storing, u);
    steps := rendering + storing;
  }

  lemma MissIsRendered(s: State, id: OpId, route: Route, since: nat, g: Generation, size: nat)
      returns (steps: seq<Step>, u: State)
    requires At(s, id) && s.tasks.ops[id] == LookupReturned(route, since, g, None)
    ensures |steps| == 2 && Leads(s, steps, u)
    ensures At(u, id) && u.tasks.ops[id] == Rendered(route, g, Rendering(route, s.origin.version, size))
    ensures u.redis == s.redis && u.origin == s.origin && u.cell == s.cell && u.tasks.spawned == s.tasks.spawned
  {
    var t := Apply(s, StartRender(id));
    u := Apply(t, RenderOrigin(id, size));
    PathGoesOn(StepTo, s, [], s, StartRender(id), t);
    PathGoesOn(StepTo, s, [] + [StartRender(id)], t, RenderOrigin(id, size), u);
    steps := [] + [StartRender(id)] + [RenderOrigin(id, size)];
  }

  lemma RenderingIsStored(s: State, id: OpId, route: Route, g: Generation, value: Value)
      returns (steps: seq<Step>, u: State)
    requires At(s, id) && s.tasks.ops[id] == Rendered(route, g, value) && s.redis.epoch == Some(g)
    ensures |steps| == 2 && Leads(s, steps, u)
    ensures u.redis.entries == s.redis.entries[(g, route) := value]
    ensures u.redis.epoch == s.redis.epoch && u.origin == s.origin && u.cell == s.cell
    ensures u.redis.drawn == s.redis.drawn && u.tasks.spawned == s.tasks.spawned
  {
    var t := Apply(s, SendStore(id));
    u := Apply(t, Land(id, true));
    PathGoesOn(StepTo, s, [], s, SendStore(id), t);
    PathGoesOn(StepTo, s, [] + [SendStore(id)], t, Land(id, true), u);
    steps := [] + [SendStore(id)] + [Land(id, true)];
  }

  /** A page of any size up to 86 MiB that was rendered after a miss is returned by the
      next lookup of its route; a bigger one is not. */
  lemma FilledIsReturned(s: State, first: OpId, second: OpId, route: Route, since: nat, g: Generation,
                         minted: Generation, size: nat)
      returns (steps: seq<Step>, u: State)
    requires Quiet(s) && s.cell.word % 2 == 0 && s.redis.epoch == Some(g)
    requires At(s, first) && s.tasks.ops[first] == LookupReturned(route, since, g, None)
    requires second !in s.tasks.spawned && minted !in s.redis.drawn
    ensures Leads(s, steps, u) && At(u, second)
    ensures u.tasks.ops[second] ==
            LookupReturned(route, s.origin.version, g,
                           if size <= 90_177_536 then Some(Rendering(route, s.origin.version, size)) else None)
  {
    var filling, filled := MissIsFilled(s, first, route, since, g, size);
    var looking, answered := CleanLookupAnswers(filled, second, route, g, minted);
    PathsJoin(StepTo, s, filling, filled, looking, answered);
    steps, u := filling + looking, answered;
  }

  /** The first nine steps of a lookup that finds the word dirty. */
  lemma DirtyLookupTakesTicket(s: State, id: OpId, route: Route) returns (steps: seq<Step>, u: State)
    requires Quiet(s) && s.cell.word % 2 == 1 && s.tasks.lock == None && id !in s.tasks.spawned
    ensures |steps| == 9 && Leads(s, steps, u)
    ensures At(u, id) && u.tasks.ops[id] == Ticketed(LookupGoal(route, s.origin.version), s.cell.marks, 0, s.cell.word)
    ensures u.tasks.lock == Some(id) && u.cell == s.cell && u.redis == s.redis && u.origin == s.origin
    ensures u.tasks.spawned == s.tasks.spawned + {id}
  {
    var t1 := Apply(s, StartLookup(id, route));
    var t2 := Apply(t1, CheckLookup(id));
    var t3 := Apply(t2, ObserveWord(id));
    var t4 := Apply(t3, CheckRepair(id));
    PathGoesOn(StepTo, s, [], s, StartLookup(id, route), t1);
    steps := [] + [StartLookup(id, route)];
    PathGoesOn(StepTo, s, steps, t1, CheckLookup(id), t2);
    steps := steps + [CheckLookup(id)];
    PathGoesOn(StepTo, s, steps, t2, ObserveWord(id), t3);
    steps := steps + [ObserveWord(id)];
    PathGoesOn(StepTo, s, steps, t3, CheckRepair(id), t4);
    steps := steps + [CheckRepair(id)];
    var rest: seq<Step>;
    rest, u := RepairTakesTicket(t4, id, LookupGoal(route, s.origin.version));
    PathsJoin(StepTo, s, steps, t4, rest, u);
    steps := steps + rest;
  }

  lemma RepairTakesTicket(s: State, id: OpId, goal: Goal) returns (steps: seq<Step>, u: State)
    requires Quiet(s) && s.cell.word % 2 == 1 && s.tasks.lock == None
    requires At(s, id) && s.tasks.ops[id] == RepairChecked(goal)
    ensures |steps| == 5 && Leads(s, steps, u)
    ensures At(u, id) && u.tasks.ops[id] == Ticketed(goal, s.cell.marks, 0, s.cell.word)
    ensures u.tasks.lock == Some(id) && u.cell == s.cell && u.redis == s.redis && u.origin == s.origin
    ensures u.tasks.spawned == s.tasks.spawned
  {
    var locking, t := RepairLocks(s, id, goal);
    var loading: seq<Step>;
    loading, u := LockedTakesTicket(t, id, goal);
    PathsJoin(StepTo, s, locking, t, loading, u);
    steps := locking + loading;
  }

  lemma RepairLocks(s: State, id: OpId, goal: Goal) returns (steps: seq<Step>, u: State)
    requires s.cell.word % 2 == 1 && s.tasks.lock == None && At(s, id) && s.tasks.ops[id] == RepairChecked(goal)
    ensures |steps| == 2 && Leads(s, steps, u)
    ensures At(u, id) && u.tasks.ops[id] == Locked(goal)
    ensures u.tasks.lock == Some(id) && u.cell == s.cell && u.redis == s.redis && u.origin == s.origin
    ensures u.tasks.spawned == s.tasks.spawned
  {
    var t := Apply(s, RecheckWord(id));
    u := Apply(t, AcquireLock(id));
    PathGoesOn(StepTo, s, [], s, RecheckWord(id), t);
    PathGoesOn(StepTo, s, [] + [RecheckWord(id)], t, AcquireLock(id), u);
    steps := [] + [RecheckWord(id)] + [AcquireLock(id)];
  }

  lemma LockedTakesTicket(s: State, id: OpId, goal: Goal) returns (steps: seq<Step>, u: State)
    requires Quiet(s) && s.cell.word % 2 == 1 && At(s, id) && s.tasks.ops[id] == Locked(goal)
    ensures |steps| == 3 && Leads(s, steps, u)
    ensures At(u, id) && u.tasks.ops[id] == Ticketed(goal, s.cell.marks, 0, s.cell.word)
    ensures u.tasks.lock == s.tasks.lock && u.cell == s.cell && u.redis == s.redis && u.origin == s.origin
    ensures u.tasks.spawned == s.tasks.spawned
  {
    var t1 := Apply(s, CheckLocked(id));
    var t2 := Apply(t1, CheckLoop(id));
    u := Apply(t2, LoadTicket(id));
    PathGoesOn(StepTo, s, [], s, CheckLocked(id), t1);
    steps := [] + [CheckLocked(id)];
    PathGoesOn(StepTo, s, steps, t1, CheckLoop(id), t2);
    steps := steps + [CheckLoop(id)];
    PathGoesOn(StepTo, s, steps, t2, LoadTicket(id), u);
    steps := steps + [LoadTicket(id)];
  }

  /** The SET is sent, runs, and its reply arrives. */
  lemma RotationReplies(s: State, id: OpId, goal: Goal, base: nat, minted: Generation)
      returns (steps: seq<Step>, u: State)
    requires At(s, id) && s.tasks.ops[id] == Ticketed(goal, base, 0, s.cell.word) && minted !in s.redis.drawn
    ensures |steps| == 2 && Leads(s, steps, u)
    ensures At(u, id) && u.tasks.ops[id] == RotationReplied(goal, base, 0, s.cell.word) && u.tasks.lock == s.tasks.lock
    ensures u.redis.epoch == Some(minted) && u.redis.drawn == s.redis.drawn + {minted}
    ensures u.redis.entries == s.redis.entries && u.origin == s.origin && u.cell == s.cell
    ensures u.tasks.spawned == s.tasks.spawned
  {
    var t := Apply(s, SendRotation(id, minted));
    u := Apply(t, Land(id, true));
    PathGoesOn(StepTo, s, [], s, SendRotation(id, minted), t);
    PathGoesOn(StepTo, s, [] + [SendRotation(id, minted)], t, Land(id, true), u);
    steps := [] + [SendRotation(id, minted)] + [Land(id, true)];
  }

  /** The rotation: a fresh generation becomes live and the word clean. */
  lemma TicketIsPublished(s: State, id: OpId, route: Route, since: nat, base: nat, minted: Generation)
      returns (steps: seq<Step>, u: State)
    requires At(s, id) && s.tasks.ops[id] == Ticketed(LookupGoal(route, since), base, 0, s.cell.word)
    requires s.tasks.lock == Some(id) && s.cell.word % 2 == 1 && minted !in s.redis.drawn
    ensures |steps| == 3 && Leads(s, steps, u)
    ensures At(u, id) && u.tasks.ops[id] == LookupSafe(route, since) && u.tasks.lock == None
    ensures u.cell.word % 2 == 0 && u.redis.epoch == Some(minted) && u.redis.drawn == s.redis.drawn + {minted}
    ensures u.redis.entries == s.redis.entries && u.origin == s.origin && u.tasks.spawned == s.tasks.spawned
  {
    var sending, t := RotationReplies(s, id, LookupGoal(route, since), base, minted);
    u := Apply(t, TryPublish(id));
    PathGoesOn(StepTo, s, sending, t, TryPublish(id), u);
    steps := sending + [TryPublish(id)];
  }

  /** With a dirty word and a free mutex, a lookup in fourteen steps makes a fresh
      generation live, the word clean, and is answered from that generation. */
  lemma DirtyLookupAnswers(s: State, id: OpId, route: Route, renewed: Generation, minted: Generation)
      returns (steps: seq<Step>, u: State)
    requires Quiet(s) && s.cell.word % 2 == 1 && s.tasks.lock == None && id !in s.tasks.spawned
    requires renewed !in s.redis.drawn && minted !in s.redis.drawn && renewed != minted
    ensures |steps| == 14 && Leads(s, steps, u)
    ensures At(u, id) && u.tasks.ops[id] == LookupReturned(route, s.origin.version, renewed, Held(s, renewed, route))
    ensures u.cell.word % 2 == 0 && u.redis.epoch == Some(renewed) && u.tasks.lock == None
  {
    var taking, t1 := DirtyLookupTakesTicket(s, id, route);
    var publishing, t2 := TicketIsPublished(t1, id, route, s.origin.version, s.cell.marks, renewed);
    PathsJoin(StepTo, s, taking, t1, publishing, t2);
    u := ScriptAnswers(s, taking + publishing, t2, id, route, s.origin.version, renewed, minted);
    steps := taking + publishing + [SendLookup(id, minted)] + [Land(id, true)];
  }

  /** So is a word that a repair on its own account finds dirty, and one that a finished
      mutation left dirty. */
  lemma TicketOfOthersIsPublished(s: State, id: OpId, goal: Goal, base: nat, minted: Generation)
      returns (steps: seq<Step>, u: State)
    requires At(s, id) && s.tasks.ops[id] == Ticketed(goal, base, 0, s.cell.word) && !goal.LookupGoal?
    requires s.tasks.lock == Some(id) && s.cell.word % 2 == 1 && minted !in s.redis.drawn
    ensures |steps| == 3 && Leads(s, steps, u)
    ensures !At(u, id) && u.tasks.lock == None && u.cell.word % 2 == 0 && u.redis.epoch == Some(minted)
  {
    var sending, t := RotationReplies(s, id, goal, base, minted);
    u := Apply(t, TryPublish(id));
    PathGoesOn(StepTo, s, sending, t, TryPublish(id), u);
    steps := sending + [TryPublish(id)];
  }

  lemma RepairCleans(s: State, id: OpId, minted: Generation) returns (steps: seq<Step>, u: State)
    requires Quiet(s) && s.cell.word % 2 == 1 && s.tasks.lock == None && id !in s.tasks.spawned
    requires minted !in s.redis.drawn
    ensures |steps| == 10 && Leads(s, steps, u)
    ensures !At(u, id) && u.tasks.lock == None && u.cell.word % 2 == 0 && u.redis.epoch == Some(minted)
  {
    var t1 := Apply(s, StartRepair(id));
    var t2 := Apply(t1, CheckRepair(id));
    PathGoesOn(StepTo, s, [], s, StartRepair(id), t1);
    PathGoesOn(StepTo, s, [] + [StartRepair(id)], t1, CheckRepair(id), t2);
    steps := [] + [StartRepair(id)] + [CheckRepair(id)];
    var taking, t3 := RepairTakesTicket(t2, id, RepairGoal);
    PathsJoin(StepTo, s, steps, t2, taking, t3);
    var publishing: seq<Step>;
    publishing, u := TicketOfOthersIsPublished(t3, id, RepairGoal, s.cell.marks, minted);
    PathsJoin(StepTo, s, steps + taking, t3, publishing, u);
    steps := steps + taking + publishing;
  }

  lemma CompletionLocks(s: State, id: OpId) returns (steps: seq<Step>, u: State)
    requires Quiet(s) && s.tasks.lock == None && id !in s.tasks.spawned
    ensures |steps| == 2 && Leads(s, steps, u)
    ensures At(u, id) && u.tasks.ops[id] == Locked(CompletionGoal) && u.tasks.lock == Some(id)
    ensures u.cell == s.cell && u.redis == s.redis && u.origin == s.origin
  {
    var t := Apply(s, StartCompletion(id));
    u := Apply(t, AcquireLock(id));
    PathGoesOn(StepTo, s, [], s, StartCompletion(id), t);
    PathGoesOn(StepTo, s, [] + [StartCompletion(id)], t, AcquireLock(id), u);
    steps := [] + [StartCompletion(id)] + [AcquireLock(id)];
  }

  lemma CompletionCleans(s: State, id: OpId, minted: Generation) returns (steps: seq<Step>, u: State)
    requires Quiet(s) && s.cell.word % 2 == 1 && s.tasks.lock == None && id !in s.tasks.spawned
    requires minted !in s.redis.drawn
    ensures |steps| == 8 && Leads(s, steps, u)
    ensures !At(u, id) && u.tasks.lock == None && u.cell.word % 2 == 0 && u.redis.epoch == Some(minted)
  {
    var locking, t1 := CompletionLocks(s, id);
    var loading, t2 := LockedTakesTicket(t1, id, CompletionGoal);
    PathsJoin(StepTo, s, locking, t1, loading, t2);
    var publishing: seq<Step>;
    publishing, u := TicketOfOthersIsPublished(t2, id, CompletionGoal, s.cell.marks, minted);
    PathsJoin(StepTo, s, locking + loading, t2, publishing, u);
    steps := locking + loading + publishing;
  }

  /** A mutation never waits for the cache: in any state it can run to its end. It adds
      one commit, marks the word dirty twice, and leaves no mutation behind. */
  lemma MutationCompletes(s: State, id: OpId) returns (steps: seq<Step>, u: State)
    requires id !in s.tasks.spawned
    ensures |steps| == 5 && Leads(s, steps, u)
    ensures u.origin == Origin(s.origin.version + 1, s.origin.version + 1)
    ensures u.cell.word % 2 == 1 && u.cell.marks == s.cell.marks + 2 && u.cell.active == s.cell.active
    ensures u.redis == s.redis && u.tasks == s.tasks.(ops := s.tasks.ops - {id}, spawned := s.tasks.spawned + {id})
  {
    var beginning, t := MutationMarks(s, id);
    var ending: seq<Step>;
    ending, u := MutationEnds(t, id);
    PathsJoin(StepTo, s, beginning, t, ending, u);
    steps := beginning + ending;
  }

  lemma MutationEnds(s: State, id: OpId) returns (steps: seq<Step>, u: State)
    requires At(s, id) && s.tasks.ops[id] == MutationHeld && s.cell.active > 0
    ensures |steps| == 3 && Leads(s, steps, u)
    ensures u.origin == Origin(s.origin.version + 1, s.origin.version + 1) && u.redis == s.redis
    ensures u.cell.word % 2 == 1 && u.cell.marks == s.cell.marks + 1 && u.cell.active == s.cell.active - 1
    ensures u.tasks == s.tasks.(ops := s.tasks.ops - {id})
  {
    var t := Apply(s, Commit(id));
    PathGoesOn(StepTo, s, [], s, Commit(id), t);
    var leaving: seq<Step>;
    leaving, u := MutationLeaves(t, id);
    PathsJoin(StepTo, s, [] + [Commit(id)], t, leaving, u);
    steps := [] + [Commit(id)] + leaving;
  }

  lemma MutationLeaves(s: State, id: OpId) returns (steps: seq<Step>, u: State)
    requires At(s, id) && s.tasks.ops[id] == MutationHeld && s.cell.active > 0
    ensures |steps| == 2 && Leads(s, steps, u)
    ensures u.origin == Origin(s.origin.version, s.origin.version) && u.redis == s.redis
    ensures u.cell.word % 2 == 1 && u.cell.marks == s.cell.marks + 1 && u.cell.active == s.cell.active - 1
    ensures u.tasks == s.tasks.(ops := s.tasks.ops - {id})
  {
    var t := Apply(s, MarkDropped(id));
    u := Apply(t, LeaveMutation(id));
    PathGoesOn(StepTo, s, [], s, MarkDropped(id), t);
    PathGoesOn(StepTo, s, [] + [MarkDropped(id)], t, LeaveMutation(id), u);
    steps := [] + [MarkDropped(id)] + [LeaveMutation(id)];
  }

  lemma MutationMarks(s: State, id: OpId) returns (steps: seq<Step>, u: State)
    requires id !in s.tasks.spawned
    ensures |steps| == 2 && Leads(s, steps, u)
    ensures At(u, id) && u.tasks.ops[id] == MutationHeld && u.cell.active == s.cell.active + 1
    ensures u.origin == Origin(s.origin.version, s.origin.version) && u.redis == s.redis
    ensures u.cell.word % 2 == 1 && u.cell.marks == s.cell.marks + 1
    ensures u.tasks == s.tasks.(ops := s.tasks.ops[id := MutationHeld], spawned := s.tasks.spawned + {id})
  {
    var t := Apply(s, BeginMutation(id));
    u := Apply(t, MarkBegun(id));
    PathGoesOn(StepTo, s, [], s, BeginMutation(id), t);
    PathGoesOn(StepTo, s, [] + [BeginMutation(id)], t, MarkBegun(id), u);
    steps := [] + [BeginMutation(id)] + [MarkBegun(id)];
  }

  /* Faults can happen at any time. */

  /** The epoch key or an entry is evicted. */
  lemma RedisForgets(s: State, key: (Generation, Route)) returns (u: State, v: State)
    ensures StepTo(s, EvictEpoch, u) && u == s.(redis := s.redis.(epoch := None))
    ensures StepTo(s, EvictEntry(key), v) && v == s.(redis := s.redis.(entries := s.redis.entries - {key}))
  {
    u, v := Apply(s, EvictEpoch), Apply(s, EvictEntry(key));
  }

  /** A command is lost, or runs without its caller hearing of it. */
  lemma CommandsFail(s: State, id: OpId) returns (u: State, v: State)
    requires id in s.redis.wire
    ensures StepTo(s, LoseCommand(id), u) && u == s.(redis := s.redis.(wire := s.redis.wire - {id}))
    ensures StepTo(s, Land(id, false), v) && v.tasks == s.tasks && v.redis.wire == s.redis.wire - {id}
    ensures s.redis.wire[id].SetEpoch? ==> v.redis.epoch == Some(s.redis.wire[id].minted)
  {
    u, v := Apply(s, LoseCommand(id)), Apply(s, Land(id, false));
  }

  /** A task is cancelled, mutations excepted, or the process starts again. */
  lemma TasksDie(s: State, id: OpId) returns (u: State, v: State)
    ensures At(s, id) && !IsMutation(s.tasks.ops[id]) ==>
              StepTo(s, Abandon(id), u) && u.redis == s.redis && u.tasks.ops == s.tasks.ops - {id}
              && u.tasks.lock == if s.tasks.lock == Some(id) then None else s.tasks.lock
    ensures StepTo(s, Restart, v) && v.tasks.ops == map[] && v.tasks.lock == None && v.redis == s.redis
    ensures v.cell.word == 1 && v.cell.active == 0 && v.origin.version == s.origin.version
  {
    u := if At(s, id) && !IsMutation(s.tasks.ops[id]) then Apply(s, Abandon(id)) else s;
    v := Apply(s, Restart);
  }
}
