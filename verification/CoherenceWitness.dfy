/** A run in which the cache answers: a first lookup repairs the word, misses, renders
    and stores; a second one hits. The theorems about hits are not empty. */
module CoherenceWitness {
  import opened Common
  import opened CoherenceProtocol

  ghost predicate Reachable(s: State) {
    exists states, steps :: IsRun(states, steps) && NeverWraps(states) && states[|states| - 1] == s
  }

  lemma Reach(s: State, step: Step, t: State)
    requires Reachable(s) && Enabled(s, step) && t == Apply(s, step) && NoWrap(t)
    ensures Reachable(t)
  {
    var states, steps :| IsRun(states, steps) && NeverWraps(states) && states[|states| - 1] == s;
    assert IsRun(states + [t], steps + [step]);
    assert (states + [t])[|states + [t]| - 1] == t;
  }

  /** One operation in flight, nothing committed yet. */
  function Alone(cell: Cell, lock: Option<OpId>, op: Op, redis: Redis): State {
    State(Origin(0, 0), cell, Tasks(lock, map[0 := op], {0}), redis)
  }

  const EMPTY: Redis := Redis(map[], {}, map[], None, map[])
  const DIRTY: Cell := Cell(1, 1, 0, 0)
  const CLEAN: Cell := Cell(2, 2, 0, 0)

  function Live(wire: map<OpId, Command>, drawn: set<Generation>, g: Generation,
                entries: map<(Generation, Route), Value>): Redis
  {
    Redis(wire, drawn, map[g := 0], Some(g), entries)
  }

  lemma Started(route: Route)
    ensures Reachable(Alone(DIRTY, None, LookupIdle(route), EMPTY))
  {
    var s := State(Origin(0, 0), DIRTY, Tasks(None, map[], {}), EMPTY);
    assert IsRun([s], []) && NeverWraps([s]) && [s][|[s]| - 1] == s;
    Reach(s, StartLookup(0, route), Alone(DIRTY, None, LookupIdle(route), EMPTY));
  }

  lemma Progress(cell: Cell, lock: Option<OpId>, op: Op, redis: Redis, step: Step, lock': Option<OpId>, op': Op)
    requires Reachable(Alone(cell, lock, op, redis)) && NoWrap(Alone(cell, lock, op, redis))
    requires Enabled(Alone(cell, lock, op, redis), step)
    requires Apply(Alone(cell, lock, op, redis), step) ==
             Go(Alone(cell, lock', op, redis), 0, op')
    ensures Reachable(Alone(cell, lock', op', redis))
  {
    Reach(Alone(cell, lock, op, redis), step, Alone(cell, lock', op', redis));
  }

  lemma Entered(route: Route)
    ensures Reachable(Alone(DIRTY, None, Waiting(LookupGoal(route, 0)), EMPTY))
  {
    var goal := LookupGoal(route, 0);
    Started(route);
    Progress(DIRTY, None, LookupIdle(route), EMPTY, CheckLookup(0), None, LookupChecked(route, 0));
    Progress(DIRTY, None, LookupChecked(route, 0), EMPTY, ObserveWord(0), None, RepairEntered(goal));
    Progress(DIRTY, None, RepairEntered(goal), EMPTY, CheckRepair(0), None, RepairChecked(goal));
    Progress(DIRTY, None, RepairChecked(goal), EMPTY, RecheckWord(0), None, Waiting(goal));
  }

  lemma Looping(route: Route)
    ensures Reachable(Alone(DIRTY, Some(0), Ticketed(LookupGoal(route, 0), 0, 0, 1), EMPTY))
  {
    var goal := LookupGoal(route, 0);
    Entered(route);
    Progress(DIRTY, None, Waiting(goal), EMPTY, AcquireLock(0), Some(0), Locked(goal));
    Progress(DIRTY, Some(0), Locked(goal), EMPTY, CheckLocked(0), Some(0), LoopTop(goal, 0, 0));
    Progress(DIRTY, Some(0), LoopTop(goal, 0, 0), EMPTY, CheckLoop(0), Some(0), LoopChecked(goal, 0, 0));
    Progress(DIRTY, Some(0), LoopChecked(goal, 0, 0), EMPTY, LoadTicket(0), Some(0), Ticketed(goal, 0, 0, 1));
  }

  lemma Rotated(route: Route, g: Generation)
    ensures Reachable(Alone(CLEAN, None, LookupSafe(route, 0), Live(map[], {g}, g, map[])))
  {
    var goal := LookupGoal(route, 0);
    var sent := Alone(DIRTY, Some(0), RotationSent(goal, 0, 0, 1), Redis(map[0 := SetEpoch(g)], {g}, map[], None, map[]));
    var replied := Alone(DIRTY, Some(0), RotationReplied(goal, 0, 0, 1), Live(map[], {g}, g, map[]));
    Looping(route);
    Reach(Alone(DIRTY, Some(0), Ticketed(goal, 0, 0, 1), EMPTY), SendRotation(0, g), sent);
    Reach(sent, Land(0, true), replied);
    Reach(replied, TryPublish(0), Alone(CLEAN, None, LookupSafe(route, 0), Live(map[], {g}, g, map[])));
  }

  lemma Missed(route: Route, g: Generation, h: Generation)
    requires g != h
    ensures Reachable(Alone(CLEAN, None, RenderPending(route, g), Live(map[], {g, h}, g, map[])))
  {
    var sent := Alone(CLEAN, None, LookupSent(route, 0), Live(map[0 := LookupScript(route, h)], {g, h}, g, map[]));
    var missed := Alone(CLEAN, None, LookupReturned(route, 0, g, None), Live(map[], {g, h}, g, map[]));
    Rotated(route, g);
    Reach(Alone(CLEAN, None, LookupSafe(route, 0), Live(map[], {g}, g, map[])), SendLookup(0, h), sent);
    Reach(sent, Land(0, true), missed);
    Progress(CLEAN, None, LookupReturned(route, 0, g, None), Live(map[], {g, h}, g, map[]), StartRender(0), None,
             RenderPending(route, g));
  }

  lemma Filled(route: Route, g: Generation, h: Generation)
    requires g != h
    ensures Reachable(Alone(CLEAN, None, StoreSent,
                            Live(map[], {g, h}, g, map[(g, route) := Rendering(route, 0, 1)])))
  {
    var value := Rendering(route, 0, 1);
    var sent := Alone(CLEAN, None, StoreSent, Live(map[0 := StoreScript(g, route, value)], {g, h}, g, map[]));
    Missed(route, g, h);
    Progress(CLEAN, None, RenderPending(route, g), Live(map[], {g, h}, g, map[]), RenderOrigin(0, 1), None,
             Rendered(route, g, value));
    Reach(Alone(CLEAN, None, Rendered(route, g, value), Live(map[], {g, h}, g, map[])), SendStore(0), sent);
    Reach(sent, Land(0, true), Alone(CLEAN, None, StoreSent, Live(map[], {g, h}, g, map[(g, route) := value])));
  }

  /** A second operation next to the finished store. */
  function Second(op: Op, redis: Redis): State {
    State(Origin(0, 0), CLEAN, Tasks(None, map[0 := StoreSent, 1 := op], {0, 1}), redis)
  }

  lemma SecondStarted(route: Route, g: Generation, h: Generation)
    requires g != h
    ensures Reachable(Second(LookupSafe(route, 0), Live(map[], {g, h}, g, map[(g, route) := Rendering(route, 0, 1)])))
  {
    var redis := Live(map[], {g, h}, g, map[(g, route) := Rendering(route, 0, 1)]);
    Filled(route, g, h);
    Reach(Alone(CLEAN, None, StoreSent, redis), StartLookup(1, route), Second(LookupIdle(route), redis));
    Reach(Second(LookupIdle(route), redis), CheckLookup(1), Second(LookupChecked(route, 0), redis));
    Reach(Second(LookupChecked(route, 0), redis), ObserveWord(1), Second(LookupSafe(route, 0), redis));
  }

  lemma HitsHappen(route: Route, g: Generation, h: Generation, i: Generation) returns (s: State)
    requires g != h && g != i && h != i
    ensures Reachable(s) && 1 in s.tasks.ops
    ensures s.tasks.ops[1] == LookupReturned(route, 0, g, Some(Rendering(route, 0, 1)))
  {
    var entries := map[(g, route) := Rendering(route, 0, 1)];
    var sent := Second(LookupSent(route, 0), Live(map[1 := LookupScript(route, i)], {g, h, i}, g, entries));
    SecondStarted(route, g, h);
    Reach(Second(LookupSafe(route, 0), Live(map[], {g, h}, g, entries)), SendLookup(1, i), sent);
    s := Second(LookupReturned(route, 0, g, Some(Rendering(route, 0, 1))), Live(map[], {g, h, i}, g, entries));
    Reach(sent, Land(1, true), s);
  }
}
