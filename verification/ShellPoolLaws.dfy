/** What the steps of the shell pool do in every reachable state, told without its step functions: who may close a
    session and when, how the clock of a session moves, and what getOrCreate returns (tools/bash/pool.go, exec.go,
    handler.go). */
module ShellPoolLaws {
  import opened Wrappers
  import opened ShellPool
  import opened ShellPoolInvariant
  import opened ShellPoolSafety

  /** Thread `t` takes a step in a reachable state that leads it from `pc` to `pc'`. */
  ghost predicate Goes(s: State, t: Tid, c: Choice, s': State, pc: PC, pc': PC) {
    Reachable(s) && Follows(s, t, c, s') && s.pcs[t] == pc && t in s'.pcs && s'.pcs[t] == pc'
  }

  lemma Stepwise(s: State, t: Tid, c: Choice, s': State, pc: PC, pc': PC)
    requires Goes(s, t, c, s', pc, pc')
    ensures Ready(s.sh, pc) && Step(s.sh, t, pc, c) == Move(s'.sh, pc')
    ensures Legal(s.sh, c) && Local(pc, t, s.sh.sessions, s.sh.phases)
  {
    ReachableInv(s);
    InvReady(s, t);
  }

  /** A thread that may go on in a reachable state is somewhere afterwards. */
  lemma GoesSomewhere(s: State, t: Tid, c: Choice, s': State)
    requires Reachable(s) && Follows(s, t, c, s')
    ensures t in s'.pcs && Goes(s, t, c, s', s.pcs[t], s'.pcs[t])
  {
    ReachableInv(s);
    InvReady(s, t);
  }

  /** The session's process has been waited for. */
  ghost predicate Dead(s: Shared, sid: Sid) {
    sid in s.phases && (s.phases[sid].Waited? || s.phases[sid].Closed?)
  }

  /** The session was last used more than half an hour ago. */
  ghost predicate Stale(s: Shared, sid: Sid, now: int) {
    sid in s.lastUsed && now - s.lastUsed[sid] > 30 * 60
  }

  // ----- the reaper -----

  /** A pass of the reaper reads the clock once and looks at every listed session. */
  lemma PassBegins(s: State, t: Tid, c: Choice, s': State, pc': PC)
    requires Goes(s, t, c, s', Reaping(ReapLock), pc')
    ensures exists keys :: pc' == Reaping(Todo(keys, c.now)) && Enumerates(keys, s'.sh.sessions)
  {
    Stepwise(s, t, c, s', Reaping(ReapLock), pc');
    assert pc' == Reaping(Todo(c.order, c.now));
  }

  /** The reaper closes the session in hand exactly when it is dead or stale and nobody holds its lock. */
  ghost predicate ReapsRightly(s: Shared, s': Shared, t: Tid, keys: seq<Key>, now: int, pc': PC)
    requires keys != []
  {
    keys[0] in s.sessions &&
    var sid := s.sessions[keys[0]];
    if (Dead(s, sid) || Stale(s, sid, now)) && sid !in s.locks
    then pc' == Closing(sid, Enter, Reaped(keys[0], keys[1..], now)) && s'.locks == s.locks[sid := t]
    else pc' == Reaping(Todo(keys[1..], now)) && s' == s
  }

  lemma ReapsExactlyTheStale(s: State, t: Tid, c: Choice, s': State, keys: seq<Key>, now: int, pc': PC)
    requires Goes(s, t, c, s', Reaping(Todo(keys, now)), pc') && keys != []
    ensures ReapsRightly(s.sh, s'.sh, t, keys, now, pc')
  {
    Stepwise(s, t, c, s', Reaping(Todo(keys, now)), pc');
    ReapsOne(s.sh, t, keys, now, c, Move(s'.sh, pc'));
  }

  lemma ReapsOne(s: Shared, t: Tid, keys: seq<Key>, now: int, c: Choice, m: Move)
    requires Ready(s, Reaping(Todo(keys, now))) && keys != [] && m == ReapStep(s, t, Todo(keys, now), c)
    ensures ReapsRightly(s, m.sh, t, keys, now, m.pc)
  {
  }

  /** When the session is closed the reaper unlists it, and then goes on with the others. */
  lemma ReapedIsUnlisted(s: State, t: Tid, c: Choice, s': State, sid: Sid, stage: Stage, key: Key, rest: seq<Key>,
                         now: int,
                         pc': PC)
    requires Goes(s, t, c, s', Closing(sid, stage, Reaped(key, rest, now)), pc') && !pc'.Closing?
    ensures pc' == Reaping(ReapUnlock(sid, rest, now)) && IsClosed(sid, s'.sh.phases)
    ensures Entry(key, sid, s.sh.sessions) && s'.sh.sessions == s.sh.sessions - {key}
  {
    ReachableInv(s);
    Stepwise(s, t, c, s', Closing(sid, stage, Reaped(key, rest, now)), pc');
    StepKeepsInv(s, t, c);
    assert Local(pc', t, s'.sh.sessions, s'.sh.phases);
  }

  // ----- who may close a session -----

  /** A thread enters close() only on a session whose lock it then holds, one it spawned itself and has not published,
      or a dead one. */
  ghost predicate MayClose(s: Shared, s': Shared, t: Tid, pc: PC, sid: Sid) {
    (sid in s'.locks && s'.locks[sid] == t) || Fresh(pc) == Some(sid) || Dead(s, sid)
  }

  lemma ClosesOnlyItsOwn(s: State, t: Tid, c: Choice, s': State, pc: PC, pc': PC)
    requires Goes(s, t, c, s', pc, pc') && !pc.Closing? && pc'.Closing?
    ensures MayClose(s.sh, s'.sh, t, pc, pc'.sid)
  {
    Stepwise(s, t, c, s', pc, pc');
    match pc
    case Getting(key, at) => GetterCloses(s.sh, t, key, at, c, Move(s'.sh, pc'));
    case Executing(_, _, _) =>
      ReachableLocks(s);
      ExecutorHolds(s, t);
    case Removing(_) =>
    case Reaping(_) =>
    case Idle =>
  }

  lemma ReachableLocks(s: State)
    requires Reachable(s)
    ensures LocksAgree(s)
  {
    ReachableInv(s);
  }

  lemma ExecutorHolds(s: State, t: Tid)
    requires LocksAgree(s) && t in s.pcs && s.pcs[t].Executing? && !s.pcs[t].exec.ExecLock?
    ensures s.pcs[t].sid in s.sh.locks && s.sh.locks[s.pcs[t].sid] == t
  {
    assert Held(s.pcs[t]) == Some(s.pcs[t].sid);
  }

  lemma GetterCloses(s: Shared, t: Tid, key: Key, at: GetAt, c: Choice, m: Move)
    requires Ready(s, Getting(key, at)) && m == GetStep(s, t, key, at, c) && m.pc.Closing?
    ensures MayClose(s, m.sh, t, Getting(key, at), m.pc.sid)
  {
    match at
    case Check =>
    case Evict(_, _) =>
    case Recheck(_) =>
    case Room(goal) => if goal.Spawning? { }
    case EvictUnlock(_, _, goal) => if goal.Spawning? { }
    case _ =>
  }

  // ----- the clock of a session -----

  /** The thread starts or finishes a command on the session. */
  ghost predicate Uses(pc: PC, pc': PC, sid: Sid) {
    && pc.Executing? && pc'.Executing? && pc.sid == sid
    && ((pc.exec.ExecCheck? && pc'.exec.Running?) || (pc.exec.Running? && pc'.exec == ExecUnlock(false)))
  }

  /** A session's clock is set when it is spawned and when a command on it starts or finishes, and at no other time. */
  ghost predicate ClockRight(s: Shared, s': Shared, pc: PC, pc': PC, now: int, sid: Sid) {
    sid in s'.phases ==>
      && sid in s'.lastUsed && (sid in s.phases ==> sid in s.lastUsed)
      && s'.lastUsed[sid] == if sid !in s.phases || Uses(pc, pc', sid) then now else s.lastUsed[sid]
  }

  lemma ClockMovesOnUse(s: State, t: Tid, c: Choice, s': State, pc: PC, pc': PC, sid: Sid)
    requires Goes(s, t, c, s', pc, pc')
    ensures ClockRight(s.sh, s'.sh, pc, pc', c.now, sid)
  {
    Clocked(s, sid);
    Stepwise(s, t, c, s', pc, pc');
    match pc
    case Getting(key, at) => GetterClock(s.sh, t, key, at, c, sid);
    case Closing(target, stage, after) => CloserClock(s.sh, t, target, stage, after, c, sid);
    case Executing(_, _, _) =>
    case Removing(_) =>
    case Reaping(_) =>
    case Idle =>
  }

  lemma Clocked(s: State, sid: Sid)
    requires Reachable(s)
    ensures sid in s.sh.phases ==> sid in s.sh.lastUsed
  {
    ReachableInv(s);
  }

  lemma GetterClock(s: Shared, t: Tid, key: Key, at: GetAt, c: Choice, sid: Sid)
    requires Ready(s, Getting(key, at)) && (sid in s.phases ==> sid in s.lastUsed)
    requires c.started.Some? ==> c.started.value !in s.phases
    ensures var m := GetStep(s, t, key, at, c); ClockRight(s, m.sh, Getting(key, at), m.pc, c.now, sid)
  {
    match at
    case Room(goal) => if goal.Spawning? { }
    case Evict(_, goal) => if goal.Spawning? { }
    case EvictUnlock(_, _, goal) => if goal.Spawning? { }
    case _ =>
  }

  lemma CloserClock(s: Shared, t: Tid, target: Sid, stage: Stage, after: After, c: Choice, sid: Sid)
    requires target in s.phases && (sid in s.phases ==> sid in s.lastUsed)
    ensures var m := CloseStep(s, t, target, stage, after);
            ClockRight(s, m.sh, Closing(target, stage, after), m.pc, c.now, sid)
  {
  }

  // ----- looking up a session -----

  /** A listed session that is not dead is returned at once, a dead one is closed for good, and only without one, or
      after that, a new session is started. */
  lemma ListedIsReused(s: State, t: Tid, c: Choice, s': State, key: Key, pc': PC)
    requires Goes(s, t, c, s', Getting(key, Check), pc')
    ensures key !in s.sh.sessions ==> pc' == Getting(key, Room(Spawning))
    ensures key in s.sh.sessions ==>
              var sid := s.sh.sessions[key];
              pc' == if Dead(s.sh, sid) then Closing(sid, Enter, DropDead(key)) else Executing(key, sid, ExecLock)
  {
    Stepwise(s, t, c, s', Getting(key, Check), pc');
  }

  /** A session is started only when the spawn succeeds, and is open then; what another thread listed meanwhile wins. */
  lemma StartsOneSession(s: State, t: Tid, c: Choice, s': State, key: Key, pc': PC)
    requires Goes(s, t, c, s', Getting(key, Spawn), pc')
    ensures c.started.None? ==> pc' == Idle && s'.sh == s.sh
    ensures c.started.Some? ==>
              && c.started.value !in s.sh.phases && pc' == Getting(key, Relock(c.started.value))
              && s'.sh.phases == s.sh.phases[c.started.value := Open]
  {
    Stepwise(s, t, c, s', Getting(key, Spawn), pc');
  }

  lemma ListedMeanwhileWins(s: State, t: Tid, c: Choice, s': State, key: Key, sid: Sid, pc': PC)
    requires Goes(s, t, c, s', Getting(key, Recheck(sid)), pc')
    ensures pc' == if key in s.sh.sessions then Closing(sid, Enter, UseTheirs(key, s.sh.sessions[key]))
                   else Getting(key, Room(Publishing(sid)))
  {
    Stepwise(s, t, c, s', Getting(key, Recheck(sid)), pc');
  }

  // ----- what getOrCreate returns -----

  /** The session it returns is the one listed under its key, and the pool lock is free again. A session that it found
      on its first look is alive. */
  lemma ReturnsTheListed(s: State, t: Tid, c: Choice, s': State, pc: PC, key: Key, sid: Sid)
    requires Goes(s, t, c, s', pc, Executing(key, sid, ExecLock)) && !pc.Executing?
    ensures Entry(key, sid, s'.sh.sessions) && s'.sh.pool.None?
    ensures pc.Getting? && pc.get.Check? ==> !Dead(s'.sh, sid)
  {
    Stepwise(s, t, c, s', pc, Executing(key, sid, ExecLock));
    match pc
    case Getting(k, at) => GetterReturns(s.sh, t, k, at, c, Move(s'.sh, Executing(key, sid, ExecLock)));
    case Closing(target, stage, after) => assert after == UseTheirs(key, sid);
    case _ =>
  }

  lemma GetterReturns(s: Shared, t: Tid, key: Key, at: GetAt, c: Choice, m: Move)
    requires Ready(s, Getting(key, at)) && m == GetStep(s, t, key, at, c) && m.pc.Executing?
    ensures m.pc.exec.ExecLock? && m.pc.key == key && Entry(key, m.pc.sid, m.sh.sessions) && m.sh.pool.None?
    ensures at.Check? ==> !Dead(m.sh, m.pc.sid)
  {
    match at
    case Room(goal) => if goal.Spawning? { }
    case Evict(_, goal) => if goal.Spawning? { }
    case EvictUnlock(_, _, goal) => if goal.Spawning? { }
    case _ =>
  }

  // ----- how a command ends -----

  /** A command is run exactly on a session that is not dead; it counts as done only when it finished, and then the
      session is still open when its lock is let go. */
  lemma CommandIsChecked(s: State, t: Tid, c: Choice, s': State, key: Key, sid: Sid, at: ExecAt, pc': PC)
    requires Goes(s, t, c, s', Executing(key, sid, at), pc')
    ensures at.ExecCheck? ==> pc' == Executing(key, sid, if Dead(s.sh, sid) then ExecUnlock(true) else Running)
    ensures pc' == Executing(key, sid, ExecUnlock(false)) ==> at.Running? && c.outcome.Finish?
    ensures at.Running? && c.outcome.Timeout? ==> pc' == Closing(sid, Enter, TimedOut(key))
    ensures pc'.Idle? ==> IsOpen(s'.sh, sid) && sid !in s'.sh.locks
  {
    Stepwise(s, t, c, s', Executing(key, sid, at), pc');
  }

  ghost predicate IsOpen(s: Shared, sid: Sid) {
    sid in s.phases && s.phases[sid].Open?
  }

  /** Whatever else ends it, its session is removed from the pool next. */
  lemma FailureIsRemoved(s: State, t: Tid, c: Choice, s': State, key: Key, sid: Sid, at: ExecAt, pc': PC)
    requires Goes(s, t, c, s', Executing(key, sid, at), pc') && !pc'.Executing? && !pc'.Closing? && !pc'.Idle?
    ensures pc' == Removing(RemoveLock(key)) && at == ExecUnlock(true)
  {
    Stepwise(s, t, c, s', Executing(key, sid, at), pc');
  }

  /** After a timeout the session is closed and the command has failed. */
  lemma TimeoutFails(s: State, t: Tid, c: Choice, s': State, key: Key, sid: Sid, stage: Stage, pc': PC)
    requires Goes(s, t, c, s', Closing(sid, stage, TimedOut(key)), pc') && !pc'.Closing?
    ensures pc' == Executing(key, sid, ExecUnlock(true)) && IsClosed(sid, s'.sh.phases)
  {
    ReachableInv(s);
    Stepwise(s, t, c, s', Closing(sid, stage, TimedOut(key)), pc');
    assert !Blocked(s.sh, Closing(sid, stage, TimedOut(key)));
  }

  /** Removing a key unlists its session and closes it under its lock; nothing happens when there is none. */
  lemma RemovesTheListed(s: State, t: Tid, c: Choice, s': State, key: Key, pc': PC)
    requires Goes(s, t, c, s', Removing(Take(key)), pc')
    ensures s'.sh.sessions == s.sh.sessions - {key} && s'.sh.pool.None?
    ensures pc' == if key in s.sh.sessions then Removing(WaitSession(s.sh.sessions[key])) else Idle
  {
    Stepwise(s, t, c, s', Removing(Take(key)), pc');
  }

  // ----- eviction -----

  /** Eviction closes the first candidate whose lock is free and passes over the others. */
  lemma EvictsTheFirstFree(s: State, t: Tid, c: Choice, s': State, key: Key, candidates: seq<Key>, goal: Goal, pc': PC)
    requires Goes(s, t, c, s', Getting(key, Evict(candidates, goal)), pc') && candidates != []
    ensures candidates[0] in s.sh.sessions
    ensures var sid := s.sh.sessions[candidates[0]];
            pc' == if sid in s.sh.locks then Getting(key, Evict(candidates[1..], goal))
                   else Closing(sid, Enter, Evicted(key, candidates[0], goal))
  {
    Stepwise(s, t, c, s', Getting(key, Evict(candidates, goal)), pc');
  }
}
