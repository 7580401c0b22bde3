/** How many sessions the shell pool keeps (tools/bash/pool.go). */
module ShellPoolCapacity {
  import opened ShellPool
  import opened ShellPoolSteps
  import opened ShellPoolInvariant
  import opened ShellPoolSafety
  import opened ShellPoolLaws

  /** What a step does to the number of sessions. */
  lemma SizeMoves(s: State, t: Tid, c: Choice, s': State, pc: PC, pc': PC)
    requires Goes(s, t, c, s', pc, pc')
    ensures s'.sh.sessions != s.sh.sessions ==> HoldsPool(pc)
    ensures |s'.sh.sessions| <= |s.sh.sessions| + if pc.Getting? && pc.get.Publish? then 1 else 0
    ensures forall u :: u in s.pcs && u != t ==> u in s'.pcs && s'.pcs[u] == s.pcs[u]
    ensures forall u :: u in s'.pcs && u != t ==> u in s.pcs
  {
    ReachableInv(s);
    Stepwise(s, t, c, s', pc, pc');
    InvCanStep(s, t, c);
    var h := MovesAny(s.sh, t, pc, c);
    assert OwnMove(s.sh, s'.sh, pc, pc', h);
    if h.Published? {
      PublishesAt(s.sh, t, pc, c);
    }
  }

  /** Only the step at Publish adds a session. */
  lemma PublishesAt(s: Shared, t: Tid, pc: PC, c: Choice)
    requires Ready(s, pc)
    ensures var m := Step(s, t, pc, c);
            (pc.Getting? && pc.get.Publish?) || forall k :: k in m.sh.sessions ==> k in s.sessions
  {
    match pc
    case Getting(_, at) =>
      match at {
        case Room(goal) => if goal.Spawning? { }
        case Evict(_, goal) => if goal.Spawning? { }
        case EvictUnlock(_, _, goal) => if goal.Spawning? { }
        case _ =>
      }
    case _ =>
  }

  lemma OneHolder(s: State, t: Tid, u: Tid)
    requires Reachable(s) && t in s.pcs && u in s.pcs && HoldsPool(s.pcs[t]) && HoldsPool(s.pcs[u])
    ensures t == u
  {
    ReachableInv(s);
  }

  // ----- eviction happens only when the pool is full -----

  ghost predicate Evicting(pc: PC) {
    || (pc.Getting? && (pc.get.Evict? || pc.get.EvictUnlock?))
    || (pc.Closing? && pc.after.Evicted?)
  }

  /** Going on after making room. */
  lemma Resumes(s: Shared, key: Key, goal: Goal)
    ensures var m := Resume(s, key, goal);
            && m.sh.sessions == s.sessions && m.pc.Getting?
            && m.pc.get == match goal { case Spawning => Spawn case Publishing(sid) => Publish(sid) }
  {
  }

  lemma GetterStaysCrowded(s: Shared, t: Tid, key: Key, at: GetAt, c: Choice)
    requires Ready(s, Getting(key, at)) && (Evicting(Getting(key, at)) ==> |s.sessions| >= MAX_SESSIONS)
    ensures var m := GetStep(s, t, key, at, c); Evicting(m.pc) ==> |m.sh.sessions| >= MAX_SESSIONS
  {
    match at
    case Room(goal) => Resumes(s, key, goal);
    case Evict(candidates, goal) => if candidates == [] { Resumes(s, key, goal); }
    case EvictUnlock(sid, victim, goal) => Resumes(Unlist(Unlock(s, sid), victim), key, goal);
    case _ =>
  }

  lemma CloserStaysCrowded(s: Shared, t: Tid, sid: Sid, stage: Stage, after: After)
    requires sid in s.phases && (after.Evicted? ==> |s.sessions| >= MAX_SESSIONS)
    ensures var m := CloseStep(s, t, sid, stage, after); Evicting(m.pc) ==> |m.sh.sessions| >= MAX_SESSIONS
  {
  }

  lemma StaysCrowded(s: Shared, t: Tid, pc: PC, c: Choice)
    requires Ready(s, pc) && (Evicting(pc) ==> |s.sessions| >= MAX_SESSIONS)
    ensures var m := Step(s, t, pc, c); Evicting(m.pc) ==> |m.sh.sessions| >= MAX_SESSIONS
  {
    match pc
    case Getting(key, at) => GetterStaysCrowded(s, t, key, at, c);
    case Closing(sid, stage, after) => CloserStaysCrowded(s, t, sid, stage, after);
    case Idle =>
    case Executing(_, _, _) =>
    case Removing(_) =>
    case Reaping(_) =>
  }

  ghost predicate Crowded(s: State) {
    forall t :: t in s.pcs && Evicting(s.pcs[t]) ==> |s.sh.sessions| >= MAX_SESSIONS
  }

  lemma {:induction false} RunCrowded(trace: seq<State>)
    requires Run(trace)
    ensures Crowded(trace[|trace| - 1])
    decreases |trace|
  {
    var n := |trace| - 1;
    if n > 0 {
      RunCrowded(trace[..n]);
      var s, s' := trace[n - 1], trace[n];
      assert Reachable(s) by {
        assert trace[..n][n - 1] == s;
      }
      var t, c :| Follows(s, t, c, s');
      StepCrowded(s, t, c, s');
    }
  }

  lemma StepCrowded(s: State, t: Tid, c: Choice, s': State)
    requires Reachable(s) && Follows(s, t, c, s') && Crowded(s)
    ensures Crowded(s')
  {
    GoesSomewhere(s, t, c, s');
    Stepwise(s, t, c, s', s.pcs[t], s'.pcs[t]);
    SizeMoves(s, t, c, s', s.pcs[t], s'.pcs[t]);
    StaysCrowded(s.sh, t, s.pcs[t], c);
    forall u | u in s'.pcs && Evicting(s'.pcs[u]) ensures |s'.sh.sessions| >= MAX_SESSIONS {
      if u != t && s'.sh.sessions != s.sh.sessions {
        OneHolder(s, t, u);
      }
    }
  }

  /** A session is evicted only while at least MAX_SESSIONS are listed. */
  lemma EvictsOnlyWhenFull(s: State, t: Tid)
    requires Reachable(s) && t in s.pcs && Evicting(s.pcs[t])
    ensures |s.sh.sessions| >= MAX_SESSIONS
  {
    var trace :| Run(trace) && trace[|trace| - 1] == s;
    RunCrowded(trace);
  }

  // ----- the pool outgrows its size only when eviction meets busy sessions -----

  /** The next step of the thread is to pass over an eviction candidate whose lock is held. */
  ghost predicate PassesOver(s: State, t: Tid) {
    && t in s.pcs && s.pcs[t].Getting? && s.pcs[t].get.Evict?
    && var candidates := s.pcs[t].get.candidates;
       candidates != [] && candidates[0] in s.sh.sessions && s.sh.sessions[candidates[0]] in s.sh.locks
  }

  ghost predicate SmoothStep(s: State, s': State) {
    exists t, c :: Follows(s, t, c, s') && !PassesOver(s, t)
  }

  /** A run in which every session that eviction looks at is idle. */
  ghost predicate SmoothRun(trace: seq<State>)
    decreases |trace|
  {
    trace != [] &&
    var n := |trace| - 1;
    if n == 0 then Initial(trace[0])
    else SmoothRun(trace[..n]) && SmoothStep(trace[n - 1], trace[n])
  }

  lemma {:induction false} SmoothIsRun(trace: seq<State>)
    requires SmoothRun(trace)
    ensures Run(trace)
    decreases |trace|
  {
    var n := |trace| - 1;
    if n > 0 {
      SmoothIsRun(trace[..n]);
      var t, c :| Follows(trace[n - 1], t, c, trace[n]) && !PassesOver(trace[n - 1], t);
      assert Succeeds(trace[n - 1], trace[n]);
    }
  }

  /** Once there is to be room there is, and eviction has candidates left. */
  ghost predicate HasRoom(pc: PC, sessions: map<Key, Sid>) {
    pc.Getting? ==>
      && (pc.get.Publish? ==> |sessions| < MAX_SESSIONS)
      && (pc.get.Evict? ==> pc.get.candidates != [])
  }

  ghost predicate Within(s: State) {
    |s.sh.sessions| <= MAX_SESSIONS && forall t :: t in s.pcs ==> HasRoom(s.pcs[t], s.sh.sessions)
  }

  lemma FullIsEvicted(s: Shared, t: Tid, key: Key, goal: Goal, c: Choice)
    requires Enumerates(c.order, s.sessions) && |s.sessions| <= MAX_SESSIONS && Ready(s, Getting(key, Room(goal)))
    ensures var m := GetStep(s, t, key, Room(goal), c); m.sh.sessions == s.sessions && HasRoom(m.pc, s.sessions)
  {
    if |s.sessions| >= MAX_SESSIONS {
      ListedSome(s.sessions, c.order);
    } else {
      Resumes(s, key, goal);
    }
  }

  lemma EvictedLeavesRoom(s: Shared, t: Tid, key: Key, sid: Sid, victim: Key, goal: Goal, c: Choice)
    requires victim in s.sessions && |s.sessions| <= MAX_SESSIONS
    requires Ready(s, Getting(key, EvictUnlock(sid, victim, goal)))
    ensures var m := GetStep(s, t, key, EvictUnlock(sid, victim, goal), c);
            |m.sh.sessions| < MAX_SESSIONS && HasRoom(m.pc, m.sh.sessions)
  {
    OneLess(s.sessions, victim);
    Resumes(Unlist(Unlock(s, sid), victim), key, goal);
  }

  lemma GetterFindsRoom(s: Shared, t: Tid, key: Key, at: GetAt, c: Choice)
    requires Ready(s, Getting(key, at)) && Enumerates(c.order, s.sessions)
    requires Local(Getting(key, at), t, s.sessions, s.phases)
    requires |s.sessions| <= MAX_SESSIONS && HasRoom(Getting(key, at), s.sessions)
    requires at.Evict? ==> s.sessions[at.candidates[0]] !in s.locks
    ensures var m := GetStep(s, t, key, at, c); |m.sh.sessions| <= MAX_SESSIONS && HasRoom(m.pc, m.sh.sessions)
  {
    match at
    case Room(goal) => FullIsEvicted(s, t, key, goal, c);
    case EvictUnlock(sid, victim, goal) => EvictedLeavesRoom(s, t, key, sid, victim, goal, c);
    case Evict(_, _) =>
    case _ =>
  }

  lemma ListedSome(sessions: map<Key, Sid>, order: seq<Key>)
    requires Enumerates(order, sessions) && |sessions| > 0
    ensures order != []
  {
    assert sessions.Keys != {};
    var k :| k in sessions.Keys;
  }

  lemma OneLess(sessions: map<Key, Sid>, key: Key)
    requires key in sessions
    ensures |sessions - {key}| == |sessions| - 1
  {
    assert (sessions - {key}).Keys == sessions.Keys - {key};
    assert |(sessions - {key}).Keys| == |sessions - {key}|;
  }

  lemma OwnRoom(s: State, t: Tid, c: Choice, s': State, pc: PC, pc': PC)
    requires Goes(s, t, c, s', pc, pc') && !PassesOver(s, t) && Within(s)
    ensures |s'.sh.sessions| <= MAX_SESSIONS && HasRoom(pc', s'.sh.sessions)
  {
    Stepwise(s, t, c, s', pc, pc');
    SizeMoves(s, t, c, s', pc, pc');
    if pc.Getting? {
      GetterFindsRoom(s.sh, t, pc.key, pc.get, c);
    } else {
      LeavesRoom(s.sh, t, pc, c);
    }
  }

  lemma LeavesRoom(s: Shared, t: Tid, pc: PC, c: Choice)
    requires Ready(s, pc) && !pc.Getting?
    ensures HasRoom(Step(s, t, pc, c).pc, Step(s, t, pc, c).sh.sessions)
  {
  }

  lemma StepWithin(s: State, t: Tid, c: Choice, s': State)
    requires Reachable(s) && Follows(s, t, c, s') && !PassesOver(s, t) && Within(s)
    ensures Within(s')
  {
    GoesSomewhere(s, t, c, s');
    OwnRoom(s, t, c, s', s.pcs[t], s'.pcs[t]);
    SizeMoves(s, t, c, s', s.pcs[t], s'.pcs[t]);
    forall u | u in s'.pcs ensures HasRoom(s'.pcs[u], s'.sh.sessions) {
      if u != t && s'.pcs[u].Getting? && s'.pcs[u].get.Publish? && s'.sh.sessions != s.sh.sessions {
        OneHolder(s, t, u);
      }
    }
  }

  /** As long as eviction never has to pass over a busy session, at most MAX_SESSIONS are listed. */
  lemma {:induction false} CapacityIsKept(trace: seq<State>)
    requires SmoothRun(trace)
    ensures Within(trace[|trace| - 1]) && |trace[|trace| - 1].sh.sessions| <= 5
    decreases |trace|
  {
    var n := |trace| - 1;
    if n > 0 {
      CapacityIsKept(trace[..n]);
      SmoothIsRun(trace[..n]);
      var s := trace[n - 1];
      assert Reachable(s) by {
        assert trace[..n][n - 1] == s;
      }
      var t, c :| Follows(s, t, c, trace[n]) && !PassesOver(s, t);
      StepWithin(s, t, c, trace[n]);
    }
  }
}
