/** What one step of one thread of the shell pool may change. */
module ShellPoolSteps {
  import opened Wrappers
  import opened ShellPool

  ghost predicate PoolMove(s: Shared, s': Shared, t: Tid, pc: PC, pc': PC) {
    || (s'.pool == s.pool && (HoldsPool(pc') <==> HoldsPool(pc)))
    || (s.pool.None? && s'.pool == Some(t) && HoldsPool(pc'))
    || (HoldsPool(pc) && s'.pool.None? && !HoldsPool(pc'))
  }

  ghost predicate LockMove(s: Shared, s': Shared, t: Tid, pc: PC, pc': PC) {
    || (s'.locks == s.locks && Held(pc) == Held(pc'))
    || (Held(pc).None? && Held(pc').Some? && Held(pc').value !in s.locks && s'.locks == s.locks[Held(pc').value := t])
    || (Held(pc).Some? && Held(pc').None? && s'.locks == s.locks - {Held(pc).value})
  }

  ghost predicate PhaseMove(s: Shared, s': Shared, t: Tid, pc: PC, pc': PC) {
    || (s'.phases == s.phases && (pc.Closing? ==> pc.stage.Enter?) && (pc'.Closing? ==> pc'.stage.Enter?))
    || (pc.Closing? && pc.stage.Enter? && pc.sid in s.phases && s.phases[pc.sid].Open?
        && pc' == pc.(stage := Kill) && s'.phases == s.phases[pc.sid := Killing(t)])
    || (pc.Closing? && pc.stage.Kill? && pc' == pc.(stage := Wait) && s'.phases == s.phases[pc.sid := Waited(t)])
    || (pc.Closing? && pc.stage.Wait? && !pc'.Closing? && s'.phases == s.phases[pc.sid := Closed])
    || (Fresh(pc').Some? && Fresh(pc').value !in s.phases && !pc.Closing? && !pc'.Closing?
        && s'.phases == s.phases[Fresh(pc').value := Open])
  }

  /** The ways in which one step can move a session between the map, an owner and nowhere. */
  datatype Handover =
    | Keep
    | Forget(key: Key, sid: Sid)
    | Spawned(sid: Sid)
    | Published(key: Key, sid: Sid)
    | Discarded(sid: Sid)
    | TakenOut(key: Key, sid: Sid)

  ghost predicate Owner(pc: PC, spawned: Option<Sid>, taken: Option<Sid>) {
    Fresh(pc) == spawned && Taken(pc) == taken
  }

  ghost predicate OwnMove(s: Shared, s': Shared, pc: PC, pc': PC, h: Handover) {
    match h
    case Keep => Owner(pc', Fresh(pc), Taken(pc)) && s'.sessions == s.sessions
    case Forget(key, sid) =>
      && Owner(pc', Fresh(pc), Taken(pc)) && HoldsPool(pc) && IsClosed(sid, s'.phases)
      && Entry(key, sid, s.sessions) && s'.sessions == s.sessions - {key}
    case Spawned(sid) =>
      && Owner(pc, None, None) && Owner(pc', Some(sid), None) && s'.sessions == s.sessions
      && sid !in s.phases && sid in s'.phases && sid in s'.lastUsed
    case Published(key, sid) =>
      && Owner(pc, Some(sid), None) && Owner(pc', None, None) && HoldsPool(pc)
      && key !in s.sessions && s'.sessions == s.sessions[key := sid]
    case Discarded(sid) =>
      && (Owner(pc, Some(sid), None) || Owner(pc, None, Some(sid))) && Owner(pc', None, None)
      && IsClosed(sid, s'.phases) && s'.sessions == s.sessions
    case TakenOut(key, sid) =>
      && Owner(pc, None, None) && Owner(pc', None, Some(sid)) && HoldsPool(pc)
      && Entry(key, sid, s.sessions) && s'.sessions == s.sessions - {key}
  }

  ghost predicate Moves(s: Shared, t: Tid, pc: PC, m: Move, h: Handover) {
    && PoolMove(s, m.sh, t, pc, m.pc) && LockMove(s, m.sh, t, pc, m.pc)
    && PhaseMove(s, m.sh, t, pc, m.pc) && OwnMove(s, m.sh, pc, m.pc, h)
    && Local(m.pc, t, m.sh.sessions, m.sh.phases)
  }

  ghost predicate CanStep(s: Shared, t: Tid, pc: PC, c: Choice) {
    && Ready(s, pc) && !Blocked(s, pc) && (c.started.Some? ==> c.started.value !in s.phases)
    && Local(pc, t, s.sessions, s.phases)
    && (pc.Executing? && pc.exec.ExecCheck? ==> !s.phases[pc.sid].Killing?)
  }

  lemma MovesGet(s: Shared, t: Tid, key: Key, at: GetAt, c: Choice) returns (h: Handover)
    requires CanStep(s, t, Getting(key, at), c) && !at.Room? && !at.Evict? && !at.EvictUnlock?
    ensures Moves(s, t, Getting(key, at), GetStep(s, t, key, at, c), h)
  {
    h := Keep;
    match at
    case Check => if key in s.sessions { if Alive(s, s.sessions[key]) { } }
    case Spawn => if c.started.Some? { h := Spawned(c.started.value); }
    case Recheck(_) => if key in s.sessions { }
    case Publish(sid) => h := Published(key, sid);
    case _ =>
  }

  lemma MovesRoom(s: Shared, t: Tid, key: Key, at: GetAt, c: Choice)
    requires CanStep(s, t, Getting(key, at), c) && at.Room?
    ensures Moves(s, t, Getting(key, at), GetStep(s, t, key, at, c), Keep)
  {
    if |s.sessions| < MAX_SESSIONS {
      MovesResume(s, t, key, at, c);
    }
  }

  lemma MovesResume(s: Shared, t: Tid, key: Key, at: GetAt, c: Choice)
    requires CanStep(s, t, Getting(key, at), c) && at.Room?
    ensures Moves(s, t, Getting(key, at), Resume(s, key, at.goal), Keep)
  {
    match at.goal
    case Spawning =>
    case Publishing(_) =>
  }

  lemma MovesCandidate(s: Shared, t: Tid, key: Key, at: GetAt, c: Choice)
    requires CanStep(s, t, Getting(key, at), c) && at.Evict?
    ensures Moves(s, t, Getting(key, at), GetStep(s, t, key, at, c), Keep)
  {
  }

  lemma MovesEvicted(s: Shared, t: Tid, key: Key, at: GetAt, c: Choice)
    requires CanStep(s, t, Getting(key, at), c) && at.EvictUnlock?
    ensures Moves(s, t, Getting(key, at), GetStep(s, t, key, at, c), Forget(at.victim, at.sid))
  {
  }

  lemma MovesExec(s: Shared, t: Tid, key: Key, sid: Sid, at: ExecAt, c: Choice)
    requires CanStep(s, t, Executing(key, sid, at), c)
    ensures Moves(s, t, Executing(key, sid, at), ExecStep(s, t, key, sid, at, c), Keep)
  {
  }

  lemma MovesRemove(s: Shared, t: Tid, at: RemoveAt, c: Choice) returns (h: Handover)
    requires CanStep(s, t, Removing(at), c)
    ensures Moves(s, t, Removing(at), RemoveStep(s, t, at), h)
  {
    h := if at.Take? && at.key in s.sessions then TakenOut(at.key, s.sessions[at.key]) else Keep;
  }

  lemma MovesReap(s: Shared, t: Tid, at: ReapAt, c: Choice)
    requires CanStep(s, t, Reaping(at), c)
    ensures Moves(s, t, Reaping(at), ReapStep(s, t, at, c), Keep)
  {
  }

  predicate StaysInClose(s: Shared, sid: Sid, stage: Stage)
    requires sid in s.phases
  {
    stage.Kill? || (stage.Enter? && s.phases[sid].Open?)
  }

  lemma MovesKill(s: Shared, t: Tid, sid: Sid, stage: Stage, after: After, c: Choice)
    requires CanStep(s, t, Closing(sid, stage, after), c) && StaysInClose(s, sid, stage)
    ensures Moves(s, t, Closing(sid, stage, after), CloseStep(s, t, sid, stage, after), Keep)
  {
  }

  lemma MovesReturned(s: Shared, t: Tid, sid: Sid, stage: Stage, after: After, c: Choice) returns (h: Handover)
    requires CanStep(s, t, Closing(sid, stage, after), c) && !StaysInClose(s, sid, stage)
    ensures Moves(s, t, Closing(sid, stage, after), CloseStep(s, t, sid, stage, after), h)
  {
    match after
    case DropDead(key) => h := Forget(key, sid);
    case UseTheirs(_, _) => h := Discarded(sid);
    case Removed => h := Discarded(sid);
    case Reaped(victim, _, _) => h := Forget(victim, sid);
    case _ => h := Keep;
  }

  lemma MovesClose(s: Shared, t: Tid, sid: Sid, stage: Stage, after: After, c: Choice) returns (h: Handover)
    requires CanStep(s, t, Closing(sid, stage, after), c)
    ensures Moves(s, t, Closing(sid, stage, after), CloseStep(s, t, sid, stage, after), h)
  {
    if StaysInClose(s, sid, stage) {
      MovesKill(s, t, sid, stage, after, c);
      h := Keep;
    } else {
      h := MovesReturned(s, t, sid, stage, after, c);
    }
  }

  lemma MovesAny(s: Shared, t: Tid, pc: PC, c: Choice) returns (h: Handover)
    requires CanStep(s, t, pc, c)
    ensures Moves(s, t, pc, Step(s, t, pc, c), h)
  {
    match pc
    case Idle => h := Keep;
    case Getting(key, at) =>
      h := Keep;
      match at {
        case Room(_) => MovesRoom(s, t, key, at, c);
        case Evict(_, _) => MovesCandidate(s, t, key, at, c);
        case EvictUnlock(sid, victim, _) => MovesEvicted(s, t, key, at, c); h := Forget(victim, sid);
        case _ => h := MovesGet(s, t, key, at, c);
      }
    case Executing(key, sid, at) => MovesExec(s, t, key, sid, at, c); h := Keep;
    case Removing(at) => h := MovesRemove(s, t, at, c);
    case Reaping(at) => MovesReap(s, t, at, c); h := Keep;
    case Closing(sid, stage, after) => h := MovesClose(s, t, sid, stage, after, c);
  }

  lemma InMapAt(s: Shared, key: Key)
    requires key in s.sessions
    ensures InMap(s, s.sessions[key])
  {
    assert Entry(key, s.sessions[key], s.sessions);
  }

  /** A thread comes to know a session only from the map or by spawning it. */
  ghost predicate Learns(s: Shared, s': Shared, pc: PC, pc': PC, sid: Sid) {
    Mentions(pc', sid) ==> Mentions(pc, sid) || InMap(s, sid) || (sid !in s.phases && sid in s'.phases)
  }

  lemma GetLearns(s: Shared, t: Tid, key: Key, at: GetAt, c: Choice, sid: Sid)
    requires Ready(s, Getting(key, at)) && (c.started.Some? ==> c.started.value !in s.phases)
    requires !at.Room? && !at.Evict? && !at.EvictUnlock?
    ensures Learns(s, GetStep(s, t, key, at, c).sh, Getting(key, at), GetStep(s, t, key, at, c).pc, sid)
  {
    match at
    case Check => if key in s.sessions { InMapAt(s, key); }
    case Spawn => if c.started.Some? { }
    case Recheck(_) => if key in s.sessions { InMapAt(s, key); }
    case _ =>
  }

  lemma RoomLearns(s: Shared, t: Tid, key: Key, at: GetAt, c: Choice, sid: Sid)
    requires Ready(s, Getting(key, at)) && at.Room?
    ensures Mentions(GetStep(s, t, key, at, c).pc, sid) ==> Mentions(Getting(key, at), sid)
  {
  }

  lemma EvictLearns(s: Shared, t: Tid, key: Key, at: GetAt, c: Choice, sid: Sid)
    requires Ready(s, Getting(key, at)) && at.Evict?
    ensures Mentions(GetStep(s, t, key, at, c).pc, sid) ==>
              Mentions(Getting(key, at), sid) || (at.candidates != [] && sid == s.sessions[at.candidates[0]])
  {
  }

  lemma EvictedLearns(s: Shared, t: Tid, key: Key, at: GetAt, c: Choice, sid: Sid)
    requires Ready(s, Getting(key, at)) && at.EvictUnlock?
    ensures Mentions(GetStep(s, t, key, at, c).pc, sid) ==> Mentions(Getting(key, at), sid)
  {
  }

  lemma StepLearns(s: Shared, t: Tid, pc: PC, c: Choice, sid: Sid)
    requires Ready(s, pc) && (c.started.Some? ==> c.started.value !in s.phases)
    ensures Learns(s, Step(s, t, pc, c).sh, pc, Step(s, t, pc, c).pc, sid)
  {
    match pc
    case Idle =>
    case Getting(key, at) =>
      match at {
        case Room(_) => RoomLearns(s, t, key, at, c, sid);
        case Evict(candidates, _) =>
          EvictLearns(s, t, key, at, c, sid);
          if candidates != [] { InMapAt(s, candidates[0]); }
        case EvictUnlock(_, _, _) => EvictedLearns(s, t, key, at, c, sid);
        case _ => GetLearns(s, t, key, at, c, sid);
      }
    case Executing(_, _, _) =>
    case Removing(at) => if at.Take? && at.key in s.sessions { InMapAt(s, at.key); }
    case Reaping(at) => if at.Todo? && at.keys != [] { InMapAt(s, at.keys[0]); }
    case Closing(_, _, _) =>
  }

  lemma ClocksStay(s: Shared, t: Tid, pc: PC, c: Choice, sid: Sid)
    requires Ready(s, pc) && sid in s.lastUsed
    ensures sid in Step(s, t, pc, c).sh.lastUsed
  {
  }

  /** Work lists are the enumeration of the map, or what is left of an earlier one. */
  ghost predicate Advances(s: Shared, s': Shared, keys: seq<Key>, keys': seq<Key>, order: seq<Key>) {
    || keys' == []
    || (s'.sessions == s.sessions && (keys' == order || keys' == keys))
    || (keys != [] && keys' == keys[1..] && (s'.sessions == s.sessions || s'.sessions == s.sessions - {keys[0]}))
  }

  lemma ResumeAdvances(s: Shared, key: Key, goal: Goal)
    ensures var m := Resume(s, key, goal); m.sh.sessions == s.sessions && Listing(m.pc) == []
  {
    match goal
    case Spawning =>
    case Publishing(_) =>
  }

  lemma EvictAdvances(s: Shared, t: Tid, key: Key, candidates: seq<Key>, goal: Goal, c: Choice)
    requires Ready(s, Getting(key, Evict(candidates, goal)))
    ensures var m := GetStep(s, t, key, Evict(candidates, goal), c);
            Advances(s, m.sh, candidates, Listing(m.pc), c.order)
  {
    if candidates == [] {
      ResumeAdvances(s, key, goal);
    }
  }

  lemma GetAdvances(s: Shared, t: Tid, key: Key, at: GetAt, c: Choice)
    requires Ready(s, Getting(key, at))
    ensures var m := GetStep(s, t, key, at, c);
            Advances(s, m.sh, Listing(Getting(key, at)), Listing(m.pc), c.order)
  {
    match at
    case Room(goal) => if |s.sessions| < MAX_SESSIONS { ResumeAdvances(s, key, goal); }
    case Evict(candidates, goal) => EvictAdvances(s, t, key, candidates, goal, c);
    case EvictUnlock(sid, victim, goal) => ResumeAdvances(Unlist(Unlock(s, sid), victim), key, goal);
    case _ =>
  }

  lemma ListingAdvances(s: Shared, t: Tid, pc: PC, c: Choice)
    requires Ready(s, pc)
    ensures Advances(s, Step(s, t, pc, c).sh, Listing(pc), Listing(Step(s, t, pc, c).pc), c.order)
  {
    match pc
    case Getting(key, at) => GetAdvances(s, t, key, at, c);
    case Reaping(at) => if at.Todo? && at.keys == [] { }
    case Closing(_, stage, after) => if stage.Wait? { } else if after.Reaped? { }
    case _ =>
  }

  lemma StaysDistinct(s: Shared, s': Shared, pc: PC, pc': PC, order: seq<Key>)
    requires Distinct(pc, s.sessions) && Enumerates(order, s.sessions)
    requires Advances(s, s', Listing(pc), Listing(pc'), order)
    ensures Distinct(pc', s'.sessions)
  {
  }
}
