/** The persistent shell pool (tools/bash/pool.go, exec.go, handler.go) as a state machine: any number of
    threads interleave the steps of getOrCreate, executeCommand, remove and the reaper. A step touches
    shared state at most once between two points at which another thread may run. */
module ShellPool {
  import opened Wrappers

  type Tid = nat
  type Sid = nat
  type Key = string

  const MAX_SESSIONS: nat := 5
  const IDLE_TIMEOUT: nat := 1800

  /** Progress of closeOnce.Do: the killing thread, then Wait has set ProcessState, then Do has returned. */
  datatype Phase = Open | Killing(closer: Tid) | Waited(closer: Tid) | Closed

  datatype Stage = Enter | Kill | Wait

  /** What getOrCreate does once there is room: spawn (first pass) or publish the spawned session (second pass). */
  datatype Goal = Spawning | Publishing(sid: Sid)

  /** The caller of close() and where it continues. */
  datatype After =
    | DropDead(key: Key)
    | Evicted(key: Key, victim: Key, goal: Goal)
    | UseTheirs(key: Key, entry: Sid)
    | TimedOut(key: Key)
    | Removed
    | Reaped(victim: Key, rest: seq<Key>, now: int)

  datatype GetAt =
    | GetLock | Check | Room(goal: Goal) | Evict(candidates: seq<Key>, goal: Goal)
    | EvictUnlock(sid: Sid, victim: Key, goal: Goal)
    | Spawn | Relock(sid: Sid) | Recheck(sid: Sid) | Publish(sid: Sid)

  datatype ExecAt = ExecLock | ExecCheck | Running | ExecUnlock(failed: bool)

  datatype RemoveAt = RemoveLock(key: Key) | Take(key: Key) | WaitSession(sid: Sid) | RemoveUnlock(sid: Sid)

  /** A pass of the reaper reads the clock once, when it has the pool lock. */
  datatype ReapAt = ReapLock | Todo(keys: seq<Key>, now: int) | ReapUnlock(sid: Sid, keys: seq<Key>, now: int)

  /** Where a thread is: in one of the four operations, or inside close() called from one of them. */
  datatype PC =
    | Idle
    | Getting(key: Key, get: GetAt)
    | Executing(key: Key, sid: Sid, exec: ExecAt)
    | Removing(remove: RemoveAt)
    | Reaping(reap: ReapAt)
    | Closing(sid: Sid, stage: Stage, after: After)

  /** `pool` is the holder of the pool lock, `locks` the holders of session locks, `phases` every started session. */
  datatype Shared = Shared(
    pool: Option<Tid>, sessions: map<Key, Sid>, locks: map<Sid, Tid>, phases: map<Sid, Phase>, lastUsed: map<Sid, int>)

  datatype State = State(sh: Shared, pcs: map<Tid, PC>)

  /** The outcome of one step of one thread. */
  datatype Move = Move(sh: Shared, pc: PC)

  datatype Request = Get(key: Key) | Disconnect(key: Key) | Reap

  datatype Outcome = Finish | Fail | Timeout

  /** Everything a step leaves to its environment: requests, outcomes, the clock, map order, fresh sessions. */
  datatype Choice = Choice(request: Request, outcome: Outcome, started: Option<Sid>, order: seq<Key>, now: int)

  predicate Alive(s: Shared, sid: Sid)
    requires sid in s.phases
  {
    s.phases[sid].Open? || s.phases[sid].Killing?
  }

  predicate WaitsForPool(pc: PC) {
    match pc
    case Getting(_, at) => at.GetLock? || at.Relock?
    case Removing(at) => at.RemoveLock?
    case Reaping(at) => at.ReapLock?
    case _ => false
  }

  /** The session whose lock the thread is waiting for. */
  function Wanted(pc: PC): Option<Sid> {
    match pc
    case Executing(_, sid, at) => if at.ExecLock? then Some(sid) else None
    case Removing(at) => if at.WaitSession? then Some(at.sid) else None
    case _ => None
  }

  predicate HoldsPool(pc: PC) {
    match pc
    case Getting(_, at) => !at.GetLock? && !at.Relock? && !at.Spawn?
    case Removing(at) => at.Take?
    case Reaping(at) => !at.ReapLock?
    case Closing(_, _, after) => after.DropDead? || after.Evicted? || after.UseTheirs? || after.Reaped?
    case _ => false
  }

  /** The session lock a thread holds; no thread ever holds two. */
  function Held(pc: PC): Option<Sid> {
    match pc
    case Getting(_, at) => if at.EvictUnlock? then Some(at.sid) else None
    case Executing(_, sid, at) => if at.ExecLock? then None else Some(sid)
    case Removing(at) => if at.RemoveUnlock? then Some(at.sid) else None
    case Reaping(at) => if at.ReapUnlock? then Some(at.sid) else None
    case Closing(sid, _, after) => if after.DropDead? || after.UseTheirs? then None else Some(sid)
    case _ => None
  }

  function Pending(goal: Goal): Option<Sid> {
    match goal case Spawning => None case Publishing(sid) => Some(sid)
  }

  /** A session spawned by this thread that it has still to publish or close. */
  function Fresh(pc: PC): Option<Sid> {
    match pc
    case Getting(_, at) =>
      (match at
       case Room(goal) => Pending(goal)
       case Evict(_, goal) => Pending(goal)
       case EvictUnlock(_, _, goal) => Pending(goal)
       case Relock(sid) => Some(sid)
       case Recheck(sid) => Some(sid)
       case Publish(sid) => Some(sid)
       case _ => None)
    case Closing(sid, _, after) =>
      if after.UseTheirs? then Some(sid) else if after.Evicted? then Pending(after.goal) else None
    case _ => None
  }

  /** A session this thread took out of the map and has still to close. */
  function Taken(pc: PC): Option<Sid> {
    match pc
    case Removing(at) => if at.WaitSession? then Some(at.sid) else None
    case Closing(sid, _, after) => if after.Removed? then Some(sid) else None
    case _ => None
  }

  predicate Owns(pc: PC, sid: Sid) {
    Fresh(pc) == Some(sid) || Taken(pc) == Some(sid)
  }

  predicate Mentions(pc: PC, sid: Sid) {
    || Fresh(pc) == Some(sid) || Taken(pc) == Some(sid) || Held(pc) == Some(sid) || Wanted(pc) == Some(sid)
    || (pc.Closing? && (pc.sid == sid || (pc.after.UseTheirs? && pc.after.entry == sid)))
  }

  predicate Busy(s: Shared, sid: Sid) {
    sid in s.phases && (s.phases[sid].Killing? || s.phases[sid].Waited?)
  }

  predicate Blocked(s: Shared, pc: PC) {
    || (WaitsForPool(pc) && s.pool.Some?)
    || (Wanted(pc).Some? && Wanted(pc).value in s.locks)
    || (pc.Closing? && pc.stage.Enter? && Busy(s, pc.sid))
  }

  /** An enumeration of the pool's map. */
  ghost predicate Enumerates(order: seq<Key>, sessions: map<Key, Sid>) {
    AllIn(order, sessions) && NoRepeats(order) && forall k :: k in sessions ==> k in order
  }

  /** The choice is one the environment can make: orders enumerate the map, spawned sessions are new. Eviction sorts by
      times that running commands keep writing, so its order may be any. */
  ghost predicate Legal(s: Shared, c: Choice) {
    Enumerates(c.order, s.sessions) && (c.started.Some? ==> c.started.value !in s.phases)
  }

  ghost predicate NoRepeats(keys: seq<Key>) {
    forall i, j :: 0 <= i < j < |keys| ==> keys[i] != keys[j]
  }

  ghost predicate AllIn(keys: seq<Key>, sessions: map<Key, Sid>) {
    forall k :: k in keys ==> k in sessions
  }

  // ----- one step -----

  function Release(s: Shared): Shared {
    s.(pool := None)
  }

  function Acquire(s: Shared, t: Tid): Shared {
    s.(pool := Some(t))
  }

  function Lock(s: Shared, t: Tid, sid: Sid): Shared {
    s.(locks := s.locks[sid := t])
  }

  function Unlock(s: Shared, sid: Sid): Shared {
    s.(locks := s.locks - {sid})
  }

  function Used(s: Shared, sid: Sid, now: int): Shared {
    s.(lastUsed := s.lastUsed[sid := now])
  }

  function Unlist(s: Shared, key: Key): Shared {
    s.(sessions := s.sessions - {key})
  }

  function Enters(s: Shared, sid: Sid, phase: Phase): Shared {
    s.(phases := s.phases[sid := phase])
  }

  /** getOrCreate goes on after making room. */
  function Resume(s: Shared, key: Key, goal: Goal): Move {
    match goal
    case Spawning => Move(Release(s), Getting(key, Spawn))
    case Publishing(sid) => Move(s, Getting(key, Publish(sid)))
  }

  predicate Started(s: Shared, key: Key) {
    key in s.sessions && s.sessions[key] in s.phases && s.sessions[key] in s.lastUsed
  }

  /** The lookups of the next step are defined; every reachable state is ready. */
  predicate Ready(s: Shared, pc: PC) {
    match pc
    case Idle => true
    case Getting(key, at) =>
      && (key in s.sessions ==> Started(s, key))
      && (at.Evict? && at.candidates != [] ==> Started(s, at.candidates[0]))
      && (at.Relock? ==> at.sid in s.phases) && (at.Recheck? ==> at.sid in s.phases)
      && (at.Publish? ==> at.sid in s.phases)
    case Executing(_, sid, _) => sid in s.phases
    case Removing(at) => at.WaitSession? ==> at.sid in s.phases
    case Reaping(at) => at.Todo? && at.keys != [] ==> Started(s, at.keys[0])
    case Closing(sid, _, _) => sid in s.phases
  }

  function GetStep(s: Shared, t: Tid, key: Key, at: GetAt, c: Choice): Move
    requires Ready(s, Getting(key, at))
  {
    match at
    case GetLock => Move(Acquire(s, t), Getting(key, Check))
    case Check =>
      if key !in s.sessions then Move(s, Getting(key, Room(Spawning)))
      else if Alive(s, s.sessions[key]) then Move(Release(s), Executing(key, s.sessions[key], ExecLock))
      else Move(s, Closing(s.sessions[key], Enter, DropDead(key)))
    case Room(goal) =>
      if |s.sessions| >= MAX_SESSIONS then Move(s, Getting(key, Evict(c.order, goal))) else Resume(s, key, goal)
    case Evict(candidates, goal) =>
      if candidates == [] then Resume(s, key, goal)
      else
        var sid := s.sessions[candidates[0]];
        if sid in s.locks then Move(s, Getting(key, Evict(candidates[1..], goal)))
        else Move(Lock(s, t, sid), Closing(sid, Enter, Evicted(key, candidates[0], goal)))
    case EvictUnlock(sid, victim, goal) => Resume(Unlist(Unlock(s, sid), victim), key, goal)
    case Spawn =>
      (match c.started
       case None => Move(s, Idle)
       case Some(sid) => Move(Enters(Used(s, sid, c.now), sid, Open), Getting(key, Relock(sid))))
    case Relock(sid) => Move(Acquire(s, t), Getting(key, Recheck(sid)))
    case Recheck(sid) =>
      if key in s.sessions then Move(s, Closing(sid, Enter, UseTheirs(key, s.sessions[key])))
      else Move(s, Getting(key, Room(Publishing(sid))))
    case Publish(sid) => Move(Release(s.(sessions := s.sessions[key := sid])), Executing(key, sid, ExecLock))
  }

  function ExecStep(s: Shared, t: Tid, key: Key, sid: Sid, at: ExecAt, c: Choice): Move
    requires sid in s.phases
  {
    match at
    case ExecLock => Move(Lock(s, t, sid), Executing(key, sid, ExecCheck))
    case ExecCheck =>
      if Alive(s, sid) then Move(Used(s, sid, c.now), Executing(key, sid, Running))
      else Move(s, Executing(key, sid, ExecUnlock(true)))
    case Running =>
      (match c.outcome
       case Finish => Move(Used(s, sid, c.now), Executing(key, sid, ExecUnlock(false)))
       case Fail => Move(s, Executing(key, sid, ExecUnlock(true)))
       case Timeout => Move(s, Closing(sid, Enter, TimedOut(key))))
    case ExecUnlock(failed) => Move(Unlock(s, sid), if failed then Removing(RemoveLock(key)) else Idle)
  }

  function RemoveStep(s: Shared, t: Tid, at: RemoveAt): Move {
    match at
    case RemoveLock(key) => Move(Acquire(s, t), Removing(Take(key)))
    case Take(key) =>
      if key !in s.sessions then Move(Release(s), Idle)
      else Move(Release(Unlist(s, key)), Removing(WaitSession(s.sessions[key])))
    case WaitSession(sid) => Move(Lock(s, t, sid), Closing(sid, Enter, Removed))
    case RemoveUnlock(sid) => Move(Unlock(s, sid), Idle)
  }

  function ReapStep(s: Shared, t: Tid, at: ReapAt, c: Choice): Move
    requires Ready(s, Reaping(at))
  {
    match at
    case ReapLock => Move(Acquire(s, t), Reaping(Todo(c.order, c.now)))
    case Todo(keys, now) =>
      if keys == [] then Move(Release(s), Idle)
      else
        var sid := s.sessions[keys[0]];
        if (now - s.lastUsed[sid] > IDLE_TIMEOUT || !Alive(s, sid)) && sid !in s.locks
        then Move(Lock(s, t, sid), Closing(sid, Enter, Reaped(keys[0], keys[1..], now)))
        else Move(s, Reaping(Todo(keys[1..], now)))
    case ReapUnlock(sid, keys, now) => Move(Unlock(s, sid), Reaping(Todo(keys, now)))
  }

  /** close() has returned to its caller. */
  function Returned(s: Shared, sid: Sid, after: After): Move {
    match after
    case DropDead(key) => Move(Unlist(s, key), Getting(key, Room(Spawning)))
    case Evicted(key, victim, goal) => Move(s, Getting(key, EvictUnlock(sid, victim, goal)))
    case UseTheirs(key, entry) => Move(Release(s), Executing(key, entry, ExecLock))
    case TimedOut(key) => Move(s, Executing(key, sid, ExecUnlock(true)))
    case Removed => Move(s, Removing(RemoveUnlock(sid)))
    case Reaped(victim, rest, now) => Move(Unlist(s, victim), Reaping(ReapUnlock(sid, rest, now)))
  }

  function CloseStep(s: Shared, t: Tid, sid: Sid, stage: Stage, after: After): Move
    requires sid in s.phases
  {
    match stage
    case Enter =>
      if s.phases[sid].Open? then Move(Enters(s, sid, Killing(t)), Closing(sid, Kill, after))
      else Returned(s, sid, after)
    case Kill => Move(Enters(s, sid, Waited(t)), Closing(sid, Wait, after))
    case Wait => Returned(Enters(s, sid, Closed), sid, after)
  }

  function Step(s: Shared, t: Tid, pc: PC, c: Choice): Move
    requires Ready(s, pc)
  {
    match pc
    case Idle =>
      (match c.request
       case Get(key) => Move(s, Getting(key, GetLock))
       case Disconnect(key) => Move(s, Removing(RemoveLock(key)))
       case Reap => Move(s, Reaping(ReapLock)))
    case Getting(key, at) => GetStep(s, t, key, at, c)
    case Executing(key, sid, at) => ExecStep(s, t, key, sid, at, c)
    case Removing(at) => RemoveStep(s, t, at)
    case Reaping(at) => ReapStep(s, t, at, c)
    case Closing(sid, stage, after) => CloseStep(s, t, sid, stage, after)
  }

  // ----- the invariant -----

  ghost predicate Unlisted(goal: Goal, key: Key, sessions: map<Key, Sid>) {
    goal.Publishing? ==> key !in sessions
  }

  ghost predicate IsClosed(sid: Sid, phases: map<Sid, Phase>) {
    sid in phases && phases[sid].Closed?
  }

  ghost predicate Entry(key: Key, sid: Sid, sessions: map<Key, Sid>) {
    key in sessions && sessions[key] == sid
  }

  /** The command runs, or has just finished well. */
  predicate InUse(at: ExecAt) {
    at.Running? || (at.ExecUnlock? && !at.failed)
  }

  /** What a thread at `pc` may rely on in the shared state. */
  ghost predicate Local(pc: PC, t: Tid, sessions: map<Key, Sid>, phases: map<Sid, Phase>) {
    match pc
    case Idle => true
    case Getting(key, at) =>
      (match at
       case Room(goal) => Unlisted(goal, key, sessions)
       case Evict(candidates, goal) => Unlisted(goal, key, sessions)
       case EvictUnlock(sid, victim, goal) =>
         Entry(victim, sid, sessions) && IsClosed(sid, phases) && Unlisted(goal, key, sessions)
       case Publish(sid) => key !in sessions
       case _ => true)
    case Executing(_, sid, at) => InUse(at) ==> sid in phases && phases[sid].Open?
    case Removing(at) => at.RemoveUnlock? ==> IsClosed(at.sid, phases)
    case Reaping(at) => at.ReapUnlock? ==> IsClosed(at.sid, phases)
    case Closing(sid, stage, after) =>
      && sid in phases
      && (stage.Kill? ==> phases[sid] == Killing(t))
      && (stage.Wait? ==> phases[sid] == Waited(t))
      && (match after
          case DropDead(key) => Entry(key, sid, sessions) && !phases[sid].Open? && stage.Enter? && !phases[sid].Killing?
          case Evicted(key, victim, goal) => Entry(victim, sid, sessions) && Unlisted(goal, key, sessions)
          case Reaped(victim, _, _) => Entry(victim, sid, sessions)
          case UseTheirs(key, entry) => Entry(key, entry, sessions)
          case _ => true)
  }

  /** The map keys a thread has still to look at under the pool lock, the one in hand first. */
  ghost function Listing(pc: PC): seq<Key> {
    match pc
    case Getting(_, at) => if at.Evict? then at.candidates else []
    case Reaping(at) => if at.ReapLock? then [] else at.keys
    case Closing(_, _, after) => if after.Reaped? then [after.victim] + after.rest else []
    case _ => []
  }

  ghost predicate Distinct(pc: PC, sessions: map<Key, Sid>) {
    AllIn(Listing(pc), sessions) && NoRepeats(Listing(pc))
  }

  ghost predicate InClose(pc: PC, sid: Sid) {
    pc.Closing? && pc.sid == sid && !pc.stage.Enter?
  }

  ghost predicate Known(s: State) {
    && (forall t, sid :: t in s.pcs && Mentions(s.pcs[t], sid) ==> sid in s.sh.phases)
    && (forall k :: k in s.sh.sessions ==> s.sh.sessions[k] in s.sh.phases)
    && (forall sid :: sid in s.sh.phases ==> sid in s.sh.lastUsed)
    && (forall j, k :: j in s.sh.sessions && k in s.sh.sessions && s.sh.sessions[j] == s.sh.sessions[k] ==> j == k)
  }

  ghost predicate InMap(s: Shared, sid: Sid) {
    exists k :: Entry(k, sid, s.sessions)
  }

  ghost predicate Owned(s: State, sid: Sid) {
    exists t :: t in s.pcs && Owns(s.pcs[t], sid)
  }

  ghost predicate PoolAgrees(s: State) {
    && (forall t :: t in s.pcs ==> (HoldsPool(s.pcs[t]) <==> s.sh.pool == Some(t)))
    && (s.sh.pool.Some? ==> s.sh.pool.value in s.pcs)
  }

  ghost predicate LocksAgree(s: State) {
    && (forall t, sid :: t in s.pcs ==> (Held(s.pcs[t]) == Some(sid) <==> sid in s.sh.locks && s.sh.locks[sid] == t))
    && (forall sid :: sid in s.sh.locks ==> s.sh.locks[sid] in s.pcs)
  }

  /** A session on its way to being closed has a thread inside close() for it. */
  ghost predicate ClosersAgree(s: State) {
    forall sid :: Busy(s.sh, sid) ==> s.sh.phases[sid].closer in s.pcs && InClose(s.pcs[s.sh.phases[sid].closer], sid)
  }

  ghost predicate OwnedApart(s: State) {
    forall t, sid :: t in s.pcs && Owns(s.pcs[t], sid) ==> !InMap(s.sh, sid)
  }

  ghost predicate OneOwner(s: State) {
    forall t, u, sid :: t in s.pcs && u in s.pcs && Owns(s.pcs[t], sid) && Owns(s.pcs[u], sid) ==> t == u
  }

  ghost predicate FreshPrivate(s: State) {
    forall t, u, sid :: t in s.pcs && u in s.pcs && Fresh(s.pcs[t]) == Some(sid) && Mentions(s.pcs[u], sid) ==> t == u
  }

  ghost predicate Covered(s: State) {
    forall sid :: sid in s.sh.phases ==> InMap(s.sh, sid) || s.sh.phases[sid].Closed? || Owned(s, sid)
  }

  /** Every started session is in the map, closed, or owned by exactly one thread. */
  ghost predicate Ownership(s: State) {
    OwnedApart(s) && OneOwner(s) && FreshPrivate(s) && Covered(s)
  }

  ghost predicate Inv(s: State) {
    && PoolAgrees(s) && LocksAgree(s) && ClosersAgree(s) && Known(s) && Ownership(s)
    && (forall t :: t in s.pcs ==> Local(s.pcs[t], t, s.sh.sessions, s.sh.phases))
    && (forall t :: t in s.pcs ==> Distinct(s.pcs[t], s.sh.sessions))
  }

  ghost predicate Initial(s: State) {
    && s.sh == Shared(None, map[], map[], map[], map[])
    && forall t :: t in s.pcs ==> s.pcs[t].Idle?
  }

  lemma InitialInv(s: State)
    requires Initial(s)
    ensures Inv(s)
  {
  }

  lemma InvReady(s: State, t: Tid)
    requires Inv(s) && t in s.pcs
    ensures Ready(s.sh, s.pcs[t])
  {
    var pc := s.pcs[t];
    assert Local(pc, t, s.sh.sessions, s.sh.phases) && Distinct(pc, s.sh.sessions);
    assert Listing(pc) != [] ==> Listing(pc)[0] in Listing(pc);
    assert forall sid :: Mentions(pc, sid) ==> sid in s.sh.phases;
    match pc
    case Getting(_, at) => assert at.Relock? || at.Recheck? || at.Publish? ==> Mentions(pc, at.sid);
    case Executing(_, sid, _) => assert Mentions(pc, sid);
    case Removing(at) => assert at.WaitSession? ==> Mentions(pc, at.sid);
    case _ =>
  }
}
