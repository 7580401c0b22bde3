/** What holds in every reachable state of the shell pool (tools/bash/pool.go, exec.go, handler.go). */
module ShellPoolSafety {
  import opened Wrappers
  import opened ShellPool
  import opened ShellPoolInvariant

  /** `s'` follows from `s` when thread `t` takes the step the environment chose. */
  ghost predicate Follows(s: State, t: Tid, c: Choice, s': State) {
    Steps(s, t, c) && (Ready(s.sh, s.pcs[t]) ==> s' == Stepped(s, t, Step(s.sh, t, s.pcs[t], c)))
  }

  ghost predicate Succeeds(s: State, s': State) {
    exists t, c :: Follows(s, t, c, s')
  }

  /** `trace` lists the states of an interleaved run, oldest first. */
  ghost predicate Run(trace: seq<State>)
    decreases |trace|
  {
    trace != [] &&
    var n := |trace| - 1;
    if n == 0 then Initial(trace[0])
    else Run(trace[..n]) && Succeeds(trace[n - 1], trace[n])
  }

  ghost predicate Reachable(s: State) {
    exists trace :: Run(trace) && trace[|trace| - 1] == s
  }

  lemma {:induction false} RunInv(trace: seq<State>)
    requires Run(trace)
    ensures Inv(trace[|trace| - 1])
    decreases |trace|
  {
    var n := |trace| - 1;
    if n == 0 {
      InitialInv(trace[0]);
    } else {
      RunInv(trace[..n]);
      var t, c :| Follows(trace[n - 1], t, c, trace[n]);
      InvReady(trace[n - 1], t);
      StepKeepsInv(trace[n - 1], t, c);
    }
  }

  lemma ReachableInv(s: State)
    requires Reachable(s)
    ensures Inv(s)
  {
    var trace :| Run(trace) && trace[|trace| - 1] == s;
    RunInv(trace);
  }

  ghost predicate RunsOn(s: State, t: Tid, sid: Sid) {
    t in s.pcs && s.pcs[t].Executing? && s.pcs[t].exec.Running? && s.pcs[t].sid == sid
  }

  lemma RunsAlone(s: State, t: Tid, u: Tid, sid: Sid)
    requires LocksAgree(s) && RunsOn(s, t, sid)
    requires Local(s.pcs[t], t, s.sh.sessions, s.sh.phases)
    requires u in s.pcs ==> Local(s.pcs[u], u, s.sh.sessions, s.sh.phases)
    ensures sid in s.sh.phases && s.sh.phases[sid].Open? && sid in s.sh.locks && s.sh.locks[sid] == t
    ensures u in s.pcs && u != t ==> !RunsOn(s, u, sid) && !InClose(s.pcs[u], sid)
  {
    assert Held(s.pcs[t]) == Some(sid);
    assert RunsOn(s, u, sid) ==> Held(s.pcs[u]) == Some(sid);
  }

  /** While a command runs, its session is open, its lock is held by the running thread, and no other thread
      runs on it or is inside its close(). */
  lemma RunningIsUndisturbed(s: State, t: Tid, u: Tid, sid: Sid)
    requires Reachable(s) && RunsOn(s, t, sid)
    ensures sid in s.sh.phases && s.sh.phases[sid].Open?
    ensures sid in s.sh.locks && s.sh.locks[sid] == t
    ensures u in s.pcs && u != t ==> !RunsOn(s, u, sid) && !InClose(s.pcs[u], sid)
  {
    ReachableInv(s);
    RunsAlone(s, t, u, sid);
  }

  /** Every started session is in the map, closed, or owned by exactly one thread that will publish or close it. */
  lemma NoSessionIsLost(s: State, sid: Sid)
    requires Reachable(s) && sid in s.sh.phases
    ensures InMap(s.sh, sid) || s.sh.phases[sid].Closed? || Owned(s, sid)
    ensures forall t, u :: t in s.pcs && u in s.pcs && Owns(s.pcs[t], sid) && Owns(s.pcs[u], sid) ==> t == u
    ensures Owned(s, sid) ==> !InMap(s.sh, sid)
  {
    ReachableInv(s);
  }

  lemma HolderWaitsForNoLock(pc: PC)
    requires HoldsPool(pc) || Held(pc).Some?
    ensures !pc.Idle? && !WaitsForPool(pc) && Wanted(pc).None?
  {
  }

  /** The two levels of locks are never nested the wrong way: the pool's holder never waits for a session lock,
      and the holder of a session lock waits for no lock at all. */
  lemma LockOrder(s: State, t: Tid)
    requires Reachable(s) && t in s.pcs
    requires s.sh.pool == Some(t) || exists sid :: sid in s.sh.locks && s.sh.locks[sid] == t
    ensures !WaitsForPool(s.pcs[t]) && Wanted(s.pcs[t]).None?
  {
    ReachableInv(s);
    if s.sh.pool != Some(t) {
      var sid :| sid in s.sh.locks && s.sh.locks[sid] == t;
      assert Held(s.pcs[t]) == Some(sid);
    }
    HolderWaitsForNoLock(s.pcs[t]);
  }

  lemma {:induction false} OrderExists(keys: set<Key>) returns (order: seq<Key>)
    ensures (forall k :: k in order <==> k in keys) && NoRepeats(order)
  {
    order := [];
    if keys != {} {
      var k :| k in keys;
      var rest := OrderExists(keys - {k});
      order := rest + [k];
    }
  }

  /** The holder of whatever lock a thread waits for, or the thread itself. */
  lemma BehindLocks(s: State, t: Tid) returns (u: Tid)
    requires PoolAgrees(s) && LocksAgree(s) && t in s.pcs && !s.pcs[t].Idle?
    ensures u in s.pcs && !s.pcs[u].Idle?
    ensures Blocked(s.sh, s.pcs[u]) ==> s.pcs[u].Closing? && Busy(s.sh, s.pcs[u].sid)
  {
    u := t;
    if WaitsForPool(s.pcs[t]) && s.sh.pool.Some? {
      u := s.sh.pool.value;
      HolderWaitsForNoLock(s.pcs[u]);
    } else if Wanted(s.pcs[t]).Some? && Wanted(s.pcs[t]).value in s.sh.locks {
      u := s.sh.locks[Wanted(s.pcs[t]).value];
      assert Held(s.pcs[u]) == Wanted(s.pcs[t]);
      HolderWaitsForNoLock(s.pcs[u]);
    }
  }

  /** Some busy thread is not blocked: when the one behind the locks waits for a close, the closer goes on. */
  lemma Unblocked(s: State, t: Tid) returns (u: Tid)
    requires PoolAgrees(s) && LocksAgree(s) && ClosersAgree(s) && t in s.pcs && !s.pcs[t].Idle?
    ensures u in s.pcs && !s.pcs[u].Idle? && !Blocked(s.sh, s.pcs[u])
  {
    u := BehindLocks(s, t);
    if Blocked(s.sh, s.pcs[u]) {
      u := s.sh.phases[s.pcs[u].sid].closer;
    }
  }

  lemma LegalChoice(s: Shared) returns (c: Choice)
    ensures Legal(s, c)
  {
    var order := OrderExists(s.sessions.Keys);
    c := Choice(Reap, Finish, None, order, 0);
  }

  /** No deadlock: in every reachable state with work in progress some busy thread has a step to take. */
  lemma NoDeadlock(s: State, t: Tid) returns (u: Tid, c: Choice)
    requires Reachable(s) && t in s.pcs && !s.pcs[t].Idle?
    ensures Steps(s, u, c) && !s.pcs[u].Idle?
  {
    ReachableInv(s);
    u := Unblocked(s, t);
    c := LegalChoice(s.sh);
  }
}
