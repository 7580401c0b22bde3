/** A run in which a thread gets a session and runs a command: the claims are about states that occur. */
module ShellPoolWitness {
  import opened Wrappers
  import opened ShellPool
  import opened ShellPoolInvariant
  import opened ShellPoolSafety

  lemma ReachableNext(s: State, t: Tid, c: Choice, s': State)
    requires Reachable(s) && Steps(s, t, c) && Ready(s.sh, s.pcs[t]) && s' == Stepped(s, t, Step(s.sh, t, s.pcs[t], c))
    ensures Reachable(s')
  {
    var trace :| Run(trace) && trace[|trace| - 1] == s;
    assert Follows(s, t, c, s');
    assert (trace + [s'])[..|trace|] == trace;
    assert Run(trace + [s']);
  }

  /** One step of a lone thread while the map is empty. */
  lemma LoneStep(sh: Shared, key: Key, at: GetAt, c: Choice, m: Move)
    requires Reachable(State(sh, map[0 := Getting(key, at)])) && sh.sessions == map[] && c.order == []
    requires !Blocked(sh, Getting(key, at)) && Ready(sh, Getting(key, at))
    requires c.started.Some? ==> c.started.value !in sh.phases
    requires m == GetStep(sh, 0, key, at, c)
    ensures Reachable(State(m.sh, map[0 := m.pc]))
  {
    var s := State(sh, map[0 := Getting(key, at)]);
    ReachableNext(s, 0, c, State(m.sh, map[0 := m.pc]));
  }

  const NOTHING := Shared(None, map[], map[], map[], map[])
  const SPAWNED := Shared(None, map[], map[], map[0 := Open], map[0 := 0])

  lemma Asks(key: Key)
    ensures Reachable(State(NOTHING, map[0 := Getting(key, GetLock)]))
  {
    var s := State(NOTHING, map[0 := Idle]);
    assert Run([s]);
    assert [s][|[s]| - 1] == s;
    ReachableNext(s, 0, Choice(Get(key), Finish, None, [], 0), State(NOTHING, map[0 := Getting(key, GetLock)]));
  }

  /** A lone thread asks for a session, finds none and room for one ... */
  lemma FindsRoom(key: Key)
    ensures Reachable(State(NOTHING, map[0 := Getting(key, Spawn)]))
  {
    var c, held := Choice(Get(key), Finish, None, [], 0), Acquire(NOTHING, 0);
    Asks(key);
    LoneStep(NOTHING, key, GetLock, c, Move(held, Getting(key, Check)));
    LoneStep(held, key, Check, c, Move(held, Getting(key, Room(Spawning))));
    LoneStep(held, key, Room(Spawning), c, Move(NOTHING, Getting(key, Spawn)));
  }

  /** ... spawns it ... */
  lemma Spawns(key: Key)
    ensures Reachable(State(Acquire(SPAWNED, 0), map[0 := Getting(key, Recheck(0))]))
  {
    var c := Choice(Get(key), Finish, Some(0), [], 0);
    FindsRoom(key);
    LoneStep(NOTHING, key, Spawn, c, Move(SPAWNED, Getting(key, Relock(0))));
    LoneStep(SPAWNED, key, Relock(0), c.(started := None), Move(Acquire(SPAWNED, 0), Getting(key, Recheck(0))));
  }

  /** ... finds its place still free ... */
  lemma FindsRoomAgain(key: Key)
    ensures Reachable(State(Acquire(SPAWNED, 0), map[0 := Getting(key, Publish(0))]))
  {
    var c, held := Choice(Get(key), Finish, None, [], 0), Acquire(SPAWNED, 0);
    Spawns(key);
    LoneStep(held, key, Recheck(0), c, Move(held, Getting(key, Room(Publishing(0)))));
    LoneStep(held, key, Room(Publishing(0)), c, Move(held, Getting(key, Publish(0))));
  }

  /** ... publishes it ... */
  lemma Publishes(key: Key)
    ensures Reachable(State(SPAWNED.(sessions := map[key := 0]), map[0 := Executing(key, 0, ExecLock)]))
  {
    FindsRoomAgain(key);
    LoneStep(Acquire(SPAWNED, 0), key, Publish(0), Choice(Get(key), Finish, None, [], 0),
             Move(SPAWNED.(sessions := map[key := 0]), Executing(key, 0, ExecLock)));
  }

  lemma Locks(key: Key)
    ensures Reachable(State(Lock(SPAWNED.(sessions := map[key := 0]), 0, 0), map[0 := Executing(key, 0, ExecCheck)]))
  {
    Publishes(key);
    var s := State(SPAWNED.(sessions := map[key := 0]), map[0 := Executing(key, 0, ExecLock)]);
    ReachableNext(s, 0, Choice(Get(key), Finish, None, [key], 0),
                  State(Lock(s.sh, 0, 0), map[0 := Executing(key, 0, ExecCheck)]));
  }

  /** ... and runs its command on it. */
  lemma RunningIsReachable(key: Key) returns (s: State)
    ensures Reachable(s) && RunsOn(s, 0, 0) && s.sh.sessions == map[key := 0]
  {
    Locks(key);
    var s0 := State(Lock(SPAWNED.(sessions := map[key := 0]), 0, 0), map[0 := Executing(key, 0, ExecCheck)]);
    s := State(s0.sh, map[0 := Executing(key, 0, Running)]);
    assert Used(s0.sh, 0, 0) == s0.sh;
    ReachableNext(s0, 0, Choice(Get(key), Finish, None, [key], 0), s);
  }
}
