/** Every step of every thread keeps the invariant of the shell pool. */
module ShellPoolInvariant {
  import opened Wrappers
  import opened ShellPool
  import opened ShellPoolSteps

  ghost function Stepped(s: State, t: Tid, m: Move): State {
    State(m.sh, s.pcs[t := m.pc])
  }

  lemma KeepsPool(s: State, t: Tid, m: Move)
    requires PoolAgrees(s) && t in s.pcs && PoolMove(s.sh, m.sh, t, s.pcs[t], m.pc)
    ensures PoolAgrees(Stepped(s, t, m))
  {
  }

  lemma KeepsLocks(s: State, t: Tid, m: Move)
    requires LocksAgree(s) && t in s.pcs && LockMove(s.sh, m.sh, t, s.pcs[t], m.pc)
    ensures LocksAgree(Stepped(s, t, m))
  {
  }

  lemma KeepsClosers(s: State, t: Tid, m: Move)
    requires ClosersAgree(s) && t in s.pcs && PhaseMove(s.sh, m.sh, t, s.pcs[t], m.pc)
    requires Local(s.pcs[t], t, s.sh.sessions, s.sh.phases)
    ensures ClosersAgree(Stepped(s, t, m))
  {
  }

  lemma PhasesGrow(s: Shared, s': Shared, t: Tid, pc: PC, pc': PC, sid: Sid)
    requires PhaseMove(s, s', t, pc, pc') && sid in s.phases
    ensures sid in s'.phases && (s.phases[sid].Closed? && Local(pc, t, s.sessions, s.phases) ==> s'.phases[sid].Closed?)
  {
  }

  lemma KeepsKnown(s: State, t: Tid, m: Move, h: Handover)
    requires Known(s) && t in s.pcs
    requires OwnMove(s.sh, m.sh, s.pcs[t], m.pc, h) && PhaseMove(s.sh, m.sh, t, s.pcs[t], m.pc)
    requires forall sid :: Learns(s.sh, m.sh, s.pcs[t], m.pc, sid)
    requires forall sid :: sid in s.sh.lastUsed ==> sid in m.sh.lastUsed
    requires h.Published? ==> !InMap(s.sh, h.sid)
    ensures Known(Stepped(s, t, m))
  {
    var pc := s.pcs[t];
    forall sid | sid in s.sh.phases ensures sid in m.sh.phases {
      PhasesGrow(s.sh, m.sh, t, pc, m.pc, sid);
    }
    forall sid | Mentions(m.pc, sid) ensures sid in m.sh.phases {
      assert Learns(s.sh, m.sh, pc, m.pc, sid);
    }
    forall k | k in s.sh.sessions ensures InMap(s.sh, s.sh.sessions[k]) {
      InMapAt(s.sh, k);
    }
  }

  /** What a step can add to the map: only the session it publishes. */
  lemma MapGrows(s: Shared, s': Shared, pc: PC, pc': PC, h: Handover, sid: Sid)
    requires OwnMove(s, s', pc, pc', h)
    ensures InMap(s', sid) ==> InMap(s, sid) || (h.Published? && h.sid == sid)
  {
    if InMap(s', sid) {
      var k :| Entry(k, sid, s'.sessions);
      assert Entry(k, sid, s.sessions) || (h.Published? && h.sid == sid);
    }
  }

  lemma MapShrinks(s: Shared, s': Shared, pc: PC, pc': PC, h: Handover, sid: Sid)
    requires OwnMove(s, s', pc, pc', h) && InMap(s, sid)
    ensures InMap(s', sid) || ((h.Forget? || h.TakenOut?) && h.sid == sid)
  {
    var k :| Entry(k, sid, s.sessions);
    assert Entry(k, sid, s'.sessions) || ((h.Forget? || h.TakenOut?) && h.sid == sid);
  }

  lemma NewOwner(s: Shared, s': Shared, pc: PC, pc': PC, h: Handover, sid: Sid)
    requires OwnMove(s, s', pc, pc', h)
    ensures Owns(pc', sid) ==> Owns(pc, sid) || (h == Spawned(sid)) || (h.TakenOut? && h.sid == sid)
  {
  }

  lemma KeepsApart(s: State, t: Tid, m: Move, h: Handover)
    requires OwnedApart(s) && OneOwner(s) && Known(s) && t in s.pcs && OwnMove(s.sh, m.sh, s.pcs[t], m.pc, h)
    ensures OwnedApart(Stepped(s, t, m))
  {
    var s' := Stepped(s, t, m);
    forall u, sid | u in s'.pcs && Owns(s'.pcs[u], sid) ensures !InMap(m.sh, sid) {
      MapGrows(s.sh, m.sh, s.pcs[t], m.pc, h, sid);
      NewOwner(s.sh, m.sh, s.pcs[t], m.pc, h, sid);
    }
  }

  lemma KeepsOneOwner(s: State, t: Tid, m: Move, h: Handover)
    requires OwnedApart(s) && OneOwner(s) && Known(s) && t in s.pcs && OwnMove(s.sh, m.sh, s.pcs[t], m.pc, h)
    ensures OneOwner(Stepped(s, t, m))
  {
    var s' := Stepped(s, t, m);
    if h.TakenOut? { InMapAt(s.sh, h.key); }
    forall u, sid | u in s.pcs && u != t && Owns(s.pcs[u], sid) ensures !Owns(m.pc, sid) {
      NewOwner(s.sh, m.sh, s.pcs[t], m.pc, h, sid);
      assert Mentions(s.pcs[u], sid);
    }
  }

  lemma KeepsPrivate(s: State, t: Tid, m: Move, h: Handover)
    requires FreshPrivate(s) && OwnedApart(s) && Known(s) && t in s.pcs && OwnMove(s.sh, m.sh, s.pcs[t], m.pc, h)
    requires forall sid :: Learns(s.sh, m.sh, s.pcs[t], m.pc, sid)
    ensures FreshPrivate(Stepped(s, t, m))
  {
    var s' := Stepped(s, t, m);
    forall u, sid | u in s.pcs && u != t && Fresh(s.pcs[u]) == Some(sid) ensures !Mentions(m.pc, sid) {
      assert Learns(s.sh, m.sh, s.pcs[t], m.pc, sid);
      assert Mentions(s.pcs[u], sid) && Owns(s.pcs[u], sid);
    }
    forall u, sid: Sid | u in s.pcs && u != t && Mentions(s.pcs[u], sid) ensures Fresh(m.pc) != Some(sid) {
      NewOwner(s.sh, m.sh, s.pcs[t], m.pc, h, sid);
    }
  }

  lemma KeepsCovered(s: State, t: Tid, m: Move, h: Handover)
    requires Covered(s) && t in s.pcs && Moves(s.sh, t, s.pcs[t], m, h)
    requires Local(s.pcs[t], t, s.sh.sessions, s.sh.phases)
    ensures Covered(Stepped(s, t, m))
  {
    var s' := Stepped(s, t, m);
    forall sid | sid in m.sh.phases ensures InMap(m.sh, sid) || m.sh.phases[sid].Closed? || Owned(s', sid) {
      assert s'.pcs[t] == m.pc;
      if sid in s.sh.phases {
        PhasesGrow(s.sh, m.sh, t, s.pcs[t], m.pc, sid);
        if InMap(s.sh, sid) {
          MapShrinks(s.sh, m.sh, s.pcs[t], m.pc, h, sid);
        } else if !s.sh.phases[sid].Closed? {
          var u :| u in s.pcs && Owns(s.pcs[u], sid);
          if u != t { assert s'.pcs[u] == s.pcs[u]; }
          if h.Published? { assert Entry(h.key, h.sid, m.sh.sessions); }
        }
      }
    }
  }

  /** Whoever may really close a session holds its lock or has it to itself. */
  lemma CloserExcludes(s: State, t: Tid, u: Tid)
    requires LocksAgree(s) && FreshPrivate(s) && t in s.pcs && u in s.pcs && t != u
    requires s.pcs[t].Closing? && !s.pcs[t].after.DropDead?
    ensures Held(s.pcs[u]) != Some(s.pcs[t].sid)
  {
    var sid := s.pcs[t].sid;
    assert Fresh(s.pcs[t]) == Some(sid) || Held(s.pcs[t]) == Some(sid);
    assert Held(s.pcs[u]) == Some(sid) ==> Mentions(s.pcs[u], sid);
  }

  lemma CheckedIsNotKilled(s: State, t: Tid)
    requires Inv(s) && t in s.pcs && s.pcs[t].Executing? && s.pcs[t].exec.ExecCheck? && s.pcs[t].sid in s.sh.phases
    ensures !s.sh.phases[s.pcs[t].sid].Killing?
  {
    var sid := s.pcs[t].sid;
    if Busy(s.sh, sid) {
      var u := s.sh.phases[sid].closer;
      assert InClose(s.pcs[u], sid) && Local(s.pcs[u], u, s.sh.sessions, s.sh.phases);
      CloserExcludes(s, u, t);
    }
  }

  lemma InvCanStep(s: State, t: Tid, c: Choice)
    requires Inv(s) && t in s.pcs && !Blocked(s.sh, s.pcs[t]) && Legal(s.sh, c)
    ensures CanStep(s.sh, t, s.pcs[t], c)
  {
    InvReady(s, t);
    if s.pcs[t].Executing? && s.pcs[t].exec.ExecCheck? {
      CheckedIsNotKilled(s, t);
    }
  }

  lemma LocalIgnoresMap(pc: PC, u: Tid, sessions: map<Key, Sid>, sessions': map<Key, Sid>, phases: map<Sid, Phase>)
    requires Local(pc, u, sessions, phases) && !HoldsPool(pc)
    ensures Local(pc, u, sessions', phases)
  {
  }

  /** Another thread's view of the phases survives a step that leaves running sessions alone. */
  lemma LocalPhases(pc: PC, u: Tid, s: Shared, s': Shared, t: Tid, mine: PC, mine': PC)
    requires Local(pc, u, s.sessions, s.phases) && u != t
    requires PhaseMove(s, s', t, mine, mine') && Local(mine, t, s.sessions, s.phases)
    requires mine.Closing? && s'.phases != s.phases && pc.Executing? && InUse(pc.exec) ==> mine.sid != pc.sid
    ensures Local(pc, u, s.sessions, s'.phases)
  {
  }

  /** A step inside close() that changes a session's phase is not on a session another thread runs on. */
  lemma SparesRunning(s: State, t: Tid, m: Move, h: Handover, u: Tid)
    requires Inv(s) && t in s.pcs && u in s.pcs && u != t && Moves(s.sh, t, s.pcs[t], m, h)
    ensures s.pcs[t].Closing? && m.sh.phases != s.sh.phases && s.pcs[u].Executing? && InUse(s.pcs[u].exec) ==>
              s.pcs[t].sid != s.pcs[u].sid
  {
    var pc, mine := s.pcs[u], s.pcs[t];
    if mine.Closing? && m.sh.phases != s.sh.phases && pc.Executing? && InUse(pc.exec) {
      assert Local(mine, t, s.sh.sessions, s.sh.phases) && Local(pc, u, s.sh.sessions, s.sh.phases);
      if !mine.after.DropDead? { CloserExcludes(s, t, u); }
    }
  }

  lemma KeepsLocal(s: State, t: Tid, m: Move, h: Handover, u: Tid)
    requires Inv(s) && t in s.pcs && u in s.pcs && u != t && Moves(s.sh, t, s.pcs[t], m, h)
    ensures Local(s.pcs[u], u, m.sh.sessions, m.sh.phases) && Distinct(s.pcs[u], m.sh.sessions)
  {
    var pc, mine := s.pcs[u], s.pcs[t];
    assert Local(mine, t, s.sh.sessions, s.sh.phases) && Local(pc, u, s.sh.sessions, s.sh.phases);
    SparesRunning(s, t, m, h, u);
    LocalPhases(pc, u, s.sh, m.sh, t, mine, m.pc);
    if m.sh.sessions != s.sh.sessions {
      LocalIgnoresMap(pc, u, s.sh.sessions, m.sh.sessions, m.sh.phases);
    }
  }

  ghost predicate Steps(s: State, t: Tid, c: Choice) {
    t in s.pcs && !Blocked(s.sh, s.pcs[t]) && Legal(s.sh, c)
  }

  /** One step of thread `t`. */
  ghost function Next(s: State, t: Tid, c: Choice): State
    requires Inv(s) && Steps(s, t, c)
  {
    InvReady(s, t);
    Stepped(s, t, Step(s.sh, t, s.pcs[t], c))
  }

  /** Everything the invariant's preservation needs to know about one step. */
  ghost predicate Effect(s: State, t: Tid, m: Move, h: Handover) {
    && t in s.pcs && Moves(s.sh, t, s.pcs[t], m, h)
    && (forall sid :: Learns(s.sh, m.sh, s.pcs[t], m.pc, sid))
    && (forall sid :: sid in s.sh.lastUsed ==> sid in m.sh.lastUsed)
    && Distinct(m.pc, m.sh.sessions)
  }

  lemma StepEffect(s: State, t: Tid, c: Choice) returns (m: Move, h: Handover)
    requires Inv(s) && Steps(s, t, c)
    ensures Effect(s, t, m, h) && Next(s, t, c) == Stepped(s, t, m)
  {
    InvCanStep(s, t, c);
    var pc := s.pcs[t];
    m := Step(s.sh, t, pc, c);
    h := MovesAny(s.sh, t, pc, c);
    forall sid ensures Learns(s.sh, m.sh, pc, m.pc, sid) { StepLearns(s.sh, t, pc, c, sid); }
    forall sid | sid in s.sh.lastUsed ensures sid in m.sh.lastUsed { ClocksStay(s.sh, t, pc, c, sid); }
    ListingAdvances(s.sh, t, pc, c);
    StaysDistinct(s.sh, m.sh, pc, m.pc, c.order);
  }

  lemma EffectKeepsLocks(s: State, t: Tid, m: Move, h: Handover)
    requires Inv(s) && Effect(s, t, m, h)
    ensures PoolAgrees(Stepped(s, t, m)) && LocksAgree(Stepped(s, t, m)) && ClosersAgree(Stepped(s, t, m))
  {
    KeepsPool(s, t, m);
    KeepsLocks(s, t, m);
    KeepsClosers(s, t, m);
  }

  lemma EffectKeepsOwners(s: State, t: Tid, m: Move, h: Handover)
    requires Inv(s) && Effect(s, t, m, h)
    ensures Known(Stepped(s, t, m)) && Ownership(Stepped(s, t, m))
  {
    assert h.Published? ==> Owns(s.pcs[t], h.sid);
    KeepsKnown(s, t, m, h);
    KeepsApart(s, t, m, h);
    KeepsOneOwner(s, t, m, h);
    KeepsPrivate(s, t, m, h);
    KeepsCovered(s, t, m, h);
  }

  ghost predicate Views(s: State) {
    && (forall t :: t in s.pcs ==> Local(s.pcs[t], t, s.sh.sessions, s.sh.phases))
    && (forall t :: t in s.pcs ==> Distinct(s.pcs[t], s.sh.sessions))
  }

  lemma EffectKeepsViews(s: State, t: Tid, m: Move, h: Handover)
    requires Inv(s) && Effect(s, t, m, h)
    ensures Views(Stepped(s, t, m))
  {
    forall u | u in s.pcs && u != t
      ensures Local(s.pcs[u], u, m.sh.sessions, m.sh.phases) && Distinct(s.pcs[u], m.sh.sessions)
    {
      KeepsLocal(s, t, m, h, u);
    }
  }

  lemma StepKeepsInv(s: State, t: Tid, c: Choice)
    requires Inv(s) && Steps(s, t, c)
    ensures Inv(Next(s, t, c))
  {
    var m, h := StepEffect(s, t, c);
    EffectKeepsLocks(s, t, m, h);
    EffectKeepsOwners(s, t, m, h);
    EffectKeepsViews(s, t, m, h);
  }
}
