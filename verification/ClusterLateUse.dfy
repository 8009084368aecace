/** Runs in which a lease is used after its close, and what becomes of the theorems there. */
module ClusterLateUse {
  import opened ClusterState
  import opened ClusterProtocol
  import opened ClusterSafety
  import opened ClusterRuns
  import opened Options

  ghost predicate Reaches(s: System, t: System) { exists events :: Run(s, events) == t }

  lemma ReachesNext(s: System, t: System, e: Event)
    requires Reaches(s, t)
    ensures Reaches(s, Apply(t, e))
  {
    var events :| Run(s, events) == t;
    assert (events + [e])[..|events|] == events;
    assert Run(s, events + [e]) == Apply(t, e);
  }

  /** A system with one process in focus. */
  function With(others: map<Pid, Process>, pid: Pid, p: Process, w: World): System { System(w, others[pid := p]) }

  lemma ReachesStep(s: System, others: map<Pid, Process>, pid: Pid, p: Process, w: World, input: Input)
    requires Reaches(s, With(others, pid, p, w)) && WellTyped(p)
    ensures var (p', w') := Change(pid, p, w, input); Reaches(s, With(others, pid, p', w'))
  {
    var (p', w') := Change(pid, p, w, input);
    ReachesNext(s, With(others, pid, p, w), Step(pid, input));
    assert others[pid := p][pid := p'] == others[pid := p'];
  }

  const GO := Input(true, "", Close)

  /** A world in which everything names the cluster of this state, and nobody is at work. */
  function ManagedWorld(state: State): World {
    World(None, WrittenState(state), Some(Kind(Some(state.clusterId), Some(state.clusterId), None)),
          Some(Registry(OwnLabels(state.clusterId), None)), map[], [], [])
  }

  lemma ReachesOpenLease(s: System, others: map<Pid, Process>, pid: Pid, state: State)
    requires Reaches(s, System(ManagedWorld(state), others)) && pid !in others && state.clusterId != ""
    ensures var w := ManagedWorld(state);
            Reaches(s, With(others, pid, Process(LeaseOp, state.build, Lease(state, true), Some(w)),
                w.(lock := Some(pid))))
  {
    var w := ManagedWorld(state);
    var locked, p := w.(lock := Some(pid)), Process(LeaseOp, state.build, Begin, None);
    ReachesNext(s, System(w, others), Spawn(pid, LeaseOp, state.build));
    ReachesStep(s, others, pid, p, w, GO);
    p := p.(pc := Prerequisites, entry := Some(w));
    ReachesStep(s, others, pid, p, locked, GO);
    p := p.(pc := Checking(LoadExisting));
    ReachesStep(s, others, pid, p, locked, GO);
    ReachesVerifiedLease(s, others, pid, state, locked, p.(pc := Checking(CatMarker(state))));
  }

  lemma ReachesVerifiedLease(s: System, others: map<Pid, Process>, pid: Pid, state: State, locked: World,
      start: Process)
    requires Reaches(s, With(others, pid, start, locked)) && start.op.LeaseOp? && start.pc == Checking(CatMarker(state))
    requires LeaseKnows(state, locked)
    ensures Reaches(s, With(others, pid, start.(pc := Lease(state, true)), locked))
  {
    var p := start;
    ReachesStep(s, others, pid, p, locked, GO);
    p := p.(pc := Checking(CheckRegistry(state)));
    ReachesStep(s, others, pid, p, locked, GO);
    p := p.(pc := Checking(InspectContainers(state)));
    ReachesStep(s, others, pid, p, locked, GO);
    p := p.(pc := Checking(LeaseAccess(state)));
    ReachesStep(s, others, pid, p, locked, GO);
  }

  lemma ReachesClosedLease(s: System, pid: Pid, state: State)
    requires s == System(ManagedWorld(state), map[]) && state.clusterId != ""
    ensures Reaches(s, With(map[], pid, Process(LeaseOp, state.build, Lease(state, false), Some(s.world)), s.world))
  {
    assert Run(s, []) == s;
    ReachesOpenLease(s, map[], pid, state);
    var p, locked := Process(LeaseOp, state.build, Lease(state, true), Some(s.world)), s.world.(lock := Some(pid));
    ReachesStep(s, map[], pid, p, locked, GO);
    assert locked.(lock := None) == s.world;
  }

  /** A Stop for the recorded namespaces comes to the point of deleting the cluster. */
  lemma ReachesDeletion(s: System, others: map<Pid, Process>, pid: Pid, state: State)
    requires Reaches(s, System(ManagedWorld(state), others)) && pid !in others && state.clusterId != ""
    ensures var w := ManagedWorld(state);
            Reaches(s, With(others, pid,
                Process(StopOp(state.namespaces), state.build, Stopping(StopDelete(state, true)), Some(w)),
                            w.(lock := Some(pid))))
  {
    var w := ManagedWorld(state);
    var locked, p := w.(lock := Some(pid)), Process(StopOp(state.namespaces), state.build, Begin, None);
    ReachesNext(s, System(w, others), Spawn(pid, StopOp(state.namespaces), state.build));
    ReachesStep(s, others, pid, p, w, GO);
    p := p.(pc := Prerequisites, entry := Some(w));
    ReachesStep(s, others, pid, p, locked, GO);
    p := p.(pc := Stopping(LoadBeforeStop));
    ReachesStep(s, others, pid, p, locked, GO);
    p := p.(pc := Stopping(ListBeforeStop(Some(state))));
    ReachesStep(s, others, pid, p, locked, GO);
    ReachesCheckedDeletion(s, others, pid, state, locked, p.(pc := Stopping(FindRegistry(Some(state), true))));
  }

  lemma ReachesCheckedDeletion(s: System, others: map<Pid, Process>, pid: Pid, state: State, locked: World,
      start: Process)
    requires Reaches(s, With(others, pid, start, locked)) && start.op == StopOp(state.namespaces)
    requires start.pc == Stopping(FindRegistry(Some(state), true)) && LeaseKnows(state, locked)
    ensures Reaches(s, With(others, pid, start.(pc := Stopping(StopDelete(state, true))), locked))
  {
    var p := start;
    ReachesStep(s, others, pid, p, locked, GO);
    p := p.(pc := Stopping(StopCatMarker(state, true)));
    ReachesStep(s, others, pid, p, locked, GO);
  }

  /** A process at the point of writing what it made of the loaded state. */
  function AtWrite(p: Process, updated: State): Process
    requires p.pc.Lease?
  {
    p.(pc := Updating(p.pc.state, p.pc.held, updated))
  }

  lemma ReachesLateLoad(s: System, others: map<Pid, Process>, pid: Pid, p: Process, w: World, action: LeaseAction)
    requires p.pc.Lease? && LoadState(w.file) == Some(p.pc.state) && Reaches(s, With(others, pid, p, w))
             && action.Update?
    ensures Reaches(s, With(others, pid, AtWrite(p, UpdatedBy(p.pc.state, action)), w))
  {
    ReachesStep(s, others, pid, p, w, Input(true, "", action));
  }

  lemma ReachesLateWrite(s: System, others: map<Pid, Process>, pid: Pid, p: Process, updated: State, w: World)
    requires p.pc.Lease? && Reaches(s, With(others, pid, AtWrite(p, updated), w))
    ensures Reaches(s, With(others, pid, p.(pc := Lease(updated, p.pc.held)), w.(file := WrittenState(updated))))
  {
    ReachesStep(s, others, pid, AtWrite(p, updated), w, GO);
  }

  function ClosedLease(state: State): Process {
    Process(LeaseOp, state.build, Lease(state, false), Some(ManagedWorld(state)))
  }

  function StopAtDeletion(state: State): Process {
    Process(StopOp(state.namespaces), state.build, Stopping(StopDelete(state, true)), Some(ManagedWorld(state)))
  }

  /** The deletion, made while the state file says something else by now. */
  lemma LateDeletion(s: System, others: map<Pid, Process>, pid: Pid, state: State, updated: State) returns (t: System)
    requires state.clusterId != "" && updated.clusterId != ""
    requires Reaches(s, With(others, pid, StopAtDeletion(state),
             ManagedWorld(state).(lock := Some(pid), file := WrittenState(updated))))
    ensures Reaches(s, t)
    ensures |t.world.log| == 1 && t.world.log[0].target.ClusterTarget? && AsLoaded(t.world.log[0])
    ensures Justified(t.world.log[0]) <==> Harmless(ManagedWorld(state).(lock := Some(pid)), updated)
  {
    var w := ManagedWorld(state).(lock := Some(pid), file := WrittenState(updated));
    ReachesStep(s, others, pid, StopAtDeletion(state), w, GO);
    var (p', w') := Change(pid, StopAtDeletion(state), w, GO);
    t := With(others, pid, p', w');
  }

  /** Any two processes may be put in focus. */
  lemma Swap(p: Process, q: Process)
    ensures map[1 := p][2 := q] == map[2 := q][1 := p]
  {
  }

  /** A closed lease at the point of its late write, and everything else in the hands of another
      cluster. */
  lemma ReachesOtherCluster(s: System, lease: Process, updated: State, w: World, other: State)
    requires lease.pc.Lease? && w.lock == None && w.log == [] && w.patches == []
    requires Reaches(s, With(map[], 1, AtWrite(lease, updated), w))
    ensures Reaches(s, System(ManagedWorld(other), map[1 := AtWrite(lease, updated)]))
  {
    var w2 := ManagedWorld(other);
    ReachesNext(s, With(map[], 1, AtWrite(lease, updated), w), Outside(w2.file, w2.cluster, w2.registry, w2.objects));
  }

  /** For every two recorded states and every update there is a run whose one use of a closed
      lease loads the first state and writes while a confirmed Stop is about to delete by the
      second. The deletion is justified exactly when that write is harmless: in general no
      condition but harmlessness will do. */
  lemma LateWriteRun(state: State, other: State, action: LeaseAction) returns (t: System)
    requires state.clusterId != "" && other.clusterId != "" && action.Update?
    ensures Reaches(System(ManagedWorld(state), map[]), t)
    ensures |t.world.log| == 1 && t.world.log[0].target.ClusterTarget? && AsLoaded(t.world.log[0])
    ensures Justified(t.world.log[0]) <==> Harmless(ManagedWorld(other).(lock := Some(2)), UpdatedBy(state, action))
  {
    var s := System(ManagedWorld(state), map[]);
    var updated := UpdatedBy(state, action);
    ReachesClosedLease(s, 1, state);
    ReachesLateLoad(s, map[], 1, ClosedLease(state), ManagedWorld(state), action);
    ReachesOtherCluster(s, ClosedLease(state), updated, ManagedWorld(state), other);
    ReachesDeletion(s, map[1 := AtWrite(ClosedLease(state), updated)], 2, other);
    Swap(AtWrite(ClosedLease(state), updated), StopAtDeletion(other));
    ReachesLateWrite(s, map[2 := StopAtDeletion(other)], 1, ClosedLease(state), updated,
        ManagedWorld(other).(lock := Some(2)));
    var late := ClosedLease(state).(pc := Lease(updated, false));
    Swap(late, StopAtDeletion(other));
    t := LateDeletion(s, map[1 := late], 2, other, updated);
  }

  /** In terms of the update, when the cluster is still the same: it must say what the file
      already says. Adding an environment and removing one both defeat the confirmation. */
  lemma LateUpdateRun(state: State, namespace: string, known: bool, running: bool) returns (t: System)
    requires state.clusterId != ""
    ensures Reaches(System(ManagedWorld(state), map[]), t)
    ensures |t.world.log| == 1 && t.world.log[0].target.ClusterTarget? && AsLoaded(t.world.log[0])
    ensures Justified(t.world.log[0]) <==> (known <==> namespace in state.namespaces)
  {
    HarmlessUpdateIff(state, Update(namespace, known, running));
    t := LateWriteRun(state, state, Update(namespace, known, running));
  }

  lemma HarmlessUpdateIff(state: State, action: LeaseAction)
    requires state.clusterId != "" && action.Update?
    ensures Harmless(ManagedWorld(state).(lock := Some(2)), UpdatedBy(state, action))
            <==> (action.known <==> action.namespace in state.namespaces)
  {
    EnvironmentUpdateKeepsListIff(state, action.namespace, action.known, action.running);
  }

  /** The same late write under an open lease on the second cluster leaves the lease with a state
      file that names the first. */
  lemma LateWriteUnderLease(state: State, other: State, action: LeaseAction) returns (t: System)
    requires state.clusterId != "" && other.clusterId != "" && action.Update?
    ensures Reaches(System(ManagedWorld(state), map[]), t)
    ensures 2 in t.processes && t.processes[2].pc == Lease(other, true) && t.world.lock == Some(2)
            && LeaseKnows(other, t.world)
    ensures Recorded(t.world, other.clusterId) <==> state.clusterId == other.clusterId
  {
    var s := System(ManagedWorld(state), map[]);
    var updated := UpdatedBy(state, action);
    ReachesClosedLease(s, 1, state);
    ReachesLateLoad(s, map[], 1, ClosedLease(state), ManagedWorld(state), action);
    ReachesOtherCluster(s, ClosedLease(state), updated, ManagedWorld(state), other);
    t := OverwrittenUnderLease(s, ClosedLease(state), updated, other);
  }

  lemma OverwrittenUnderLease(s: System, lease: Process, updated: State, other: State) returns (t: System)
    requires lease.pc.Lease? && updated.clusterId != "" && other.clusterId != ""
    requires Reaches(s, System(ManagedWorld(other), map[1 := AtWrite(lease, updated)]))
    ensures Reaches(s, t)
    ensures 2 in t.processes && t.processes[2].pc == Lease(other, true) && t.world.lock == Some(2)
            && LeaseKnows(other, t.world)
    ensures LoadState(t.world.file) == Some(updated)
  {
    var late, w := AtWrite(lease, updated), ManagedWorld(other);
    ReachesOpenLease(s, map[1 := late], 2, other);
    var open := Process(LeaseOp, other.build, Lease(other, true), Some(w));
    Swap(late, open);
    ReachesLateWrite(s, map[2 := open], 1, lease, updated, w.(lock := Some(2)));
    t := With(map[2 := open], 1, lease.(pc := Lease(updated, lease.pc.held)),
        w.(lock := Some(2), file := WrittenState(updated)));
  }
}
