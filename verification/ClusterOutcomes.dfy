/** When Start and Stop succeed, and what they leave behind. */
module ClusterOutcomes {
  import opened ClusterState
  import opened ClusterProtocol
  import opened ClusterSafety
  import opened ClusterRuns
  import opened Options
  import opened Ordering

  predicate Settled(pc: Pc) { UsingLease(pc) || pc.Done? || pc.Killed? }

  function Rank(pc: Pc): nat {
    match pc
    case Begin => 50
    case Prerequisites => 49
    case Starting(at) =>
      (match at
       case ListClusters => 48
       case FindOrphan => 47
       case LoadOrphan => 46
       case CheckOrphan(_) => 45
       case RemoveOrphan(_) => 44
       case Preflight => 43
       case RunRegistry(_) => 42
       case WriteKindConfig(_) => 41
       case CreateCluster(_) => 40
       case ConnectNetwork(_) => 39
       case WriteMarker(_) => 38
       case InstallIdentity(_) => 37
       case SaveState(_) => 36
       case CleanCluster(_) => 35
       case CleanRegistry(_, _) => 34)
    case Stopping(at) =>
      (match at
       case LoadBeforeStop => 28
       case ListBeforeStop(_) => 27
       case FindRegistry(_, _) => 26
       case StopCatMarker(_, _) => 25
       case StopDelete(_, _) => 24
       case StopCheckRegistry(_) => 23
       case StopRemoveRegistry(_) => 22
       case Forget => 21)
    case Checking(at) =>
      (match at
       case LoadExisting => 15
       case CatMarker(_) => 14
       case CheckRegistry(_) => 13
       case InspectContainers(_) => 12
       case LeaseAccess(_) => 11)
    case Finish(_) => 1
    case _ => 0
  }

  lemma StartRunsOut(pid: Pid, build: Build, at: StartPoint, w: World, input: Input)
    ensures var pc := StartStep(pid, build, at, w, input).0; Rank(pc) < Rank(Starting(at)) && !pc.Stopping?
  {
  }

  lemma StopRunsOut(pid: Pid, confirmed: seq<string>, at: StopPoint, w: World, ok: bool)
    ensures Rank(StopStep(pid, confirmed, at, w, ok).0) < Rank(Stopping(at))
  {
  }

  /** No operation runs forever: every step of an unfinished one comes closer to its end. */
  lemma StepsRunOut(pid: Pid, p: Process, w: World, input: Input)
    requires WellTyped(p) && !Settled(p.pc)
    ensures var (p', w') := Change(pid, p, w, input);
            Rank(p'.pc) < Rank(p.pc) && p'.op == p.op && WellTyped(p')
  {
    match p.pc
    case Starting(at) => StartRunsOut(pid, p.build, at, w, input);
    case Stopping(at) => StopRunsOut(pid, p.op.confirmed, at, w, input.ok);
    case _ =>
  }

  /** A process run to its end with every command succeeding. */
  function Complete(pid: Pid, p: Process, w: World, random: string): (Process, World)
    requires WellTyped(p)
    decreases Rank(p.pc)
  {
    if Settled(p.pc) then (p, w)
    else
      var input := Input(true, random, Close);
      StepsRunOut(pid, p, w, input);
      var (p', w') := Change(pid, p, w, input);
      Complete(pid, p', w', random)
  }

  /** State file, node marker and registry labels name one cluster of this build. */
  ghost predicate Verified(w: World, build: Build) {
    && LoadState(w.file).Some? && LoadState(w.file).value.build == build
    && ContainersAgree(w, LoadState(w.file).value.clusterId)
  }

  /** The situations in which Start can succeed: its own verified cluster, or no cluster and no
      registry it cannot prove to be its own. */
  ghost predicate StartAdmits(w: World, build: Build) {
    if w.cluster.Some? then Verified(w, build)
    else w.registry.None?
         || (LoadState(w.file).Some? && w.registry.value.labels == "tripgoctl|" + LoadState(w.file).value.clusterId)
  }

  /** The points of Start that deal with a registry left over. */
  predicate LooksForOrphan(at: StartPoint) { at.FindOrphan? || at.LoadOrphan? || at.CheckOrphan? || at.RemoveOrphan? }

  /** The points of Start from the registry to the saved state, as long as nothing fails. */
  predicate Creating(at: StartPoint) {
    at.RunRegistry? || at.WriteKindConfig? || at.CreateCluster? || at.ConnectNetwork? || at.WriteMarker?
    || at.InstallIdentity? || at.SaveState?
  }

  /** The points of Stop after it has listed the clusters. */
  predicate HasListed(at: StopPoint) { !at.LoadBeforeStop? && !at.ListBeforeStop? }

  lemma CompleteEnd(pid: Pid, p: Process, w: World, random: string)
    requires p.pc.Finish?
    ensures Complete(pid, p, w, random) == (p.(pc := Done(p.pc.outcome)), w.(lock := None))
  {
    var (p', w') := Change(pid, p, w, Input(true, random, Close));
    assert Complete(pid, p', w', random) == (p', w');
  }

  /** How a verification with every command succeeding ends. */
  ghost predicate Checked(p: Process, w: World, p': Process, w': World) {
    if !Verified(w, p.build) then p'.pc == Done(Refused) && w' == w.(lock := None)
    else
      var recorded := LoadState(w.file).value;
      if !p.op.LeaseOp? then p'.pc == Done(Succeeded(Some(recorded.clusterId))) && w' == w.(lock := None)
      else if w.cluster.value.api == Some(recorded.clusterId) then p'.pc == Lease(recorded, true) && w' == w
      else p'.pc == Done(Refused) && w' == w.(lock := None)
  }

  lemma {:induction false} CompleteCheck(pid: Pid, p: Process, w: World, random: string)
    requires !p.op.StopOp? && p.pc.Checking? && CheckKnows(p.pc.check, w) && CheckFile(p.pc.check, w)
    requires !p.pc.check.LoadExisting? ==> p.pc.check.state.build == p.build
    requires p.pc.check.LeaseAccess? ==> p.op.LeaseOp?
    ensures var (p', w') := Complete(pid, p, w, random); Checked(p, w, p', w')
    decreases Rank(p.pc)
  {
    var (p', w') := Change(pid, p, w, Input(true, random, Close));
    if p'.pc.Checking? {
      CompleteCheck(pid, p', w', random);
    } else if p'.pc.Finish? {
      CompleteEnd(pid, p', w', random);
    }
  }

  /** From any point of a creation that has gone well so far. */
  lemma {:induction false} CompleteCreation(pid: Pid, p: Process, w: World, random: string)
    requires p.op.StartOp? && p.pc.Starting? && random != ""
    requires StartKnows(pid, p.pc.start, w, w.(cluster := None))
    requires p.pc.start.Preflight? || (Creating(p.pc.start) && p.pc.start.id == random)
    ensures var (p', w') := Complete(pid, p, w, random);
            && p'.pc == Done(Succeeded(Some(random)))
            && w' == w.(lock := None, file := WrittenState(State(random, p.build, [], [])),
                        cluster := Some(Kind(Some(random), Some(random), Some(pid))),
                        objects := if w.cluster.None? then map[] else w.objects,
                        registry := Some(Registry(OwnLabels(random), Some(pid))))
    decreases Rank(p.pc)
  {
    var (p', w') := Change(pid, p, w, Input(true, random, Close));
    if p'.pc.Starting? {
      CompleteCreation(pid, p', w', random);
    } else {
      CompleteEnd(pid, p', w', random);
    }
  }

  /** From any point of the orphan check, whose registry is removed only when proved owned. */
  lemma {:induction false} CompleteOrphan(pid: Pid, p: Process, w: World, random: string)
    requires p.op.StartOp? && p.pc.Starting? && random != ""
    requires StartKnows(pid, p.pc.start, w, w) && StartFile(p.pc.start, w, w) && LooksForOrphan(p.pc.start)
    requires !p.pc.start.FindOrphan? ==> w.registry.Some?
    ensures var (p', w') := Complete(pid, p, w, random);
            if StartAdmits(w, p.build)
            then p'.pc == Done(Succeeded(Some(random))) && Agree(w', random) && w'.lock == None
                 && w'.file == WrittenState(State(random, p.build, [], []))
            else p'.pc == Done(Refused) && w' == w.(lock := None)
    decreases Rank(p.pc)
  {
    var (p', w') := Change(pid, p, w, Input(true, random, Close));
    if p'.pc.Starting? {
      if p'.pc.start.Preflight? {
        CompleteCreation(pid, p', w', random);
      } else {
        CompleteOrphan(pid, p', w', random);
      }
    } else {
      CompleteEnd(pid, p', w', random);
    }
  }

  function NewStart(build: Build): Process { Process(StartOp, build, Begin, None) }

  /** With the lock free and every command succeeding, Start succeeds exactly when `StartAdmits`:
      it keeps the id of a verified cluster and changes nothing, or creates everything under the
      new id; otherwise it refuses and changes nothing. */
  lemma StartSucceedsIff(pid: Pid, w: World, build: Build, random: string)
    requires w.lock == None && random != ""
    ensures var (p', w') := Complete(pid, NewStart(build), w, random);
            && (p'.pc.Done? && (p'.pc.outcome.Succeeded? <==> StartAdmits(w, build)))
            && (StartAdmits(w, build) ==>
                  var id := if w.cluster.Some? then LoadState(w.file).value.clusterId else random;
                  p'.pc == Done(Succeeded(Some(id))) && Agree(w', id) && LoadState(w'.file).value.build == build)
            && (w.cluster.Some? || !StartAdmits(w, build) ==> w' == w)
  {
    var input := Input(true, random, Close);
    var (p1, w1) := Change(pid, NewStart(build), w, input);
    var (p2, w2) := Change(pid, p1, w1, input);
    var (p3, w3) := Change(pid, p2, w2, input);
    assert Complete(pid, NewStart(build), w, random) == Complete(pid, p1, w1, random);
    assert Complete(pid, p1, w1, random) == Complete(pid, p3, w3, random);
    if w.cluster.Some? {
      CompleteCheck(pid, p3, w3, random);
    } else {
      CompleteOrphan(pid, p3, w3, random);
    }
    assert StartAdmits(w3, build) <==> StartAdmits(w, build);
  }

  lemma NewCheck(pid: Pid, op: Operation, w: World, build: Build, random: string)
    requires w.lock == None && (op.InspectOp? || op.LeaseOp?)
    ensures var p := Process(op, build, Begin, None);
            var (p', w') := Complete(pid, p, w, random); Checked(p, w.(lock := Some(pid)), p', w')
  {
    var input := Input(true, random, Close);
    var p := Process(op, build, Begin, None);
    var (p1, w1) := Change(pid, p, w, input);
    var (p2, w2) := Change(pid, p1, w1, input);
    assert Complete(pid, p, w, random) == Complete(pid, p1, w1, random);
    assert Complete(pid, p1, w1, random) == Complete(pid, p2, w2, random);
    CompleteCheck(pid, p2, w2, random);
  }

  /** With every command succeeding, Inspect succeeds exactly for a verified cluster of its own
      build, reports its id, and changes nothing. */
  lemma InspectSucceedsIff(pid: Pid, w: World, build: Build, random: string)
    requires w.lock == None
    ensures var (p', w') := Complete(pid, Process(InspectOp, build, Begin, None), w, random);
            && w' == w
            && p'.pc == Done(if Verified(w, build) then Succeeded(Some(LoadState(w.file).value.clusterId)) else Refused)
  {
    NewCheck(pid, InspectOp, w, build, random);
    assert Verified(w.(lock := Some(pid)), build) <==> Verified(w, build);
  }

  /** A lease opens, holding the lock, exactly for a verified cluster whose API bears the id too. */
  lemma LeaseOpensIff(pid: Pid, w: World, build: Build, random: string)
    requires w.lock == None
    ensures var (p', w') := Complete(pid, Process(LeaseOp, build, Begin, None), w, random);
            if Verified(w, build) && w.cluster.value.api == Some(LoadState(w.file).value.clusterId)
            then p'.pc == Lease(LoadState(w.file).value, true) && w' == w.(lock := Some(pid))
            else p'.pc == Done(Refused) && w' == w
  {
    NewCheck(pid, LeaseOp, w, build, random);
    assert Verified(w.(lock := Some(pid)), build) <==> Verified(w, build);
  }

  /** A second Start after a successful one keeps the id and changes nothing. */
  lemma RepeatedStartKeepsEverything(first: Pid, second: Pid, w: World, build: Build, random: string, random': string)
    requires w.lock == None && random != "" && random' != "" && StartAdmits(w, build)
    ensures var (p1, w1) := Complete(first, NewStart(build), w, random);
            var (p2, w2) := Complete(second, NewStart(build), w1, random');
            p2.pc == p1.pc && w2 == w1
  {
    var (p1, w1) := Complete(first, NewStart(build), w, random);
    StartSucceedsIff(first, w, build, random);
    CompleteUnlocks(first, NewStart(build), w, random);
    StartSucceedsIff(second, w1, build, random');
  }

  lemma {:induction false} CompleteUnlocks(pid: Pid, p: Process, w: World, random: string)
    requires WellTyped(p) && p.op.StartOp? && !Settled(p.pc)
    requires p.pc.Begin? ==> w.lock == None
    requires !p.pc.Checking? || !p.pc.check.LeaseAccess?
    ensures Complete(pid, p, w, random).1.lock == None
    decreases Rank(p.pc)
  {
    var input := Input(true, random, Close);
    StepsRunOut(pid, p, w, input);
    var (p', w') := Change(pid, p, w, input);
    if !Settled(p'.pc) {
      CompleteUnlocks(pid, p', w', random);
    }
  }

  /** After a Start that failed once its registry was up, a later Start is admitted exactly when
      both cleanup commands had succeeded (the attempt's random id not being the recorded one):
      clean leftovers never block it, and leftovers always do. */
  lemma RetryAdmittedIffCleaned(s: System, events: seq<Event>, pid: Pid, build: Build)
    requires Initial(s)
    requires pid in Run(s, events).processes
    requires var pc := Run(s, events).processes[pid].pc;
             && pc.Finish? && pc.outcome.Aborted?
             && (LoadState(Run(s, events).world.file).Some? ==>
                   LoadState(Run(s, events).world.file).value.clusterId != pc.outcome.attempt)
    ensures var outcome := Run(s, events).processes[pid].pc.outcome;
            StartAdmits(Run(s, events).world, build) <==> outcome.clusterGone && outcome.registryGone
  {
    EveryOutcomeHolds(s, events, pid);
  }

  /** And a cleaned-up attempt leaves nothing of its own and, unless a closed lease was used, the
      state file as it found it. */
  lemma CleanedStartLeavesNothing(s: System, events: seq<Event>, pid: Pid)
    requires Initial(s)
    requires pid in Run(s, events).processes
    requires var pc := Run(s, events).processes[pid].pc;
             pc.Finish? && pc.outcome.Aborted? && pc.outcome.clusterGone && pc.outcome.registryGone
    ensures var w := Run(s, events).world;
            && w.cluster == None && w.registry == None
            && (Disciplined(s, events) ==> w.file == Run(s, events).processes[pid].entry.GetOr(w).file)
  {
    EveryOutcomeHolds(s, events, pid);
  }

  function NewStop(build: Build, confirmed: seq<string>): Process { Process(StopOp(confirmed), build, Begin, None) }

  /** How a Stop with every command succeeding leaves the world. */
  ghost predicate StopLeaves(w: World, confirmed: seq<string>, outcome: Outcome, w': World) {
    var recorded := LoadState(w.file);
    if w.cluster.None? && w.registry.None? then
      outcome == Succeeded(None) && w'.cluster.None? && w'.registry.None? && w'.file == Missing
    else if recorded.None? || multiset(confirmed) != multiset(recorded.value.namespaces)
            || (w.cluster.Some? && ClusterIdentity(w) != Some(recorded.value.clusterId)) then
      outcome == Refused && Same(w', w)
    else if w.registry.Some? && RegistryIdentity(w) != Some(recorded.value.clusterId) then
      outcome == Refused && w'.cluster.None? && w'.registry == w.registry && w'.file == w.file
    else
      outcome == Succeeded(None) && w'.cluster.None? && w'.registry.None? && w'.file == Missing
  }

  lemma {:induction false} CompleteStop(pid: Pid, p: Process, w: World, random: string)
    requires p.op.StopOp? && p.pc.Stopping? && HasListed(p.pc.stop) && StopKnows(p.op.confirmed, p.pc.stop, w, w)
             && StopFile(p.pc.stop, w, w)
    requires p.pc.stop.FindRegistry? ==> p.pc.stop.loaded == LoadState(w.file)
    requires p.pc.stop.StopCheckRegistry? ==> w.registry.Some?
    requires p.pc.stop.StopCatMarker? ==> w.cluster.Some?
    ensures var (p', w') := Complete(pid, p, w, random);
            p'.pc.Done? && StopLeaves(w, p.op.confirmed, p'.pc.outcome, w')
    decreases Rank(p.pc)
  {
    var input := Input(true, random, Close);
    var (p', w') := Change(pid, p, w, input);
    if p.pc.stop.FindRegistry? && p.pc.stop.loaded.Some? {
      SortedCopiesEqualIffPermutation(p.op.confirmed, p.pc.stop.loaded.value.namespaces);
    }
    if p'.pc.Stopping? {
      CompleteStop(pid, p', w', random);
    } else {
      CompleteEnd(pid, p', w', random);
    }
  }

  /** Stop forgets a cluster that is gone; otherwise it needs a usable state file, the recorded
      namespaces and, per resource, the recorded identity. A foreign registry beside an owned
      cluster stays, after the cluster has been deleted. */
  lemma StopDeletesExactly(pid: Pid, w: World, build: Build, confirmed: seq<string>, random: string)
    requires w.lock == None
    ensures var (p', w') := Complete(pid, NewStop(build, confirmed), w, random);
            p'.pc.Done? && StopLeaves(w, confirmed, p'.pc.outcome, w')
  {
    var input := Input(true, random, Close);
    var (p1, w1) := Change(pid, NewStop(build, confirmed), w, input);
    var (p2, w2) := Change(pid, p1, w1, input);
    var (p3, w3) := Change(pid, p2, w2, input);
    var (p4, w4) := Change(pid, p3, w3, input);
    assert Complete(pid, NewStop(build, confirmed), w, random) == Complete(pid, p2, w2, random);
    assert Complete(pid, p2, w2, random) == Complete(pid, p4, w4, random);
    CompleteStop(pid, p4, w4, random);
  }
}
