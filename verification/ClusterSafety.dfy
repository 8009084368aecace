/** Safety of the cluster protocol over every interleaving, failure and kill. */
module ClusterSafety {
  import opened ClusterState
  import opened ClusterProtocol
  import opened Options
  import opened Ordering

  ghost predicate AllAsLoaded(w: World) { forall d :: d in w.log ==> AsLoaded(d) }

  ghost predicate AllJustified(w: World) { forall d :: d in w.log ==> Justified(d) }

  ghost predicate AllAuthorised(w: World) { forall p :: p in w.patches ==> Authorised(p) }

  // ---------------------------------------------------------------- one step of the lock holder

  lemma CheckKeeps(pid: Pid, op: Operation, build: Build, at: CheckPoint, w: World, e: World, ok: bool)
    requires !op.StopOp? && SameContainers(w, e) && CheckKnows(at, w)
    ensures var pc := CheckStep(op, build, at, w, ok);
            && Holding(pc) && Knows(pid, op, pc, w, e)
            && (w.file == e.file && CheckFile(at, w) ==> FileKnows(op, pc, w, e))
  {
  }

  /** The points of Start before it has made anything. */
  predicate LooksFirst(at: StartPoint) {
    at.ListClusters? || at.FindOrphan? || at.LoadOrphan? || at.CheckOrphan? || at.RemoveOrphan? || at.Preflight?
  }

  lemma LookingKeeps(pid: Pid, build: Build, at: StartPoint, w: World, e: World, input: Input)
    requires LooksFirst(at) && StartKnows(pid, at, w, e) && w.lock == Some(pid)
    ensures var (pc, w') := StartStep(pid, build, at, w, input);
            Holding(pc) && w'.lock == Some(pid) && w'.patches == w.patches && Knows(pid, StartOp, pc, w', e)
  {
  }

  /** The points of Start at which a failure calls for the removal of its cluster. */
  predicate HasCluster(at: StartPoint) {
    at.ConnectNetwork? || at.WriteMarker? || at.InstallIdentity? || at.SaveState? || at.CleanCluster?
  }

  lemma FurnishingKeeps(pid: Pid, build: Build, at: StartPoint, w: World, e: World, input: Input)
    requires HasCluster(at) && StartKnows(pid, at, w, e) && w.lock == Some(pid)
    ensures var (pc, w') := StartStep(pid, build, at, w, input);
            Holding(pc) && w'.lock == Some(pid) && w'.patches == w.patches && Knows(pid, StartOp, pc, w', e)
  {
  }

  lemma CreatingKeeps(pid: Pid, build: Build, at: StartPoint, w: World, e: World, input: Input)
    requires !LooksFirst(at) && !HasCluster(at) && StartKnows(pid, at, w, e) && w.lock == Some(pid)
    ensures var (pc, w') := StartStep(pid, build, at, w, input);
            Holding(pc) && w'.lock == Some(pid) && w'.patches == w.patches && Knows(pid, StartOp, pc, w', e)
  {
  }

  lemma StartKeeps(pid: Pid, build: Build, at: StartPoint, w: World, e: World, input: Input)
    requires StartKnows(pid, at, w, e) && w.lock == Some(pid)
    ensures var (pc, w') := StartStep(pid, build, at, w, input);
            Holding(pc) && w'.lock == Some(pid) && w'.patches == w.patches && Knows(pid, StartOp, pc, w', e)
  {
    if LooksFirst(at) {
      LookingKeeps(pid, build, at, w, e, input);
    } else if HasCluster(at) {
      FurnishingKeeps(pid, build, at, w, e, input);
    } else {
      CreatingKeeps(pid, build, at, w, e, input);
    }
  }

  lemma StartKeepsFile(pid: Pid, build: Build, at: StartPoint, w: World, e: World, input: Input)
    requires StartKnows(pid, at, w, e) && StartFile(at, w, e)
    ensures var (pc, w') := StartStep(pid, build, at, w, input); FileKnows(StartOp, pc, w', e)
  {
  }

  /** Start deletes an orphan registry bearing the identity it read, and what it made itself. */
  lemma StartJustified(pid: Pid, build: Build, at: StartPoint, w: World, e: World, input: Input)
    requires StartKnows(pid, at, w, e) && w.lock == Some(pid)
    ensures var w' := StartStep(pid, build, at, w, input).1;
            && (AllAsLoaded(w) ==> AllAsLoaded(w'))
            && (AllJustified(w) && StartFile(at, w, e) ==> AllJustified(w'))
  {
  }

  lemma StopKeeps(pid: Pid, confirmed: seq<string>, at: StopPoint, w: World, e: World, ok: bool)
    requires StopKnows(confirmed, at, w, e) && w.lock == Some(pid)
    ensures var (pc, w') := StopStep(pid, confirmed, at, w, ok);
            && Holding(pc) && w'.lock == Some(pid) && w'.patches == w.patches
                && Knows(pid, StopOp(confirmed), pc, w', e)
            && (StopFile(at, w, e) ==> FileKnows(StopOp(confirmed), pc, w', e))
  {
    if at.FindRegistry? && at.loaded.Some? {
      SortedCopiesEqualIffPermutation(confirmed, at.loaded.value.namespaces);
    }
  }

  /** Stop deletes only resources bearing the identity it read, for the confirmed namespaces. */
  lemma StopJustified(pid: Pid, confirmed: seq<string>, at: StopPoint, w: World, e: World, ok: bool)
    requires StopKnows(confirmed, at, w, e) && w.lock == Some(pid)
    ensures var w' := StopStep(pid, confirmed, at, w, ok).1;
            && (AllAsLoaded(w) ==> AllAsLoaded(w'))
            && (AllJustified(w) && StopFile(at, w, e) ==> AllJustified(w'))
  {
  }

  lemma LeaseKeeps(pid: Pid, p: Process, w: World, e: World, input: Input)
    requires UsingLease(p.pc) && p.pc.held && Knows(pid, p.op, p.pc, w, e) && w.lock == Some(pid)
    ensures var (pc, w') := Advance(pid, p, w, input);
            && w'.log == w.log
            && (Holding(pc) ==> w'.lock == Some(pid) && Knows(pid, p.op, pc, w', e))
            && (!Holding(pc) ==> w'.lock == None)
            && (FileKnows(p.op, p.pc, w, e) ==>
                  (AllAuthorised(w) ==> AllAuthorised(w')) && (Holding(pc) ==> FileKnows(p.op, pc, w', e))
                      && (InUse(pc) ==> pc.held))
  {
  }

  /** The holder's step keeps its knowledge, or gives up the lock. */
  lemma HolderKeeps(pid: Pid, p: Process, w: World, input: Input)
    requires Holding(p.pc) && p.entry.Some? && Knows(pid, p.op, p.pc, w, p.entry.value) && w.lock == Some(pid)
    requires AllAsLoaded(w)
    ensures WellTyped(p)
    ensures var (p', w') := Change(pid, p, w, input);
            && p'.entry == p.entry && p'.op == p.op && AllAsLoaded(w')
            && (Holding(p'.pc) ==> w'.lock == Some(pid) && Knows(pid, p'.op, p'.pc, w', p'.entry.value))
            && (!Holding(p'.pc) ==> w'.lock == None)
  {
    var e := p.entry.value;
    match p.pc
    case Checking(at) => CheckKeeps(pid, p.op, p.build, at, w, e, input.ok);
    case Starting(at) =>
      StartKeeps(pid, p.build, at, w, e, input);
      StartJustified(pid, p.build, at, w, e, input);
    case Stopping(at) =>
      StopKeeps(pid, p.op.confirmed, at, w, e, input.ok);
      StopJustified(pid, p.op.confirmed, at, w, e, input.ok);
    case Lease(_, _) => LeaseKeeps(pid, p, w, e, input);
    case Updating(_, _, _) => LeaseKeeps(pid, p, w, e, input);
    case Applying(_, _, _, _) => LeaseKeeps(pid, p, w, e, input);
    case _ =>
  }

  lemma HolderKeepsFile(pid: Pid, p: Process, w: World, input: Input)
    requires Holding(p.pc) && p.entry.Some? && Knows(pid, p.op, p.pc, w, p.entry.value) && w.lock == Some(pid)
    requires FileKnows(p.op, p.pc, w, p.entry.value) && AllJustified(w) && AllAuthorised(w)
    ensures WellTyped(p)
    ensures var (p', w') := Change(pid, p, w, input);
            && AllJustified(w') && AllAuthorised(w') && p'.entry == p.entry
            && (Holding(p'.pc) ==> FileKnows(p'.op, p'.pc, w', p'.entry.value)) && (InUse(p'.pc) ==> p'.pc.held)
  {
    var e := p.entry.value;
    match p.pc
    case Checking(at) => CheckKeeps(pid, p.op, p.build, at, w, e, input.ok);
    case Starting(at) =>
      StartKeeps(pid, p.build, at, w, e, input);
      StartKeepsFile(pid, p.build, at, w, e, input);
      StartJustified(pid, p.build, at, w, e, input);
    case Stopping(at) =>
      StopKeeps(pid, p.op.confirmed, at, w, e, input.ok);
      StopJustified(pid, p.op.confirmed, at, w, e, input.ok);
    case Lease(_, _) => LeaseKeeps(pid, p, w, e, input);
    case Updating(_, _, _) => LeaseKeeps(pid, p, w, e, input);
    case Applying(_, _, _, _) => LeaseKeeps(pid, p, w, e, input);
    case _ =>
  }

  // ---------------------------------------------------------------- one step of anybody else

  /** A process without the lock may take a free lock; through a closed lease it may also write
      the state file and change Kubernetes objects. It touches no container. */
  lemma OthersLeaveContainers(pid: Pid, p: Process, w: World, input: Input)
    requires !Holding(p.pc)
    ensures WellTyped(p)
    ensures var (p', w') := Change(pid, p, w, input);
            && SameContainers(w', w)
            && (if Holding(p'.pc)
                then w.lock == None && w' == w.(lock := Some(pid)) && p'.entry == Some(w) && p'.pc.Prerequisites?
                else w'.lock == w.lock)
            && (!LateUse(p, input) && !InUse(p.pc) ==>
                  && w'.file == w.file && w'.objects == w.objects && w'.patches == w.patches
                  && !InUse(p'.pc))
  {
  }

  lemma EventKeepsInv(s: System, e: Event)
    requires Inv(s)
    ensures Inv(Apply(s, e))
  {
    if e.Step? && e.pid in s.processes {
      var p, w := s.processes[e.pid], s.world;
      if Holding(p.pc) {
        HolderKeeps(e.pid, p, w, e.input);
      } else {
        OthersLeaveContainers(e.pid, p, w, e.input);
        var (p', w') := Change(e.pid, p, w, e.input);
        forall q | q in s.processes && q != e.pid && Holding(s.processes[q].pc)
          ensures Knows(q, s.processes[q].op, s.processes[q].pc, w', s.processes[q].entry.value)
        {
          KnowsContainersOnly(q, s.processes[q], w, w');
        }
      }
    }
  }

  /** What the holder knows here is about containers and the log alone. */
  lemma KnowsContainersOnly(pid: Pid, p: Process, w: World, w': World)
    requires p.entry.Some? && Knows(pid, p.op, p.pc, w, p.entry.value) && SameContainers(w', w)
    ensures Knows(pid, p.op, p.pc, w', p.entry.value)
  {
  }

  lemma EventKeepsFileInv(s: System, e: Event)
    requires Inv(s) && FileInv(s) && !IsLateUse(s, e)
    ensures Inv(Apply(s, e)) && FileInv(Apply(s, e))
  {
    EventKeepsInv(s, e);
    if e.Step? && e.pid in s.processes {
      var p, w := s.processes[e.pid], s.world;
      if Holding(p.pc) {
        HolderKeepsFile(e.pid, p, w, e.input);
      } else {
        OthersLeaveContainers(e.pid, p, w, e.input);
        var (p', w') := Change(e.pid, p, w, e.input);
        forall q | q in s.processes && q != e.pid && Holding(s.processes[q].pc)
          ensures FileKnows(s.processes[q].op, s.processes[q].pc, w', s.processes[q].entry.value)
        {
          FileKnowsFileOnly(s.processes[q], w, w');
        }
      }
    }
  }

  lemma FileKnowsFileOnly(p: Process, w: World, w': World)
    requires p.entry.Some? && FileKnows(p.op, p.pc, w, p.entry.value) && w'.file == w.file && w'.objects == w.objects
    ensures FileKnows(p.op, p.pc, w', p.entry.value)
  {
  }

  lemma {:induction false} RunKeepsInv(s: System, events: seq<Event>)
    requires Initial(s)
    ensures Inv(Run(s, events))
  {
    if events != [] {
      RunKeepsInv(s, events[..|events| - 1]);
      EventKeepsInv(Run(s, events[..|events| - 1]), events[|events| - 1]);
    }
  }

  lemma {:induction false} RunKeepsFileInv(s: System, events: seq<Event>)
    requires Initial(s) && Disciplined(s, events)
    ensures Inv(Run(s, events)) && FileInv(Run(s, events))
  {
    if events != [] {
      RunKeepsFileInv(s, events[..|events| - 1]);
      EventKeepsFileInv(Run(s, events[..|events| - 1]), events[|events| - 1]);
    }
  }
}
