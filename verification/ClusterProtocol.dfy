/** The cluster lifecycle as a protocol (`internal/cluster/service.go`).

    Any number of tripgoctl processes run `Start`, `Stop`, `Inspect` or hold an environment
    lease. One process step is one external command, which takes effect or fails without
    effect. Between any two steps other processes may step, a process may be killed, and,
    while nobody holds the operation lock, outside actors may change containers and the
    state file. */
module ClusterProtocol {
  import opened ClusterState
  import opened Options
  import opened Ordering

  type Pid = nat

  /** A kind cluster: node marker, API identity marker, and the Start call that made it. */
  datatype Kind = Kind(marker: Option<string>, api: Option<string>, creator: Option<Pid>)

  /** The registry container: the text `managed-by|cluster-id` of its labels, and its maker. */
  datatype Registry = Registry(labels: string, creator: Option<Pid>)

  datatype Target = ClusterTarget | RegistryTarget

  /** A record of one deletion, taken from the world at the moment of the command. */
  datatype Deletion = Deletion(
    actor: Pid, holder: Option<Pid>, target: Target,
    bears: Option<string>,             // identity on the deleted resource
    creator: Option<Pid>,              // Start call that created it
    recorded: Option<State>,           // usable state file at that moment
    loaded: Option<State>,             // state file as the deleting operation had read it
    confirmed: Option<seq<string>>)    // namespaces confirmed by the caller of Stop

  /** The ownership marks of a Kubernetes object, and what else it holds. */
  datatype Marks = Marks(managed: bool, lab: string, namespace: string, clusterId: string)

  datatype Object = Object(marks: Marks, content: string)

  /** A record of one change to a Kubernetes object through a lease. */
  datatype Patch = Patch(
    actor: Pid, holder: Option<Pid>, key: string,
    before: Option<Object>,            // the object at that moment
    marks: Marks,                      // the marks it gets
    id: string,                        // cluster id of the lease
    recorded: Option<State>, bears: Option<string>, api: Option<string>)

  datatype World = World(
    lock: Option<Pid>, file: StateFile, cluster: Option<Kind>, registry: Option<Registry>,
    objects: map<string, Object>, log: seq<Deletion>, patches: seq<Patch>)

  datatype Operation = StartOp | StopOp(confirmed: seq<string>) | InspectOp | LeaseOp

  /** `Aborted` is a Start that failed after its registry was up, with what its cleanup achieved. */
  datatype Outcome = Succeeded(id: Option<string>) | Refused | Aborted(attempt: string, clusterGone: bool,
      registryGone: bool)

  /** `verifyStateAndContainers` and the API check: shared by Start, Inspect and leases. */
  datatype CheckPoint =
    | LoadExisting | CatMarker(state: State) | CheckRegistry(state: State) | InspectContainers(state: State)
    | LeaseAccess(state: State)

  /** The rest of Start. */
  datatype StartPoint =
    | ListClusters | FindOrphan | LoadOrphan | CheckOrphan(state: State) | RemoveOrphan(state: State)
    | Preflight | RunRegistry(id: string) | WriteKindConfig(id: string) | CreateCluster(id: string)
    | ConnectNetwork(id: string) | WriteMarker(id: string) | InstallIdentity(id: string) | SaveState(id: string)
    | CleanCluster(id: string) | CleanRegistry(id: string, clusterGone: bool)

  datatype StopPoint =
    | LoadBeforeStop | ListBeforeStop(loaded: Option<State>) | FindRegistry(loaded: Option<State>, clusterExists: bool)
    | StopCatMarker(state: State, registryExists: bool) | StopDelete(state: State, registryExists: bool)
    | StopCheckRegistry(state: State) | StopRemoveRegistry(state: State) | Forget

  datatype Pc =
    | Begin | Prerequisites
    | Checking(check: CheckPoint) | Starting(start: StartPoint) | Stopping(stop: StopPoint)
    | Lease(state: State, held: bool)
    | Updating(state: State, held: bool, updated: State)               // the loaded state is changed, not yet written
    | Applying(state: State, held: bool, key: string, target: Object)  // the target was read, not yet patched
    | Finish(outcome: Outcome)   // the deferred unlock is still to come
    | Done(outcome: Outcome) | Killed

  /** One process; `entry` is the world as it was when the lock was taken. */
  datatype Process = Process(op: Operation, build: Build, pc: Pc, entry: Option<World>)

  datatype LeaseAction =
    | Update(namespace: string, known: bool, running: bool)
    | ApplyObject(key: string, lab: string, namespace: string, content: string)
    | Close

  /** What the environment decides about one step: command success, random id, lease use. */
  datatype Input = Input(ok: bool, random: string, action: LeaseAction)

  const OWN_LABEL := "tripgoctl|"

  function OwnLabels(id: string): (labels: string)
    ensures LabelIdentity(labels) == Some(id)
  {
    OWN_LABEL + id
  }

  /** The id for which labels pass the comparison with `tripgoctl|id`, if there is one. */
  function LabelIdentity(labels: string): (id: Option<string>)
    ensures id.Some? ==> labels == OWN_LABEL + id.value
  {
    if OWN_LABEL <= labels then Some(labels[|OWN_LABEL|..]) else None
  }

  function ClusterIdentity(w: World): Option<string> {
    if w.cluster.Some? then w.cluster.value.marker else None
  }

  function RegistryIdentity(w: World): Option<string> {
    if w.registry.Some? then LabelIdentity(w.registry.value.labels) else None
  }

  function DeleteCluster(pid: Pid, w: World, loaded: Option<State>, confirmed: Option<seq<string>>): World {
    w.(cluster := None, objects := map[],
       log := w.log + [Deletion(pid, w.lock, ClusterTarget, ClusterIdentity(w),
                                if w.cluster.Some? then w.cluster.value.creator else None, LoadState(w.file), loaded,
                                    confirmed)])
  }

  function DeleteRegistry(pid: Pid, w: World, loaded: Option<State>, confirmed: Option<seq<string>>): World {
    w.(registry := None,
       log := w.log + [Deletion(pid, w.lock, RegistryTarget, RegistryIdentity(w),
                                if w.registry.Some? then w.registry.value.creator else None, LoadState(w.file),
                                    loaded, confirmed)])
  }

  const FAIL := Finish(Refused)

  function CheckStep(op: Operation, build: Build, at: CheckPoint, w: World, ok: bool): Pc {
    match at
    case LoadExisting =>
      var loaded := LoadState(w.file);
      if ok && loaded.Some? && loaded.value.build == build then Checking(CatMarker(loaded.value)) else FAIL
    case CatMarker(state) =>
      if ok && ClusterIdentity(w) == Some(state.clusterId) then Checking(CheckRegistry(state)) else FAIL
    case CheckRegistry(state) =>
      if ok && RegistryIdentity(w) == Some(state.clusterId) then Checking(InspectContainers(state)) else FAIL
    case InspectContainers(state) =>
      if !ok then FAIL
      else if op.LeaseOp? then Checking(LeaseAccess(state))
      else Finish(Succeeded(Some(state.clusterId)))
    case LeaseAccess(state) =>
      if ok && w.cluster.Some? && w.cluster.value.api == Some(state.clusterId) then Lease(state, true) else FAIL
  }

  function StartStep(pid: Pid, build: Build, at: StartPoint, w: World, input: Input): (Pc, World) {
    var ok := input.ok;
    match at
    case ListClusters =>
      (if !ok then FAIL else if w.cluster.Some? then Checking(LoadExisting) else Starting(FindOrphan), w)
    case FindOrphan =>
      (if !ok then FAIL else Starting(if w.registry.Some? then LoadOrphan else Preflight), w)
    case LoadOrphan =>
      var loaded := LoadState(w.file);
      (if ok && loaded.Some? then Starting(CheckOrphan(loaded.value)) else FAIL, w)
    case CheckOrphan(state) =>
      (if ok && RegistryIdentity(w) == Some(state.clusterId) then Starting(RemoveOrphan(state)) else FAIL, w)
    case RemoveOrphan(state) =>
      if ok then (Starting(Preflight), DeleteRegistry(pid, w, Some(state), None)) else (FAIL, w)
    case Preflight =>
      (if ok && input.random != "" then Starting(RunRegistry(input.random)) else FAIL, w)
    case RunRegistry(id) =>
      if ok && w.registry.None?
      then (Starting(WriteKindConfig(id)), w.(registry := Some(Registry(OwnLabels(id), Some(pid)))))
      else (FAIL, w)
    case WriteKindConfig(id) =>
      (Starting(if ok then CreateCluster(id) else CleanRegistry(id, true)), w)
    case CreateCluster(id) =>
      if ok && w.cluster.None?
      then (Starting(ConnectNetwork(id)), w.(cluster := Some(Kind(None, None, Some(pid))), objects := map[]))
      else (Starting(CleanRegistry(id, true)), w)
    case ConnectNetwork(id) =>
      (Starting(if ok then WriteMarker(id) else CleanCluster(id)), w)
    case WriteMarker(id) =>
      if ok && w.cluster.Some?
      then (Starting(InstallIdentity(id)), w.(cluster := Some(w.cluster.value.(marker := Some(id)))))
      else (Starting(CleanCluster(id)), w)
    case InstallIdentity(id) =>
      if ok && w.cluster.Some?
      then (Starting(SaveState(id)), w.(cluster := Some(w.cluster.value.(api := Some(id)))))
      else (Starting(CleanCluster(id)), w)
    case SaveState(id) =>
      if ok
      then (Finish(Succeeded(Some(id))), w.(file := WrittenState(State(id, build, [], []))))
      else (Starting(CleanCluster(id)), w)
    case CleanCluster(id) =>
      (Starting(CleanRegistry(id, ok)), if ok then DeleteCluster(pid, w, None, None) else w)
    case CleanRegistry(id, clusterGone) =>
      (Finish(Aborted(id, clusterGone, ok)), if ok then DeleteRegistry(pid, w, None, None) else w)
  }

  function StopStep(pid: Pid, confirmed: seq<string>, at: StopPoint, w: World, ok: bool): (Pc, World) {
    match at
    case LoadBeforeStop =>
      (Stopping(ListBeforeStop(if ok then LoadState(w.file) else None)), w)
    case ListBeforeStop(loaded) =>
      (if ok then Stopping(FindRegistry(loaded, w.cluster.Some?)) else FAIL, w)
    case FindRegistry(loaded, clusterExists) =>
      (if !ok then FAIL
       else if !clusterExists && w.registry.None? then Stopping(Forget)
       else if loaded.None? || Sort(confirmed) != Sort(loaded.value.namespaces) then FAIL
       else if clusterExists then Stopping(StopCatMarker(loaded.value, w.registry.Some?))
       else Stopping(StopCheckRegistry(loaded.value)), w)
    case StopCatMarker(state, registryExists) =>
      (if ok && ClusterIdentity(w) == Some(state.clusterId) then Stopping(StopDelete(state, registryExists))
          else FAIL, w)
    case StopDelete(state, registryExists) =>
      if ok
      then (Stopping(if registryExists then StopCheckRegistry(state) else Forget),
          DeleteCluster(pid, w, Some(state), Some(confirmed)))
      else (FAIL, w)
    case StopCheckRegistry(state) =>
      (if ok && RegistryIdentity(w) == Some(state.clusterId) then Stopping(StopRemoveRegistry(state)) else FAIL, w)
    case StopRemoveRegistry(state) =>
      if ok then (Stopping(Forget), DeleteRegistry(pid, w, Some(state), Some(confirmed))) else (FAIL, w)
    case Forget =>
      if ok then (Finish(Succeeded(None)), w.(file := Missing)) else (FAIL, w)
  }

  /** One use of an environment lease. `SetEnvironmentState` is two commands: load and compare
      the id, then write. So is applying an object: read it and verify its ownership, then patch.
      Only `Close` looks at whether the lock is still held. */
  function LeaseStep(state: State, held: bool, w: World, input: Input): (Pc, World) {
    match input.action
    case Close => if held then (Lease(state, false), w.(lock := None)) else (Lease(state, held), w)
    case Update(namespace, known, running) =>
      var current := LoadState(w.file);
      if !input.ok || current.None? || current.value.clusterId != state.clusterId then (Lease(state, held), w)
      else (Updating(state, held, WithEnvironment(current.value, namespace, known, running)), w)
    case ApplyObject(key, lab, namespace, content) =>
      var marks := Marks(true, lab, namespace, state.clusterId);
      if !input.ok || (key in w.objects && w.objects[key].marks != marks) then (Lease(state, held), w)
      else (Applying(state, held, key, Object(marks, content)), w)
  }

  /** The patch of an applied object, as the world stands. */
  function PatchBy(pid: Pid, state: State, key: string, marks: Marks, w: World): Patch
    requires w.cluster.Some?
  {
    Patch(pid, w.lock, key, if key in w.objects then Some(w.objects[key]) else None, marks,
          state.clusterId, LoadState(w.file), w.cluster.value.marker, w.cluster.value.api)
  }

  function ApplyStep(pid: Pid, pc: Pc, w: World, ok: bool): (Pc, World)
    requires pc.Applying?
  {
    (Lease(pc.state, pc.held),
     if !ok || w.cluster.None? then w
     else w.(objects := w.objects[pc.key := pc.target],
             patches := w.patches + [PatchBy(pid, pc.state, pc.key, pc.target.marks, w)]))
  }

  /** One step of one process: its next program point and the world it leaves. */
  function Advance(pid: Pid, p: Process, w: World, input: Input): (Pc, World)
    requires WellTyped(p)
  {
    match p.pc
    case Begin => if input.ok && w.lock.None? then (Prerequisites, w.(lock := Some(pid))) else (Done(Refused), w)
    case Prerequisites =>
      (if !input.ok then FAIL
       else match p.op
            case StartOp => Starting(ListClusters)
            case StopOp(_) => Stopping(LoadBeforeStop)
            case InspectOp => Checking(LoadExisting)
            case LeaseOp => Checking(LoadExisting), w)
    case Checking(at) => (CheckStep(p.op, p.build, at, w, input.ok), w)
    case Starting(at) => StartStep(pid, p.build, at, w, input)
    case Stopping(at) => StopStep(pid, p.op.confirmed, at, w, input.ok)
    case Lease(state, held) => LeaseStep(state, held, w, input)
    case Applying(_, _, _, _) => ApplyStep(pid, p.pc, w, input.ok)
    case Updating(state, held, updated) =>
      if input.ok then (Lease(updated, held), w.(file := WrittenState(updated))) else (Lease(state, held), w)
    case Finish(outcome) => (Done(outcome), w.(lock := None))
    case _ => (p.pc, w)
  }

  /** One step of one process. Taking the lock records the world it was taken in. */
  function Change(pid: Pid, p: Process, w: World, input: Input): (Process, World)
    requires WellTyped(p)
  {
    var (pc, w') := Advance(pid, p, w, input);
    (p.(pc := pc, entry := if p.pc.Begin? then Some(w) else p.entry), w')
  }

  predicate WellTyped(p: Process) { p.pc.Stopping? ==> p.op.StopOp? }

  /** The whole system: the shared world and every process ever started. */
  datatype System = System(world: World, processes: map<Pid, Process>)

  datatype Event =
    | Spawn(pid: Pid, op: Operation, build: Build)
    | Step(pid: Pid, input: Input)
    | Kill(pid: Pid)                       // the operating system drops the lock of a dead process
    | Outside(file: StateFile, cluster: Option<Kind>, registry: Option<Registry>, objects: map<string, Object>)

  /** Outside actors may make, alter or remove anything, but nothing they make was made by a
      Start call. */
  predicate OutsideAllowed(w: World, cluster: Option<Kind>, registry: Option<Registry>) {
    && w.lock.None?
    && (cluster.Some? && cluster.value.creator.Some? ==>
        w.cluster.Some? && w.cluster.value.creator == cluster.value.creator)
    && (registry.Some? && registry.value.creator.Some? ==>
        w.registry.Some? && w.registry.value.creator == registry.value.creator)
  }

  /** The effect of one event; an event that is not enabled changes nothing. */
  function Apply(s: System, e: Event): System {
    match e
    case Spawn(pid, op, build) =>
      if pid in s.processes then s else s.(processes := s.processes[pid := Process(op, build, Begin, None)])
    case Step(pid, input) =>
      if pid !in s.processes || !WellTyped(s.processes[pid]) then s
      else
        var (p, w) := Change(pid, s.processes[pid], s.world, input);
        System(w, s.processes[pid := p])
    case Kill(pid) =>
      if pid !in s.processes then s
      else System(if s.world.lock == Some(pid) then s.world.(lock := None) else s.world,
                  s.processes[pid := s.processes[pid].(pc := Killed)])
    case Outside(file, cluster, registry, objects) =>
      if OutsideAllowed(s.world, cluster, registry)
      then s.(world := s.world.(file := file, cluster := cluster, registry := registry, objects := objects))
      else s
  }

  function Run(s: System, events: seq<Event>): System {
    if events == [] then s else Apply(Run(s, events[..|events| - 1]), events[|events| - 1])
  }

  predicate Initial(s: System) {
    s.processes == map[] && s.world.lock.None? && s.world.log == [] && s.world.patches == []
  }

  // ---------------------------------------------------------------- discipline of lease users

  /** A use of a lease that was closed before: `SetEnvironmentState` or a Kubernetes request. */
  predicate LateUse(p: Process, input: Input) { p.pc.Lease? && !p.pc.held && !input.action.Close? }

  predicate IsLateUse(s: System, e: Event) {
    e.Step? && e.pid in s.processes && LateUse(s.processes[e.pid], e.input)
  }

  /** No lease is used after it was closed. */
  predicate Disciplined(s: System, events: seq<Event>) {
    events == [] ||
    var init := events[..|events| - 1];
    Disciplined(s, init) && !IsLateUse(Run(s, init), events[|events| - 1])
  }

  // ---------------------------------------------------------------- what is kept

  /** Between the two commands of one use of a lease. */
  predicate InUse(pc: Pc) { pc.Updating? || pc.Applying? }

  predicate UsingLease(pc: Pc) { pc.Lease? || InUse(pc) }

  predicate Holding(pc: Pc) { !pc.Begin? && !pc.Done? && !pc.Killed? && (UsingLease(pc) ==> pc.held) }

  /** Whatever happens to the state file meanwhile: the deleting process holds the lock, and the
      resource bears the identity it had read from the state file or was created by this very
      Start call; a deletion by Stop also has the namespaces it had read confirmed. */
  ghost predicate AsLoaded(d: Deletion) {
    && d.holder == Some(d.actor)
    && ((d.loaded.Some? && d.bears == Some(d.loaded.value.clusterId)) || d.creator == Some(d.actor))
    && (d.confirmed.Some? ==> d.loaded.Some? && multiset(d.confirmed.value) == multiset(d.loaded.value.namespaces))
  }

  /** A deletion is justified when all that is true of the state file at that very moment. */
  ghost predicate Justified(d: Deletion) {
    && d.holder == Some(d.actor)
    && ((d.recorded.Some? && d.bears == Some(d.recorded.value.clusterId)) || d.creator == Some(d.actor))
    && (d.confirmed.Some? ==> d.recorded.Some? && multiset(d.confirmed.value) == multiset(d.recorded.value.namespaces))
  }

  /** Kubernetes objects are changed under the lock, with one id in the lease, the state file,
      the node marker and the API marker, and only if they are new or bear the lease's marks. */
  ghost predicate Authorised(p: Patch) {
    && p.holder == Some(p.actor)
    && p.recorded.Some? && p.recorded.value.clusterId == p.id && p.bears == Some(p.id) && p.api == Some(p.id)
    && p.marks.managed && p.marks.clusterId == p.id
    && (p.before.Some? ==> p.before.value.marks == p.marks)
  }

  /** Node marker and registry label name one cluster. */
  ghost predicate ContainersAgree(w: World, id: string) {
    && w.cluster.Some? && w.cluster.value.marker == Some(id)
    && w.registry.Some? && w.registry.value.labels == "tripgoctl|" + id
  }

  ghost predicate Recorded(w: World, id: string) { LoadState(w.file).Some? && LoadState(w.file).value.clusterId == id }

  /** State file, node marker, registry label name one cluster. */
  ghost predicate Agree(w: World, id: string) { Recorded(w, id) && ContainersAgree(w, id) }

  ghost predicate SameContainers(w: World, entry: World) {
    w.cluster == entry.cluster && w.registry == entry.registry && w.log == entry.log
  }

  ghost predicate Same(w: World, entry: World) { w.file == entry.file && SameContainers(w, entry) }

  ghost predicate OwnRegistry(pid: Pid, id: string, w: World) {
    w.registry == Some(Registry(OwnLabels(id), Some(pid)))
  }

  ghost predicate OwnCluster(pid: Pid, id: string, w: World) {
    w.cluster.Some? && w.cluster.value.creator == Some(pid)
    && (w.cluster.value.marker == None || w.cluster.value.marker == Some(id))
  }

  ghost predicate Confirmed(confirmed: seq<string>, state: State) {
    multiset(confirmed) == multiset(state.namespaces)
  }

  // What the lock holder knows about the containers, whatever others do to the state file.

  ghost predicate CheckKnows(at: CheckPoint, w: World) {
    match at
    case LoadExisting => true
    case CatMarker(state) => state.clusterId != ""
    case CheckRegistry(state) => state.clusterId != "" && ClusterIdentity(w) == Some(state.clusterId)
    case InspectContainers(state) => state.clusterId != "" && ContainersAgree(w, state.clusterId)
    case LeaseAccess(state) => state.clusterId != "" && ContainersAgree(w, state.clusterId)
  }

  ghost predicate StartKnows(pid: Pid, at: StartPoint, w: World, e: World) {
    && (!at.ListClusters? ==> e.cluster.None?)
    && match at
       case ListClusters => SameContainers(w, e)
       case FindOrphan => SameContainers(w, e)
       case LoadOrphan => SameContainers(w, e)
       case CheckOrphan(_) => SameContainers(w, e)
       case RemoveOrphan(state) => SameContainers(w, e) && RegistryIdentity(w) == Some(state.clusterId)
       case Preflight => w.cluster.None? && w.registry.None?
       case RunRegistry(id) => w.cluster.None? && w.registry.None? && id != ""
       case WriteKindConfig(id) => w.cluster.None? && OwnRegistry(pid, id, w) && id != ""
       case CreateCluster(id) => w.cluster.None? && OwnRegistry(pid, id, w) && id != ""
       case ConnectNetwork(id) => OwnCluster(pid, id, w) && OwnRegistry(pid, id, w) && id != ""
       case WriteMarker(id) => OwnCluster(pid, id, w) && OwnRegistry(pid, id, w) && id != ""
       case InstallIdentity(id) =>
         OwnCluster(pid, id, w) && OwnRegistry(pid, id, w) && id != "" && ClusterIdentity(w) == Some(id)
       case SaveState(id) =>
         && OwnCluster(pid, id, w) && OwnRegistry(pid, id, w) && id != "" && ClusterIdentity(w) == Some(id)
         && w.cluster.value.api == Some(id)
       case CleanCluster(id) => OwnCluster(pid, id, w) && OwnRegistry(pid, id, w)
       case CleanRegistry(id, clusterGone) =>
         OwnRegistry(pid, id, w) && if clusterGone then w.cluster.None? else OwnCluster(pid, id, w)
  }

  ghost predicate StopKnows(confirmed: seq<string>, at: StopPoint, w: World, e: World) {
    && (!at.Forget? ==> w.registry == e.registry)
    && (!at.StopCheckRegistry? && !at.StopRemoveRegistry? && !at.Forget? ==> w.cluster == e.cluster)
    && match at
       case LoadBeforeStop => true
       case ListBeforeStop(_) => true
       case FindRegistry(_, clusterExists) => clusterExists <==> w.cluster.Some?
       case StopCatMarker(state, registryExists) =>
         Confirmed(confirmed, state) && (registryExists <==> w.registry.Some?)
       case StopDelete(state, registryExists) =>
         && Confirmed(confirmed, state) && (registryExists <==> w.registry.Some?)
         && ClusterIdentity(w) == Some(state.clusterId)
       case StopCheckRegistry(state) => Confirmed(confirmed, state) && w.cluster.None?
       case StopRemoveRegistry(state) =>
         Confirmed(confirmed, state) && w.cluster.None? && RegistryIdentity(w) == Some(state.clusterId)
       case Forget => w.cluster.None? && w.registry.None?
  }

  /** What each way of ending promises about the containers. */
  ghost predicate OutcomeHolds(pid: Pid, op: Operation, outcome: Outcome, w: World, e: World) {
    match outcome
    case Succeeded(id) =>
      if op.StopOp? then w.cluster.None? && w.registry.None?
      else id.Some? && ContainersAgree(w, id.value) && (e.cluster.Some? || !op.StartOp? ==> SameContainers(w, e))
    case Aborted(id, clusterGone, registryGone) =>
      && op.StartOp?
      && (if clusterGone then w.cluster.None? else OwnCluster(pid, id, w))
      && (if registryGone then w.registry.None? else OwnRegistry(pid, id, w))
    case Refused => RefusalHolds(op, w, e)
  }

  /** A refused operation has made nothing: what there is was there before. Inspect and leases
      take nothing away, and Start no cluster. */
  ghost predicate RefusalHolds(op: Operation, w: World, e: World) {
    && (w.cluster == e.cluster || (op.StopOp? && w.cluster.None?))
    && (w.registry == e.registry || ((op.StartOp? || op.StopOp?) && w.registry.None?))
  }

  /** `e` is the world the lock was taken in. */
  ghost predicate Knows(pid: Pid, op: Operation, pc: Pc, w: World, e: World) {
    match pc
    case Prerequisites => SameContainers(w, e)
    case Checking(at) => !op.StopOp? && SameContainers(w, e) && CheckKnows(at, w)
    case Starting(at) => op.StartOp? && StartKnows(pid, at, w, e)
    case Stopping(at) => op.StopOp? && StopKnows(op.confirmed, at, w, e)
    case Lease(state, _) => LeaseKnows(state, w)
    case Updating(state, _, updated) => LeaseKnows(state, w) && updated.clusterId == state.clusterId
    case Applying(state, _, _, target) => LeaseKnows(state, w) && target.marks.managed
        && target.marks.clusterId == state.clusterId
    case Finish(outcome) => OutcomeHolds(pid, op, outcome, w, e)
    case _ => true
  }

  ghost predicate LeaseKnows(state: State, w: World) {
    state.clusterId != "" && ContainersAgree(w, state.clusterId) && w.cluster.value.api == Some(state.clusterId)
  }

  // What the lock holder knows about the state file when no lease is used after its close.

  ghost predicate CheckFile(at: CheckPoint, w: World) { at.LoadExisting? || LoadState(w.file) == Some(at.state) }

  ghost predicate StartFile(at: StartPoint, w: World, e: World) {
    && w.file == e.file
    && (at.CheckOrphan? || at.RemoveOrphan? ==> LoadState(w.file) == Some(at.state))
  }

  ghost predicate StopFile(at: StopPoint, w: World, e: World) {
    && w.file == e.file
    && (at.ListBeforeStop? || at.FindRegistry? ==> at.loaded.Some? ==> LoadState(w.file) == at.loaded)
    && (at.StopCatMarker? || at.StopDelete? || at.StopCheckRegistry? || at.StopRemoveRegistry? ==>
        LoadState(w.file) == Some(at.state))
  }

  /** What each way of ending promises about the state file. */
  ghost predicate OutcomeFile(op: Operation, outcome: Outcome, w: World, e: World) {
    if !outcome.Succeeded? then w.file == e.file
    else if op.StopOp? then w.file == Missing
    else outcome.id.Some? && Recorded(w, outcome.id.value) && (e.cluster.Some? || !op.StartOp? ==> w.file == e.file)
  }

  ghost predicate FileKnows(op: Operation, pc: Pc, w: World, e: World) {
    match pc
    case Prerequisites => w.file == e.file
    case Checking(at) => w.file == e.file && CheckFile(at, w)
    case Starting(at) => StartFile(at, w, e)
    case Stopping(at) => StopFile(at, w, e)
    case Lease(state, _) => LoadState(w.file) == Some(state)
    case Updating(state, _, _) => LoadState(w.file) == Some(state)
    case Applying(state, _, key, target) =>
      LoadState(w.file) == Some(state) && (key in w.objects ==> w.objects[key].marks == target.marks)
    case Finish(outcome) => OutcomeFile(op, outcome, w, e)
    case _ => true
  }

  // ---------------------------------------------------------------- the two invariants

  /** In every run. */
  ghost predicate Inv(s: System) {
    && (s.world.lock.Some? ==> s.world.lock.value in s.processes)
    && (forall pid :: pid in s.processes ==> (Holding(s.processes[pid].pc) <==> s.world.lock == Some(pid)))
    && (forall pid :: pid in s.processes && Holding(s.processes[pid].pc) ==>
          var p := s.processes[pid];
          p.entry.Some? && Knows(pid, p.op, p.pc, s.world, p.entry.value))
    && (forall d :: d in s.world.log ==> AsLoaded(d))
  }

  /** In every run in which no lease is used after its close. */
  ghost predicate FileInv(s: System)
    requires Inv(s)
  {
    && (forall pid :: pid in s.processes && InUse(s.processes[pid].pc) ==> s.processes[pid].pc.held)
    && (forall pid :: pid in s.processes && Holding(s.processes[pid].pc) ==>
          var p := s.processes[pid];
          FileKnows(p.op, p.pc, s.world, p.entry.value))
    && (forall d :: d in s.world.log ==> Justified(d))
    && (forall p :: p in s.world.patches ==> Authorised(p))
  }
}
