/** What every run of the cluster protocol keeps, and what a lease used after its close breaks. */
module ClusterRuns {
  import opened ClusterState
  import opened ClusterProtocol
  import opened ClusterSafety
  import opened Options
  import opened Ordering

  // ---------------------------------------------------------------- deletions

  /** The state file as a process had read it, once it may delete by it. */
  function LoadedBy(pc: Pc): Option<State> {
    match pc
    case Starting(CheckOrphan(state)) => Some(state)
    case Starting(RemoveOrphan(state)) => Some(state)
    case Stopping(ListBeforeStop(loaded)) => loaded
    case Stopping(FindRegistry(loaded, _)) => loaded
    case Stopping(StopCatMarker(state, _)) => Some(state)
    case Stopping(StopDelete(state, _)) => Some(state)
    case Stopping(StopCheckRegistry(state)) => Some(state)
    case Stopping(StopRemoveRegistry(state)) => Some(state)
    case _ => None
  }

  /** At this moment of the run the process held the lock and the state file said this. */
  ghost predicate ReadAt(s: System, events: seq<Event>, pid: Pid, state: State, k: nat)
    requires k <= |events|
  {
    var w := Run(s, events[..k]).world;
    w.lock == Some(pid) && LoadState(w.file) == Some(state)
  }

  ghost predicate WasRead(s: System, events: seq<Event>, pid: Pid, state: State) {
    exists k :: 0 <= k <= |events| && ReadAt(s, events, pid, state, k)
  }

  lemma WasReadStays(s: System, events: seq<Event>, pid: Pid, state: State)
    requires events != [] && WasRead(s, events[..|events| - 1], pid, state)
    ensures WasRead(s, events, pid, state)
  {
    var init := events[..|events| - 1];
    var k :| 0 <= k <= |init| && ReadAt(s, init, pid, state, k);
    assert init[..k] == events[..k];
    assert ReadAt(s, events, pid, state, k);
  }

  /** From one point to the next a process goes by what it had read, or reads the state file of
      the moment, and deletes by what it had read. */
  ghost predicate Loads(pid: Pid, before: Pc, w: World, after: Pc, w': World) {
    && (LoadedBy(after).Some? ==>
          (LoadedBy(after) == LoadedBy(before) || LoadedBy(after) == LoadState(w.file)) && w'.file == w.file)
    && (forall d :: d in w'.log ==> d in w.log || NewDeletion(d, pid, before, w))
  }

  ghost predicate NewDeletion(d: Deletion, pid: Pid, before: Pc, w: World) {
    d.actor == pid && (d.loaded.Some? ==> d.loaded == LoadedBy(before)) && d.recorded == LoadState(w.file)
  }

  lemma StartLoads(pid: Pid, build: Build, at: StartPoint, w: World, input: Input)
    ensures var (pc, w') := StartStep(pid, build, at, w, input); Loads(pid, Starting(at), w, pc, w')
  {
  }

  lemma StopLoads(pid: Pid, confirmed: seq<string>, at: StopPoint, w: World, ok: bool)
    ensures var (pc, w') := StopStep(pid, confirmed, at, w, ok); Loads(pid, Stopping(at), w, pc, w')
  {
  }

  lemma StepLoads(pid: Pid, p: Process, w: World, input: Input)
    requires WellTyped(p)
    ensures var (p', w') := Change(pid, p, w, input);
            Loads(pid, p.pc, w, p'.pc, w') && (LoadedBy(p'.pc).Some? ==> Holding(p.pc))
  {
    if p.pc.Starting? {
      StartLoads(pid, p.build, p.pc.start, w, input);
    } else if p.pc.Stopping? {
      StopLoads(pid, p.op.confirmed, p.pc.stop, w, input.ok);
    }
  }

  ghost predicate AllRead(s: System, events: seq<Event>) {
    var r := Run(s, events);
    && (forall pid :: pid in r.processes && LoadedBy(r.processes[pid].pc).Some? ==>
          WasRead(s, events, pid, LoadedBy(r.processes[pid].pc).value))
    && (forall d :: d in r.world.log && d.loaded.Some? ==> WasRead(s, events, d.actor, d.loaded.value))
  }

  lemma StepKeepsAllRead(s: System, events: seq<Event>)
    requires events != [] && Initial(s)
    requires AllRead(s, events[..|events| - 1])
    ensures AllRead(s, events)
  {
    var init, e := events[..|events| - 1], events[|events| - 1];
    var before, after := Run(s, init), Run(s, events);
    RunKeepsInv(s, init);
    if e.Step? && e.pid in before.processes && WellTyped(before.processes[e.pid]) {
      StepLoads(e.pid, before.processes[e.pid], before.world, e.input);
    }
    forall pid | pid in after.processes && LoadedBy(after.processes[pid].pc).Some?
      ensures WasRead(s, events, pid, LoadedBy(after.processes[pid].pc).value)
    {
      var state := LoadedBy(after.processes[pid].pc).value;
      assert pid in before.processes;
      if LoadedBy(before.processes[pid].pc) == Some(state) {
        WasReadStays(s, events, pid, state);
      } else {
        assert ReadAt(s, events, pid, state, |init|);
      }
    }
    forall d | d in after.world.log && d.loaded.Some? ensures WasRead(s, events, d.actor, d.loaded.value) {
      WasReadStays(s, events, d.actor, d.loaded.value);
    }
  }

  lemma {:induction false} RunKeepsAllRead(s: System, events: seq<Event>)
    requires Initial(s)
    ensures AllRead(s, events)
  {
    if events != [] {
      RunKeepsAllRead(s, events[..|events| - 1]);
      StepKeepsAllRead(s, events);
    }
  }

  /** In every run whatsoever, each deletion was made under the lock and hit a resource bearing
      the identity its operation had read from the state file under that lock, or one made by the
      same Start call; and a Stop deleted only for the namespaces it had read and had confirmed. */
  lemma EveryDeletionAsLoaded(s: System, events: seq<Event>, d: Deletion)
    requires Initial(s) && d in Run(s, events).world.log
    ensures AsLoaded(d)
    ensures d.loaded.Some? ==> WasRead(s, events, d.actor, d.loaded.value)
  {
    RunKeepsInv(s, events);
    RunKeepsAllRead(s, events);
  }

  // ---------------------------------------------------------------- when deletions are justified

  /** A state file that names this id and, up to order, these namespaces. */
  ghost predicate SaysSame(file: StateFile, state: State) {
    && LoadState(file).Some? && LoadState(file).value.clusterId == state.clusterId
    && multiset(LoadState(file).value.namespaces) == multiset(state.namespaces)
  }

  /** A write through a closed lease is harmless if nobody holds the lock, or if it leaves the id
      and the namespaces of the file it overwrites. */
  ghost predicate Harmless(w: World, updated: State) {
    w.lock.Some? && LoadState(w.file).Some? ==> SaysSame(w.file, updated)
  }

  predicate IsLateWrite(s: System, e: Event) {
    && e.Step? && e.pid in s.processes && e.input.ok
    && s.processes[e.pid].pc.Updating? && !s.processes[e.pid].pc.held
  }

  /** Every write through a closed lease is harmless at its moment. */
  ghost predicate HarmlessRun(s: System, events: seq<Event>) {
    events == [] ||
    var init, e := events[..|events| - 1], events[|events| - 1];
    && HarmlessRun(s, init)
    && (IsLateWrite(Run(s, init), e) ==> Harmless(Run(s, init).world, Run(s, init).processes[e.pid].pc.updated))
  }

  /** The state file still says what the lock holder may delete by. */
  ghost predicate LoadedHolds(s: System) {
    forall pid :: pid in s.processes && LoadedBy(s.processes[pid].pc).Some? ==>
      SaysSame(s.world.file, LoadedBy(s.processes[pid].pc).value)
  }

  lemma JustifiedByLoaded(d: Deletion, w: World)
    requires AsLoaded(d) && d.recorded == LoadState(w.file) && (d.loaded.Some? ==> SaysSame(w.file, d.loaded.value))
    ensures Justified(d)
  {
  }

  lemma HolderStaysJustified(s: System, pid: Pid, input: Input)
    requires Inv(s) && LoadedHolds(s) && AllJustified(s.world)
    requires pid in s.processes && Holding(s.processes[pid].pc)
    ensures var after := Apply(s, Step(pid, input)); LoadedHolds(after) && AllJustified(after.world)
  {
    var p, w := s.processes[pid], s.world;
    HolderKeeps(pid, p, w, input);
    StepLoads(pid, p, w, input);
    var (p', w') := Change(pid, p, w, input);
    assert Apply(s, Step(pid, input)) == System(w', s.processes[pid := p']);
    forall d | d in w'.log ensures Justified(d) {
      if d !in w.log {
        JustifiedByLoaded(d, w);
      }
    }
    OthersLoadedNothing(s, pid);
  }

  /** Only the lock holder has anything to delete by. */
  lemma OthersLoadedNothing(s: System, holder: Pid)
    requires Inv(s) && holder in s.processes && Holding(s.processes[holder].pc)
    ensures forall pid :: pid in s.processes && pid != holder ==> LoadedBy(s.processes[pid].pc).None?
  {
  }

  lemma OtherStaysJustified(s: System, pid: Pid, input: Input)
    requires Inv(s) && LoadedHolds(s) && AllJustified(s.world)
    requires pid in s.processes && !Holding(s.processes[pid].pc)
    requires IsLateWrite(s, Step(pid, input)) ==> Harmless(s.world, s.processes[pid].pc.updated)
    ensures var after := Apply(s, Step(pid, input)); LoadedHolds(after) && AllJustified(after.world)
  {
    var p, w := s.processes[pid], s.world;
    OthersLeaveContainers(pid, p, w, input);
    StepLoads(pid, p, w, input);
    var (p', w') := Change(pid, p, w, input);
    assert Apply(s, Step(pid, input)) == System(w', s.processes[pid := p']);
    OtherWrites(pid, p, w, input);
    forall q | q in s.processes && q != pid && LoadedBy(s.processes[q].pc).Some?
      ensures SaysSame(w'.file, LoadedBy(s.processes[q].pc).value)
    {
      assert Holding(s.processes[q].pc);
    }
  }

  /** A process without the lock leaves the file alone, or writes through a closed lease. */
  lemma OtherWrites(pid: Pid, p: Process, w: World, input: Input)
    requires !Holding(p.pc) && WellTyped(p)
    ensures var w' := Change(pid, p, w, input).1;
            if p.pc.Updating? && input.ok then w'.file == WrittenState(p.pc.updated) else w'.file == w.file
  {
  }

  lemma EventStaysJustified(s: System, e: Event)
    requires Inv(s) && LoadedHolds(s) && AllJustified(s.world)
    requires IsLateWrite(s, e) ==> Harmless(s.world, s.processes[e.pid].pc.updated)
    ensures LoadedHolds(Apply(s, e)) && AllJustified(Apply(s, e).world)
  {
    if e.Step? && e.pid in s.processes {
      if Holding(s.processes[e.pid].pc) {
        HolderStaysJustified(s, e.pid, e.input);
      } else {
        OtherStaysJustified(s, e.pid, e.input);
      }
    }
  }

  /** Whatever runs, fails or is killed, as long as each write through a closed lease is harmless
      at its moment, every deletion is justified by the state file of its own moment. */
  lemma {:induction false} HarmlessRunsJustified(s: System, events: seq<Event>)
    requires Initial(s) && HarmlessRun(s, events)
    ensures LoadedHolds(Run(s, events)) && AllJustified(Run(s, events).world)
  {
    if events != [] {
      var init := events[..|events| - 1];
      HarmlessRunsJustified(s, init);
      RunKeepsInv(s, init);
      EventStaysJustified(Run(s, init), events[|events| - 1]);
    }
  }

  lemma {:induction false} DisciplinedIsHarmless(s: System, events: seq<Event>)
    requires Initial(s) && Disciplined(s, events)
    ensures HarmlessRun(s, events)
  {
    if events != [] {
      var init := events[..|events| - 1];
      DisciplinedIsHarmless(s, init);
      RunKeepsFileInv(s, init);
    }
  }

  /** In particular, as long as no lease is used after its close. */
  lemma EveryDeletionJustified(s: System, events: seq<Event>)
    requires Initial(s) && Disciplined(s, events)
    ensures forall d :: d in Run(s, events).world.log ==> Justified(d)
  {
    DisciplinedIsHarmless(s, events);
    HarmlessRunsJustified(s, events);
  }

  // ---------------------------------------------------------------- every deletion is in the log

  /** The identity is what the labels say after `tripgoctl|`, if they start with that. */
  ghost predicate RegistryBears(w: World, bears: Option<string>)
    requires w.registry.Some?
  {
    forall id :: bears == Some(id) <==> w.registry.value.labels == "tripgoctl|" + id
  }

  ghost predicate LoggedDeletion(d: Deletion, pid: Pid, target: Target, w: World) {
    && d.actor == pid && d.holder == w.lock && d.target == target && d.recorded == LoadState(w.file)
    && (target.ClusterTarget? ==>
        w.cluster.Some? && d.bears == w.cluster.value.marker && d.creator == w.cluster.value.creator)
    && (target.RegistryTarget? ==>
        w.registry.Some? && RegistryBears(w, d.bears) && d.creator == w.registry.value.creator)
  }

  /** Every resource lost between two worlds has its entry, and no other entry appears. */
  ghost predicate LossesLogged(pid: Pid, before: World, after: World) {
    var clusterLost := before.cluster.Some?
        && (after.cluster.None? || after.cluster.value.creator != before.cluster.value.creator);
    var registryLost := before.registry.Some? && after.registry != before.registry;
    if clusterLost || registryLost
    then |after.log| == |before.log| + 1 && before.log <= after.log
         && (clusterLost ==> LoggedDeletion(after.log[|before.log|], pid, ClusterTarget, before))
         && (registryLost ==> LoggedDeletion(after.log[|before.log|], pid, RegistryTarget, before))
    else after.log == before.log
  }

  lemma StartLogs(pid: Pid, build: Build, at: StartPoint, w: World, e: World, input: Input)
    requires StartKnows(pid, at, w, e)
    ensures LossesLogged(pid, w, StartStep(pid, build, at, w, input).1)
  {
  }

  lemma StopLogs(pid: Pid, confirmed: seq<string>, at: StopPoint, w: World, e: World, ok: bool)
    requires StopKnows(confirmed, at, w, e)
    ensures LossesLogged(pid, w, StopStep(pid, confirmed, at, w, ok).1)
  {
  }

  /** No process step removes or replaces a resource without a truthful entry in the log. */
  lemma EveryDeletionLogged(s: System, events: seq<Event>, pid: Pid, input: Input)
    requires Initial(s)
    ensures LossesLogged(pid, Run(s, events).world, Apply(Run(s, events), Step(pid, input)).world)
  {
    RunKeepsInv(s, events);
    var r := Run(s, events);
    if pid in r.processes {
      StepLogs(pid, r.processes[pid], r.world, input);
    }
  }

  lemma StepLogs(pid: Pid, p: Process, w: World, input: Input)
    requires Holding(p.pc) ==> p.entry.Some? && Knows(pid, p.op, p.pc, w, p.entry.value)
    ensures WellTyped(p) && LossesLogged(pid, w, Change(pid, p, w, input).1)
  {
    if !Holding(p.pc) {
      OthersLeaveContainers(pid, p, w, input);
    } else if p.pc.Starting? {
      StartLogs(pid, p.build, p.pc.start, w, p.entry.value, input);
    } else if p.pc.Stopping? {
      StopLogs(pid, p.op.confirmed, p.pc.stop, w, p.entry.value, input.ok);
    }
  }

  // ---------------------------------------------------------------- lock and leases

  lemma AtMostOneHolder(s: System, events: seq<Event>, p: Pid, q: Pid)
    requires Initial(s)
    requires p in Run(s, events).processes && Holding(Run(s, events).processes[p].pc)
    requires q in Run(s, events).processes && Holding(Run(s, events).processes[q].pc)
    ensures p == q
  {
    RunKeepsInv(s, events);
  }

  /** While a process holds the lock, no step or death of another and no outsider releases it or
      touches a container; nor, unless through a closed lease, anything else. */
  lemma NobodyFreesAnothersLock(s: System, events: seq<Event>, e: Event)
    requires Initial(s) && Run(s, events).world.lock.Some?
    requires e.Step? || e.Kill? ==> Run(s, events).world.lock != Some(e.pid)
    ensures var r := Run(s, events);
            var after := Apply(r, e).world;
            && after.lock == r.world.lock && SameContainers(after, r.world)
            && (Disciplined(s, events + [e]) ==> after == r.world)
  {
    RunKeepsInv(s, events);
    var r := Run(s, events);
    assert (events + [e])[..|events|] == events;
    if e.Step? && e.pid in r.processes {
      OthersLeaveContainers(e.pid, r.processes[e.pid], r.world, e.input);
    }
    if Disciplined(s, events + [e]) {
      RunKeepsFileInv(s, events);
    }
  }

  /** While a lease is open, in every run, node marker, API marker and registry label carry its
      id; if no lease is used after its close, so does the state file, which says what the lease
      last read or wrote. */
  lemma OpenLeaseAgrees(s: System, events: seq<Event>, pid: Pid)
    requires Initial(s) && pid in Run(s, events).processes
    requires Run(s, events).processes[pid].pc.Lease? && Run(s, events).processes[pid].pc.held
    ensures var r := Run(s, events);
            var leased := r.processes[pid].pc.state;
            && r.world.lock == Some(pid) && LeaseKnows(leased, r.world)
            && (Disciplined(s, events) ==> LoadState(r.world.file) == Some(leased))
  {
    RunKeepsInv(s, events);
    assert Holding(Run(s, events).processes[pid].pc);
    if Disciplined(s, events) {
      RunKeepsFileInv(s, events);
    }
  }

  predicate By(e: Event, pid: Pid) { (e.Spawn? || e.Step? || e.Kill?) && e.pid == pid }

  lemma {:induction false} OthersLeaveProcess(s: System, events: seq<Event>, others: seq<Event>, pid: Pid)
    requires pid in Run(s, events).processes && forall i :: 0 <= i < |others| ==> !By(others[i], pid)
    ensures pid in Run(s, events + others).processes
    ensures Run(s, events + others).processes[pid] == Run(s, events).processes[pid]
    decreases |others|
  {
    if others == [] {
      assert events + others == events;
    } else {
      var init := others[..|others| - 1];
      OthersLeaveProcess(s, events, init, pid);
      assert (events + others)[..|events + others| - 1] == events + init;
    }
  }

  lemma RunNext(s: System, events: seq<Event>, e: Event)
    ensures Run(s, events + [e]) == Apply(Run(s, events), e)
  {
    assert (events + [e])[..|events + [e]| - 1] == events;
  }

  function UpdatedBy(state: State, action: LeaseAction): (updated: State)
    requires action.Update?
    ensures updated.clusterId == state.clusterId
  {
    WithEnvironment(state, action.namespace, action.known, action.running)
  }

  lemma LoadsWhatIsLeased(r: System, pid: Pid, input: Input)
    requires pid in r.processes && r.processes[pid].pc.Lease? && input.ok && input.action.Update?
    requires LoadState(r.world.file) == Some(r.processes[pid].pc.state)
    ensures var pc, after := r.processes[pid].pc, Apply(r, Step(pid, input));
            pid in after.processes
            && after.processes[pid].pc == Updating(pc.state, pc.held, UpdatedBy(pc.state, input.action))
  {
    var p := r.processes[pid];
    assert WellTyped(p);
    LeaseLoads(p.pc.state, p.pc.held, r.world, input);
  }

  lemma LeaseLoads(state: State, held: bool, w: World, input: Input)
    requires input.ok && input.action.Update? && LoadState(w.file) == Some(state)
    ensures LeaseStep(state, held, w, input) == (Updating(state, held, UpdatedBy(state, input.action)), w)
  {
  }

  lemma WritesWhatIsUpdated(r: System, pid: Pid, input: Input)
    requires pid in r.processes && r.processes[pid].pc.Updating? && input.ok
             && r.processes[pid].pc.updated.clusterId != ""
    ensures var pc, after := r.processes[pid].pc, Apply(r, Step(pid, input));
            && pid in after.processes && after.processes[pid].pc == Lease(pc.updated, pc.held)
            && LoadState(after.world.file) == Some(pc.updated)
  {
  }

  /** The generation check of `SetEnvironmentState` never fires: from an open lease in a run
      without late use, the load takes what the lease last read or wrote, and whatever others do
      before the write, the write leaves exactly the update of that. */
  lemma GenerationCheckNeverFires(s: System, events: seq<Event>, pid: Pid, first: Input, others: seq<Event>,
      second: Input)
    requires Initial(s) && Disciplined(s, events) && pid in Run(s, events).processes
    requires Run(s, events).processes[pid].pc.Lease? && Run(s, events).processes[pid].pc.held
    requires first.ok && first.action.Update? && second.ok
    requires forall i :: 0 <= i < |others| ==> !By(others[i], pid)
    ensures var updated := UpdatedBy(Run(s, events).processes[pid].pc.state, first.action);
            var end := Run(s, events + [Step(pid, first)] + others + [Step(pid, second)]);
            && pid in end.processes && end.processes[pid].pc == Lease(updated, true)
            && LoadState(end.world.file) == Some(updated)
  {
    OpenLeaseAgrees(s, events, pid);
    LoadsWhatIsLeased(Run(s, events), pid, first);
    RunNext(s, events, Step(pid, first));
    var loaded := events + [Step(pid, first)];
    OthersLeaveProcess(s, loaded, others, pid);
    WritesWhatIsUpdated(Run(s, loaded + others), pid, second);
    RunNext(s, loaded + others, Step(pid, second));
  }

  /** Closing a lease frees the lock its process holds; closing it again changes nothing at all,
      whoever holds the lock by then. */
  lemma SecondCloseIsInert(s: System, events: seq<Event>, pid: Pid, ok: bool, random: string)
    requires Initial(s)
    requires pid in Run(s, events).processes && Run(s, events).processes[pid].pc.Lease?
    ensures var r := Run(s, events);
            var close := Step(pid, Input(ok, random, Close));
            && (!r.processes[pid].pc.held ==> Apply(r, close) == r)
            && (r.processes[pid].pc.held ==>
                r.world.lock == Some(pid) && Apply(r, close).world == r.world.(lock := None))
            && Apply(Apply(r, close), close) == Apply(r, close)
  {
    RunKeepsInv(s, events);
    var r := Run(s, events);
    var close := Step(pid, Input(ok, random, Close));
    var closed := Apply(r, close);
    assert WellTyped(r.processes[pid]) && WellTyped(closed.processes[pid]);
    assert !r.processes[pid].pc.held ==> closed.processes == r.processes;
    assert Apply(closed, close).processes == closed.processes;
  }

  // ---------------------------------------------------------------- Kubernetes objects

  /** As long as no lease is used after its close, every change to a Kubernetes object was made
      under the lock by a lease whose id is the recorded one and that of both cluster markers, and
      the object was new or bore that lease's marks. */
  lemma EveryPatchAuthorised(s: System, events: seq<Event>)
    requires Initial(s) && Disciplined(s, events)
    ensures forall p :: p in Run(s, events).world.patches ==> Authorised(p)
  {
    RunKeepsFileInv(s, events);
  }

  lemma ReadsTarget(r: System, pid: Pid, input: Input)
    requires pid in r.processes && r.processes[pid].pc.Lease? && input.ok && input.action.ApplyObject?
    ensures var pc, after, action := r.processes[pid].pc, Apply(r, Step(pid, input)), input.action;
            var marks := Marks(true, action.lab, action.namespace, pc.state.clusterId);
            && pid in after.processes && after.world == r.world
            && after.processes[pid].pc ==
                 if action.key in r.world.objects && r.world.objects[action.key].marks != marks then pc
                 else Applying(pc.state, pc.held, action.key, Object(marks, action.content))
  {
    var marks := Marks(true, input.action.lab, input.action.namespace, r.processes[pid].pc.state.clusterId);
    assert WellTyped(r.processes[pid]);
  }

  lemma PatchesTarget(r: System, pid: Pid, input: Input)
    requires pid in r.processes && r.processes[pid].pc.Applying? && input.ok && r.world.cluster.Some?
    ensures var pc, after := r.processes[pid].pc, Apply(r, Step(pid, input));
            after.world.objects == r.world.objects[pc.key := pc.target]
  {
    assert WellTyped(r.processes[pid]);
  }

  /** A target that is new or bears the lease's marks is applied, whatever others do between the
      reading and the patch; a foreign one stays and the lease goes on. */
  lemma AppliesExactly(s: System, events: seq<Event>, pid: Pid, first: Input, others: seq<Event>, second: Input)
    requires Initial(s) && pid in Run(s, events).processes
    requires Run(s, events).processes[pid].pc.Lease? && Run(s, events).processes[pid].pc.held
    requires first.ok && first.action.ApplyObject? && second.ok
    requires forall i :: 0 <= i < |others| ==> !By(others[i], pid)
    ensures var r, action := Run(s, events), first.action;
            var marks := Marks(true, action.lab, action.namespace, r.processes[pid].pc.state.clusterId);
            var waited := events + [Step(pid, first)] + others;
            if action.key in r.world.objects && r.world.objects[action.key].marks != marks
            then pid in Run(s, waited).processes && Run(s, waited).processes[pid].pc == r.processes[pid].pc
            else Run(s, waited + [Step(pid, second)]).world.objects
                 == Run(s, waited).world.objects[action.key := Object(marks, action.content)]
  {
    var r, action := Run(s, events), first.action;
    var marks := Marks(true, action.lab, action.namespace, r.processes[pid].pc.state.clusterId);
    var read := events + [Step(pid, first)];
    ReadsTarget(r, pid, first);
    RunNext(s, events, Step(pid, first));
    OthersLeaveProcess(s, read, others, pid);
    if !(action.key in r.world.objects && r.world.objects[action.key].marks != marks) {
      RunKeepsInv(s, read + others);
      assert Holding(Run(s, read + others).processes[pid].pc);
      PatchesTarget(Run(s, read + others), pid, second);
      RunNext(s, read + others, Step(pid, second));
    }
  }

  /** A patch through a lease would be authorised exactly when the lease is open and the object is
      new or bears its marks: what `LeaseStep` verifies before it, and what nobody undoes. */
  lemma PatchAuthorisedIff(s: System, events: seq<Event>, pid: Pid, key: string, lab: string, namespace: string)
    requires Initial(s) && Disciplined(s, events) && Run(s, events).world.cluster.Some?
    requires pid in Run(s, events).processes && Run(s, events).processes[pid].pc.Lease?
    ensures var w, pc := Run(s, events).world, Run(s, events).processes[pid].pc;
            var marks := Marks(true, lab, namespace, pc.state.clusterId);
            Authorised(PatchBy(pid, pc.state, key, marks, w)) <==>
              pc.held && (key in w.objects ==> w.objects[key].marks == marks)
  {
    RunKeepsInv(s, events);
    if Run(s, events).processes[pid].pc.held {
      OpenLeaseAgrees(s, events, pid);
    }
  }

  /** The object is not this cluster's: tripgoctl does not manage it, or its id is another. */
  ghost predicate ForeignTo(w: World, marks: Marks) {
    !marks.managed || ClusterIdentity(w) != Some(marks.clusterId)
  }

  /** A step changes objects by one patch, or takes the whole cluster along or makes a new one. */
  ghost predicate OnlyPatched(w: World, w': World) {
    || w'.objects == w.objects
    || w'.cluster.None? || w.cluster.None?
    || (&& |w'.patches| == |w.patches| + 1 && w'.patches[|w.patches|].bears == ClusterIdentity(w)
        && var patch := w'.patches[|w.patches|];
           && (forall k :: k in w.objects && k != patch.key ==> k in w'.objects && w'.objects[k] == w.objects[k])
           && (patch.key in w.objects ==> patch.before == Some(w.objects[patch.key])))
  }

  lemma StepOnlyPatches(pid: Pid, p: Process, w: World, input: Input)
    requires WellTyped(p)
    ensures OnlyPatched(w, Change(pid, p, w, input).1)
  {
    match p.pc
    case Starting(at) => StartOnlyPatches(pid, p.build, at, w, input);
    case Stopping(at) => StopOnlyPatches(pid, p.op.confirmed, at, w, input.ok);
    case _ =>
  }

  lemma StartOnlyPatches(pid: Pid, build: Build, at: StartPoint, w: World, input: Input)
    ensures OnlyPatched(w, StartStep(pid, build, at, w, input).1)
  {
  }

  lemma StopOnlyPatches(pid: Pid, confirmed: seq<string>, at: StopPoint, w: World, ok: bool)
    ensures OnlyPatched(w, StopStep(pid, confirmed, at, w, ok).1)
  {
  }

  /** One event of a run without late use leaves a foreign object alone. */
  lemma ForeignObjectKept(s: System, events: seq<Event>, e: Event, key: string)
    requires Initial(s) && Disciplined(s, events + [e]) && !e.Outside?
    requires var w := Run(s, events).world; key in w.objects && ForeignTo(w, w.objects[key].marks)
    requires Run(s, events).world.cluster.Some? && Run(s, events + [e]).world.cluster.Some?
    ensures key in Run(s, events + [e]).world.objects
    ensures Run(s, events + [e]).world.objects[key] == Run(s, events).world.objects[key]
  {
    var r, after := Run(s, events), Run(s, events + [e]);
    assert (events + [e])[..|events + [e]| - 1] == events;
    RunKeepsFileInv(s, events + [e]);
    if e.Step? && e.pid in r.processes && WellTyped(r.processes[e.pid]) {
      StepOnlyPatches(e.pid, r.processes[e.pid], r.world, e.input);
      if |after.world.patches| == |r.world.patches| + 1 {
        assert after.world.patches[|r.world.patches|] in after.world.patches;
      }
    }
  }

  /** Over any stretch of a run without late use, however processes interleave, fail or die, an
      object that is foreign to the cluster stays exactly as it is while the cluster stands. */
  lemma {:induction false} ForeignObjectsStay(s: System, events: seq<Event>, more: seq<Event>, key: string)
    requires Initial(s) && Disciplined(s, events + more) && key in Run(s, events).world.objects
    requires forall i :: 0 <= i < |more| ==> !more[i].Outside?
    requires forall k :: 0 <= k <= |more| ==>
               var w := Run(s, events + more[..k]).world;
               w.cluster.Some? && ForeignTo(w, Run(s, events).world.objects[key].marks)
    ensures key in Run(s, events + more).world.objects
    ensures Run(s, events + more).world.objects[key] == Run(s, events).world.objects[key]
    decreases |more|
  {
    if more == [] {
      assert events + more == events;
    } else {
      var init, e := more[..|more| - 1], more[|more| - 1];
      assert (events + more)[..|events + more| - 1] == events + init;
      assert forall k :: 0 <= k <= |init| ==> init[..k] == more[..k];
      ForeignObjectsStay(s, events, init, key);
      assert events + more == events + init + [e];
      assert init == more[..|init|] && more[..|more|] == more;
      ForeignObjectKept(s, events + init, e, key);
    }
  }

  // ---------------------------------------------------------------- state file and outcomes

  ghost predicate CanonicalFile(file: StateFile) { file.Decoded? ==> Canonical(file.state) }

  ghost predicate CanonicalWrites(s: System) {
    CanonicalFile(s.world.file)
    && forall pid :: pid in s.processes && s.processes[pid].pc.Updating? ==> Canonical(s.processes[pid].pc.updated)
  }

  lemma StartWritesCanonical(pid: Pid, build: Build, at: StartPoint, w: World, input: Input)
    requires CanonicalFile(w.file)
    ensures var (pc, w') := StartStep(pid, build, at, w, input); CanonicalFile(w'.file) && !pc.Updating?
  {
  }

  lemma StopWritesCanonical(pid: Pid, confirmed: seq<string>, at: StopPoint, w: World, ok: bool)
    requires CanonicalFile(w.file)
    ensures var (pc, w') := StopStep(pid, confirmed, at, w, ok); CanonicalFile(w'.file) && !pc.Updating?
  {
  }

  lemma LeaseWritesCanonical(state: State, held: bool, w: World, input: Input)
    requires CanonicalFile(w.file)
    ensures var (pc, w') := LeaseStep(state, held, w, input);
            w'.file == w.file && (pc.Updating? ==> Canonical(pc.updated))
  {
    if input.action.Update? && LoadState(w.file).Some? {
      EnvironmentUpdateExact(LoadState(w.file).value, input.action.namespace, input.action.known, input.action.running);
    }
  }

  lemma StepWritesCanonical(pid: Pid, p: Process, w: World, input: Input)
    requires WellTyped(p) && CanonicalFile(w.file) && (p.pc.Updating? ==> Canonical(p.pc.updated))
    ensures var (pc, w') := Advance(pid, p, w, input);
            CanonicalFile(w'.file) && (pc.Updating? ==> Canonical(pc.updated))
  {
    match p.pc
    case Starting(at) => StartWritesCanonical(pid, p.build, at, w, input);
    case Stopping(at) => StopWritesCanonical(pid, p.op.confirmed, at, w, input.ok);
    case Lease(state, held) => LeaseWritesCanonical(state, held, w, input);
    case _ =>
  }

  lemma EventKeepsCanonical(s: System, e: Event)
    requires CanonicalWrites(s) && (e.Outside? ==> CanonicalFile(e.file))
    ensures CanonicalWrites(Apply(s, e))
  {
    if e.Step? && e.pid in s.processes && WellTyped(s.processes[e.pid]) {
      StepWritesCanonical(e.pid, s.processes[e.pid], s.world, e.input);
    }
  }

  /** Start and leases, closed ones included, write only canonical state files: if the first
      file and those of outsiders are canonical, all are. */
  lemma {:induction false} SavedStateCanonical(s: System, events: seq<Event>)
    requires Initial(s) && CanonicalFile(s.world.file)
    requires forall i :: 0 <= i < |events| && events[i].Outside? ==> CanonicalFile(events[i].file)
    ensures CanonicalWrites(Run(s, events))
  {
    if events != [] {
      var init := events[..|events| - 1];
      assert forall i :: 0 <= i < |init| ==> init[i] == events[i];
      SavedStateCanonical(s, init);
      EventKeepsCanonical(Run(s, init), events[|events| - 1]);
    }
  }

  /** Every operation that reaches its end has kept the promise of its outcome. */
  lemma EveryOutcomeHolds(s: System, events: seq<Event>, pid: Pid)
    requires Initial(s)
    requires pid in Run(s, events).processes && Run(s, events).processes[pid].pc.Finish?
    ensures var p := Run(s, events).processes[pid];
            var w := Run(s, events).world;
            && p.entry.Some? && OutcomeHolds(pid, p.op, p.pc.outcome, w, p.entry.value)
            && (Disciplined(s, events) ==> OutcomeFile(p.op, p.pc.outcome, w, p.entry.value))
  {
    RunKeepsInv(s, events);
    assert Holding(Run(s, events).processes[pid].pc);
    if Disciplined(s, events) {
      RunKeepsFileInv(s, events);
    }
  }
}
