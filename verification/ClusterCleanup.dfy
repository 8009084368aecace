/** What a failed command leads to: no success, a cleanup after Start, and leftovers only where
    the cleanup itself failed. */
module ClusterCleanup {
  import opened ClusterState
  import opened ClusterProtocol
  import opened ClusterSafety
  import opened ClusterRuns
  import opened ClusterOutcomes
  import opened Options

  /** The points of Start from the moment its registry is there. */
  predicate Making(at: StartPoint) { Creating(at) && !at.RunRegistry? }

  lemma {:induction false} CompleteCleanup(pid: Pid, p: Process, w: World, e: World, random: string)
    requires p.op.StartOp? && p.pc.Starting? && StartKnows(pid, p.pc.start, w, e)
    requires p.pc.start.CleanCluster? || (p.pc.start.CleanRegistry? && p.pc.start.clusterGone)
    ensures var (p', w') := Complete(pid, p, w, random);
            && p'.pc == Done(Aborted(p.pc.start.id, true, true))
            && w'.cluster == None && w'.registry == None && w'.file == w.file && w'.lock == None
    decreases Rank(p.pc)
  {
    var (p', w') := Change(pid, p, w, Input(true, random, Close));
    if p'.pc.Starting? {
      CompleteCleanup(pid, p', w', e, random);
    } else {
      CompleteEnd(pid, p', w', random);
    }
  }

  /** In every run: if any command of Start fails once its registry is there, and the later ones
      succeed, Start ends with neither cluster nor registry and the state file as it was. */
  lemma FailedStartCleansUp(s: System, events: seq<Event>, pid: Pid, failed: Input, random: string)
    requires Initial(s) && pid in Run(s, events).processes && !failed.ok
    requires var pc := Run(s, events).processes[pid].pc; pc.Starting? && Making(pc.start)
    ensures var r := Run(s, events);
            var (p1, w1) := Change(pid, r.processes[pid], r.world, failed);
            var (p2, w2) := Complete(pid, p1, w1, random);
            && p2.pc == Done(Aborted(r.processes[pid].pc.start.id, true, true))
            && w2.cluster == None && w2.registry == None && w2.file == r.world.file && w2.lock == None
  {
    RunKeepsInv(s, events);
    var r := Run(s, events);
    var p, e := r.processes[pid], r.processes[pid].entry.value;
    assert Holding(p.pc);
    StartKeeps(pid, p.build, p.pc.start, r.world, e, failed);
    var (p1, w1) := Change(pid, p, r.world, failed);
    CompleteCleanup(pid, p1, w1, e, random);
  }

  // ---------------------------------------------------------------- why anything can be left over

  predicate Exists(target: Target, w: World) { if target.ClusterTarget? then w.cluster.Some? else w.registry.Some? }

  /** At this point of the run the process issued a command that would have removed the resource,
      and it failed. */
  ghost predicate RemovalFailedAt(s: System, events: seq<Event>, pid: Pid, target: Target, k: nat)
    requires k < |events|
  {
    && events[k].Step? && events[k].pid == pid && !events[k].input.ok
    && Exists(target, Run(s, events[..k]).world)
    && !Exists(target, Apply(Run(s, events[..k]), Step(pid, events[k].input.(ok := true))).world)
  }

  ghost predicate RemovalFailed(s: System, events: seq<Event>, pid: Pid, target: Target) {
    exists k :: 0 <= k < |events| && RemovalFailedAt(s, events, pid, target, k)
  }

  lemma RemovalFailedStays(s: System, events: seq<Event>, pid: Pid, target: Target)
    requires events != [] && RemovalFailed(s, events[..|events| - 1], pid, target)
    ensures RemovalFailed(s, events, pid, target)
  {
    var init := events[..|events| - 1];
    var k :| 0 <= k < |init| && RemovalFailedAt(s, init, pid, target, k);
    assert init[..k] == events[..k];
    assert RemovalFailedAt(s, events, pid, target, k);
  }

  function AbortOf(pc: Pc): Option<Outcome> {
    match pc
    case Finish(outcome) => if outcome.Aborted? then Some(outcome) else None
    case Done(outcome) => if outcome.Aborted? then Some(outcome) else None
    case Starting(CleanRegistry(id, clusterGone)) => Some(Aborted(id, clusterGone, true))
    case _ => None
  }

  /** What an abort says was left over, a failed command has left. */
  ghost predicate AbortExplained(s: System, events: seq<Event>, pid: Pid, pc: Pc) {
    AbortOf(pc).Some? ==>
      && (!AbortOf(pc).value.clusterGone ==> RemovalFailed(s, events, pid, ClusterTarget))
      && (!AbortOf(pc).value.registryGone ==> RemovalFailed(s, events, pid, RegistryTarget))
  }

  /** Where a step of Start takes its abort from. */
  lemma StartAborts(pid: Pid, build: Build, at: StartPoint, w: World, e: World, input: Input)
    requires StartKnows(pid, at, w, e)
    ensures var (pc, w') := StartStep(pid, build, at, w, input);
            AbortOf(pc).Some? ==>
              && (!AbortOf(pc).value.clusterGone ==>
                    (AbortOf(Starting(at)).Some? && !AbortOf(Starting(at)).value.clusterGone)
                    || (!input.ok && Exists(ClusterTarget, w)
                        && !Exists(ClusterTarget, StartStep(pid, build, at, w, input.(ok := true)).1)))
              && (!AbortOf(pc).value.registryGone ==>
                    !input.ok && Exists(RegistryTarget, w)
                    && !Exists(RegistryTarget, StartStep(pid, build, at, w, input.(ok := true)).1))
  {
  }

  lemma OtherStepsKeepAborts(pid: Pid, p: Process, w: World, input: Input)
    requires WellTyped(p) && !p.pc.Starting?
    ensures var pc := Advance(pid, p, w, input).0; AbortOf(pc).Some? ==> AbortOf(pc) == AbortOf(p.pc)
  {
  }

  /** The last step, if it failed to remove the resource, is the failed removal. */
  lemma FailureIsLogged(s: System, events: seq<Event>, pid: Pid, target: Target)
    requires events != [] && events[|events| - 1].Step? && events[|events| - 1].pid == pid
    requires var before := Run(s, events[..|events| - 1]);
             pid in before.processes && WellTyped(before.processes[pid]) && before.processes[pid].pc.Starting?
    ensures var before, input := Run(s, events[..|events| - 1]), events[|events| - 1].input;
            var p := before.processes[pid];
            !input.ok && Exists(target, before.world)
            && !Exists(target, StartStep(pid, p.build, p.pc.start, before.world, input.(ok := true)).1)
            ==> RemovalFailed(s, events, pid, target)
  {
    var k := |events| - 1;
    var before, input := Run(s, events[..k]), events[k].input;
    var p := before.processes[pid];
    if !input.ok && Exists(target, before.world)
       && !Exists(target, StartStep(pid, p.build, p.pc.start, before.world, input.(ok := true)).1) {
      assert RemovalFailedAt(s, events, pid, target, k);
    }
  }

  lemma AbortExplainedStays(s: System, events: seq<Event>, pid: Pid, pc: Pc)
    requires events != [] && AbortExplained(s, events[..|events| - 1], pid, pc)
    ensures AbortExplained(s, events, pid, pc)
  {
    var init := events[..|events| - 1];
    if RemovalFailed(s, init, pid, ClusterTarget) { RemovalFailedStays(s, events, pid, ClusterTarget); }
    if RemovalFailed(s, init, pid, RegistryTarget) { RemovalFailedStays(s, events, pid, RegistryTarget); }
  }

  lemma OwnStepExplains(s: System, events: seq<Event>, pid: Pid)
    requires Initial(s) && events != [] && events[|events| - 1].Step? && events[|events| - 1].pid == pid
    requires var before := Run(s, events[..|events| - 1]);
             && pid in before.processes && WellTyped(before.processes[pid])
             && AbortExplained(s, events[..|events| - 1], pid, before.processes[pid].pc)
    ensures pid in Run(s, events).processes && AbortExplained(s, events, pid, Run(s, events).processes[pid].pc)
  {
    var init, input := events[..|events| - 1], events[|events| - 1].input;
    var before := Run(s, init);
    var p := before.processes[pid];
    AbortExplainedStays(s, events, pid, p.pc);
    if p.pc.Starting? {
      RunKeepsInv(s, init);
      assert Holding(p.pc);
      StartAborts(pid, p.build, p.pc.start, before.world, p.entry.value, input);
      FailureIsLogged(s, events, pid, ClusterTarget);
      FailureIsLogged(s, events, pid, RegistryTarget);
      assert Run(s, events).processes[pid].pc == StartStep(pid, p.build, p.pc.start, before.world, input).0;
    } else {
      OtherStepsKeepAborts(pid, p, before.world, input);
      assert Run(s, events).processes[pid].pc == Advance(pid, p, before.world, input).0;
    }
  }

  lemma OtherEventsKeepAborts(s: System, events: seq<Event>, pid: Pid)
    requires events != [] && pid in Run(s, events).processes
    requires var e := events[|events| - 1]; !(e.Step? && e.pid == pid)
    ensures var before, pc := Run(s, events[..|events| - 1]), Run(s, events).processes[pid].pc;
            AbortOf(pc).Some? ==> pid in before.processes && before.processes[pid].pc == pc
  {
  }

  lemma {:induction false} AbortsExplained(s: System, events: seq<Event>, pid: Pid)
    requires Initial(s) && pid in Run(s, events).processes
    ensures AbortExplained(s, events, pid, Run(s, events).processes[pid].pc)
    decreases |events|
  {
    if events != [] {
      var init, last := events[..|events| - 1], events[|events| - 1];
      if pid in Run(s, init).processes {
        AbortsExplained(s, init, pid);
      }
      if last.Step? && last.pid == pid && pid in Run(s, init).processes && WellTyped(Run(s, init).processes[pid]) {
        OwnStepExplains(s, events, pid);
      } else if !(last.Step? && last.pid == pid) {
        OtherEventsKeepAborts(s, events, pid);
        if AbortOf(Run(s, events).processes[pid].pc).Some? {
          AbortExplainedStays(s, events, pid, Run(s, events).processes[pid].pc);
        }
      } else {
        AbortExplainedStays(s, events, pid, Run(s, events).processes[pid].pc);
      }
    }
  }

  /** In every run: whatever an aborted Start leaves over, it has issued the very command that
      would have removed it, and that command failed. */
  lemma LeftoversExplained(s: System, events: seq<Event>, pid: Pid)
    requires Initial(s) && pid in Run(s, events).processes
    requires var pc := Run(s, events).processes[pid].pc; (pc.Finish? || pc.Done?) && pc.outcome.Aborted?
    ensures var outcome := Run(s, events).processes[pid].pc.outcome;
            && (!outcome.clusterGone ==> RemovalFailed(s, events, pid, ClusterTarget))
            && (!outcome.registryGone ==> RemovalFailed(s, events, pid, RegistryTarget))
  {
    AbortsExplained(s, events, pid);
  }

  // ---------------------------------------------------------------- success means that nothing failed

  /** On the way to an error. */
  predicate Failing(pc: Pc) {
    match pc
    case Finish(outcome) => !outcome.Succeeded?
    case Done(outcome) => !outcome.Succeeded?
    case Starting(at) => at.CleanCluster? || at.CleanRegistry?
    case Killed => true
    case _ => false
  }

  /** A point whose command must succeed: all but the final unlock, and the state file that Stop
      reads before it knows whether it needs it. */
  predicate Needed(pc: Pc) { !Settled(pc) && !pc.Finish? && pc != Stopping(LoadBeforeStop) }

  lemma StartFails(pid: Pid, build: Build, at: StartPoint, w: World, input: Input)
    ensures !input.ok || Failing(Starting(at)) ==> Failing(StartStep(pid, build, at, w, input).0)
  {
  }

  lemma StopFails(pid: Pid, confirmed: seq<string>, at: StopPoint, w: World)
    requires !at.LoadBeforeStop?
    ensures Failing(StopStep(pid, confirmed, at, w, false).0)
  {
  }

  /** A failed command puts its operation on the way to an error, and there it stays. */
  lemma StepFails(pid: Pid, p: Process, w: World, input: Input)
    requires WellTyped(p) && ((Needed(p.pc) && !input.ok) || Failing(p.pc))
    ensures Failing(Change(pid, p, w, input).0.pc)
  {
    match p.pc
    case Starting(at) => StartFails(pid, p.build, at, w, input);
    case Stopping(at) => StopFails(pid, p.op.confirmed, at, w);
    case _ =>
  }

  lemma EventKeepsFailing(s: System, e: Event, pid: Pid)
    requires pid in s.processes
    requires Failing(s.processes[pid].pc) || (e.Step? && e.pid == pid && !e.input.ok && Needed(s.processes[pid].pc))
    requires WellTyped(s.processes[pid])
    ensures pid in Apply(s, e).processes
    ensures Failing(Apply(s, e).processes[pid].pc) && WellTyped(Apply(s, e).processes[pid])
  {
    if e.Step? && e.pid == pid {
      StepFails(pid, s.processes[pid], s.world, e.input);
    }
  }

  /** In every run: once a needed command of an operation has failed, the operation never succeeds
      and no lease of it ever opens. */
  lemma {:induction false} FailureIsFinal(s: System, events: seq<Event>, pid: Pid, k: nat)
    requires Initial(s) && k < |events| && events[k].Step? && events[k].pid == pid && !events[k].input.ok
    requires pid in Run(s, events[..k]).processes && Needed(Run(s, events[..k]).processes[pid].pc)
    ensures pid in Run(s, events).processes && Failing(Run(s, events).processes[pid].pc)
    ensures WellTyped(Run(s, events).processes[pid])
    decreases |events|
  {
    var init := events[..|events| - 1];
    if k < |events| - 1 {
      assert init[..k] == events[..k];
      FailureIsFinal(s, init, pid, k);
    } else {
      RunKeepsInv(s, init);
      var p := Run(s, init).processes[pid];
      if Holding(p.pc) {
        HolderKeeps(pid, p, Run(s, init).world, events[k].input);
      }
    }
    EventKeepsFailing(Run(s, init), events[|events| - 1], pid);
  }
}
