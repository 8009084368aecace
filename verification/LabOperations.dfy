/** The whole lab operations (`Start`, `Stop` and `Reset` in `internal/lab/service.go`): the
    Kubernetes objects, the projection in the cluster state, and the files of the project. */
module LabOperations {
  import opened ClusterState
  import opened EnvironmentConfig
  import opened LabService
  import opened EnvFile
  import RenderedOutput
  import Workloads

  /** The inputs of one Start: the environment, its generated bundle, what will be observed of its
      workloads, the `.env` variables, the rendered files and the file operations that fail. */
  datatype StartPlan = StartPlan(
    env: Environment, bundle: seq<Manifest>, workloads: seq<Key>, rounds: seq<Workloads.Round>,
    version: string, vars: seq<EnvVariable>, files: seq<RenderedOutput.Manifest>, faults: set<RenderedOutput.Step>)

  datatype StopPlan = StopPlan(
    env: Environment, bundle: seq<Manifest>, workloads: seq<Key>, checks: seq<Check>, rounds: seq<Workloads.Round>)

  datatype Operation = Starting(start: StartPlan) | Stopping(stop: StopPlan) | Resetting(env: Environment,
      faults: set<RenderedOutput.Step>)

  ghost predicate BecomesReady(rounds: seq<Workloads.Round>, expected: int) {
    exists k :: Workloads.SucceedsAt(rounds, expected, k)
  }

  /** `ensureTripgoWritable`: the output directory and the rendered tree are absent or directories. */
  ghost predicate OutputUsable(target: RenderedOutput.Target, entries: RenderedOutput.Entries) {
    !target.NotDirectory? && (RenderedOutput.Rendered in entries ==> entries[RenderedOutput.Rendered].Dir?)
  }

  /** No operation of the list may change this object: it belongs to none of their environments
      and lies in no namespace they reset. */
  ghost predicate Untouchable(key: Key, resource: Resource, operations: seq<Operation>) {
    forall i :: 0 <= i < |operations| ==>
      match operations[i]
      case Starting(plan) => !Owned(resource, plan.env)
      case Stopping(plan) => !Owned(resource, plan.env)
      case Resetting(env, _) => Outside(key, env)
  }

  ghost predicate WellFormed(operation: Operation) {
    match operation
    case Starting(plan) =>
      && (forall i :: 0 <= i < |plan.rounds| ==> |plan.rounds[i].results| == |plan.workloads|)
      && '\n' !in plan.version
      && (forall i :: 0 <= i < |plan.vars| ==> LegalName(plan.vars[i].name) && SingleLine(plan.vars[i].value))
    case Stopping(plan) => forall i :: 0 <= i < |plan.rounds| ==> |plan.rounds[i].results| == |plan.workloads|
    case Resetting(_, _) => true
  }

  class Lab {
    const api: Api
    const project: ProjectDirectory
    const output: RenderedOutput.OutputDirectory
    var recorded: State

    constructor (api: Api, project: ProjectDirectory, output: RenderedOutput.OutputDirectory, recorded: State)
      ensures this.api == api && this.project == project && this.output == output && this.recorded == recorded
    {
      this.api, this.project, this.output, this.recorded := api, project, output, recorded;
    }

    ghost predicate Valid()
      reads this, output
    {
      output.target.Missing? ==> output.entries == map[]
    }

    /** `ensureTripgoWritable`. */
    method EnsureOutputWritable() returns (ok: bool)
      ensures ok ==> OutputUsable(output.target, output.entries)
    {
      if output.target.NotDirectory? { return false; }
      if output.target.Missing? { return RenderedOutput.Rendered !in output.entries; }
      if RenderedOutput.Rendered !in output.entries { return true; }
      ok := output.entries[RenderedOutput.Rendered].Dir?;
    }

    /** `SetEnvironmentState` through the open lease. */
    method Project(namespace: string, known: bool, running: bool) returns (ok: bool)
      modifies this`recorded
      ensures recorded == if ok then WithEnvironment(old(recorded), namespace, known, running) else old(recorded)
    {
      ok := *;
      if ok { recorded := WithEnvironment(recorded, namespace, known, running); }
    }

    /** The local outputs of Start: the rendered files, then `.env`. */
    method WriteOutputs(plan: StartPlan) returns (ok: bool)
      requires Valid()
      modifies project, output
      ensures Valid() && RenderedOutput.SiblingsKept(old(output.entries), output.entries)
      ensures project.env == old(project.env)
              || (Replaceable(old(project.env))
                  && project.env == Regular(Content(plan.env.lab, plan.version, plan.vars))
                  && RenderedOutput.Replaced(old(output.entries), output.entries,
                      RenderedOutput.BundleTree(plan.files)))
      ensures ok ==> project.env == Regular(Content(plan.env.lab, plan.version, plan.vars))
                     && RenderedOutput.Replaced(old(output.entries), output.entries,
                         RenderedOutput.BundleTree(plan.files))
    {
      ok := output.Write(plan.files, plan.faults);
      if ok {
        ok := project.WriteEnv(plan.env.lab, plan.version, plan.vars);
      }
    }

    /** `Start`. A foreign `.env`, an unusable output directory or a foreign target stops it before
        it changes anything anywhere. The projection follows readiness, the rendered files follow
        the projection, and `.env` comes last. */
    method Start(plan: StartPlan) returns (r: Result)
      requires Valid() && WellFormed(Starting(plan))
      modifies this`recorded, api, project, output
      ensures Valid()
      ensures !Replaceable(old(project.env)) || !OutputUsable(old(output.target), old(output.entries))
              || HasForeignTarget(old(api.objects), plan.bundle, plan.env) ==>
                && !r.Fine? && api.objects == old(api.objects) && api.patches == old(api.patches)
                    && recorded == old(recorded)
                && output.entries == old(output.entries) && output.target == old(output.target)
                    && project.env == old(project.env)
      ensures old(api.patches) <= api.patches && PatchesOwned(api.patches, |old(api.patches)|, plan.env)
      ensures OthersKept(old(api.objects), api.objects, plan.env) && NothingLost(old(api.objects), api.objects)
      ensures RenderedOutput.SiblingsKept(old(output.entries), output.entries)
      ensures project.env == old(project.env)
              || (Replaceable(old(project.env))
                  && project.env == Regular(Content(plan.env.lab, plan.version, plan.vars)))
      ensures recorded == old(recorded)
              || (BecomesReady(plan.rounds, 1)
                  && recorded == WithEnvironment(old(recorded), plan.env.namespace, true, true))
      ensures (output.entries == old(output.entries) && project.env == old(project.env))
              || (BecomesReady(plan.rounds, 1)
                  && recorded == WithEnvironment(old(recorded), plan.env.namespace, true, true))
      ensures project.env == old(project.env)
              || RenderedOutput.Replaced(old(output.entries), output.entries, RenderedOutput.BundleTree(plan.files))
      ensures r.Fine? ==>
                && (DistinctTargets(plan.bundle) ==> forall i :: 0 <= i < |plan.bundle| ==>
                    Installed(api.objects, plan.bundle[i]))
                && BecomesReady(plan.rounds, 1)
                    && recorded == WithEnvironment(old(recorded), plan.env.namespace, true, true)
                && RenderedOutput.Replaced(old(output.entries), output.entries, RenderedOutput.BundleTree(plan.files))
                && project.env == Regular(Content(plan.env.lab, plan.version, plan.vars))
    {
      var writable := project.EnsureEnvWritable();
      if !writable { return LocalConflict; }
      var leased: bool := *;
      if !leased { return RequestFailed; }
      var usable := EnsureOutputWritable();
      if !usable { return LocalConflict; }
      r := api.Start(plan.env, plan.bundle, plan.workloads, plan.rounds);
      if !r.Fine? { return; }
      var projected := Project(plan.env.namespace, true, true);
      if !projected { return RequestFailed; }
      var written := WriteOutputs(plan);
      if !written { return LocalFailure; }
      var inspected: bool := *;
      r := if inspected then Fine else RequestFailed;
    }

    /** `Stop`: local files are left alone, and the projection follows the last workload. */
    method Stop(plan: StopPlan) returns (r: Result)
      requires Valid() && WellFormed(Stopping(plan))
      modifies this`recorded, api
      ensures Valid()
      ensures old(api.patches) <= api.patches && PatchesOwned(api.patches, |old(api.patches)|, plan.env)
      ensures OthersKept(old(api.objects), api.objects, plan.env) && NothingLost(old(api.objects), api.objects)
      ensures forall k: Key :: k.kind != "Deployment" && k.kind != "StatefulSet" ==>
                SameAt(old(api.objects), api.objects, k)
      ensures !StopAllowed(old(api.objects), plan.env, plan.workloads, plan.checks)
              || HasForeignTarget(old(api.objects), plan.bundle, plan.env) ==>
                !r.Fine? && api.objects == old(api.objects) && api.patches == old(api.patches)
                && recorded == old(recorded)
      ensures recorded == old(recorded)
              || (BecomesReady(plan.rounds, 0)
                  && recorded == WithEnvironment(old(recorded), plan.env.namespace, true, false))
      ensures r.Fine? ==>
              BecomesReady(plan.rounds, 0)
              && recorded == WithEnvironment(old(recorded), plan.env.namespace, true, false)
    {
      var leased: bool := *;
      if !leased { return RequestFailed; }
      r := api.Stop(plan.env, plan.bundle, plan.workloads, plan.checks, plan.rounds);
      if !r.Fine? { return; }
      var projected := Project(plan.env.namespace, true, false);
      if !projected { return RequestFailed; }
      var inspected: bool := *;
      r := if inspected then Fine else RequestFailed;
    }

    /** `Reset`: the namespace, then its projection, then the generated files. A foreign namespace
        stops it before it changes anything, and files tripgoctl did not generate stay. */
    method Reset(env: Environment, faults: set<RenderedOutput.Step>) returns (r: Result)
      requires Valid()
      modifies this`recorded, api, project, output
      ensures Valid() && api.patches == old(api.patches)
      ensures forall k: Key :: Outside(k, env) ==> SameAt(old(api.objects), api.objects, k)
      ensures NamespaceKey(env) in old(api.objects) && !Owned(old(api.objects)[NamespaceKey(env)], env) ==>
                && !r.Fine? && api.objects == old(api.objects) && recorded == old(recorded)
                && output.entries == old(output.entries) && output.target == old(output.target)
                    && project.env == old(project.env)
      ensures RenderedOutput.SiblingsKept(old(output.entries), output.entries)
      ensures project.env == old(project.env) || (OwnedEntry(old(project.env)) && project.env.Absent?)
      ensures recorded == old(recorded)
              || (NamespaceKey(env) !in api.objects
                  && recorded == WithEnvironment(old(recorded), env.namespace, false, false))
      ensures (output.entries == old(output.entries) && project.env == old(project.env))
              || (NamespaceKey(env) !in api.objects
                  && recorded == WithEnvironment(old(recorded), env.namespace, false, false))
      ensures r.Fine? ==>
                && NamespaceKey(env) !in api.objects
                    && recorded == WithEnvironment(old(recorded), env.namespace, false, false)
                && !OwnedEntry(project.env)
                && (old(output.target).Directory? ==> output.entries == RenderedOutput.Cleaned(old(output.entries)))
    {
      var leased: bool := *;
      if !leased { return RequestFailed; }
      r := api.Reset(env);
      if !r.Fine? { return; }
      var projected := Project(env.namespace, false, false);
      if !projected { return RequestFailed; }
      var removed := project.RemoveEnv();
      if !removed { return LocalFailure; }
      var cleaned := output.RemoveGenerated(faults);
      r := if cleaned then Fine else LocalFailure;
    }

    /** Any sequence of operations of any environments, failing anywhere: objects that belong to
        none of them, a `.env` without the marker and unrecognised entries beside the rendered
        tree stay exactly as they are, and the projection stays canonical. */
    method RunAll(operations: seq<Operation>)
      requires Valid() && forall i :: 0 <= i < |operations| ==> WellFormed(operations[i])
      modifies this`recorded, api, project, output
      ensures Valid()
      ensures forall k :: k in old(api.objects) && Untouchable(k, old(api.objects)[k], operations) ==>
                k in api.objects && api.objects[k] == old(api.objects)[k]
      ensures !Replaceable(old(project.env)) ==> project.env == old(project.env)
      ensures Replaceable(old(project.env)) ==> Replaceable(project.env)
      ensures RenderedOutput.SiblingsKept(old(output.entries), output.entries)
      ensures Canonical(old(recorded)) ==> Canonical(recorded)
    {
      for i := 0 to |operations|
        invariant Valid()
        invariant forall k :: k in old(api.objects) && Untouchable(k, old(api.objects)[k], operations) ==>
                    k in api.objects && api.objects[k] == old(api.objects)[k]
        invariant !Replaceable(old(project.env)) ==> project.env == old(project.env)
        invariant Replaceable(old(project.env)) ==> Replaceable(project.env)
        invariant RenderedOutput.SiblingsKept(old(output.entries), output.entries)
        invariant Canonical(old(recorded)) ==> Canonical(recorded)
      {
        RunOne(operations[i], operations, i);
      }
    }

    method RunOne(operation: Operation, ghost operations: seq<Operation>, ghost i: nat)
      requires Valid() && WellFormed(operation) && i < |operations| && operations[i] == operation
      modifies this`recorded, api, project, output
      ensures Valid()
      ensures forall k :: k in old(api.objects) && Untouchable(k, old(api.objects)[k], operations) ==>
                k in api.objects && api.objects[k] == old(api.objects)[k]
      ensures !Replaceable(old(project.env)) ==> project.env == old(project.env)
      ensures Replaceable(old(project.env)) ==> Replaceable(project.env)
      ensures RenderedOutput.SiblingsKept(old(output.entries), output.entries)
      ensures Canonical(old(recorded)) ==> Canonical(recorded)
    {
      match operation {
        case Starting(plan) =>
          GeneratedIsRecognised(plan.env.lab, plan.version, plan.vars);
          EnvironmentUpdateExact(recorded, plan.env.namespace, true, true);
          var r := Start(plan);
        case Stopping(plan) =>
          EnvironmentUpdateExact(recorded, plan.env.namespace, true, false);
          var r := Stop(plan);
        case Resetting(env, faults) =>
          EnvironmentUpdateExact(recorded, env.namespace, false, false);
          var r := Reset(env, faults);
      }
    }
  }
}
