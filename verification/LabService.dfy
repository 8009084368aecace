/** Reconciling one lab's Kubernetes objects (`internal/lab/service.go`).

    An open lease keeps other tripgoctl processes out for the whole operation (`ClusterRuns`), so
    the objects change only by this operation's own requests; every request may fail. */
module LabService {
  import opened Options
  import opened Decimal
  import Workloads

  datatype Key = Key(kind: string, namespace: string, name: string)

  /** The four ownership labels and the cluster-id annotation; an absent mark reads as "". */
  datatype Marks = Marks(managedBy: string, partOf: string, lab: string, environment: string, clusterId: string)

  /** A stored object: marks, the fields tripgoctl applies, and the fields of other managers. */
  datatype Resource = Resource(marks: Marks, applied: string, others: string)

  /** One decoded document of the generated bundle. */
  datatype Manifest = Manifest(key: Key, marks: Marks, applied: string)

  /** The environment an operation acts for. */
  datatype Environment = Environment(lab: nat, namespace: string, clusterId: string)

  /** The object bears all five marks of this environment. */
  ghost predicate Owned(r: Resource, env: Environment) {
    && r.marks.managedBy == "tripgoctl"
    && r.marks.partOf == "tripgo-local"
    && r.marks.lab == ShowTwoDigits(env.lab)
    && r.marks.environment == env.namespace
    && r.marks.clusterId == env.clusterId
  }

  /** `verifyResourceOwnership`. */
  predicate OwnershipVerified(r: Resource, env: Environment) {
    !(r.marks.managedBy != "tripgoctl"
      || r.marks.partOf != "tripgo-local"
      || r.marks.lab != ShowTwoDigits(env.lab)
      || r.marks.environment != env.namespace
      || r.marks.clusterId != env.clusterId)
  }

  function NamespaceKey(env: Environment): Key { Key("Namespace", "", env.namespace) }

  /** `resourceFor`: the kinds tripgoctl knows how to reach. */
  predicate SupportedKind(kind: string) {
    match kind
    case "Namespace" => true
    case "ConfigMap" => true
    case "Secret" => true
    case "PersistentVolumeClaim" => true
    case "Service" => true
    case "Deployment" => true
    case "StatefulSet" => true
    case _ => false
  }

  ghost predicate IsWorkload(kind: string) { kind in {"Deployment", "StatefulSet"} }

  ghost predicate Included(m: Manifest, workloadsOnly: bool) { workloadsOnly ==> IsWorkload(m.key.kind) }

  datatype Answer = Found(resource: Resource) | NotFound | Failed

  datatype Result =
    | Fine | Foreign(key: Key) | Absent(key: Key) | Unsupported(kind: string) | Mismatch(key: Key)
    | RequestFailed | NotReady(names: seq<string>) | LocalConflict | LocalFailure

  /** A further condition of Stop on an owned object: the managed Redpanda settings, and the push
      image by digest. */
  datatype Check = Check(key: Key, accepts: string -> bool)

  ghost predicate Passes(objects: map<Key, Resource>, check: Check, env: Environment) {
    OwnedAt(objects, check.key, env) && check.accepts(objects[check.key].applied)
  }

  /** One accepted server-side apply, with the object it replaced. */
  datatype Patch = Patch(key: Key, before: Option<Resource>)

  ghost predicate SameAt(a: map<Key, Resource>, b: map<Key, Resource>, k: Key) {
    (k in a <==> k in b) && (k in a ==> a[k] == b[k])
  }

  /** Every object that was not this environment's is still there, unchanged. */
  ghost predicate OthersKept(before: map<Key, Resource>, after: map<Key, Resource>, env: Environment) {
    forall k :: k in before && !Owned(before[k], env) ==> SameAt(before, after, k)
  }

  ghost predicate OnlyTargetsChange(before: map<Key, Resource>, after: map<Key, Resource>, bundle: seq<Manifest>,
      workloadsOnly: bool) {
    forall k :: !IsTarget(bundle, workloadsOnly, k) ==> SameAt(before, after, k)
  }

  ghost predicate IsTarget(bundle: seq<Manifest>, workloadsOnly: bool, k: Key) {
    exists i :: 0 <= i < |bundle| && Included(bundle[i], workloadsOnly) && bundle[i].key == k
  }

  /** Nothing is removed, and the fields of other managers stay as they are. */
  ghost predicate NothingLost(before: map<Key, Resource>, after: map<Key, Resource>) {
    forall k :: k in before ==> k in after && after[k].others == before[k].others
  }

  /** Some target of the bundle exists and differs in one of the five marks. */
  ghost predicate HasForeignTarget(objects: map<Key, Resource>, bundle: seq<Manifest>, env: Environment) {
    exists i :: 0 <= i < |bundle| && bundle[i].key in objects && Differs(objects[bundle[i].key].marks, env)
  }

  ghost predicate Differs(marks: Marks, env: Environment) {
    || marks.managedBy != "tripgoctl" || marks.partOf != "tripgo-local" || marks.lab != ShowTwoDigits(env.lab)
    || marks.environment != env.namespace || marks.clusterId != env.clusterId
  }

  ghost predicate Installed(objects: map<Key, Resource>, m: Manifest) {
    m.key in objects && objects[m.key].marks == m.marks && objects[m.key].applied == m.applied
  }

  ghost predicate DistinctTargets(bundle: seq<Manifest>) {
    forall i, j :: 0 <= i < j < |bundle| ==> bundle[i].key != bundle[j].key
  }

  ghost predicate KnownKind(kind: string) {
    kind in {"Namespace", "ConfigMap", "Secret", "PersistentVolumeClaim", "Service", "Deployment", "StatefulSet"}
  }

  ghost predicate AllSupported(bundle: seq<Manifest>) {
    forall i :: 0 <= i < |bundle| ==> KnownKind(bundle[i].key.kind)
  }

  ghost predicate OwnedAt(objects: map<Key, Resource>, key: Key, env: Environment) {
    key in objects && Owned(objects[key], env)
  }

  /** Every object that was patched bore each of the five marks. */
  ghost predicate PatchesOwned(patches: seq<Patch>, from: nat, env: Environment) {
    forall i :: from <= i < |patches| && patches[i].before.Some? ==>
      var marks := patches[i].before.value.marks;
      && marks.managedBy == "tripgoctl" && marks.partOf == "tripgo-local" && marks.lab == ShowTwoDigits(env.lab)
      && marks.environment == env.namespace && marks.clusterId == env.clusterId
  }

  /** What Stop needs before it changes anything, besides a bundle without foreign targets. */
  ghost predicate StopAllowed(objects: map<Key, Resource>, env: Environment, workloads: seq<Key>, checks: seq<Check>) {
    && OwnedAt(objects, NamespaceKey(env), env)
    && (forall i :: 0 <= i < |workloads| ==> OwnedAt(objects, workloads[i], env))
    && (forall i :: 0 <= i < |checks| ==> Passes(objects, checks[i], env))
  }

  /** Changing one owned or new target touches nothing foreign and nothing that is no target. */
  lemma StepKeepsOthers(before: map<Key, Resource>, mid: map<Key, Resource>, after: map<Key, Resource>, key: Key,
      env: Environment,
                        bundle: seq<Manifest>, workloadsOnly: bool)
    requires OthersKept(before, mid, env) && NothingLost(before, mid)
             && OnlyTargetsChange(before, mid, bundle, workloadsOnly)
    requires forall k :: k != key ==> SameAt(mid, after, k)
    requires NothingLost(mid, after) && IsTarget(bundle, workloadsOnly, key)
    requires key in mid && !Owned(mid[key], env) ==> SameAt(mid, after, key)
    ensures OthersKept(before, after, env) && NothingLost(before, after)
            && OnlyTargetsChange(before, after, bundle, workloadsOnly)
  {
    forall k | k in before && !Owned(before[k], env) ensures SameAt(before, after, k) {
      assert SameAt(before, mid, k) && SameAt(mid, after, k);
    }
    forall k | !IsTarget(bundle, workloadsOnly, k) ensures SameAt(before, after, k) {
      assert SameAt(before, mid, k) && SameAt(mid, after, k);
    }
  }

  /** The documents before `i` are installed, and the targets from `i` on are as they were. */
  ghost predicate AppliedUpTo(before: map<Key, Resource>, now: map<Key, Resource>, bundle: seq<Manifest>,
      workloadsOnly: bool, i: nat) {
    && (forall j :: 0 <= j < i && j < |bundle| && Included(bundle[j], workloadsOnly) ==> Installed(now, bundle[j]))
    && (forall j :: i <= j < |bundle| ==> SameAt(before, now, bundle[j].key))
  }

  lemma OneMoreApplied(before: map<Key, Resource>, mid: map<Key, Resource>, after: map<Key, Resource>,
                       bundle: seq<Manifest>, workloadsOnly: bool, i: nat)
    requires i < |bundle| && DistinctTargets(bundle) && AppliedUpTo(before, mid, bundle, workloadsOnly, i)
    requires forall k :: k != bundle[i].key ==> SameAt(mid, after, k)
    requires Installed(after, bundle[i])
    ensures AppliedUpTo(before, after, bundle, workloadsOnly, i + 1)
  {
    forall j | 0 <= j < i && Included(bundle[j], workloadsOnly) ensures Installed(after, bundle[j]) {
      assert SameAt(mid, after, bundle[j].key) && Installed(mid, bundle[j]);
    }
    forall j | i + 1 <= j < |bundle| ensures SameAt(before, after, bundle[j].key) {
      assert SameAt(before, mid, bundle[j].key) && SameAt(mid, after, bundle[j].key);
    }
  }

  /** The object lies outside the environment's namespace. */
  predicate Outside(k: Key, env: Environment) { k.namespace != env.namespace && k != NamespaceKey(env) }

  class Api {
    var objects: map<Key, Resource>
    ghost var patches: seq<Patch>
    ghost var faults: nat  // requests that failed of themselves

    constructor (objects: map<Key, Resource>)
      ensures this.objects == objects && patches == [] && faults == 0
    {
      this.objects := objects;
      patches, faults := [], 0;
    }

    method Get(key: Key) returns (answer: Answer)
      modifies this`faults
      ensures faults == old(faults) + if answer.Failed? then 1 else 0
      ensures answer.Found? ==> key in objects && answer.resource == objects[key]
      ensures answer.NotFound? ==> key !in objects
    {
      var reachable: bool := *;
      if !reachable { faults := faults + 1; }
      answer := if !reachable then Failed else if key in objects then Found(objects[key]) else NotFound;
    }

    /** Server-side apply: sets the marks and the applied fields, and keeps other managers' fields. */
    method Apply(m: Manifest) returns (ok: bool)
      modifies this
      ensures ok ==> objects == old(objects)[m.key := Resource(m.marks, m.applied,
                                                               if m.key in old(objects)
                                                                   then old(objects)[m.key].others else "")]
      ensures ok ==> patches == old(patches) + [Patch(m.key, if m.key in old(objects) then Some(old(objects)[m.key])
              else None)]
      ensures !ok ==> objects == old(objects) && patches == old(patches)
      ensures faults == old(faults) + if ok then 0 else 1
    {
      ok := *;
      if !ok {
        faults := faults + 1;
      } else {
        patches := patches + [Patch(m.key, if m.key in objects then Some(objects[m.key]) else None)];
        objects := objects[m.key := Resource(m.marks, m.applied, if m.key in objects then objects[m.key].others
            else "")];
      }
    }

    /** `verifyNamespace`, also used for workloads: the object must exist and be owned. */
    method VerifyOwned(key: Key, env: Environment) returns (r: Result)
      modifies this`faults
      ensures faults == old(faults) + if r.RequestFailed? then 1 else 0
      ensures r.Fine? ==> OwnedAt(objects, key, env)
      ensures r.Foreign? ==> key in objects && !Owned(objects[key], env)
      ensures r.Absent? ==> key !in objects
      ensures r.Fine? || r.RequestFailed? || r == Foreign(key) || r == Absent(key)
    {
      var answer := Get(key);
      r := match answer
           case Failed => RequestFailed
           case NotFound => Absent(key)
           case Found(resource) => if OwnershipVerified(resource, env) then Fine else Foreign(key);
    }

    /** `verifyManifestBundleOwnership`: no target may exist without this environment's marks. */
    method VerifyBundle(bundle: seq<Manifest>, env: Environment) returns (r: Result)
      modifies this`faults
      ensures faults == old(faults) + if r.RequestFailed? then 1 else 0
      ensures r.Fine? ==> !HasForeignTarget(objects, bundle, env) && AllSupported(bundle)
      ensures r.Foreign? ==> HasForeignTarget(objects, bundle, env) && r.key in objects && !Owned(objects[r.key], env)
      ensures r.Unsupported? ==> !KnownKind(r.kind) && !AllSupported(bundle)
      ensures r.Fine? || r.Foreign? || r.Unsupported? || r.RequestFailed?
    {
      for i := 0 to |bundle|
        invariant faults == old(faults)
        invariant forall j :: 0 <= j < i ==> KnownKind(bundle[j].key.kind)
        invariant forall j :: 0 <= j < i && bundle[j].key in objects ==> Owned(objects[bundle[j].key], env)
      {
        var key := bundle[i].key;
        if !SupportedKind(key.kind) { return Unsupported(key.kind); }
        var answer := Get(key);
        match answer {
          case NotFound =>
          case Failed => return RequestFailed;
          case Found(resource) => if !OwnershipVerified(resource, env) { return Foreign(key); }
        }
      }
      r := Fine;
    }

    method VerifyCheck(check: Check, env: Environment) returns (r: Result)
      modifies this`faults
      ensures faults == old(faults) + if r.RequestFailed? then 1 else 0
      ensures r.Fine? ==> Passes(objects, check, env)
      ensures !r.Fine? && !r.RequestFailed? ==> !Passes(objects, check, env)
    {
      var answer := Get(check.key);
      r := match answer
           case Failed => RequestFailed
           case NotFound => Absent(check.key)
           case Found(resource) =>
             if !OwnershipVerified(resource, env) then Foreign(check.key)
             else if check.accepts(resource.applied) then Fine else Mismatch(check.key);
    }

    /** One document of `applyManifestWhere`: verify an existing target again, then apply. */
    method ApplyOne(m: Manifest, env: Environment) returns (r: Result)
      modifies this
      ensures !r.Fine? ==> objects == old(objects) && patches == old(patches)
      ensures r.Fine? ==> Installed(objects, m) && (m.key in old(objects) ==> Owned(old(objects)[m.key], env))
      ensures r.Fine? ==> patches == old(patches) + [Patch(m.key, if m.key in old(objects)
              then Some(old(objects)[m.key]) else None)]
      ensures forall k :: k != m.key ==> SameAt(old(objects), objects, k)
      ensures NothingLost(old(objects), objects)
      ensures faults == old(faults) + if r.RequestFailed? then 1 else 0
      ensures r.Fine? || r.RequestFailed? || !KnownKind(m.key.kind)
              || (m.key in old(objects) && !Owned(old(objects)[m.key], env))
    {
      if !SupportedKind(m.key.kind) { return Unsupported(m.key.kind); }
      var answer := Get(m.key);
      if answer.Failed? { return RequestFailed; }
      if answer.Found? && !OwnershipVerified(answer.resource, env) { return Foreign(m.key); }
      var ok := Apply(m);
      r := if ok then Fine else RequestFailed;
    }

    /** `applyManifestWhere` over the whole bundle. */
    method ApplyManifests(bundle: seq<Manifest>, env: Environment, workloadsOnly: bool) returns (r: Result)
      modifies this
      ensures old(patches) <= patches && PatchesOwned(patches, |old(patches)|, env)
      ensures OthersKept(old(objects), objects, env) && NothingLost(old(objects), objects)
      ensures OnlyTargetsChange(old(objects), objects, bundle, workloadsOnly)
      ensures r.Fine? && DistinctTargets(bundle) ==>
                forall i :: 0 <= i < |bundle| && Included(bundle[i], workloadsOnly) ==> Installed(objects, bundle[i])
      ensures old(faults) <= faults && (r.RequestFailed? ==> old(faults) < faults)
      ensures DistinctTargets(bundle) && AllSupported(bundle) && !HasForeignTarget(old(objects), bundle, env) ==>
                r.Fine? || r.RequestFailed?
    {
      for i := 0 to |bundle|
        invariant faults == old(faults)
        invariant DistinctTargets(bundle) ==> AppliedUpTo(old(objects), objects, bundle, workloadsOnly, i)
        invariant old(patches) <= patches && PatchesOwned(patches, |old(patches)|, env)
        invariant OthersKept(old(objects), objects, env) && NothingLost(old(objects), objects)
        invariant OnlyTargetsChange(old(objects), objects, bundle, workloadsOnly)
      {
        var m := bundle[i];
        if workloadsOnly && m.key.kind != "Deployment" && m.key.kind != "StatefulSet" { continue; }
        assert IsTarget(bundle, workloadsOnly, m.key);
        ghost var mid := objects;
        r := ApplyOne(m, env);
        StepKeepsOthers(old(objects), mid, objects, m.key, env, bundle, workloadsOnly);
        if !r.Fine? {
          assert DistinctTargets(bundle) ==> SameAt(old(objects), mid, m.key);
          return;
        }
        if DistinctTargets(bundle) {
          OneMoreApplied(old(objects), mid, objects, bundle, workloadsOnly, i);
        }
      }
      r := Fine;
    }

    /** `Start`: namespace check, ownership preflight, apply, wait for readiness at one replica. */
    method Start(env: Environment, bundle: seq<Manifest>, workloads: seq<Key>, rounds: seq<Workloads.Round>)
        returns (r: Result)
      requires Workloads.WellFormed(Names(workloads), rounds)
      modifies this
      ensures old(patches) <= patches && PatchesOwned(patches, |old(patches)|, env)
      ensures OthersKept(old(objects), objects, env) && NothingLost(old(objects), objects)
      ensures OnlyTargetsChange(old(objects), objects, bundle, false)
      ensures HasForeignTarget(old(objects), bundle, env) || !AllSupported(bundle) ==>
              !r.Fine? && objects == old(objects) && patches == old(patches)
      ensures NamespaceKey(env) in old(objects) && !Owned(old(objects)[NamespaceKey(env)], env) ==>
                !r.Fine? && objects == old(objects) && patches == old(patches)
      ensures r.Fine? && DistinctTargets(bundle) ==> forall i :: 0 <= i < |bundle| ==> Installed(objects, bundle[i])
      ensures r.Fine? ==> exists k :: Workloads.SucceedsAt(rounds, 1, k)
      ensures faults == old(faults) && DistinctTargets(bundle) && AllSupported(bundle)
              && !HasForeignTarget(old(objects), bundle, env)
              && (NamespaceKey(env) in old(objects) ==> Owned(old(objects)[NamespaceKey(env)], env)) ==>
                (r.Fine? <==> exists k :: Workloads.SucceedsAt(rounds, 1, k))
    {
      var namespaceCheck := VerifyOwned(NamespaceKey(env), env);
      if !namespaceCheck.Fine? && !namespaceCheck.Absent? { return namespaceCheck; }
      if env.lab >= 3 {
        var imageReady: bool := *;
        if !imageReady {
          faults := faults + 1;
          return RequestFailed;
        }
      }
      r := VerifyBundle(bundle, env);
      if !r.Fine? { return; }
      r := ApplyManifests(bundle, env, false);
      if !r.Fine? { return; }
      var ready, names, last := Workloads.WaitForWorkloads(Names(workloads), rounds, 1);
      if !ready { r := NotReady(names); }
    }

    /** `Stop`: every check of ownership first, then only workloads are applied, with no replicas. */
    method Stop(env: Environment, bundle: seq<Manifest>, workloads: seq<Key>, checks: seq<Check>,
        rounds: seq<Workloads.Round>) returns (r: Result)
      requires Workloads.WellFormed(Names(workloads), rounds)
      modifies this
      ensures old(patches) <= patches && PatchesOwned(patches, |old(patches)|, env)
      ensures OthersKept(old(objects), objects, env) && NothingLost(old(objects), objects)
      ensures OnlyTargetsChange(old(objects), objects, bundle, true)
      ensures forall k: Key :: k.kind != "Deployment" && k.kind != "StatefulSet" ==> SameAt(old(objects), objects, k)
      ensures HasForeignTarget(old(objects), bundle, env) || !AllSupported(bundle) ==>
              !r.Fine? && objects == old(objects) && patches == old(patches)
      ensures StopAllowed(old(objects), env, workloads, checks)
              || (!r.Fine? && objects == old(objects) && patches == old(patches))
      ensures r.Fine? && DistinctTargets(bundle) ==>
                forall i :: 0 <= i < |bundle| && IsWorkload(bundle[i].key.kind) ==> Installed(objects, bundle[i])
      ensures r.Fine? ==> exists k :: Workloads.SucceedsAt(rounds, 0, k)
      ensures faults == old(faults) && DistinctTargets(bundle) && AllSupported(bundle)
              && !HasForeignTarget(old(objects), bundle, env)
              && StopAllowed(old(objects), env, workloads, checks) ==>
                (r.Fine? <==> exists k :: Workloads.SucceedsAt(rounds, 0, k))
    {
      r := VerifyOwned(NamespaceKey(env), env);
      if !r.Fine? { return; }
      for i := 0 to |workloads|
        invariant objects == old(objects) && patches == old(patches) && faults == old(faults)
        invariant forall j :: 0 <= j < i ==> OwnedAt(objects, workloads[j], env)
      {
        r := VerifyOwned(workloads[i], env);
        if !r.Fine? { return; }
      }
      for i := 0 to |checks|
        invariant objects == old(objects) && patches == old(patches) && faults == old(faults)
        invariant forall j :: 0 <= j < i ==> Passes(objects, checks[j], env)
      {
        r := VerifyCheck(checks[i], env);
        if !r.Fine? { return; }
      }
      r := VerifyBundle(bundle, env);
      if !r.Fine? { return; }
      r := ApplyManifests(bundle, env, true);
      if !r.Fine? { return; }
      var ready, names, last := Workloads.WaitForWorkloads(Names(workloads), rounds, 0);
      if !ready { r := NotReady(names); }
    }

    /** `Reset`: deleting an owned namespace takes everything inside it along, and nothing else.
        If the wait ends early, part of it may be left. */
    method Reset(env: Environment) returns (r: Result)
      modifies this
      ensures patches == old(patches)
      ensures forall k: Key :: Outside(k, env) ==> SameAt(old(objects), objects, k)
      ensures NamespaceKey(env) in old(objects) && !Owned(old(objects)[NamespaceKey(env)], env) ==>
              !r.Fine? && objects == old(objects)
      ensures NamespaceKey(env) !in old(objects) ==> objects == old(objects)
      ensures forall k :: k in objects ==> k in old(objects) && objects[k] == old(objects)[k]
      ensures r.Fine? ==> NamespaceKey(env) !in objects
      ensures faults == old(faults) ==>
              (r.Fine? <==> (NamespaceKey(env) in old(objects) ==> Owned(old(objects)[NamespaceKey(env)], env)))
      ensures r.Fine? && NamespaceKey(env) in old(objects) ==> forall k :: k in objects ==> k.namespace != env.namespace
    {
      r := VerifyOwned(NamespaceKey(env), env);
      if r.Absent? { return Fine; }
      if !r.Fine? { return; }
      var deleted: bool := *;
      if !deleted {
        faults := faults + 1;
        return RequestFailed;
      }
      // Deletion takes its time: the namespace goes last, and the wait may end before it is gone.
      var gone: bool, left: set<Key> := *, *;
      objects := map k | k in objects && (Outside(k, env) || (!gone && (k in left || k == NamespaceKey(env))))
                   :: objects[k];
      var observed: bool := *;
      if !gone || !observed { faults := faults + 1; }
      r := if gone && observed then Fine else RequestFailed;
    }
  }

  function Names(keys: seq<Key>): seq<string> { seq(|keys|, i requires 0 <= i < |keys| => keys[i].name) }

  /** Objects of another lab or another cluster are never owned here, so no Start or Stop of this
      environment can change them. */
  lemma OtherLabsAreForeign(r: Resource, mine: Environment, other: Environment)
    requires Owned(r, other)
    requires mine.lab != other.lab || mine.namespace != other.namespace || mine.clusterId != other.clusterId
    ensures !Owned(r, mine)
  {
    if ShowTwoDigits(mine.lab) == ShowTwoDigits(other.lab) {
      ShowTwoDigitsInjective(mine.lab, other.lab);
    }
  }
}
