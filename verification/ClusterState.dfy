/** The saved cluster state and its namespace projection (`internal/cluster/state.go`). */
module ClusterState {
  import opened Options
  import opened Ordering

  /** The versions and configuration hash one tripgoctl build insists on. */
  datatype Build = Build(kind: string, kubernetes: string, configHash: string)

  datatype State = State(clusterId: string, build: Build, namespaces: seq<string>, running: seq<string>)

  /** What `cluster-state.json` holds: nothing, bytes that do not decode, or a decoded document. */
  datatype StateFile = Missing | Undecodable | Decoded(schema: int, state: State)

  const SCHEMA := 1

  function LoadState(file: StateFile): Option<State> {
    if file.Decoded? && file.schema == SCHEMA && file.state.clusterId != "" then Some(file.state) else None
  }

  /** A state file is usable exactly when it decodes to schema 1 with a cluster id. */
  lemma UsableIff(file: StateFile, state: State)
    ensures LoadState(file) == Some(state) <==> file == Decoded(1, state) && |state.clusterId| > 0
    ensures LoadState(file) == None <==>
              file == Missing || file == Undecodable || file.schema != 1 || |file.state.clusterId| == 0
  {
  }

  function WrittenState(state: State): StateFile { Decoded(SCHEMA, state) }

  function IndexOf(values: seq<string>, target: string): (index: int)
    ensures -1 <= index < |values|
    ensures index < 0 <==> target !in values
    ensures 0 <= index ==> values[index] == target
  {
    if values == [] then -1
    else if values[0] == target then 0
    else
      var rest := IndexOf(values[1..], target);
      if rest < 0 then -1 else rest + 1
  }

  /** The copied slice with one name added or removed. */
  function Edited(values: seq<string>, target: string, present: bool): seq<string> {
    var index := IndexOf(values, target);
    if present && index < 0 then values + [target]
    else if !present && index >= 0 then values[..index] + values[index + 1..]
    else values
  }

  /** `setMembership`: edit a copy, then sort it. */
  function SetMembership(values: seq<string>, target: string, present: bool): seq<string> {
    Sort(Edited(values, target, present))
  }

  /** Known and running namespaces are sorted and duplicate-free, and running is part of known. */
  ghost predicate Canonical(state: State) {
    && StrictlySorted(state.namespaces)
    && StrictlySorted(state.running)
    && forall n :: n in state.running ==> n in state.namespaces
  }

  /** For every list, sorted or not, `setMembership` adds the target once if it is missing, or
      takes one occurrence away, and sorts. */
  lemma SetMembershipExact(values: seq<string>, target: string, present: bool)
    ensures var r := SetMembership(values, target, present);
            && SortedBy(r, Itself)
            && multiset(r) == if !present then multiset(values) - multiset{target}
                              else if target in values then multiset(values)
                              else multiset(values) + multiset{target}
  {
    SortBySorts(Edited(values, target, present), Itself);
    var index := IndexOf(values, target);
    assert target in multiset(values) <==> index >= 0;
    if !present && index >= 0 {
      WithoutOne(values, index);
    }
  }

  lemma WithoutOne(values: seq<string>, index: nat)
    requires index < |values|
    ensures multiset(values[..index] + values[index + 1..]) == multiset(values) - multiset{values[index]}
  {
    assert values == values[..index] + [values[index]] + values[index + 1..];
  }

  /** No other name is affected. A removed name is gone unless the list held it twice. */
  lemma SetMembershipDecides(values: seq<string>, target: string, present: bool)
    ensures var r := SetMembership(values, target, present);
            && (forall n :: n != target ==> (n in r <==> n in values))
            && (target in r <==> present || multiset(values)[target] >= 2)
            && (Distinct(values) ==> StrictlySorted(r) && (target in r <==> present))
  {
    var r := SetMembership(values, target, present);
    SetMembershipExact(values, target, present);
    assert forall n :: n in r <==> n in multiset(r);
    assert forall n :: n in values <==> n in multiset(values);
    DistinctIffCounts(values);
    DistinctIffCounts(r);
    forall i, j | 0 <= i < j < |r| ensures Leq(r[i], r[j]) {
      assert Leq(Itself(r[i]), Itself(r[j]));
    }
  }

  /** The projection written by `SetEnvironmentState`. */
  function WithEnvironment(state: State, namespace: string, known: bool, running: bool): State {
    state.(namespaces := SetMembership(state.namespaces, namespace, known),
           running := SetMembership(state.running, namespace, known && running))
  }

  /** An update alters only its own namespace, in whatever file it finds, and makes a file of
      duplicate-free lists canonical. */
  lemma EnvironmentUpdateExact(state: State, namespace: string, known: bool, running: bool)
    ensures var updated := WithEnvironment(state, namespace, known, running);
            && updated.clusterId == state.clusterId && updated.build == state.build
            && (forall n :: n != namespace ==> (n in updated.namespaces <==> n in state.namespaces))
            && (forall n :: n != namespace ==> (n in updated.running <==> n in state.running))
            && (namespace in updated.namespaces <==> known || multiset(state.namespaces)[namespace] >= 2)
            && (namespace in updated.running <==> (known && running) || multiset(state.running)[namespace] >= 2)
            && (DuplicateFree(state) ==> Canonical(updated))
  {
    SetMembershipDecides(state.namespaces, namespace, known);
    SetMembershipDecides(state.running, namespace, known && running);
  }

  ghost predicate DuplicateFree(state: State) {
    Distinct(state.namespaces) && Distinct(state.running) && forall n :: n in state.running ==> n in state.namespaces
  }

  /** The recorded namespaces stay the same list, up to order, exactly when the update says what
      the file already said. */
  lemma EnvironmentUpdateKeepsListIff(state: State, namespace: string, known: bool, running: bool)
    ensures multiset(WithEnvironment(state, namespace, known, running).namespaces) == multiset(state.namespaces)
            <==> (known <==> namespace in state.namespaces)
  {
    SetMembershipExact(state.namespaces, namespace, known);
    var before, after := multiset(state.namespaces),
        multiset(WithEnvironment(state, namespace, known, running).namespaces);
    assert namespace in state.namespaces <==> namespace in before;
    if known != (namespace in state.namespaces) {
      assert after[namespace] != before[namespace];
    }
  }
}
