/** The topic reconciliation loop (`ReconcileScript` in `internal/redpanda/config.go`).

    The script runs under `set -euo pipefail`: the first failing command outside a condition ends
    it. A failing topic list inside the condition counts as "topic not found". */
module TopicReconciler {
  datatype Desired = Desired(topic: string, partitions: nat)

  type Topics = map<string, nat>

  ghost predicate SameAt(a: Topics, b: Topics, topic: string) {
    (topic in a <==> topic in b) && (topic in a ==> a[topic] == b[topic])
  }

  ghost predicate NeverLowered(before: Topics, after: Topics) {
    forall t :: t in before ==> t in after && before[t] <= after[t]
  }

  ghost predicate Listed(desired: seq<Desired>, topic: string) {
    exists i :: 0 <= i < |desired| && desired[i].topic == topic && topic != ""
  }

  ghost predicate UnlistedUntouched(before: Topics, after: Topics, desired: seq<Desired>) {
    forall t :: !Listed(desired, t) ==> SameAt(before, after, t)
  }

  ghost predicate DistinctTopics(desired: seq<Desired>) {
    forall i, j :: 0 <= i < j < |desired| && desired[i].topic != "" ==> desired[i].topic != desired[j].topic
  }

  /** Every listed topic exists with at least, or exactly, its desired partitions. */
  ghost predicate AtLeast(topics: Topics, desired: seq<Desired>) {
    forall i :: 0 <= i < |desired| && desired[i].topic != "" ==>
      desired[i].topic in topics && topics[desired[i].topic] >= desired[i].partitions
  }

  ghost predicate Converged(topics: Topics, desired: seq<Desired>) {
    forall i :: 0 <= i < |desired| && desired[i].topic != "" ==>
      desired[i].topic in topics && topics[desired[i].topic] == desired[i].partitions
  }

  ghost predicate Oversized(topics: Topics, desired: seq<Desired>) {
    exists i :: 0 <= i < |desired| && desired[i].topic != "" && desired[i].topic in topics
                && topics[desired[i].topic] > desired[i].partitions
  }

  /** A topic the script can bring to its desired count: missing and wanted, or not oversized. */
  predicate Reconcilable(topics: Topics, d: Desired) {
    if d.topic in topics then topics[d.topic] <= d.partitions else d.partitions > 0
  }

  ghost predicate AllReconcilable(topics: Topics, desired: seq<Desired>) {
    forall i :: 0 <= i < |desired| && desired[i].topic != "" ==> Reconcilable(topics, desired[i])
  }

  /** What no step of the script ever breaks. */
  ghost predicate Gentle(before: Topics, after: Topics, desired: seq<Desired>) {
    NeverLowered(before, after) && UnlistedUntouched(before, after, desired)
  }

  ghost predicate OnlyAt(before: Topics, after: Topics, topic: string) {
    forall t :: t != topic ==> SameAt(before, after, t)
  }

  lemma GentleStep(before: Topics, mid: Topics, after: Topics, desired: seq<Desired>, topic: string)
    requires Gentle(before, mid, desired) && NeverLowered(mid, after) && OnlyAt(mid, after, topic)
             && Listed(desired, topic)
    ensures Gentle(before, after, desired)
  {
    forall t | !Listed(desired, t) ensures SameAt(before, after, t) {
      assert SameAt(before, mid, t) && SameAt(mid, after, t);
    }
  }

  lemma ConvergedStep(mid: Topics, after: Topics, done: seq<Desired>, d: Desired)
    requires OnlyAt(mid, after, d.topic) && Converged(mid, done) && d.topic in after && after[d.topic] == d.partitions
    requires forall i :: 0 <= i < |done| && done[i].topic != "" ==> done[i].topic != d.topic
    ensures Converged(after, done + [d])
  {
    forall i | 0 <= i < |done| && done[i].topic != "" ensures SameAt(mid, after, done[i].topic) {
    }
  }

  /** Topics whose turn has not come are as they were. */
  ghost predicate Pending(before: Topics, now: Topics, desired: seq<Desired>, i: nat) {
    forall j :: i <= j < |desired| && desired[j].topic != "" ==> SameAt(before, now, desired[j].topic)
  }

  lemma PendingStep(before: Topics, mid: Topics, after: Topics, desired: seq<Desired>, i: nat)
    requires i < |desired| && desired[i].topic != "" && DistinctTopics(desired)
    requires Pending(before, mid, desired, i) && OnlyAt(mid, after, desired[i].topic)
    ensures Pending(before, after, desired, i + 1)
  {
    forall j | i + 1 <= j < |desired| && desired[j].topic != "" ensures SameAt(before, after, desired[j].topic) {
      assert SameAt(before, mid, desired[j].topic) && SameAt(mid, after, desired[j].topic);
    }
  }

  /** Where a pass stands before topic `i`, seen from its beginning. */
  ghost predicate PassedUpTo(before: Topics, now: Topics, desired: seq<Desired>, i: nat)
    requires i <= |desired|
  {
    && Gentle(before, now, desired) && AtLeast(now, desired[..i]) && !Oversized(before, desired[..i])
    && (DistinctTopics(desired) ==> Pending(before, now, desired, i) && Converged(now, desired[..i]))
    && (Converged(before, desired) ==> now == before)
  }

  lemma PassStep(before: Topics, mid: Topics, after: Topics, desired: seq<Desired>, i: nat)
    requires i < |desired| && desired[i].topic != "" && PassedUpTo(before, mid, desired, i)
    requires NeverLowered(mid, after) && OnlyAt(mid, after, desired[i].topic)
    requires desired[i].topic in after && after[desired[i].topic] == desired[i].partitions
    requires desired[i].topic in mid && mid[desired[i].topic] == desired[i].partitions ==> after == mid
    ensures PassedUpTo(before, after, desired, i + 1)
  {
    var d := desired[i];
    assert desired[..i + 1] == desired[..i] + [d];
    assert Listed(desired, d.topic);
    GentleStep(before, mid, after, desired, d.topic);
    if DistinctTopics(desired) {
      ConvergedStep(mid, after, desired[..i], d);
      PendingStep(before, mid, after, desired, i);
    }
    if d.topic in before { assert d.topic in mid && before[d.topic] <= mid[d.topic] <= after[d.topic]; }
  }

  lemma SkipStep(before: Topics, now: Topics, desired: seq<Desired>, i: nat)
    requires i < |desired| && desired[i].topic == "" && PassedUpTo(before, now, desired, i)
    ensures PassedUpTo(before, now, desired, i + 1)
  {
    assert desired[..i + 1] == desired[..i] + [desired[i]];
  }

  class Reconciler {
    var topics: Topics
    var ready: bool
    ghost var history: seq<Topics>  // broker contents after every command
    ghost var faults: nat           // commands that failed of themselves

    constructor (topics: Topics, ready: bool)
      ensures this.topics == topics && this.ready == ready && history == [] && faults == 0
    {
      this.topics, this.ready, history, faults := topics, ready, [], 0;
    }

    /** `rpk topic list | awk`: false when the topic is absent and also when listing fails. */
    method ListHas(topic: string) returns (found: bool)
      modifies this`faults
      ensures found ==> topic in topics
      ensures old(faults) <= faults && (faults == old(faults) ==> (found <==> topic in topics))
    {
      var reachable: bool := *;
      if !reachable { faults := faults + 1; }
      found := reachable && topic in topics;
    }

    /** `rpk topic create`: fails for a topic that exists and for no partitions. */
    method Create(d: Desired) returns (ok: bool)
      modifies this`topics, this`history, this`faults
      ensures old(faults) <= faults && (faults == old(faults) ==> (ok <==> d.topic !in old(topics) && d.partitions > 0))
      ensures ok ==> d.topic !in old(topics) && topics == old(topics)[d.topic := d.partitions]
      ensures !ok ==> topics == old(topics)
      ensures history == old(history) + [topics]
    {
      var works: bool := *;
      if !works { faults := faults + 1; }
      ok := works && d.topic !in topics && d.partitions > 0;
      if ok { topics := topics[d.topic := d.partitions]; }
      history := history + [topics];
    }

    method Describe(topic: string) returns (ok: bool, count: nat)
      modifies this`faults
      ensures ok ==> topic in topics && count == topics[topic]
      ensures old(faults) <= faults && (faults == old(faults) ==> (ok <==> topic in topics))
    {
      var reachable: bool := *;
      if !reachable { faults := faults + 1; }
      ok := reachable && topic in topics;
      count := if ok then topics[topic] else 0;
    }

    method AddPartitions(topic: string, number: nat) returns (ok: bool)
      requires topic in topics
      modifies this`topics, this`history, this`faults
      ensures old(faults) <= faults && (faults == old(faults) ==> ok)
      ensures topics == if ok then old(topics)[topic := old(topics)[topic] + number] else old(topics)
      ensures history == old(history) + [topics]
    {
      ok := *;
      if ok { topics := topics[topic := topics[topic] + number]; } else { faults := faults + 1; }
      history := history + [topics];
    }

    /** One iteration of the loop body. */
    method ReconcileTopic(d: Desired) returns (ok: bool)
      modifies this`topics, this`history, this`faults
      ensures old(faults) <= faults && (faults == old(faults) ==> (ok <==> Reconcilable(old(topics), d)))
      ensures old(history) <= history
      ensures forall i :: |old(history)| <= i < |history| ==> history[i] == topics || history[i] == old(topics)
      ensures NeverLowered(old(topics), topics)
      ensures OnlyAt(old(topics), topics, d.topic)
      ensures ok ==> d.topic in topics && topics[d.topic] == d.partitions
      ensures d.topic in old(topics) && old(topics)[d.topic] == d.partitions ==> topics == old(topics)
      ensures d.topic in old(topics) && old(topics)[d.topic] > d.partitions ==> !ok && topics == old(topics)
    {
      var current: nat;
      var found := ListHas(d.topic);
      if !found {
        ok := Create(d);
        if !ok { return; }
        current := d.partitions;
      } else {
        ok, current := Describe(d.topic);
        if !ok { return; }
      }
      if current < d.partitions {
        ok := AddPartitions(d.topic, d.partitions - current);
      } else if current > d.partitions {
        return false;
      }
    }

    /** One pass. Whatever fails, no partition count ever drops and no unlisted topic is touched;
        the ready mark is set exactly by a completed pass. */
    method Reconcile(desired: seq<Desired>) returns (ok: bool)
      modifies this
      ensures old(history) <= history
      ensures forall i :: |old(history)| <= i < |history| ==>
                Gentle(old(topics), history[i], desired)
      ensures Gentle(old(topics), topics, desired)
      ensures ready <==> ok
      ensures ok ==> AtLeast(topics, desired)
      ensures ok && DistinctTopics(desired) ==> Converged(topics, desired)
      ensures Oversized(old(topics), desired) ==> !ok
      ensures Converged(old(topics), desired) ==> topics == old(topics)
      ensures old(faults) <= faults
      ensures faults == old(faults) && DistinctTopics(desired) ==> (ok <==> AllReconcilable(old(topics), desired))
    {
      ready := false;
      assert desired[..0] == [];
      for i := 0 to |desired|
        invariant !ready && old(history) <= history && old(faults) <= faults
        invariant forall j :: |old(history)| <= j < |history| ==> Gentle(old(topics), history[j], desired)
        invariant PassedUpTo(old(topics), topics, desired, i)
        invariant faults == old(faults) && DistinctTopics(desired) ==> AllReconcilable(old(topics), desired[..i])
      {
        assert desired[..i + 1] == desired[..i] + [desired[i]];
        if desired[i].topic == "" {
          SkipStep(old(topics), topics, desired, i);
          continue;
        }
        assert Listed(desired, desired[i].topic);
        ghost var mid := topics;
        ok := ReconcileTopic(desired[i]);
        GentleStep(old(topics), mid, topics, desired, desired[i].topic);
        if !ok { return; }
        PassStep(old(topics), mid, topics, desired, i);
      }
      assert desired[..|desired|] == desired;
      ready := true;
      ok := true;
    }

    /** The endless loop, for any number of passes: a failing pass ends the script. */
    method Passes(desired: seq<Desired>, passes: nat) returns (completed: nat)
      modifies this
      ensures completed <= passes && old(history) <= history
      ensures forall i :: |old(history)| <= i < |history| ==>
                Gentle(old(topics), history[i], desired)
      ensures passes > 0 ==> (ready <==> completed == passes)
      ensures completed > 0 && DistinctTopics(desired) ==> Converged(topics, desired)
    {
      completed := 0;
      while completed < passes
        invariant completed <= passes && old(history) <= history
        invariant Gentle(old(topics), topics, desired)
        invariant forall i :: |old(history)| <= i < |history| ==>
                    Gentle(old(topics), history[i], desired)
        invariant completed > 0 ==> ready
        invariant completed > 0 && DistinctTopics(desired) ==> Converged(topics, desired)
      {
        var ok := Reconcile(desired);
        if !ok { return; }
        completed := completed + 1;
      }
    }
  }
}
