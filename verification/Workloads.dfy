/** Waiting for workloads (`waitForWorkloads` and `workloadReady` in `internal/lab/service.go`). */
module Workloads {
  import opened Options
  import opened Ordering

  /** The counters of one Deployment or StatefulSet that readiness looks at. */
  datatype Object = Object(desired: int, generation: int, observed: int, updated: int, ready: int, available: int)

  predicate WorkloadReady(o: Object, expected: int) {
    o.desired == expected && o.observed >= o.generation && o.updated == expected && o.ready == expected
    && o.available == expected
  }

  /** One read of one workload: its object, an API error, or the wait having expired. */
  datatype Read = Got(counts: Object) | ReadFailed | Expired

  /** One polling round: a read per workload, and whether the wait expired while its progress
      was being reported. */
  datatype Round = Round(results: seq<Read>, expiredReporting: bool)

  /** Why a workload was last seen not ready. */
  datatype Note = ApiReadFailed | NotReady(counts: Object)

  datatype Record = Record(name: string, note: Option<Note>)

  /** What waiting is for: the counts of this generation have all come to what is expected. */
  ghost predicate RolledOut(o: Object, expected: int) {
    o.desired == o.updated == o.ready == o.available == expected && o.generation <= o.observed
  }

  ghost predicate ReadReady(read: Read, expected: int) { read.Got? && RolledOut(read.counts, expected) }

  /** What a read says about its workload: nothing, if it is ready. */
  ghost function Verdict(read: Read, expected: int): Option<Note>
    requires !read.Expired?
  {
    if ReadReady(read, expected) then None else if read.Got? then Some(NotReady(read.counts)) else Some(ApiReadFailed)
  }

  /** The observations a round records: those before the wait expired. */
  ghost function RoundRecords(items: seq<string>, results: seq<Read>, expected: int): seq<Record>
    requires |results| == |items|
  {
    if items == [] || results[0].Expired? then []
    else [Record(items[0], Verdict(results[0], expected))] + RoundRecords(items[1..], results[1..], expected)
  }

  ghost predicate Uninterrupted(round: Round) {
    !round.expiredReporting && forall i :: 0 <= i < |round.results| ==> !round.results[i].Expired?
  }

  ghost predicate AllReady(round: Round, expected: int) {
    forall i :: 0 <= i < |round.results| ==> ReadReady(round.results[i], expected)
  }

  ghost predicate WellFormed(items: seq<string>, rounds: seq<Round>) {
    forall r :: 0 <= r < |rounds| ==> |rounds[r].results| == |items|
  }

  /** Round `k` is the first that is uninterrupted with every workload read as ready. */
  ghost predicate SucceedsAt(rounds: seq<Round>, expected: int, k: int) {
    && 0 <= k < |rounds| && Uninterrupted(rounds[k])
    && (forall i :: 0 <= i < |rounds[k].results| ==>
          && rounds[k].results[i].Got?
          && var o := rounds[k].results[i].counts;
             && o.desired == expected && o.updated == expected && o.ready == expected && o.available == expected
             && o.observed >= o.generation)
    && forall j :: 0 <= j < k ==> Uninterrupted(rounds[j]) && !AllReady(rounds[j], expected)
  }

  /** All observations recorded until the wait ends in success, expiry or the time limit. */
  ghost function History(items: seq<string>, rounds: seq<Round>, expected: int): seq<Record>
    requires WellFormed(items, rounds)
  {
    if rounds == [] then []
    else
      var first := RoundRecords(items, rounds[0].results, expected);
      if !Uninterrupted(rounds[0]) || AllReady(rounds[0], expected) then first
      else first + History(items, rounds[1..], expected)
  }

  /** The last recorded observation of a workload, if it was not ready. */
  ghost function LastNote(history: seq<Record>, name: string): Option<Note> {
    if history == [] then None
    else if history[|history| - 1].name == name then history[|history| - 1].note
    else LastNote(history[..|history| - 1], name)
  }

  ghost predicate Remembers(last: map<string, Note>, history: seq<Record>) {
    forall name :: LastNote(history, name) == if name in last then Some(last[name]) else None
  }

  lemma {:induction false} RoundRecordsTake(items: seq<string>, results: seq<Read>, expected: int, n: nat)
    requires |results| == |items| && n < |items|
    requires forall i :: 0 <= i < n ==> !results[i].Expired?
    ensures RoundRecords(items[..n], results[..n], expected) <= RoundRecords(items, results, expected)
    ensures !results[n].Expired? ==>
              RoundRecords(items[..n + 1], results[..n + 1], expected)
              == RoundRecords(items[..n], results[..n], expected) + [Record(items[n], Verdict(results[n], expected))]
    ensures results[n].Expired? ==>
            RoundRecords(items, results, expected) == RoundRecords(items[..n], results[..n], expected)
  {
    if n > 0 {
      RoundRecordsTake(items[1..], results[1..], expected, n - 1);
      assert items[1..][..n - 1] == items[..n][1..] && results[1..][..n - 1] == results[..n][1..];
      assert items[1..][..n] == items[..n + 1][1..] && results[1..][..n] == results[..n + 1][1..];
    }
  }

  /** Setting or deleting the note of one workload keeps the map in step with the history. */
  lemma NotingRemembers(last: map<string, Note>, history: seq<Record>, name: string, note: Option<Note>)
    requires Remembers(last, history)
    ensures Remembers(if note.Some? then last[name := note.value] else last - {name}, history + [Record(name, note)])
  {
    var grown := history + [Record(name, note)];
    assert grown[..|grown| - 1] == history;
  }

  /** One polling round over the items, updating the map of last notes. */
  method PollRound(items: seq<string>, round: Round, expected: int, last: map<string, Note>, ghost before: seq<Record>)
    returns (ready: bool, interrupted: bool, next: map<string, Note>)
    requires |round.results| == |items| && Remembers(last, before)
    ensures interrupted <==> !Uninterrupted(round)
    ensures !interrupted ==> (ready <==> AllReady(round, expected))
    ensures Remembers(next, before + RoundRecords(items, round.results, expected))
  {
    next := last;
    var readyCount := 0;
    var i := 0;
    ghost var done: seq<Record> := [];
    assert before + done == before;
    while i < |items|
      invariant 0 <= i <= |items|
      invariant forall j :: 0 <= j < i ==> !round.results[j].Expired?
      invariant 0 <= readyCount <= i
      invariant readyCount == i <==> forall j :: 0 <= j < i ==> ReadReady(round.results[j], expected)
      invariant done == RoundRecords(items[..i], round.results[..i], expected)
      invariant Remembers(next, before + done)
    {
      RoundRecordsTake(items, round.results, expected, i);
      var read := round.results[i];
      if read.Expired? {
        return false, true, next;
      }
      ghost var record := Record(items[i], Verdict(read, expected));
      NotingRemembers(next, before + done, items[i], Verdict(read, expected));
      assert before + done + [record] == before + (done + [record]);
      match read {
        case ReadFailed => next := next[items[i] := ApiReadFailed];
        case Got(counts) =>
          if WorkloadReady(counts, expected) {
            readyCount := readyCount + 1;
            next := next - {items[i]};
          } else {
            next := next[items[i] := NotReady(counts)];
          }
      }
      done := done + [record];
      i := i + 1;
    }
    assert items[..i] == items && round.results[..i] == round.results;
    ready := readyCount == |items|;
    interrupted := round.expiredReporting;
  }

  /** `names := keys of last; sort.Strings(names)`. */
  method SortedNames(last: map<string, Note>) returns (names: seq<string>)
    ensures StrictlySorted(names)
    ensures forall n :: n in names <==> n in last
  {
    var keys := last.Keys;
    names := [];
    while keys != {}
      invariant Distinct(names)
      invariant keys <= last.Keys
      invariant forall n :: n in names <==> n in last && n !in keys
    {
      var k :| k in keys;
      names := names + [k];
      keys := keys - {k};
    }
    SortKeepsDistinct(names);
    names := Sort(names);
  }

  /** Success needs one uninterrupted round in which every workload was read as ready at the
      expected count and observed generation; otherwise the error names exactly the workloads
      whose last recorded observation was not ready. */
  method WaitForWorkloads(items: seq<string>, rounds: seq<Round>, expected: int)
    returns (ok: bool, notReady: seq<string>, last: map<string, Note>)
    requires WellFormed(items, rounds)
    ensures ok <==> exists k :: SucceedsAt(rounds, expected, k)
    ensures !ok ==> StrictlySorted(notReady)
    ensures !ok ==> forall name :: name in notReady <==> LastNote(History(items, rounds, expected), name).Some?
    ensures !ok ==> forall name :: name in notReady ==>
            name in last && LastNote(History(items, rounds, expected), name) == Some(last[name])
  {
    last := map[];
    var r := 0;
    ghost var seen: seq<Record> := [];
    while r < |rounds|
      invariant 0 <= r <= |rounds|
      invariant forall j :: 0 <= j < r ==> Uninterrupted(rounds[j]) && !AllReady(rounds[j], expected)
      invariant Remembers(last, seen)
      invariant seen + History(items, rounds[r..], expected) == History(items, rounds, expected)
    {
      var ready, interrupted, next := PollRound(items, rounds[r], expected, last, seen);
      seen := seen + RoundRecords(items, rounds[r].results, expected);
      last := next;
      if interrupted {
        assert seen == History(items, rounds, expected);
        notReady := SortedNames(last);
        return false, notReady, last;
      }
      if ready {
        assert SucceedsAt(rounds, expected, r);
        return true, [], last;
      }
      assert rounds[r..][1..] == rounds[r + 1..];
      r := r + 1;
    }
    assert seen == History(items, rounds, expected);
    notReady := SortedNames(last);
    ok := false;
  }
}
