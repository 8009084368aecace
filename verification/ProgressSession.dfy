/** The progress session of one command (`internal/cli/progress.go`). Text is a string of bytes,
    one character per byte. */
module ProgressSession {
  import opened Splitting

  type Text = string

  datatype Kind = Stage | Activity | Readiness | Warning

  const TAIL_ROWS := 6
  const LOG_MAX_BYTES := 2 * 1024 * 1024

  const TRUNCATION_MARKER := "[progress log truncated at 2 MiB]\n"

  /** One reported line, and the log entry `[elapsed] kind line` the clock makes of it. */
  datatype Report = Report(kind: Kind, line: Text, entry: Text)

  function LogEntries(reports: seq<Report>): seq<Text> {
    seq(|reports|, i requires 0 <= i < |reports| => reports[i].entry)
  }

  // ---------------------------------------------------------------- what a session should show

  /** The last accepted line of a kind, or nothing. */
  function LastOf(kind: Kind, accepted: seq<Report>): Text {
    if accepted == [] then []
    else if Last(accepted).kind == kind then Last(accepted).line
    else LastOf(kind, Init(accepted))
  }

  /** A line is accepted unless it is empty or repeats the last stage or readiness line. */
  predicate Accepts(accepted: seq<Report>, r: Report) {
    r.line != [] && (r.kind.Stage? || r.kind.Readiness? ==> r.line != LastOf(r.kind, accepted))
  }

  function AcceptedOf(reports: seq<Report>): seq<Report> {
    if reports == [] then []
    else
      var before := AcceptedOf(Init(reports));
      if Accepts(before, Last(reports)) then before + [Last(reports)] else before
  }

  function NonStageLines(accepted: seq<Report>): seq<Text> {
    if accepted == [] then []
    else NonStageLines(Init(accepted)) + if Last(accepted).kind.Stage? then [] else [Last(accepted).line]
  }

  function LastRows(lines: seq<Text>): seq<Text> {
    if |lines| <= TAIL_ROWS then lines else lines[|lines| - TAIL_ROWS..]
  }

  /** How many whole entries fit into `room` bytes, from the first one on. */
  function Fitting(entries: seq<Text>, room: int): (n: nat)
    ensures n <= |entries|
  {
    if entries == [] || |entries[0]| > room then 0 else 1 + Fitting(entries[1..], room - |entries[0]|)
  }

  /** The log of a history: the entries that fit, then the marker if something was left out and
      the marker itself fits. */
  function LogOf(entries: seq<Text>): Text {
    LogUpTo(entries, Fitting(entries, LOG_MAX_BYTES))
  }

  function LogUpTo(entries: seq<Text>, n: nat): Text
    requires n <= |entries|
  {
    Closed(Concat(entries[..n]), n < |entries|)
  }

  function Closed(kept: Text, cut: bool): Text {
    if cut && |kept| + |TRUNCATION_MARKER| <= LOG_MAX_BYTES then kept + TRUNCATION_MARKER else kept
  }

  lemma {:induction false} ConcatAppend(a: seq<Text>, e: Text)
    ensures Concat(a + [e]) == Concat(a) + e
  {
    if a == [] {
      assert a + [e] == [e] && [e][1..] == [];
    } else {
      ConcatAppend(a[1..], e);
      assert (a + [e])[1..] == a[1..] + [e];
    }
  }

  lemma {:induction false} FittingFits(entries: seq<Text>, room: nat)
    ensures var n := Fitting(entries, room);
            && |Concat(entries[..n])| <= room
            && (n < |entries| ==> |Concat(entries[..n + 1])| > room)
            && (n == |entries| <==> |Concat(entries)| <= room)
  {
    if entries != [] && |entries[0]| <= room {
      var n := Fitting(entries[1..], room - |entries[0]|);
      FittingFits(entries[1..], room - |entries[0]|);
      assert entries[..n + 1][1..] == entries[1..][..n];
      if n < |entries[1..]| {
        assert entries[..n + 2][1..] == entries[1..][..n + 1];
      }
    }
  }

  lemma {:induction false} FittingAppend(entries: seq<Text>, e: Text, room: nat)
    ensures Fitting(entries + [e], room) == if Fitting(entries, room) == |entries| && |Concat(entries)| + |e| <= room
                                            then |entries| + 1 else Fitting(entries, room)
  {
    if entries == [] {
      assert entries + [e] == [e] && [e][1..] == [];
    } else if |entries[0]| <= room {
      FittingAppend(entries[1..], e, room - |entries[0]|);
      assert (entries + [e])[1..] == entries[1..] + [e];
    }
  }

  /** The log never exceeds its bound, and it is a prefix of whole entries with at most one marker
      after it and nothing after the marker. */
  lemma LogOfIsBoundedPrefix(entries: seq<Text>) returns (n: nat)
    ensures n <= |entries| && |LogOf(entries)| <= 2 * 1024 * 1024
    ensures n == |entries| ==> LogOf(entries) == Concat(entries)
    ensures n < |entries| ==>
              && |Concat(entries[..n + 1])| > 2 * 1024 * 1024
              && LogOf(entries) == Concat(entries[..n])
                   + if |Concat(entries[..n])| + |"[progress log truncated at 2 MiB]\n"| <= 2 * 1024 * 1024
                     then "[progress log truncated at 2 MiB]\n" else []
    ensures n < |entries| <==> |Concat(entries)| > 2 * 1024 * 1024
  {
    n := Fitting(entries, LOG_MAX_BYTES);
    FittingFits(entries, LOG_MAX_BYTES);
    assert entries[..|entries|] == entries;
  }

  /** The log file under construction. */
  datatype Log = Log(text: Text, full: bool)

  /** `appendLogLocked` as a function of the log so far. */
  function Appended(log: Log, entry: Text): Log {
    if log.full then log
    else if |log.text| + |entry| > LOG_MAX_BYTES
    then Log(if LOG_MAX_BYTES - |log.text| >= |TRUNCATION_MARKER| then log.text + TRUNCATION_MARKER else log.text, true)
    else Log(log.text + entry, false)
  }

  function LogAfter(logged: seq<Report>): Log {
    if logged == [] then Log([], false) else Appended(LogAfter(Init(logged)), Last(logged).entry)
  }

  /** The log of entries that all fit. */
  lemma LogOfFitting(entries: seq<Text>)
    requires |Concat(entries)| <= LOG_MAX_BYTES
    ensures Fitting(entries, LOG_MAX_BYTES) == |entries| && LogOf(entries) == Concat(entries)
  {
    FittingFits(entries, LOG_MAX_BYTES);
    assert entries[..|entries|] == entries;
  }

  /** Once an entry did not fit, later ones change nothing. */
  lemma LogOfFull(entries: seq<Text>, entry: Text)
    requires Fitting(entries, LOG_MAX_BYTES) < |entries|
    ensures Fitting(entries + [entry], LOG_MAX_BYTES) == Fitting(entries, LOG_MAX_BYTES)
            && LogOf(entries + [entry]) == LogOf(entries)
  {
    FittingAppend(entries, entry, LOG_MAX_BYTES);
    LogUpToAppend(entries, entry, Fitting(entries, LOG_MAX_BYTES));
  }

  lemma LogUpToAppend(entries: seq<Text>, entry: Text, n: nat)
    requires n < |entries|
    ensures LogUpTo(entries + [entry], n) == LogUpTo(entries, n)
  {
    assert (entries + [entry])[..n] == entries[..n];
  }

  /** The first entry that does not fit leaves the entries before it, and the marker if it fits. */
  lemma LogOfOverflow(entries: seq<Text>, entry: Text)
    requires |Concat(entries)| <= LOG_MAX_BYTES < |Concat(entries)| + |entry|
    ensures Fitting(entries + [entry], LOG_MAX_BYTES) == |entries|
    ensures LogOf(entries + [entry]) == Closed(Concat(entries), true)
  {
    LogOfFitting(entries);
    FittingAppend(entries, entry, LOG_MAX_BYTES);
    assert (entries + [entry])[..|entries|] == entries;
  }

  /** One more entry: it fits whole, or the log is closed with or without the marker. */
  lemma AppendedStep(entries: seq<Text>, entry: Text)
    ensures var grown := entries + [entry];
            Appended(Log(LogOf(entries), Fitting(entries, LOG_MAX_BYTES) < |entries|), entry)
            == Log(LogOf(grown), Fitting(grown, LOG_MAX_BYTES) < |grown|)
  {
    FittingFits(entries, LOG_MAX_BYTES);
    if Fitting(entries, LOG_MAX_BYTES) < |entries| {
      LogOfFull(entries, entry);
    } else {
      LogOfFitting(entries);
      if |Concat(entries)| + |entry| > LOG_MAX_BYTES {
        LogOfOverflow(entries, entry);
      } else {
        ConcatAppend(entries, entry);
        LogOfFitting(entries + [entry]);
      }
    }
  }

  /** Appending entry by entry makes the log of the whole history. */
  lemma {:induction false} LogAfterIsLogOf(logged: seq<Report>)
    ensures LogAfter(logged) == Log(LogOf(LogEntries(logged)), Fitting(LogEntries(logged), LOG_MAX_BYTES) < |logged|)
  {
    if logged != [] {
      LogAfterIsLogOf(Init(logged));
      AppendedStep(LogEntries(Init(logged)), Last(logged).entry);
      assert LogEntries(logged) == LogEntries(Init(logged)) + [Last(logged).entry];
    }
  }

  lemma LogAfterAppend(logged: seq<Report>, r: Report)
    ensures LogAfter(logged + [r]) == Appended(LogAfter(logged), r.entry)
  {
    assert Init(logged + [r]) == logged;
  }

  /** What one more report does to the accepted lines, and through them to the log. */
  lemma ReportGrows(reports: seq<Report>, r: Report)
    ensures var before, after := AcceptedOf(reports), AcceptedOf(reports + [r]);
            && after == (if Accepts(before, r) then before + [r] else before)
            && LogAfter(after) == if Accepts(before, r) then Appended(LogAfter(before), r.entry) else LogAfter(before)
  {
    assert Init(reports + [r]) == reports;
    LogAfterAppend(AcceptedOf(reports), r);
  }

  /** All that was logged: the accepted lines, then those of the end. */
  function Logged(reports: seq<Report>, failures: seq<Report>): (all: seq<Report>)
    ensures failures == [] ==> all == AcceptedOf(reports)
  {
    AcceptedOf(reports) + failures
  }

  class Session {
    var stage: Text
    var lastStage: Text
    var lastReady: Text
    var tail: seq<Text>
    var log: Text
    var logFull: bool
    var done: bool
    ghost var reports: seq<Report>    // every line reported before the end
    ghost var failures: seq<Report>   // lines logged by the end itself

    /** Stage and tail are what these accepted lines call for. */
    ghost predicate Shows(accepted: seq<Report>)
      reads this
    {
      && stage == lastStage == LastOf(Stage, accepted)
      && lastReady == LastOf(Readiness, accepted)
      && tail == LastRows(NonStageLines(accepted))
    }

    ghost predicate Valid()
      reads this
    {
      && Shows(AcceptedOf(reports))
      && Log(log, logFull) == LogAfter(Logged(reports, failures))
      && (!done ==> failures == [])
    }

    constructor ()
      ensures Valid() && !done && reports == [] && failures == []
    {
      stage, lastStage, lastReady, tail, log, logFull, done := [], [], [], [], [], false, false;
      reports, failures := [], [];
    }

    /** `appendLogLocked`. */
    method AppendLog(r: Report)
      modifies this`log, this`logFull
      ensures Log(log, logFull) == Appended(Log(old(log), old(logFull)), r.entry)
    {
      if logFull {
        return;
      }
      var entry := r.entry;
      if |log| + |entry| > LOG_MAX_BYTES {
        var remaining := LOG_MAX_BYTES - |log|;
        if remaining >= |TRUNCATION_MARKER| {
          log := log + TRUNCATION_MARKER;
        }
        logFull := true;
        return;
      }
      log := log + entry;
    }

    /** `reportLine`: after the end nothing changes; before it the session shows exactly what the
        reports so far call for. */
    method ReportLine(r: Report)
      requires Valid()
      modifies this
      ensures Valid() && done == old(done) && failures == old(failures)
      ensures old(done) ==> unchanged(this)
      ensures !old(done) ==> reports == old(reports) + [r]
    {
      if done {
        return;
      }
      ghost var accepted := AcceptedOf(reports);
      ReportGrows(reports, r);
      reports := reports + [r];
      if r.line == [] || (r.kind.Stage? && r.line == lastStage) || (r.kind.Readiness? && r.line == lastReady) {
        return;
      }
      Accept(r, accepted);
    }

    /** The part of `reportLine` for an accepted line. */
    method Accept(r: Report, ghost accepted: seq<Report>)
      requires Shows(accepted) && Log(log, logFull) == LogAfter(accepted)
      modifies this`stage, this`lastStage, this`lastReady, this`tail, this`log, this`logFull
      ensures Shows(accepted + [r]) && Log(log, logFull) == Appended(LogAfter(accepted), r.entry)
    {
      Show(r, accepted);
      AppendLog(r);
    }

    /** The part of `reportLine` that updates what the terminal shows. */
    method Show(r: Report, ghost accepted: seq<Report>)
      requires Shows(accepted)
      modifies this`stage, this`lastStage, this`lastReady, this`tail
      ensures Shows(accepted + [r])
    {
      AcceptingAppends(accepted, r);
      LastRowsAppend(NonStageLines(accepted), r.line);
      if r.kind.Stage? {
        stage, lastStage := r.line, r.line;
      }
      if r.kind.Readiness? {
        lastReady := r.line;
      }
      if !r.kind.Stage? {
        tail := tail + [r.line];
        if |tail| > TAIL_ROWS {
          tail := tail[|tail| - TAIL_ROWS..];
        }
      }
    }

    /** `Report`: the lines of one event, one after the other. */
    method ReportAll(lines: seq<Report>)
      requires Valid()
      modifies this
      ensures Valid() && done == old(done) && failures == old(failures)
      ensures old(done) ==> tail == old(tail) && log == old(log) && stage == old(stage) && reports == old(reports)
      ensures !old(done) ==> reports == old(reports) + lines
    {
      for i := 0 to |lines|
        invariant Valid() && done == old(done) && failures == old(failures)
        invariant old(done) ==> tail == old(tail) && log == old(log) && stage == old(stage) && reports == old(reports)
        invariant !old(done) ==> reports == old(reports) + lines[..i]
      {
        ReportLine(lines[i]);
      }
      assert lines[..|lines|] == lines;
    }

    /** `finish`: failure lines are logged, not shown in the tail, and the session is closed. */
    method Finish(lines: seq<Report>)
      requires Valid()
      modifies this
      ensures Valid() && done && reports == old(reports) && failures == old(failures) + lines
      ensures tail == old(tail) && stage == old(stage)
    {
      LogFailures(lines, Logged(reports, failures));
      assert Logged(reports, failures) + lines == Logged(reports, failures + lines);
      failures := failures + lines;
      done := true;
    }

    method LogFailures(lines: seq<Report>, ghost logged: seq<Report>)
      requires Log(log, logFull) == LogAfter(logged)
      modifies this`log, this`logFull
      ensures Log(log, logFull) == LogAfter(logged + lines)
    {
      assert logged + lines[..0] == logged;
      for i := 0 to |lines|
        invariant Log(log, logFull) == LogAfter(logged + lines[..i])
      {
        LogAfterAppend(logged + lines[..i], lines[i]);
        AppendLog(lines[i]);
        assert logged + lines[..i] + [lines[i]] == logged + lines[..i + 1];
      }
      assert lines[..|lines|] == lines;
    }
  }

  lemma LastRowsAppend(lines: seq<Text>, x: Text)
    ensures LastRows(lines + [x]) == LastRows(LastRows(lines) + [x])
  {
    if |lines| > TAIL_ROWS {
      var cut := |lines| - TAIL_ROWS;
      assert (lines + [x])[cut..] == lines[cut..] + [x];
      assert (lines + [x])[cut + 1..] == (lines + [x])[cut..][1..];
    }
  }

  /** What one more accepted line does to the shown state. */
  lemma AcceptingAppends(accepted: seq<Report>, r: Report)
    ensures LastOf(Stage, accepted + [r]) == if r.kind.Stage? then r.line else LastOf(Stage, accepted)
    ensures LastOf(Readiness, accepted + [r]) == if r.kind.Readiness? then r.line else LastOf(Readiness, accepted)
    ensures NonStageLines(accepted + [r]) == if r.kind.Stage? then NonStageLines(accepted)
            else NonStageLines(accepted) + [r.line]
  {
    var grown := accepted + [r];
    assert Init(grown) == accepted && Last(grown) == r;
    if r.kind.Stage? {
      assert NonStageLines(accepted) + [] == NonStageLines(accepted);
    }
  }

  /** A whole session: reports, the end, and late reports, which leave no trace. */
  method RunSession(reports: seq<Report>, failures: seq<Report>, late: seq<Report>)
      returns (tail: seq<Text>, log: Text, stage: Text)
    ensures var lines := NonStageLines(AcceptedOf(reports));
            |tail| == (if |lines| < 6 then |lines| else 6) && tail == lines[|lines| - |tail|..]
    ensures log == LogOf(LogEntries(AcceptedOf(reports) + failures))
    ensures |log| <= 2 * 1024 * 1024
    ensures stage == LastOf(Stage, AcceptedOf(reports))
  {
    var session := new Session();
    session.ReportAll(reports);
    assert [] + reports == reports;
    session.Finish(failures);
    assert [] + failures == failures;
    session.ReportAll(late);
    tail, log, stage := session.tail, session.log, session.stage;
    LogAfterIsLogOf(AcceptedOf(reports) + failures);
    var n := LogOfIsBoundedPrefix(LogEntries(AcceptedOf(reports) + failures));
  }
}
