/** Publishing tagged releases (`scripts/publish-release`).

    Runs are serialised. Every remote call may fail; a failed upload may leave the draft behind. */
module ReleasePublisher {
  import opened Options
  import opened Decimal
  import opened Splitting

  datatype Version = Version(major: nat, minor: nat, patch: nat)

  function RenderNumbers(v: Version): string { Show(v.major) + ['.'] + (Show(v.minor) + ['.'] + Show(v.patch)) }

  function Render(v: Version): string { ['v'] + RenderNumbers(v) }

  /** `STABLE_VERSION.fullmatch` with its three groups as numbers. */
  function Match(text: string): Option<Version> {
    if text == [] || text[0] != 'v' then None else MatchNumbers(text[1..])
  }

  function MatchNumbers(text: string): Option<Version> {
    var parts := Split(text, '.');
    if |parts| == 3 && Decimal.Canonical(parts[0]) && Decimal.Canonical(parts[1]) && Decimal.Canonical(parts[2])
    then Some(Version(Value(parts[0]), Value(parts[1]), Value(parts[2])))
    else None
  }

  /** Tuple comparison. */
  predicate Less(a: Version, b: Version) {
    a.major < b.major || (a.major == b.major && (a.minor < b.minor || (a.minor == b.minor && a.patch < b.patch)))
  }

  /** `a` comes after `b`: the first of major, minor and patch in which they differ is greater. */
  ghost predicate Newer(a: Version, b: Version) {
    || a.major > b.major
    || (a.major == b.major && a.minor > b.minor)
    || (a.major == b.major && a.minor == b.minor && a.patch > b.patch)
  }

  lemma SplitNumber(n: nat)
    ensures Split(Show(n), '.') == [Show(n)]
  {
    SplitSuffix([], Show(n), '.');
    assert [] + Show(n) == Show(n);
  }

  /** Every version has its tag. */
  lemma MatchRender(v: Version)
    ensures Match(Render(v)) == Some(v)
  {
    var a, b, c := Show(v.major), Show(v.minor), Show(v.patch);
    SplitNumber(v.major);
    SplitNumber(v.minor);
    SplitNumber(v.patch);
    SplitSeparator(b, c, '.');
    SplitSeparator(a, b + ['.'] + c, '.');
    assert Render(v)[1..] == a + ['.'] + (b + ['.'] + c);
    assert Split(Render(v)[1..], '.') == [a, b, c];
    ShowValue(v.major);
    ShowValue(v.minor);
    ShowValue(v.patch);
  }

  /** And every accepted tag is the one tag of its version, so distinct tags never tie. */
  lemma RenderMatch(text: string)
    requires Match(text).Some?
    ensures Render(Match(text).value) == text
  {
    var numbers := text[1..];
    RenderMatchNumbers(numbers);
    assert text == ['v'] + numbers;
  }

  lemma RenderMatchNumbers(text: string)
    requires MatchNumbers(text).Some?
    ensures RenderNumbers(MatchNumbers(text).value) == text
  {
    var parts := Split(text, '.');
    ThreeParts(text);
    RenderValues(parts[0], parts[1], parts[2]);
  }

  lemma RenderValues(a: string, b: string, c: string)
    requires Decimal.Canonical(a) && Decimal.Canonical(b) && Decimal.Canonical(c)
    ensures RenderNumbers(Version(Value(a), Value(b), Value(c))) == a + ['.'] + (b + ['.'] + c)
  {
    ValueShow(a);
    ValueShow(b);
    ValueShow(c);
  }

  lemma ThreeParts(text: string)
    requires |Split(text, '.')| == 3
    ensures var parts := Split(text, '.'); text == parts[0] + ['.'] + (parts[1] + ['.'] + parts[2])
  {
    var parts := Split(text, '.');
    JoinSplit(text, '.');
    JoinThree(parts[0], parts[1], parts[2]);
    assert parts == [parts[0], parts[1], parts[2]];
  }

  lemma JoinThree(a: string, b: string, c: string)
    ensures Join([a, b, c], '.') == a + ['.'] + (b + ['.'] + c)
  {
    assert Init([a, b, c]) == [a, b] && Init([a, b]) == [a];
    assert Join([a, b], '.') == a + ['.'] + b;
    assert a + ['.'] + b + ['.'] + c == a + ['.'] + (b + ['.'] + c);
  }

  lemma DistinctTagsNeverTie(a: string, b: string)
    requires Match(a).Some? && Match(b).Some? && a != b
    ensures Newer(Match(a).value, Match(b).value) <==> !Newer(Match(b).value, Match(a).value)
  {
    RenderMatch(a);
    RenderMatch(b);
  }

  /** What a tag reference leads to: tag objects are followed to their target. */
  datatype GitObject = Commit(sha: string) | Tag(target: GitObject) | Blob

  function Peel(o: GitObject): GitObject { if o.Tag? then Peel(o.target) else o }

  method VerifyTag(reference: GitObject, commit: string) returns (ok: bool)
    ensures ok <==> Peel(reference) == Commit(commit)
  {
    var target := reference;
    while target.Tag?
      invariant Peel(target) == Peel(reference)
      decreases target
    {
      target := target.target;
    }
    ok := target.Commit? && target.sha == commit;
  }

  datatype Release = Release(tag: string, draft: bool, prerelease: bool)

  predicate Stable(r: Release) { !r.draft && !r.prerelease && Match(r.tag).Some? }

  ghost predicate AboveAll(v: Version, releases: seq<Release>) {
    forall i :: 0 <= i < |releases| && Stable(releases[i]) ==> Newer(v, Match(releases[i].tag).value)
  }

  /** Once a stable version is published, `latest` names the greatest one. */
  ghost predicate LatestIsGreatest(releases: seq<Release>, latest: Option<string>) {
    forall i :: 0 <= i < |releases| && Stable(releases[i]) ==>
      && latest.Some? && Published(releases, latest.value) && Match(latest.value).Some?
      && !Newer(Match(releases[i].tag).value, Match(latest.value).value)
  }

  ghost predicate Published(releases: seq<Release>, tag: string) {
    exists i :: 0 <= i < |releases| && releases[i].tag == tag && Stable(releases[i])
  }

  ghost predicate PublishedKept(before: seq<Release>, after: seq<Release>) {
    forall r :: r in before && !r.draft ==> r in after
  }

  /** `latest`, once it names a published stable version, never moves to a smaller one. */
  ghost predicate NeverBackwards(releases: seq<Release>, before: Option<string>, after: Option<string>) {
    before.Some? && Published(releases, before.value) ==>
      after.Some? && Match(after.value).Some? && !Newer(Match(before.value).value, Match(after.value).value)
  }

  /** Raising the latest version in its major number, or in its minor one, or in its patch,
      makes the next latest one. */
  lemma RaisedVersionIsLatest(releases: seq<Release>, latest: string, v: Version)
    requires LatestIsGreatest(releases, Some(latest)) && Match(latest).Some?
    requires var was := Match(latest).value;
             || v.major > was.major
             || (v.major == was.major && v.minor > was.minor)
             || (v.major == was.major && v.minor == was.minor && v.patch > was.patch)
    ensures AboveAll(v, releases)
  {
  }

  datatype Outcome = PublishedNow(latest: bool) | AlreadyPublished | Failed

  /** One run's inputs: the version, the claimed and the checked-out commit, what the remote tag
      leads to before the upload and before the release is made public, and whether the asset
      inventory and its checksums are in order. */
  datatype Attempt = Attempt(version: string, commit: string, head: string, tagFirst: GitObject, tagAgain: GitObject,
      assets: bool)

  /** What must hold before the run looks at the releases. */
  ghost predicate Verified(a: Attempt) {
    Match(a.version).Some? && a.commit == a.head && Peel(a.tagFirst) == Commit(a.commit)
  }

  ghost predicate Fresh(releases: seq<Release>, tag: string) {
    forall i :: 0 <= i < |releases| ==> releases[i].tag != tag
  }

  datatype Operation = Publish(attempt: Attempt) | DeleteDraft(tag: string)

  class Repository {
    var releases: seq<Release>
    var latest: Option<string>
    ghost var faults: nat  // remote calls that failed of themselves

    ghost predicate Valid()
      reads this
    {
      LatestIsGreatest(releases, latest)
    }

    constructor ()
      ensures Valid() && releases == [] && latest == None && faults == 0
    {
      releases, latest, faults := [], None, 0;
    }

    /** The loop that decides whether the new release becomes the latest. */
    method BecomesLatest(current: Version) returns (becomes: bool)
      ensures becomes <==> AboveAll(current, releases)
    {
      becomes := true;
      for i := 0 to |releases|
        invariant becomes <==> AboveAll(current, releases[..i])
      {
        assert releases[..i + 1] == releases[..i] + [releases[i]];
        var previous := Match(releases[i].tag);
        if previous.Some? && !releases[i].draft && !releases[i].prerelease {
          becomes := becomes && Less(previous.value, current);
        }
      }
      assert releases[..|releases|] == releases;
    }

    /** The loop that looks for a release of this very version. */
    method FindExisting(version: string) returns (existing: Option<Release>)
      ensures existing.None? <==> Fresh(releases, version)
      ensures existing.Some? ==> existing.value in releases && existing.value.tag == version
    {
      for i := 0 to |releases|
        invariant forall j :: 0 <= j < i ==> releases[j].tag != version
      {
        if releases[i].tag == version {
          return Some(releases[i]);
        }
      }
      existing := None;
    }

    /** One publication run. */
    method Run(a: Attempt) returns (outcome: Outcome)
      requires Valid()
      modifies this
      ensures Valid() && PublishedKept(old(releases), releases) && NeverBackwards(old(releases), old(latest), latest)
      ensures outcome.PublishedNow? ==>
                && Verified(a) && Fresh(old(releases), a.version) && a.assets && Peel(a.tagAgain) == Commit(a.commit)
                && releases == old(releases) + [Release(a.version, false, false)]
                && (outcome.latest <==> AboveAll(Match(a.version).value, old(releases)))
                && latest == if outcome.latest then Some(a.version) else old(latest)
      ensures outcome.AlreadyPublished? ==>
                && releases == old(releases) && latest == old(latest)
                && exists r :: r in releases && r.tag == a.version && !r.draft
      ensures outcome.Failed? ==>
                && latest == old(latest)
                && (releases == old(releases) || releases == old(releases) + [Release(a.version, true, false)])
      ensures old(faults) <= faults
      ensures faults == old(faults) ==>
                (outcome.PublishedNow? <==> Verified(a) && Fresh(old(releases), a.version) && a.assets
                                            && Peel(a.tagAgain) == Commit(a.commit))
    {
      var matched := Match(a.version);
      if matched.None? || a.commit != a.head {
        return Failed;
      }
      var reachable: bool := *;
      if !reachable { faults := faults + 1; }
      var verified := VerifyTag(a.tagFirst, a.commit);
      if !reachable || !verified {
        return Failed;
      }
      var existing := FindExisting(a.version);
      if existing.Some? {
        return if existing.value.draft then Failed else AlreadyPublished;
      }
      var becomes := BecomesLatest(matched.value);
      if !a.assets {
        return Failed;
      }
      outcome := Upload(a, becomes);
    }

    /** Create the draft with all assets, look at the tag once more, and make it public. */
    method Upload(a: Attempt, becomes: bool) returns (outcome: Outcome)
      requires Valid() && Match(a.version).Some? && Fresh(releases, a.version)
      requires becomes <==> AboveAll(Match(a.version).value, releases)
      modifies this
      ensures Valid() && PublishedKept(old(releases), releases) && NeverBackwards(old(releases), old(latest), latest)
      ensures outcome.PublishedNow? ==>
                && outcome.latest == becomes && Peel(a.tagAgain) == Commit(a.commit)
                && releases == old(releases) + [Release(a.version, false, false)]
                && latest == if becomes then Some(a.version) else old(latest)
      ensures outcome.Failed? ==>
                && latest == old(latest)
                && (releases == old(releases) || releases == old(releases) + [Release(a.version, true, false)])
      ensures !outcome.AlreadyPublished?
      ensures old(faults) <= faults
              && (faults == old(faults) ==> (outcome.PublishedNow? <==> Peel(a.tagAgain) == Commit(a.commit)))
    {
      var draftLeft: bool, uploaded: bool := *, *;
      if !uploaded { faults := faults + 1; }
      if !uploaded && !draftLeft {
        return Failed;
      }
      ghost var before := releases;
      releases := releases + [Release(a.version, true, false)];
      DraftKeepsLatest(before, latest, a.version);
      var verified := VerifyTag(a.tagAgain, a.commit);
      var edited: bool := *;
      if !edited { faults := faults + 1; }
      if !uploaded || !verified || !edited {
        return Failed;
      }
      releases := releases[|releases| - 1 := Release(a.version, false, false)];
      assert releases == before + [Release(a.version, false, false)];
      PublishKeepsLatest(before, latest, a.version, becomes);
      if becomes {
        latest := Some(a.version);
      }
      outcome := PublishedNow(becomes);
    }

    /** An operator removes an incomplete draft. */
    method Discard(tag: string)
      requires Valid()
      modifies this
      ensures Valid() && latest == old(latest)
      ensures forall r :: r in releases <==> r in old(releases) && !(r.draft && r.tag == tag)
    {
      var kept: seq<Release> := [];
      for i := 0 to |releases|
        invariant forall r :: r in kept <==> r in releases[..i] && !(r.draft && r.tag == tag)
      {
        assert releases[..i + 1] == releases[..i] + [releases[i]];
        if !(releases[i].draft && releases[i].tag == tag) {
          kept := kept + [releases[i]];
        }
      }
      assert releases[..|releases|] == releases;
      SameStableKeepsLatest(releases, kept, latest);
      releases := kept;
    }

    /** Any sequence of runs and discards, failing anywhere. */
    method RunAll(operations: seq<Operation>)
      requires Valid()
      modifies this
      ensures Valid() && PublishedKept(old(releases), releases) && NeverBackwards(old(releases), old(latest), latest)
    {
      for i := 0 to |operations|
        invariant Valid() && PublishedKept(old(releases), releases)
                  && NeverBackwards(old(releases), old(latest), latest)
      {
        if old(latest).Some?
            && Published(old(releases),
                old(latest).value) { PublishedStays(old(releases), releases, old(latest).value); }
        match operations[i] {
          case Publish(attempt) => var outcome := Run(attempt);
          case DeleteDraft(tag) => Discard(tag);
        }
      }
    }
  }

  lemma PublishedStays(before: seq<Release>, after: seq<Release>, tag: string)
    requires PublishedKept(before, after) && Published(before, tag)
    ensures Published(after, tag)
  {
    var i :| 0 <= i < |before| && before[i].tag == tag && Stable(before[i]);
    assert before[i] in after;
  }

  lemma SameStableKeepsLatest(before: seq<Release>, after: seq<Release>, latest: Option<string>)
    requires LatestIsGreatest(before, latest)
    requires forall r :: Stable(r) ==> (r in before <==> r in after)
    ensures LatestIsGreatest(after, latest)
  {
    forall i | 0 <= i < |after| && Stable(after[i])
      ensures latest.Some? && Published(after, latest.value) && Match(latest.value).Some?
              && !Newer(Match(after[i].tag).value, Match(latest.value).value)
    {
      assert after[i] in before;
      var j :| 0 <= j < |before| && before[j] == after[i];
      var k :| 0 <= k < |before| && before[k].tag == latest.value && Stable(before[k]);
      assert before[k] in after;
    }
  }

  lemma DraftKeepsLatest(before: seq<Release>, latest: Option<string>, tag: string)
    requires LatestIsGreatest(before, latest)
    ensures LatestIsGreatest(before + [Release(tag, true, false)], latest)
  {
    SameStableKeepsLatest(before, before + [Release(tag, true, false)], latest);
  }

  lemma GreatestBecomesLatest(before: seq<Release>, latest: Option<string>, tag: string)
    requires Match(tag).Some? && AboveAll(Match(tag).value, before)
    ensures LatestIsGreatest(before + [Release(tag, false, false)], Some(tag))
            && NeverBackwards(before, latest, Some(tag))
  {
    var after := before + [Release(tag, false, false)];
    assert after[|before|].tag == tag && Stable(after[|before|]);
  }

  lemma SmallerLeavesLatest(before: seq<Release>, latest: Option<string>, tag: string)
    requires LatestIsGreatest(before, latest) && Match(tag).Some? && Fresh(before, tag)
             && !AboveAll(Match(tag).value, before)
    ensures LatestIsGreatest(before + [Release(tag, false, false)], latest)
  {
    var after := before + [Release(tag, false, false)];
    var i :| 0 <= i < |before| && Stable(before[i]) && !Newer(Match(tag).value, Match(before[i].tag).value);
    DistinctTagsNeverTie(before[i].tag, tag);
    var k :| 0 <= k < |before| && before[k].tag == latest.value && Stable(before[k]);
    assert after[k] == before[k];
  }

  /** The decision is right: the new version becomes latest exactly when it is the greatest. */
  lemma PublishKeepsLatest(before: seq<Release>, latest: Option<string>, tag: string, becomes: bool)
    requires LatestIsGreatest(before, latest) && Match(tag).Some? && Fresh(before, tag)
    requires becomes <==> AboveAll(Match(tag).value, before)
    ensures LatestIsGreatest(before + [Release(tag, false, false)], if becomes then Some(tag) else latest)
    ensures NeverBackwards(before, latest, if becomes then Some(tag) else latest)
  {
    if becomes {
      GreatestBecomesLatest(before, latest, tag);
    } else {
      SmallerLeavesLatest(before, latest, tag);
    }
  }
}
