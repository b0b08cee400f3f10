/** The updater's release channel and the release it selects. */
module ReleaseChannel {
  import opened Common

  /** A stable version. The accepted text has no leading zeros, so that text and triple
      determine each other. */
  datatype Version = Version(major: nat, minor: nat, patch: nat)

  /** Precedence of stable versions (section 11 of Semantic Versioning 2.0.0). */
  predicate Newer(a: Version, b: Version) {
    || a.major > b.major
    || (a.major == b.major && a.minor > b.minor)
    || (a.major == b.major && a.minor == b.minor && a.patch > b.patch)
  }

  /** A version as one number, when no minor or patch number reaches the base. */
  function Rank(v: Version, base: nat): nat {
    (v.major * base + v.minor) * base + v.patch
  }

  lemma DigitsDecide(a: nat, b: nat, c: nat, d: nat, base: nat)
    requires b < base && d < base
    ensures a * base + b > c * base + d <==> a > c || (a == c && b > d)
    ensures a * base + b == c * base + d <==> a == c && b == d
  {
    if a > c {
      assert a * base >= (c + 1) * base == c * base + base;
    } else if a < c {
      assert c * base >= (a + 1) * base == a * base + base;
    }
  }

  /** Newer versions are those with the greater number: major counts before minor, and
      minor before patch. Two different versions are always ordered, one way. */
  lemma NewerIsNumeric(a: Version, b: Version, base: nat)
    requires a.minor < base && a.patch < base && b.minor < base && b.patch < base
    ensures Newer(a, b) <==> Rank(a, base) > Rank(b, base)
    ensures a != b <==> Newer(a, b) || Newer(b, a)
    ensures !(Newer(a, b) && Newer(b, a))
  {
    DigitsDecide(a.major, a.minor, b.major, b.minor, base);
    DigitsDecide(a.major * base + a.minor, a.patch, b.major * base + b.minor, b.patch, base);
  }

  predicate AtLeast(a: Version, b: Version) {
    a == b || Newer(a, b)
  }

  /** A well-formed release entry; its tag and URL follow from the version. */
  datatype Release = Release(version: Version, date: string, commit: string, manifestSha256: string)

  datatype Latest = NoLatest | LatestIs(release: Release) | LatestOther

  /** The JSON document: an entry is `None` if `validate_release_entry` refuses it. */
  datatype Channel = Channel(schemaKnown: bool, stable: bool, repositoryCanonical: bool, latest: Latest,
                             entries: seq<Option<Release>>)

  const MAX_RELEASES: nat := 64

  predicate NewestFirst(releases: seq<Release>) {
    forall i, j :: 0 <= i < j < |releases| ==> Newer(releases[i].version, releases[j].version)
  }

  predicate DistinctCommits(releases: seq<Release>) {
    forall i, j :: 0 <= i < j < |releases| ==> releases[i].commit != releases[j].commit
  }

  predicate AllWellFormed(entries: seq<Option<Release>>) {
    forall i :: 0 <= i < |entries| ==> entries[i].Some?
  }

  function Releases(entries: seq<Option<Release>>): (releases: seq<Release>)
    requires AllWellFormed(entries)
    ensures |releases| == |entries| && forall i :: 0 <= i < |releases| ==> releases[i] == entries[i].value
  {
    seq(|entries|, i requires 0 <= i < |entries| => entries[i].value)
  }

  /** What a channel must satisfy. */
  predicate Acceptable(channel: Channel) {
    && channel.schemaKnown && channel.stable && channel.repositoryCanonical
    && |channel.entries| <= 64 && AllWellFormed(channel.entries)
    && var releases := Releases(channel.entries);
    && NewestFirst(releases) && DistinctCommits(releases)
    && channel.latest == if releases == [] then NoLatest else LatestIs(releases[0])
  }

  lemma NewerIsTransitive(a: Version, b: Version, c: Version)
    requires Newer(a, b) && Newer(b, c)
    ensures Newer(a, c)
  {
  }

  /** `validate_channel`: one pass that compares each release with the previous one. */
  method ValidateChannel(channel: Channel) returns (r: Option<seq<Release>>)
    ensures r.Some? <==> Acceptable(channel)
    ensures r.Some? ==> r.value == Releases(channel.entries)
  {
    if !channel.schemaKnown || !channel.stable || !channel.repositoryCanonical {
      return None;
    }
    if |channel.entries| > MAX_RELEASES || !AllWellFormed(channel.entries) {
      return None;
    }
    var releases := Releases(channel.entries);
    var versions: set<Version>, commits: set<string> := {}, {};
    var previous: Option<Version> := None;
    for i := 0 to |releases|
      invariant versions == set k | 0 <= k < i :: releases[k].version
      invariant commits == set k | 0 <= k < i :: releases[k].commit
      invariant previous == if i == 0 then None else Some(releases[i - 1].version)
      invariant NewestFirst(releases[..i]) && DistinctCommits(releases[..i])
      invariant i > 0 ==> channel.latest == LatestIs(releases[0])
    {
      var entry := releases[i];
      if entry.version in versions || entry.commit in commits {
        Repeated(releases, i);
        return None;
      }
      if previous.Some? && !Newer(previous.value, entry.version) {
        return None;
      }
      OneMore(releases, i);
      versions := versions + {entry.version};
      commits := commits + {entry.commit};
      previous := Some(entry.version);
      if i == 0 && channel.latest != LatestIs(entry) {
        return None;
      }
    }
    assert releases[..|releases|] == releases;
    if releases == [] && channel.latest != NoLatest {
      return None;
    }
    return Some(releases);
  }

  lemma OneMore(releases: seq<Release>, i: nat)
    requires i < |releases| && NewestFirst(releases[..i]) && DistinctCommits(releases[..i])
    requires i > 0 ==> Newer(releases[i - 1].version, releases[i].version)
    requires forall k :: 0 <= k < i ==> releases[k].commit != releases[i].commit
    ensures NewestFirst(releases[..i + 1]) && DistinctCommits(releases[..i + 1])
  {
    forall k | 0 <= k < i
      ensures Newer(releases[k].version, releases[i].version)
    {
      if k < i - 1 {
        assert Newer(releases[..i][k].version, releases[..i][i - 1].version);
        NewerIsTransitive(releases[k].version, releases[i - 1].version, releases[i].version);
      }
    }
  }

  lemma Repeated(releases: seq<Release>, i: nat)
    requires i < |releases|
    requires || (exists k :: 0 <= k < i && releases[k].version == releases[i].version)
             || (exists k :: 0 <= k < i && releases[k].commit == releases[i].commit)
    ensures !(NewestFirst(releases) && DistinctCommits(releases))
  {
  }

  /* Planning. */

  datatype Status = NoRelease | UpToDate | MajorAvailable | UpdateAvailable

  datatype Plan = Refused | Planned(status: Status, selected: Option<Release>)

  predicate Allowed(version: Version, current: Version, allowMajor: bool) {
    Newer(version, current) && (allowMajor || version.major == current.major)
  }

  /** The releases newer than the current version, and the eligible ones among them. */
  function NewerReleases(releases: seq<Release>, current: Version): seq<Release> {
    if releases == [] then []
    else (if Newer(releases[0].version, current) then [releases[0]] else []) + NewerReleases(releases[1..], current)
  }

  function Eligible(newer: seq<Release>, current: Version, allowMajor: bool): seq<Release> {
    if newer == [] then []
    else
      (if allowMajor || newer[0].version.major == current.major then [newer[0]] else []) +
      Eligible(newer[1..], current, allowMajor)
  }

  function WithVersion(releases: seq<Release>, version: Version): Option<Release> {
    if releases == [] then None
    else if releases[0].version == version then Some(releases[0])
    else WithVersion(releases[1..], version)
  }

  /** `command_channel_plan`, on the releases of a validated channel. */
  function PlanFor(releases: seq<Release>, current: Version, target: Option<Version>, allowMajor: bool): Plan {
    if target.Some? then
      match WithVersion(releases, target.value)
      case None => Refused
      case Some(selected) =>
        if !Newer(target.value, current) then Refused
        else if target.value.major != current.major && !allowMajor then Refused
        else Planned(UpdateAvailable, Some(selected))
    else if releases == [] then Planned(NoRelease, None)
    else
      var newer := NewerReleases(releases, current);
      var eligible := Eligible(newer, current, allowMajor);
      if eligible != [] then Planned(UpdateAvailable, Some(eligible[0]))
      else if newer != [] then Planned(MajorAvailable, None)
      else Planned(UpToDate, None)
  }

  lemma {:induction false} NewerElements(releases: seq<Release>, current: Version, r: Release)
    ensures r in NewerReleases(releases, current) <==> r in releases && Newer(r.version, current)
  {
    if releases != [] {
      NewerElements(releases[1..], current, r);
      assert releases == [releases[0]] + releases[1..];
    }
  }

  lemma {:induction false} EligibleElements(newer: seq<Release>, current: Version, allowMajor: bool, r: Release)
    ensures r in Eligible(newer, current, allowMajor) <==>
            r in newer && (allowMajor || r.version.major == current.major)
  {
    if newer != [] {
      EligibleElements(newer[1..], current, allowMajor, r);
      assert newer == [newer[0]] + newer[1..];
    }
  }

  lemma {:induction false} NewerStaysSorted(releases: seq<Release>, current: Version)
    requires NewestFirst(releases)
    ensures NewestFirst(NewerReleases(releases, current))
  {
    if releases != [] {
      var rest := NewerReleases(releases[1..], current);
      NewerStaysSorted(releases[1..], current);
      forall j | 0 <= j < |rest|
        ensures Newer(releases[0].version, rest[j].version)
      {
        NewerElements(releases[1..], current, rest[j]);
        var k :| 0 <= k < |releases[1..]| && releases[1..][k] == rest[j];
        assert releases[k + 1] == rest[j];
      }
    }
  }

  lemma {:induction false} EligibleStaysSorted(newer: seq<Release>, current: Version, allowMajor: bool)
    requires NewestFirst(newer)
    ensures NewestFirst(Eligible(newer, current, allowMajor))
  {
    if newer != [] {
      var rest := Eligible(newer[1..], current, allowMajor);
      EligibleStaysSorted(newer[1..], current, allowMajor);
      forall j | 0 <= j < |rest|
        ensures Newer(newer[0].version, rest[j].version)
      {
        EligibleElements(newer[1..], current, allowMajor, rest[j]);
        var k :| 0 <= k < |newer[1..]| && newer[1..][k] == rest[j];
        assert newer[k + 1] == rest[j];
      }
    }
  }

  predicate Candidate(r: Release, releases: seq<Release>, current: Version, allowMajor: bool) {
    r in releases && Allowed(r.version, current, allowMajor)
  }

  lemma Candidates(releases: seq<Release>, current: Version, allowMajor: bool, r: Release)
    ensures r in Eligible(NewerReleases(releases, current), current, allowMajor) <==>
            Candidate(r, releases, current, allowMajor)
  {
    NewerElements(releases, current, r);
    EligibleElements(NewerReleases(releases, current), current, allowMajor, r);
  }

  /** Without a target, the plan selects the greatest allowed release, if there is one. */
  lemma AutomaticSelection(releases: seq<Release>, current: Version, allowMajor: bool, r: Release)
    requires NewestFirst(releases)
    ensures var plan := PlanFor(releases, current, None, allowMajor);
            && plan.Planned?
            && (plan.selected.Some? ==> Candidate(plan.selected.value, releases, current, allowMajor))
            && (Candidate(r, releases, current, allowMajor) ==>
                  plan.selected.Some? && AtLeast(plan.selected.value.version, r.version))
  {
    var newer := NewerReleases(releases, current);
    var eligible := Eligible(newer, current, allowMajor);
    NewerStaysSorted(releases, current);
    EligibleStaysSorted(newer, current, allowMajor);
    Candidates(releases, current, allowMajor, r);
    if eligible != [] {
      Candidates(releases, current, allowMajor, eligible[0]);
    }
  }

  /** And its status says why nothing was selected: there is no release at all, none is
      newer, or all that are newer have another major version. */
  lemma AutomaticStatus(releases: seq<Release>, current: Version, allowMajor: bool)
    requires NewestFirst(releases)
    ensures var plan := PlanFor(releases, current, None, allowMajor);
            && plan.Planned?
            && (plan.status == UpdateAvailable <==> plan.selected.Some?)
            && (plan.status == NoRelease <==> releases == [])
            && (plan.status == UpToDate <==> releases != [] && forall r :: r in releases ==> !Newer(r.version, current))
            && (plan.status == MajorAvailable ==>
                  !allowMajor && forall r :: r in releases && Newer(r.version, current) ==> r.version.major > current.major)
  {
    var newer := NewerReleases(releases, current);
    var eligible := Eligible(newer, current, allowMajor);
    if newer != [] {
      NewerElements(releases, current, newer[0]);
      EligibleElements(newer, current, allowMajor, newer[0]);
    }
    if eligible != [] {
      Candidates(releases, current, allowMajor, eligible[0]);
    }
    forall r | r in releases && Newer(r.version, current)
      ensures r in newer && (eligible == [] ==> !allowMajor && r.version.major > current.major)
    {
      NewerElements(releases, current, r);
      Candidates(releases, current, allowMajor, r);
    }
  }

  lemma {:induction false} WithVersionFinds(releases: seq<Release>, version: Version)
    ensures var found := WithVersion(releases, version);
            && (found.Some? ==> found.value in releases && found.value.version == version)
            && (found.None? ==> forall r :: r in releases ==> r.version != version)
  {
    if releases != [] {
      WithVersionFinds(releases[1..], version);
      assert releases == [releases[0]] + releases[1..];
    }
  }

  /** With a target, the plan selects the one release of that version, exactly if the
      channel has it and it is allowed. */
  lemma TargetedPlan(releases: seq<Release>, current: Version, target: Version, allowMajor: bool)
    requires NewestFirst(releases)
    ensures var plan := PlanFor(releases, current, Some(target), allowMajor);
            && (plan.Planned? <==> exists r :: Candidate(r, releases, current, allowMajor) && r.version == target)
            && (plan.Planned? ==>
                  && plan.status == UpdateAvailable && plan.selected.Some?
                  && forall r :: r in releases && r.version == target ==> r == plan.selected.value)
  {
    WithVersionFinds(releases, target);
    var found := WithVersion(releases, target);
    if found.Some? && Allowed(target, current, allowMajor) {
      assert Candidate(found.value, releases, current, allowMajor);
    }
  }

  lemma NewerOnly(releases: seq<Release>, current: Version, allowMajor: bool)
    requires NewestFirst(releases)
    ensures var plan := PlanFor(releases, current, None, allowMajor);
            plan.Planned? && plan.selected.Some? ==> Candidate(plan.selected.value, releases, current, allowMajor)
  {
    var eligible := Eligible(NewerReleases(releases, current), current, allowMajor);
    if eligible != [] {
      Candidates(releases, current, allowMajor, eligible[0]);
    }
  }

  /** No plan goes back, stays, or crosses a major version unasked. */
  lemma PlansGoForward(releases: seq<Release>, current: Version, target: Option<Version>, allowMajor: bool)
    requires NewestFirst(releases)
    ensures var plan := PlanFor(releases, current, target, allowMajor);
            plan.Planned? && plan.selected.Some? ==> Candidate(plan.selected.value, releases, current, allowMajor)
  {
    if target.Some? {
      WithVersionFinds(releases, target.value);
    } else {
      NewerOnly(releases, current, allowMajor);
    }
  }
}
