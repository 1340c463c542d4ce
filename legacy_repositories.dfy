/** The repository adapters of the legacy namespace. Each operation is
    written out as the legacy code has it and proved equal to its current
    counterpart where the two agree. They differ in having no branch query
    and in listing releases with a fixed command that neither filters by
    series nor trims the listing. */
module LegacyRepositories {
  import opened Base
  import opened Text
  import opened Repositories
  import RS = ReleaseSeries
  import V = Versions

  /** The legacy working copy keeps only the tags URL. */
  datatype LegacySvn = LegacySvn(exec: Executor, svnTagsUrl: string)

  /** The constructor with `parseCheckout`: the same scan of `svn info` as
      the current adapter, storing only the tags URL of the last URL line. */
  function OpenLegacySvn(exec: Executor): (r: Result<LegacySvn>)
    ensures r.Success? <==> OpenSvnSpec(exec).Success?
    ensures r.Success? ==> r.value == LegacySvn(exec, OpenSvnSpec(exec).value.svnTagsUrl)
    ensures r.Failure? ==> r.error == OpenSvnSpec(exec).error
  {
    match OpenSvnSpec(exec)
    case Failure(e) => Failure(e)
    case Success(svn) => Success(LegacySvn(exec, svn.svnTagsUrl))
  }

  /** The current adapter the legacy working copy corresponds to (its
      checkout URL is not kept by the legacy adapter). */
  function AsSvn(svn: LegacySvn): Svn
  {
    Svn(svn.exec, "", svn.svnTagsUrl)
  }

  /** `isDirty`: dirty exactly when `svn status` printed anything. */
  function LegacySvnIsDirty(svn: LegacySvn): (r: Result<bool>)
    ensures r == SvnIsDirty(AsSvn(svn))
  {
    match Execute(svn.exec, "svn status 2>&1 | tail -n1", "Failure while checking svn status")
    case Failure(e) => Failure(e)
    case Success(lines) => Success(|lines| != 0)
  }

  /** `getLastReleases`: the newest five "v" tags, exactly as listed. */
  function LegacySvnLastReleases(svn: LegacySvn): (r: Result<seq<string>>)
    ensures r.Success? <==> svn.exec(SvnListCommand(AsSvn(svn), None, 5)).Some?
    ensures r.Success? ==> r.value == svn.exec(SvnListCommand(AsSvn(svn), None, 5)).value
    ensures r.Failure? ==> r.error == RepositoryError("Failure while retrieving last releases")
  {
    SvnDefaultListCommand(AsSvn(svn));
    Execute(svn.exec, "svn list " + svn.svnTagsUrl + " | grep \"v\" | sort -r | head -5",
            "Failure while retrieving last releases")
  }

  /** `createRelease`: the same copy as the current adapter. */
  function LegacySvnCreateRelease(svn: LegacySvn, v: V.Version): (r: Result<seq<string>>)
    ensures r == SvnCreateRelease(AsSvn(svn), v)
  {
    Execute(svn.exec, SvnCopyCommand(svn.svnTagsUrl, v), "Failure while creating release")
  }

  /** Unlike the current adapter, the legacy one keeps a trailing '/' on
      every listed tag. */
  lemma LegacySvnKeepsSlash(svn: LegacySvn, tag: string)
    requires svn.exec(SvnListCommand(AsSvn(svn), None, 5)) == Some([tag + "/"])
    ensures LegacySvnLastReleases(svn) == Success([tag + "/"])
    ensures SvnLastReleases(AsSvn(svn), None, 5).Success?
    ensures SvnLastReleases(AsSvn(svn), None, 5).value[0] != tag + "/"
  {
    var r := SvnLastReleases(AsSvn(svn), None, 5).value;
    assert |r| == 1;
    var t := tag + "/";
    assert StartsWith(t, r[0]) && (r[0] == [] || r[0][|r[0]| - 1] != '/');
  }

  /** `isDirty` of the legacy git adapter is that of the current one. */
  function LegacyGitIsDirty(exec: Executor): (r: Result<bool>)
    ensures r == GitIsDirty(exec)
  {
    match Execute(exec, "git status 2> /dev/null | tail -n1", "Failure while checking git status")
    case Failure(e) => Failure(e)
    case Success(out) =>
      if |out| == 0 then Failure(RepositoryError("Current directory is not a git repository"))
      else Success(!Contains(out[0], "nothing to commit") || !Contains(out[0], "working directory clean"))
  }

  /** `getLastReleases`: a fixed listing of the newest five "v" tags. */
  function LegacyGitLastReleases(exec: Executor): (r: Result<seq<string>>)
    ensures r == GitLastReleases(exec, None, 5)
  {
    GitDefaultTagCommand();
    Execute(exec, "git tag -l | grep \"v\" | sort -r | head -5", "Failure while retrieving last releases")
  }

  /** `createRelease` of the legacy git adapter is that of the current one. */
  function LegacyGitCreateRelease(exec: Executor, v: V.Version): (r: Result<seq<string>>)
    ensures r == GitCreateRelease(exec, v)
  {
    Execute(exec, "git tag -a " + V.ToString(v) + " -m \"tag release " + V.ToString(v) + "\" && git push --tags",
            "Failure while creating release")
  }

  /** The legacy stub: always dirty, no releases, no release possible. */
  function LegacyNoRepositoryIsDirty(): (r: bool)
    ensures r == NoRepositoryIsDirty()
  {
    true
  }

  function LegacyNoRepositoryStatus(): (r: seq<string>)
    ensures r == NoRepositoryStatus()
  {
    [UnknownRepositoryStatus]
  }

  function LegacyNoRepositoryLastReleases(series: Option<RS.Series>, amount: int): (r: seq<string>)
    ensures r == NoRepositoryLastReleases(series, amount)
  {
    []
  }

  function LegacyNoRepositoryCreateRelease(v: V.Version): (r: Result<seq<string>>)
    ensures r == NoRepositoryCreateRelease(v)
  {
    Failure(RepositoryError(CannotReleaseMessage))
  }
}
