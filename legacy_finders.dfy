/** The two finder pieces only the legacy namespace has: the version number
    filter for user input, and the branch finder that asks no questions. */
module LegacyFinders {
  import opened Base
  import opened Sessions
  import C = Composer
  import RS = ReleaseSeries
  import V = Versions

  /** A request parameter: None when it is absent. */
  function IsEmptyParam(param: Option<string>): (r: bool)
    ensures r <==> param == None || param == Some("")
  {
    match param
    case None => true
    case Some(value) => value == ""
  }

  /** `VersionNumberFilter::apply`: no version for an empty parameter, the
      version for a valid number, and no version, instead of the
      constructor's exception, for an invalid one. */
  function FilterVersionNumber(param: Option<string>): (r: Option<V.Version>)
    ensures IsEmptyParam(param) ==> r == None
    ensures !IsEmptyParam(param) ==>
      (r.Some? <==> V.Parse(param.value).Success?)
      && (r.Some? ==> r.value == V.Parse(param.value).value && V.Valid(r.value))
  {
    if IsEmptyParam(param) then None
    else
      match V.Parse(param.value)
      case Success(v) => Some(v)
      case Failure(_) => None
  }

  /** The filter accepts exactly what the version constructor accepts, with
      or without one leading 'v', and never an empty text. */
  lemma FilterLeadingV(n: string)
    requires |n| > 0 && n[0] != 'v'
    ensures FilterVersionNumber(Some("v" + n)) == FilterVersionNumber(Some(n))
  {
    V.ParseLeadingV(n);
  }

  /** How a PHP array reads when it is concatenated into a message. */
  const ArrayText: string := "Array"

  /** `NextBranchVersionFinder::find` as written: the release query returns
      an array, never null, so the first-version branch is dead and the
      array itself reaches the Version constructor, which rejects it. */
  function NextBranchAsWritten(pkg: C.Package, repo: RepositoryView, c: Console): (r: (Outcome, Console))
    ensures !r.0.Found? && r.0 != Aborted
    ensures r.1.inputs == c.inputs && r.1.answers == c.answers
  {
    var c1 := Record(c, BranchQueried);
    match repo.branch
    case Failure(e) => (Failed(e), c1)
    case Success(b) =>
      match C.Series(pkg, "dev-" + BranchText(b))
      case Failure(e) => (Failed(e), c1)
      case Success(None) => (NotFound, c1)
      case Success(Some(s)) =>
        var c2 := Record(c1, ReleasesQueried(Some(s), 1));
        match repo.lastReleases(Some(s), 1)
        case Failure(e) => (Failed(e), c2)
        case Success(_) => (Failed(InvalidVersion(V.InvalidVersionMessage(ArrayText))), c2)
  }

  /** The evidently intended finder: no release gives the first version of
      the series, otherwise the version after the newest release. */
  function NextBranchCorrected(pkg: C.Package, repo: RepositoryView, c: Console): (r: (Outcome, Console))
    ensures r.0 != Aborted
    ensures r.1.inputs == c.inputs && r.1.answers == c.answers
  {
    var c1 := Record(c, BranchQueried);
    match repo.branch
    case Failure(e) => (Failed(e), c1)
    case Success(b) =>
      match C.Series(pkg, "dev-" + BranchText(b))
      case Failure(e) => (Failed(e), c1)
      case Success(None) => (NotFound, c1)
      case Success(Some(s)) =>
        var c2 := Record(c1, ReleasesQueried(Some(s), 1));
        match repo.lastReleases(Some(s), 1)
        case Failure(e) => (Failed(e), c2)
        case Success(rs) =>
          if |rs| == 0 then (Found(RS.FirstVersion(s)), c2)
          else
            match V.Parse(rs[0])
            case Failure(e) => (Failed(e), c2)
            case Success(last) =>
              match RS.NextVersion(s, last)
              case Failure(e) => (Failed(e), c2)
              case Success(v) => (Found(v), c2)
  }

  /** As written, a series with releases queried successfully never yields a
      version, not even when there is no release at all. The corrected
      finder then yields the first version of the series. */
  lemma NextBranchNeverFinds(pkg: C.Package, repo: RepositoryView, c: Console, b: Option<string>, s: RS.Series)
    requires repo.branch == Success(b)
    requires C.Series(pkg, "dev-" + BranchText(b)) == Success(Some(s))
    requires repo.lastReleases(Some(s), 1) == Success([])
    ensures NextBranchAsWritten(pkg, repo, c).0 == Failed(InvalidVersion(V.InvalidVersionMessage(ArrayText)))
    ensures NextBranchCorrected(pkg, repo, c).0 == Found(RS.FirstVersion(s))
    ensures NextBranchCorrected(pkg, repo, c).1.trace == c.trace + [BranchQueried, ReleasesQueried(Some(s), 1)]
  {
    assert c.trace + [BranchQueried] + [ReleasesQueried(Some(s), 1)] == c.trace + [BranchQueried, ReleasesQueried(Some(s), 1)];
  }

  /** Without a series neither finder queries releases or yields a version. */
  lemma NextBranchWithoutSeries(pkg: C.Package, repo: RepositoryView, c: Console, b: Option<string>)
    requires repo.branch == Success(b)
    requires C.Series(pkg, "dev-" + BranchText(b)) == Success(None)
    ensures NextBranchCorrected(pkg, repo, c) == (NotFound, Record(c, BranchQueried))
    ensures NextBranchAsWritten(pkg, repo, c) == (NotFound, Record(c, BranchQueried))
  {
  }

  /** With releases, the corrected finder yields the series' next version
      after the newest one, without console output or confirmation. */
  lemma NextBranchNext(pkg: C.Package, repo: RepositoryView, c: Console, b: Option<string>, s: RS.Series,
                       rs: seq<string>, last: V.Version)
    requires repo.branch == Success(b)
    requires C.Series(pkg, "dev-" + BranchText(b)) == Success(Some(s))
    requires repo.lastReleases(Some(s), 1) == Success(rs)
    requires |rs| > 0 && V.Parse(rs[0]) == Success(last)
    ensures RS.Valid(s) && V.Valid(last)
    ensures NextBranchCorrected(pkg, repo, c).0 ==
      match RS.NextVersion(s, last)
      case Success(v) => Found(v)
      case Failure(e) => Failed(e)
    ensures NextBranchCorrected(pkg, repo, c).1.trace == c.trace + [BranchQueried, ReleasesQueried(Some(s), 1)]
  {
    assert c.trace + [BranchQueried] + [ReleasesQueried(Some(s), 1)] == c.trace + [BranchQueried, ReleasesQueried(Some(s), 1)];
  }
}
