/** The repository adapters, reduced to how they read command output and
    which commands they build. The process executor is an oracle: a command
    string either yields its output lines or fails (the executor's
    RuntimeException). Each adapter also gives the view of the repository
    that the version finders use. */
module Repositories {
  import opened Base
  import opened Digits
  import opened Text
  import opened Sessions
  import RS = ReleaseSeries
  import V = Versions

  /** The command runner: the output lines of a command, None when it fails. */
  type Executor = string -> Option<seq<string>>

  /** `execute`: the lines the command printed, or a RepositoryError that
      carries the operation's message when the executor fails. */
  function Execute(exec: Executor, command: string, errorMessage: string): (r: Result<seq<string>>)
    ensures r.Success? <==> exec(command).Some?
    ensures r.Success? ==> r.value == exec(command).value
    ensures r.Failure? ==> r.error == RepositoryError(errorMessage)
  {
    match exec(command)
    case None => Failure(RepositoryError(errorMessage))
    case Some(lines) => Success(lines)
  }

  /** The filter text of a release query: the series as printed, or "v" for
      all releases. */
  function SeriesFilter(series: Option<RS.Series>): (r: string)
    ensures series.Some? ==> r == RS.ToString(series.value)
    ensures series.None? ==> r == "v"
  {
    match series
    case None => "v"
    case Some(s) => RS.ToString(s)
  }

  /** The pipeline that narrows a tag listing to the newest releases. */
  function ReleaseFilterPipe(series: Option<RS.Series>, amount: int): string
  {
    " | grep \"" + SeriesFilter(series) + "\" | sort -r | head -" + IntToString(amount)
  }

  /* ---------------- Subversion ---------------- */

  const UrlPrefix: string := "URL: "

  /** What the constructor extracts from `svn info`. */
  datatype Checkout = Checkout(url: string, tagsUrl: string)

  /** A Subversion working copy: the executor and what `parseCheckout`
      stored. */
  datatype Svn = Svn(exec: Executor, svnUrl: string, svnTagsUrl: string)

  const NoTagsUrlMessage: string :=
    "Could not retrieve svn tag url, can not create release for this svn repository"

  function NoTagsUrlFromMessage(url: string): string
  {
    "Can not extract tag url from current svn checkout url " + url
  }

  /** `findTagsUrl`: the part of the URL before the first "/trunk", else
      before the first "/branches/", followed by "/tags". */
  function FindTagsUrl(url: string): (r: Result<string>)
    ensures r.Success? <==> Contains(url, "/trunk") || Contains(url, "/branches/")
    ensures r.Failure? ==> r.error == RepositoryError(NoTagsUrlFromMessage(url))
    ensures Contains(url, "/trunk") ==> r == Success(BeforeFirst(url, "/trunk") + "/tags")
    ensures !Contains(url, "/trunk") && Contains(url, "/branches/") ==>
      r == Success(BeforeFirst(url, "/branches/") + "/tags")
  {
    if Contains(url, "/trunk") then Success(BeforeFirst(url, "/trunk") + "/tags")
    else if Contains(url, "/branches/") then Success(BeforeFirst(url, "/branches/") + "/tags")
    else Failure(RepositoryError(NoTagsUrlFromMessage(url)))
  }

  /** `substr($line, 0, 5) === 'URL: '` */
  predicate IsUrlLine(line: string)
  {
    StartsWith(line, UrlPrefix)
  }

  /** `str_replace('URL: ', '', $line)` */
  function UrlOf(line: string): string
  {
    RemoveAll(line, UrlPrefix)
  }

  /** The loop of `parseCheckout` from some line on, given what earlier
      lines stored: every URL line overwrites both URLs, and the first URL
      whose tags URL cannot be derived ends the scan with that error. */
  function Scan(lines: seq<string>, found: Option<Checkout>): (r: Result<Option<Checkout>>)
    ensures r.Success? && r.value.None? ==> found.None?
    ensures (found.Some? ==> FindTagsUrl(found.value.url) == Success(found.value.tagsUrl)) ==>
      (r.Success? && r.value.Some? ==> FindTagsUrl(r.value.value.url) == Success(r.value.value.tagsUrl))
    decreases |lines|
  {
    if lines == [] then Success(found)
    else if IsUrlLine(lines[0]) then
      match FindTagsUrl(UrlOf(lines[0]))
      case Failure(e) => Failure(e)
      case Success(t) => Scan(lines[1..], Some(Checkout(UrlOf(lines[0]), t)))
    else Scan(lines[1..], found)
  }

  /** The constructor with `parseCheckout`. */
  function OpenSvnSpec(exec: Executor): (r: Result<Svn>)
    ensures Execute(exec, "svn info", "Failure while checking svn info").Failure? ==>
      r == Failure(Execute(exec, "svn info", "Failure while checking svn info").error)
    ensures r.Success? ==> r.value.exec == exec && FindTagsUrl(r.value.svnUrl) == Success(r.value.svnTagsUrl)
  {
    match Execute(exec, "svn info", "Failure while checking svn info")
    case Failure(e) => Failure(e)
    case Success(info) =>
      match Scan(info, None)
      case Failure(e) => Failure(e)
      case Success(None) => Failure(RepositoryError(NoTagsUrlMessage))
      case Success(Some(c)) => Success(Svn(exec, c.url, c.tagsUrl))
  }

  method OpenSvn(exec: Executor) returns (r: Result<Svn>)
    ensures r == OpenSvnSpec(exec)
  {
    var info := Execute(exec, "svn info", "Failure while checking svn info");
    if info.Failure? {
      return Failure(info.error);
    }
    var lines := info.value;
    var found: Option<Checkout> := None;
    var i := 0;
    while i < |lines|
      invariant 0 <= i <= |lines|
      invariant Scan(lines[i..], found) == Scan(lines, None)
    {
      assert lines[i..][1..] == lines[i + 1..];
      var line := lines[i];
      if IsUrlLine(line) {
        var url := UrlOf(line);
        var tags := FindTagsUrl(url);
        if tags.Failure? {
          return Failure(tags.error);
        }
        found := Some(Checkout(url, tags.value));
      }
      i := i + 1;
    }
    if found.None? {
      return Failure(RepositoryError(NoTagsUrlMessage));
    }
    r := Success(Svn(exec, found.value.url, found.value.tagsUrl));
  }

  /** Lines without a URL line leave what was stored. */
  lemma {:induction false} ScanWithoutUrl(lines: seq<string>, found: Option<Checkout>)
    requires forall j :: 0 <= j < |lines| ==> !IsUrlLine(lines[j])
    ensures Scan(lines, found) == Success(found)
    decreases |lines|
  {
    if lines != [] {
      assert !IsUrlLine(lines[0]);
      ScanWithoutUrl(lines[1..], found);
    }
  }

  /** When every URL line yields a tags URL, the checkout is that of the
      LAST URL line. */
  lemma {:induction false} ScanLastUrl(lines: seq<string>, found: Option<Checkout>, k: nat)
    requires k < |lines| && IsUrlLine(lines[k])
    requires forall j :: k < j < |lines| ==> !IsUrlLine(lines[j])
    requires forall j :: 0 <= j <= k && IsUrlLine(lines[j]) ==> FindTagsUrl(UrlOf(lines[j])).Success?
    ensures Scan(lines, found) == Success(Some(Checkout(UrlOf(lines[k]), FindTagsUrl(UrlOf(lines[k])).value)))
    decreases |lines|
  {
    if k == 0 {
      forall j | 0 <= j < |lines[1..]| ensures !IsUrlLine(lines[1..][j]) {
        assert lines[1..][j] == lines[j + 1];
      }
      var c := Checkout(UrlOf(lines[0]), FindTagsUrl(UrlOf(lines[0])).value);
      ScanWithoutUrl(lines[1..], Some(c));
    } else {
      var next := if IsUrlLine(lines[0])
        then Some(Checkout(UrlOf(lines[0]), FindTagsUrl(UrlOf(lines[0])).value)) else found;
      assert Scan(lines, found) == Scan(lines[1..], next);
      forall j | k - 1 < j < |lines[1..]| ensures !IsUrlLine(lines[1..][j]) {
        assert lines[1..][j] == lines[j + 1];
      }
      forall j | 0 <= j <= k - 1 && IsUrlLine(lines[1..][j])
        ensures FindTagsUrl(UrlOf(lines[1..][j])).Success?
      {
        assert lines[1..][j] == lines[j + 1];
      }
      ScanLastUrl(lines[1..], next, k - 1);
    }
  }

  /** The FIRST URL line whose tags URL cannot be derived decides the error,
      whatever follows it. */
  lemma {:induction false} ScanFirstBadUrl(lines: seq<string>, found: Option<Checkout>, k: nat)
    requires k < |lines| && IsUrlLine(lines[k]) && FindTagsUrl(UrlOf(lines[k])).Failure?
    requires forall j :: 0 <= j < k && IsUrlLine(lines[j]) ==> FindTagsUrl(UrlOf(lines[j])).Success?
    ensures Scan(lines, found) == Failure(RepositoryError(NoTagsUrlFromMessage(UrlOf(lines[k]))))
    decreases |lines|
  {
    if k > 0 {
      var next := if IsUrlLine(lines[0])
        then Some(Checkout(UrlOf(lines[0]), FindTagsUrl(UrlOf(lines[0])).value)) else found;
      assert Scan(lines, found) == Scan(lines[1..], next);
      assert lines[1..][k - 1] == lines[k];
      forall j | 0 <= j < k - 1 && IsUrlLine(lines[1..][j])
        ensures FindTagsUrl(UrlOf(lines[1..][j])).Success?
      {
        assert lines[1..][j] == lines[j + 1];
      }
      ScanFirstBadUrl(lines[1..], next, k - 1);
    }
  }

  /** `svn info` without a URL line leaves the working copy unusable. */
  lemma OpenSvnWithoutUrl(exec: Executor)
    requires exec("svn info").Some?
    requires forall j :: 0 <= j < |exec("svn info").value| ==> !IsUrlLine(exec("svn info").value[j])
    ensures OpenSvnSpec(exec) == Failure(RepositoryError(NoTagsUrlMessage))
  {
    ScanWithoutUrl(exec("svn info").value, None);
  }

  /** The working copy opened from `svn info` whose last URL line is line k
      has that line's URL and the tags URL derived from it. */
  lemma OpenSvnLastUrl(exec: Executor, k: nat)
    requires exec("svn info").Some?
    requires var info := exec("svn info").value;
      && k < |info| && IsUrlLine(info[k])
      && (forall j :: k < j < |info| ==> !IsUrlLine(info[j]))
      && (forall j :: 0 <= j <= k && IsUrlLine(info[j]) ==> FindTagsUrl(UrlOf(info[j])).Success?)
    ensures var url := UrlOf(exec("svn info").value[k]);
      OpenSvnSpec(exec) == Success(Svn(exec, url, FindTagsUrl(url).value))
  {
    ScanLastUrl(exec("svn info").value, None, k);
  }

  /** `isDirty`: dirty exactly when `svn status` printed anything. */
  function SvnIsDirty(svn: Svn): (r: Result<bool>)
    ensures r.Success? <==> svn.exec("svn status 2>&1 | tail -n1").Some?
    ensures r.Success? ==> (r.value <==> svn.exec("svn status 2>&1 | tail -n1").value != [])
    ensures r.Failure? ==> r.error == RepositoryError("Failure while checking svn status")
  {
    match Execute(svn.exec, "svn status 2>&1 | tail -n1", "Failure while checking svn status")
    case Failure(e) => Failure(e)
    case Success(lines) => Success(|lines| != 0)
  }

  /** `getBranch`: "trunk" for a trunk checkout, else the last segment of
      the URL. */
  function SvnBranch(svn: Svn): (r: string)
    ensures Contains(svn.svnUrl, "/trunk") ==> r == "trunk"
    ensures !Contains(svn.svnUrl, "/trunk") ==>
      && '/' !in r && |r| <= |svn.svnUrl| && svn.svnUrl[|svn.svnUrl| - |r|..] == r
      && (|r| == |svn.svnUrl| || svn.svnUrl[|svn.svnUrl| - |r| - 1] == '/')
  {
    if Contains(svn.svnUrl, "/trunk") then "trunk"
    else
      LastPieceIsSuffix(svn.svnUrl, '/');
      LastPiece(svn.svnUrl, '/')
  }

  /** The segment after the last '/' is the branch of a branch checkout. */
  lemma {:induction false} LastPieceAfterSlash(p: string, b: string)
    requires '/' !in b
    ensures LastPiece(p + "/" + b, '/') == b
  {
    var s := p + "/" + b;
    var r := LastPiece(s, '/');
    LastPieceIsSuffix(s, '/');
    assert s[|s| - |b| - 1] == '/';
    assert s[|s| - |b|..] == b;
  }

  /** A working copy of a branch directory outside trunk is on that branch. */
  lemma SvnBranchOfBranchCheckout(svn: Svn, p: string, b: string)
    requires svn.svnUrl == p + "/" + b && '/' !in b && !Contains(svn.svnUrl, "/trunk")
    ensures SvnBranch(svn) == b
  {
    LastPieceAfterSlash(p, b);
  }

  /** The command that lists the newest releases. */
  function SvnListCommand(svn: Svn, series: Option<RS.Series>, amount: int): string
  {
    "svn list " + svn.svnTagsUrl + ReleaseFilterPipe(series, amount)
  }

  /** `getLastReleases`: the listed tags in the order listed, each without
      its trailing '/'. */
  function SvnLastReleases(svn: Svn, series: Option<RS.Series>, amount: int): (r: Result<seq<string>>)
    ensures var out := svn.exec(SvnListCommand(svn, series, amount));
      && (r.Success? <==> out.Some?)
      && (r.Failure? ==> r.error == RepositoryError("Failure while retrieving last releases"))
      && (r.Success? ==>
            && |r.value| == |out.value|
            && (forall i :: 0 <= i < |r.value| ==>
                 && StartsWith(out.value[i], r.value[i])
                 && (r.value[i] == [] || r.value[i][|r.value[i]| - 1] != '/')
                 && (forall j :: |r.value[i]| <= j < |out.value[i]| ==> out.value[i][j] == '/')))
  {
    match Execute(svn.exec, SvnListCommand(svn, series, amount), "Failure while retrieving last releases")
    case Failure(e) => Failure(e)
    case Success(lines) => Success(seq(|lines|, i requires 0 <= i < |lines| => TrimEnd(lines[i], '/')))
  }

  /** The command that copies the working copy to the release tag. */
  function SvnCopyCommand(tagsUrl: string, v: V.Version): string
  {
    "svn cp . " + tagsUrl + "/" + V.ToString(v) + " -m \"tag release " + V.ToString(v) + "\""
  }

  /** `createRelease`: the output of the copy, or the release error. */
  function SvnCreateRelease(svn: Svn, v: V.Version): (r: Result<seq<string>>)
    ensures r.Success? <==> svn.exec(SvnCopyCommand(svn.svnTagsUrl, v)).Some?
    ensures r.Success? ==> r.value == svn.exec(SvnCopyCommand(svn.svnTagsUrl, v)).value
    ensures r.Failure? ==> r.error == RepositoryError("Failure while creating release")
  {
    Execute(svn.exec, SvnCopyCommand(svn.svnTagsUrl, v), "Failure while creating release")
  }

  /** What the finders see of a Subversion working copy. */
  function SvnView(svn: Svn): (view: RepositoryView)
    ensures view.branch == Success(Some(SvnBranch(svn)))
    ensures forall s, n :: view.lastReleases(s, n) == SvnLastReleases(svn, s, n)
  {
    RepositoryView(Success(Some(SvnBranch(svn))), (s, n) => SvnLastReleases(svn, s, n))
  }

  /* ---------------- Git ---------------- */

  const GitStatusCommand: string := "git status 2> /dev/null | tail -n1"
  const NotGitMessage: string := "Current directory is not a git repository"
  const BranchFailureMessage: string := "Failure while retrieving current branch"

  /** `isDirty`: no status line means no git repository; otherwise clean
      exactly when the line says both "nothing to commit" and "working
      directory clean". */
  function GitIsDirty(exec: Executor): (r: Result<bool>)
    ensures var out := exec(GitStatusCommand);
      && (out.None? ==> r == Failure(RepositoryError("Failure while checking git status")))
      && (out.Some? && out.value == [] ==> r == Failure(RepositoryError(NotGitMessage)))
      && (out.Some? && out.value != [] ==>
            r.Success?
            && (!r.value <==> Contains(out.value[0], "nothing to commit")
                              && Contains(out.value[0], "working directory clean")))
  {
    match Execute(exec, GitStatusCommand, "Failure while checking git status")
    case Failure(e) => Failure(e)
    case Success(out) =>
      if |out| == 0 then Failure(RepositoryError(NotGitMessage))
      else Success(!Contains(out[0], "nothing to commit") || !Contains(out[0], "working directory clean"))
  }

  /** `getBranch`: the first line of `git branch` without its two-character
      marker ("* master" gives "master"). */
  function GitBranch(exec: Executor): (r: Result<string>)
    ensures var out := exec("git branch");
      && (out.None? || out.value == [] ==> r == Failure(RepositoryError(BranchFailureMessage)))
      && (out.Some? && out.value != [] ==>
            r.Success?
            && (|out.value[0]| >= 2 ==> out.value[0] == out.value[0][..2] + r.value)
            && (|out.value[0]| < 2 ==> r.value == []))
  {
    match Execute(exec, "git branch", BranchFailureMessage)
    case Failure(e) => Failure(e)
    case Success(out) =>
      if |out| == 0 then Failure(RepositoryError(BranchFailureMessage))
      else Success(DropPrefix(out[0], 2))
  }

  /** The command that lists the newest releases. */
  function GitTagCommand(series: Option<RS.Series>, amount: int): string
  {
    "git tag -l" + ReleaseFilterPipe(series, amount)
  }

  /** `getLastReleases`: the tag listing as printed. */
  function GitLastReleases(exec: Executor, series: Option<RS.Series>, amount: int): (r: Result<seq<string>>)
    ensures r.Success? <==> exec(GitTagCommand(series, amount)).Some?
    ensures r.Success? ==> r.value == exec(GitTagCommand(series, amount)).value
    ensures r.Failure? ==> r.error == RepositoryError("Failure while retrieving last releases")
  {
    Execute(exec, GitTagCommand(series, amount), "Failure while retrieving last releases")
  }

  /** The command that creates the annotated tag and pushes it. */
  function GitTagReleaseCommand(v: V.Version): string
  {
    "git tag -a " + V.ToString(v) + " -m \"tag release " + V.ToString(v) + "\" && git push --tags"
  }

  /** `createRelease`: the output of tagging and pushing. */
  function GitCreateRelease(exec: Executor, v: V.Version): (r: Result<seq<string>>)
    ensures r.Success? <==> exec(GitTagReleaseCommand(v)).Some?
    ensures r.Success? ==> r.value == exec(GitTagReleaseCommand(v)).value
    ensures r.Failure? ==> r.error == RepositoryError("Failure while creating release")
  {
    Execute(exec, GitTagReleaseCommand(v), "Failure while creating release")
  }

  /** What the finders see of a git working copy. */
  function GitView(exec: Executor): (view: RepositoryView)
    ensures GitBranch(exec).Success? ==> view.branch == Success(Some(GitBranch(exec).value))
    ensures GitBranch(exec).Failure? ==> view.branch == Failure(GitBranch(exec).error)
    ensures forall s, n :: view.lastReleases(s, n) == GitLastReleases(exec, s, n)
  {
    var branch := match GitBranch(exec)
      case Failure(e) => Failure(e)
      case Success(b) => Success(Some(b));
    RepositoryView(branch, (s, n) => GitLastReleases(exec, s, n))
  }

  /** A one-digit amount prints as that digit. */
  lemma DigitAmount(d: nat)
    requires d < 10
    ensures IntToString(d) == [DigitChar(d)]
  {
  }

  /** Without a series the newest five tags starting with "v" are listed. */
  lemma GitDefaultTagCommand()
    ensures GitTagCommand(None, 5) == "git tag -l | grep \"v\" | sort -r | head -5"
  {
    DigitAmount(5);
  }

  /** Without a series the newest five tags starting with "v" are listed. */
  lemma SvnDefaultListCommand(svn: Svn)
    ensures SvnListCommand(svn, None, 5) ==
      "svn list " + svn.svnTagsUrl + " | grep \"v\" | sort -r | head -5"
  {
    DigitAmount(5);
  }

  /* ---------------- no repository ---------------- */

  const UnknownRepositoryStatus: string := "Current directory is not a known type of repository"
  const CannotReleaseMessage: string := "Can't create release here, is not a known repository"

  /** `isDirty`: a directory that is no repository is never releasable. */
  function NoRepositoryIsDirty(): (r: bool)
    ensures r
  {
    true
  }

  /** `readStatus`: the single explanatory line. */
  function NoRepositoryStatus(): (r: seq<string>)
    ensures |r| == 1 && r[0] == UnknownRepositoryStatus
  {
    [UnknownRepositoryStatus]
  }

  /** `getBranch`: no branch. */
  function NoRepositoryBranch(): (r: Option<string>)
    ensures r.None?
  {
    None
  }

  /** `getLastReleases`: no releases, whatever is asked. */
  function NoRepositoryLastReleases(series: Option<RS.Series>, amount: int): (r: seq<string>)
    ensures r == []
  {
    []
  }

  /** `createRelease`: always refused. */
  function NoRepositoryCreateRelease(v: V.Version): (r: Result<seq<string>>)
    ensures r == Failure(RepositoryError(CannotReleaseMessage))
  {
    Failure(RepositoryError(CannotReleaseMessage))
  }

  /** What the finders see of a directory that is no repository. */
  function NoRepositoryView(): (view: RepositoryView)
    ensures view.branch == Success(None)
    ensures forall s, n :: view.lastReleases(s, n) == Success([])
  {
    RepositoryView(Success(NoRepositoryBranch()), (s, n) => Success(NoRepositoryLastReleases(s, n)))
  }
}
