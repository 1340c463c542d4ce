# releaseIt version resolution, in Dafny

releaseIt creates a release of a Subversion or git working copy. It decides
which version the new release gets, prints that version as a tag name and
asks the repository to create the tag. This project models the part that
picks the version:

- the `Version` value: one optional leading `v` is stripped and the rest is
  validated as a version number. `increaseMinor` and `increasePatchLevel`
  work by PHP's `$x++`;
- the release `Series`: a major line `N` or a minor line `N.M`. The kind is
  decided by the string length alone. The number is validated by padding it
  to a full version;
- the composer package's branch alias table and the series an alias names;
- the version finders:
  - the next-series finder derives the next version of the current branch's
    series and asks for confirmation;
  - the asking finder lists the last releases and prompts until an input
    parses;
  - the chain tries finders in order until one yields a version;
  - the legacy branch finder asks nothing;
- the signing `Key`;
- the repository adapters for Subversion, git and "no repository". Only the
  part that builds commands and reads their output is modelled.

The legacy namespace `org/bovigo/releaseit` repeats most of these rules under
older method names. Where a legacy copy behaves like the current one it is
modelled by the same definition; see "Legacy namespace" below.

How the model is built:

- Values are datatypes. Thrown exceptions are `Failure(error)` results that
  carry the exception's message.
- PHP `null` is `None`, or `NotFound` for a finder.
- The console and the repository are oracles.
  - A `Console` holds the trace of everything written, prompted, confirmed
    and queried so far. It also holds the inputs still to be typed and the
    confirmation answers still to be given.
  - A `RepositoryView` holds the current branch and the release query.
  - The adapters are built from an `Executor`: a function from a command
    string to its output lines, or to failure.
- Each finder is a specification function of the package, repository and
  console. A method performs the same steps one after another: statements
  for the next-series finder, a `for` and a `while` loop for the asking
  finder, a `while` loop for the chain. Each method is proved equal to its
  function.
- The Subversion constructor's `foreach` over `svn info` is a method with a
  loop, proved against the recursive function `Scan`.

The validity of a version number is the Semantic Versioning 2.0.0 grammar:

- item 2: a normal version `X.Y.Z` without leading zeros;
- item 9: a pre-release after `-`;
- item 10: build metadata after `+`.

The PHP code calls `Herrera\Version\Validator::isVersion`. That validator is
not part of this model. ASSUMPTION: it accepts exactly these strings
(`SemVer.IsVersion`).

## Model

| member | source | states |
|---|---|---|
| `Versions.StripLeadingV` | src/main/php/Version.php:47-54 | exactly one leading `v` is removed when present, otherwise the input is kept |
| `Versions.Parse` | src/main/php/Version.php:31-39 | the constructor succeeds iff the input minus one leading `v` is a version number; the stored number is that text; the failure carries "Given value <input as given> is not a valid version number" |
| `Versions.ParseToString` | src/main/php/Version.php:89-92 | round trip: constructing from the printed form `"v" + number` gives the same version back |
| `Versions.ToString` | src/main/php/Version.php:89-92 | the printed form, with one leading `v` stripped, is the stored number again |
| `Versions.ParseLeadingV` | src/main/php/Version.php:33 | `"v" + s` and `s` are accepted alike, give the same version, and that version prints as `"v" + s` |
| `Versions.ParseDoubleV` | src/main/php/Version.php:49-50 | only one `v` is stripped: an input starting with `vv` is always rejected |
| `Versions.ParsePlain` | src/main/php/Version.php:34 | three canonical numbers joined by dots are a valid plain version whose major, minor and patch are those numbers |
| `Versions.Pieces` | src/main/php/Version.php:65 | `explode('.')` of a valid number: canonical major and minor, a third piece that starts with a digit and is all digits iff the version has no suffix |
| `Versions.IncreaseMinor` | src/main/php/Version.php:63-68 | the result is a valid plain `M.(m+1).0`: same major, minor one higher, patch 0, suffix dropped; it fails only when `$minor++` overflows PHP_INT_MAX |
| `Versions.IncreasePatchLevel` | src/main/php/Version.php:77-82 | on a plain version: valid, same major and minor, patch one higher, failing only on overflow; on a suffixed one: the third piece string-incremented and re-validated |
| `Php.PlusPlus` | src/main/php/Version.php:66 | `$x++` on a digit string gives the canonical text of its value plus one, or a float (None) from PHP_INT_MAX on; any other string is string-incremented |
| `Php.StringIncrement` | src/main/php/Version.php:80 | `$x++` on a non-numeric string keeps its length or grows it by exactly one character (when the carry runs off the front) |
| `Php.StringIncrementBeta` | src/main/php/Version.php:80 | `$x++` on the third piece `"0-beta"` of `1.0.0-beta` gives `"0-betb"` |
| `Php.StringIncrementLostCarry` | src/main/php/Version.php:80 | `$x++` on `"0-99"` gives `"0-00"`: the carry stops at the `-` |
| `Php.StringIncrementGrows` | src/main/php/Version.php:80 | `$x++` on `"zz"` gives `"aaa"` |
| `Digits.StringToNatOfNatToString` | src/main/php/Version.php:66-67 | the integer printed back into the version reads as that integer |
| `Digits.NatToStringOfStringToNat` | src/main/php/Version.php:65-67 | a canonical digit string read as an integer prints as itself |
| `SemVer.PlainIsVersion` | src/main/php/Version.php:34 | `a.b.c` of canonical numbers is a version number and splits into `[a, b, c]` |
| `SemVer.VersionParts` | src/main/php/Version.php:65 | a version number splits at `.` into canonical major and minor and a third piece that starts with the patch |
| `ReleaseSeries.KindOfLength` | src/main/php/Series.php:79-88 | length 1 is major, length 3 is minor, any other length has no kind |
| `ReleaseSeries.Parse` | src/main/php/Series.php:48-57 | the constructor succeeds iff the stripped number has a kind and its padded form is a version number; otherwise "Given value <input> is not a valid series number" |
| `ReleaseSeries.AppendedIsVersion` | src/main/php/Series.php:95-102 | the padded number (`.0.0` major, `.0` minor) is a version iff the number is one digit, or digit `.` digit |
| `ReleaseSeries.AppendedNumber` | src/main/php/Series.php:95-102 | the number is kept as a prefix and only `.` and `0` are appended; a number of a valid kind's length is padded to the five characters of `N.0.0` or `N.M.0` |
| `ReleaseSeries.ParseShape` | src/main/php/Series.php:48-56 | the accepted inputs are exactly one optional `v` followed by one digit (major) or digit `.` digit (minor), so `10` and `1.10` are rejected |
| `ReleaseSeries.AppendedParses` | src/main/php/Series.php:111-114 | the padded number of a series parses as a plain version of the series' digits and zeros |
| `ReleaseSeries.FirstVersion` | src/main/php/Series.php:104-114 | the first version is the padded number, `N.0.0` or `N.M.0`; the constructor call never fails for a valid series |
| `ReleaseSeries.NextVersion` | src/main/php/Series.php:116-129 | a major series bumps the minor (same major, patch 0), a minor series bumps the patch (same major and minor) |
| `ReleaseSeries.ParseToString` | src/main/php/Series.php:136-139 | round trip: constructing from the printed form gives the same series |
| `ReleaseSeries.ToString` | src/main/php/Series.php:136-139 | the printed form, with one leading `v` stripped, is the series number again |
| `ReleaseSeries.ParseLeadingV` | src/main/php/Series.php:65-72 | `v1.1` and `1.1` are the same series, printed `v1.1` |
| `ReleaseSeries.FirstVersionPrintsSeries` | src/main/php/Series.php:107 | the first version prints as the series followed by `.0.0` or `.0` |
| `Scenarios.IncreaseMinorDigits` | src/test/php/VersionTestCase.php:53-57 | `a.b.c` of single digits increases to `a.(b+1).0` |
| `Scenarios.IncreasePatchDigits` | src/test/php/VersionTestCase.php:71-75 | `a.b.c` of single digits increases to `a.b.(c+1)` |
| `Scenarios.MajorSeriesDigit` | src/test/php/SeriesTestCase.php:58-62 | every single digit `a` is a major series whose first version is `a.0.0` |
| `Scenarios.MinorSeriesDigits` | src/test/php/SeriesTestCase.php:42-71 | every `va.b` of single digits is the minor series `a.b` whose first version is `a.b.0` |
| `Scenarios.MajorSeriesNext` | src/test/php/SeriesTestCase.php:76-80 | in every major series the next version after single-digit `a.b.c` is `a.(b+1).0`, which covers series 1 taking v1.1.0 to v1.2.0 |
| `Scenarios.MinorSeriesNext` | src/test/php/SeriesTestCase.php:85-89 | in every minor series the next version after single-digit `a.b.c` is `a.b.(c+1)`, which covers series 1.1 taking v1.1.2 to v1.1.3 |
| `Scenarios.SeriesRejections` | src/test/php/SeriesTestCase.php:21-37 | `foo`, `1.0.x-dev`, `1.0.1` and `v1.0.1` are no series |
| `FinderScenarios.TagFollowedInMinor` | src/test/php/SeriesTestCase.php:85-89 | a tag `va.b.c` parses to `a.b.c`, which a minor series follows with `a.b.(c+1)` |
| `Composer.BranchAlias` | src/main/php/composer/Package.php:67-70 | the nested lookup `extra` / `branch-alias` / branch, None iff any level is missing |
| `Composer.Series` | src/main/php/composer/Package.php:80-88 | no series iff no alias; otherwise the alias with every `.x-dev` removed is parsed as a series, whose error propagates |
| `Composer.SeriesOfDevAlias` | src/main/php/composer/Package.php:87 | an alias `<n>.x-dev` names the series `n` |
| `Composer.SeriesOfAliasExample` | src/test/php/composer/PackageTestCase.php:108-117 | the alias `1.0.x-dev` names the minor series 1.0 |
| `Keys.Default` | src/main/php/Key.php:24-27 | the default key reports `isDefault` |
| `Keys.New` | src/main/php/Key.php:37-55 | a key is default iff built without an id; it prints its id, or `""` for the default key |
| `Keys.IsDefault` | src/main/php/Key.php:47-50 | a default key prints as `""` |
| `Keys.ToString` | src/main/php/Key.php:52-55 | a named key is rebuilt from its printed form |
| `Keys.ToStringDistinguishes` | src/main/php/Key.php:52-55 | two keys of the same kind are equal iff they print the same |
| `Sessions.Prompt` | src/main/php/AskingVersionFinder.php:76-78 | a prompt consumes and records the next input; with none left the user has aborted |
| `Sessions.Confirm` | src/main/php/NextSeriesVersionFinder.php:72 | a confirmation consumes and records the next answer; with none left the user has aborted |
| `Sessions.WriteLinesStep` | src/main/php/AskingVersionFinder.php:58-60 | writing the releases one line at a time is writing them all, in order |
| `Finders.LastRelease` | src/main/php/NextSeriesVersionFinder.php:87-95 | releases are queried as `(series, 1)`; none gives no version, else the first one is constructed, and a malformed tag gives the Version error |
| `Finders.Candidate` | src/main/php/NextSeriesVersionFinder.php:57-70 | no last release: the series' first version with the "No release in series" line; else the series' next version with the "Last release in series" line, or its error |
| `Finders.ConfirmCandidate` | src/main/php/NextSeriesVersionFinder.php:72-76 | exactly one confirmation: the candidate iff the answer is yes, no version iff no |
| `Finders.NextSeriesSpec` | src/main/php/NextSeriesVersionFinder.php:45-77 | the finder never consumes a prompt input, always starts by querying the branch and only appends to the trace, and a branch error is returned right after that query |
| `Finders.NextSeriesFind` | src/main/php/NextSeriesVersionFinder.php:45-77 | the method's steps give exactly the outcome and console of the specification function |
| `Finders.NextSeriesWithoutSeries` | src/main/php/NextSeriesVersionFinder.php:47-54 | without a series for `dev-<branch>`: the one line naming the branch, no release query, no confirmation, no version |
| `Finders.NextSeriesFirstRelease` | src/main/php/NextSeriesVersionFinder.php:57-62 | a series without releases: the first version is announced, then confirmed once and returned iff confirmed |
| `Finders.NextSeriesNextRelease` | src/main/php/NextSeriesVersionFinder.php:63-76 | with a newest release: its successor in the series is announced with it, confirmed once and returned iff confirmed |
| `Finders.NextSeriesMalformedTag` | src/main/php/NextSeriesVersionFinder.php:94 | a malformed newest tag fails with the Version error before any line or confirmation |
| `Finders.NextSeriesFoundOnlyIfConfirmed` | src/main/php/NextSeriesVersionFinder.php:72-73 | a version is returned only right after a recorded "yes", and no prompt input is consumed |
| `Finders.AskLoop` | src/main/php/AskingVersionFinder.php:71-84 | the prompt loop ends only with a version or an abort, never with no version, and only appends to the trace |
| `Finders.AskLoopRetry` | src/main/php/AskingVersionFinder.php:80-82 | a rejected input has its prompt and its error message recorded, then the loop goes on with the rest |
| `Finders.AskLoopAccept` | src/main/php/AskingVersionFinder.php:75-79 | an input that parses ends the loop with its version |
| `Finders.AskLoopFirstValid` | src/main/php/AskingVersionFinder.php:73-83 | the loop returns the version of the first input that parses, after an error line for every earlier input, and consumes exactly the inputs up to it |
| `Finders.AskLoopPromptCount` | src/main/php/AskingVersionFinder.php:73-79 | the number of prompts is the position of the first valid input plus one |
| `Finders.AskLoopNoValid` | src/main/php/AskingVersionFinder.php:74-82 | when no input parses, every error is written and the loop ends only at the abort |
| `Finders.RetriesPromptCount` | src/main/php/AskingVersionFinder.php:76 | rejected inputs are prompted once each |
| `Finders.AskingSpec` | src/main/php/AskingVersionFinder.php:44-64 | "Last 5 releases:", the query `(no series, 5)`, each release in order and an empty line come first; the finder never yields no version |
| `Finders.AskingFind` | src/main/php/AskingVersionFinder.php:44-84 | the method's loops give exactly the outcome and console of the specification function |
| `Finders.FindWith` | src/main/php/VersionFinderChain.php:49 | one finder run gives exactly that finder's specified outcome |
| `Finders.Chain` | src/main/php/VersionFinderChain.php:55 | an empty chain yields no version and leaves the console as it was |
| `Finders.ChainFind` | src/main/php/VersionFinderChain.php:46-56 | the `foreach` with early return gives exactly the outcome and console of the recursive chain |
| `Finders.ChainAppend` | src/main/php/VersionFinderChain.php:48-53 | short circuit: once a first part yields something the rest is never run; otherwise the rest runs on the console the first part left |
| `Finders.ChainAllNotFound` | src/main/php/VersionFinderChain.php:48-55 | when each finder yields no version on the console the finders before it left, the chain yields no version |
| `Finders.ChainEndingInAsking` | src/main/php/VersionFinderChain.php:46-56 | a chain that ends with the asking finder never yields no version |
| `FinderScenarios.AskingSecondInput` | src/test/php/org/bovigo/releaseit/AskingVersionFinderTestCase.php:90-104 | a rejected input and then a valid one: two prompts, one error line, the valid input's version |
| `LegacyFinders.IsEmptyParam` | src/main/php/org/bovigo/releaseit/version/VersionNumberFilter.php:27 | a parameter is empty iff it is absent or `""` |
| `LegacyFinders.FilterVersionNumber` | src/main/php/org/bovigo/releaseit/version/VersionNumberFilter.php:25-36 | an empty parameter gives no version, a valid one its version, an invalid one no version instead of the exception |
| `LegacyFinders.FilterLeadingV` | src/main/php/org/bovigo/releaseit/version/VersionNumberFilter.php:32 | the filter treats `vX` and `X` alike |
| `LegacyFinders.NextBranchAsWritten` | src/main/php/org/bovigo/releaseit/NextBranchVersionFinder.php:26-39 | as written, the branch finder never yields a version and uses no console input |
| `LegacyFinders.NextBranchCorrected` | src/main/php/org/bovigo/releaseit/NextBranchVersionFinder.php:33-38 | the corrected branch finder never asks anything: no abort, no input or answer consumed |
| `LegacyFinders.NextBranchNeverFinds` | src/main/php/org/bovigo/releaseit/NextBranchVersionFinder.php:34-38 | with no release in the series, as written the array reaches the Version constructor and fails; corrected, the series' first version results |
| `LegacyFinders.NextBranchWithoutSeries` | src/main/php/org/bovigo/releaseit/NextBranchVersionFinder.php:28-31 | without a series no release is queried and no version results |
| `LegacyFinders.NextBranchNext` | src/main/php/org/bovigo/releaseit/NextBranchVersionFinder.php:33-38 | with releases the corrected finder yields the series' next version after the newest, with no output or confirmation |
| `Repositories.Execute` | src/main/php/repository/SvnRepository.php:182-191 | the command's lines, or a RepositoryError with the operation's message when the executor fails |
| `Repositories.SeriesFilter` | src/main/php/repository/SvnRepository.php:143-145 | the grep filter is the printed series, or `v` without one |
| `Repositories.FindTagsUrl` | src/main/php/repository/SvnRepository.php:76-90 | before the first `/trunk`, else before the first `/branches/`, plus `/tags`; neither fails with the URL in the message |
| `Repositories.Scan` | src/main/php/repository/SvnRepository.php:55-60 | the scan stores nothing only when nothing was stored before |
| `Repositories.OpenSvnSpec` | src/main/php/repository/SvnRepository.php:44-67 | a failing `svn info` is the constructor's error; a built working copy keeps the executor, and its tags URL is the one derived from its stored URL |
| `Repositories.OpenSvn` | src/main/php/repository/SvnRepository.php:44-67 | the constructor's loop over `svn info` gives exactly the working copy of the specification |
| `Repositories.ScanWithoutUrl` | src/main/php/repository/SvnRepository.php:56 | lines that are no `URL: ` lines leave what was stored |
| `Repositories.ScanLastUrl` | src/main/php/repository/SvnRepository.php:55-60 | the LAST `URL: ` line decides the checkout URL and the tags URL |
| `Repositories.ScanFirstBadUrl` | src/main/php/repository/SvnRepository.php:58 | the first URL without `/trunk` or `/branches/` fails the constructor, whatever follows |
| `Repositories.OpenSvnWithoutUrl` | src/main/php/repository/SvnRepository.php:62-66 | without a `URL: ` line the constructor fails with "Could not retrieve svn tag url, ..." |
| `Repositories.OpenSvnLastUrl` | src/main/php/repository/SvnRepository.php:53-67 | the working copy has the last URL line's URL and its tags URL |
| `Repositories.SvnIsDirty` | src/main/php/repository/SvnRepository.php:101-107 | dirty iff `svn status` printed anything; a failed command is the status error |
| `Repositories.SvnBranch` | src/main/php/repository/SvnRepository.php:124-132 | `trunk` for a trunk URL, else the URL's last `/`-separated segment |
| `Repositories.SvnBranchOfBranchCheckout` | src/main/php/repository/SvnRepository.php:130-131 | a URL `p/b` outside trunk is on branch `b` |
| `Repositories.SvnLastReleases` | src/main/php/repository/SvnRepository.php:141-155 | one result per listed line, in order, each the line without its trailing `/` |
| `Repositories.SvnDefaultListCommand` | src/main/php/repository/SvnRepository.php:143-151 | without a series and with the default amount the listing greps `v` and keeps 5 |
| `Repositories.SvnCreateRelease` | src/main/php/repository/SvnRepository.php:163-170 | `svn cp . <tags>/<v> -m "tag release <v>"`, its output or the release error |
| `Repositories.SvnView` | src/main/php/repository/SvnRepository.php:124-155 | the finders see the working copy's branch and release listing |
| `Repositories.GitIsDirty` | src/main/php/repository/GitRepository.php:43-51 | no status line: not a git repository; else clean iff the line says both "nothing to commit" and "working directory clean" |
| `Repositories.GitBranch` | src/main/php/repository/GitRepository.php:68-76 | no output fails; else the first line without its first two characters |
| `Repositories.GitLastReleases` | src/main/php/repository/GitRepository.php:85-88 | the output of `git tag -l` piped through `grep "<series>"`, `sort -r` and `head -<amount>`, unchanged |
| `Repositories.GitDefaultTagCommand` | src/main/php/repository/GitRepository.php:85-87 | the defaults list the tags through `grep "v"`, `sort -r` and `head -5` |
| `Repositories.GitCreateRelease` | src/main/php/repository/GitRepository.php:96-101 | the output of `git tag -a <v> -m "tag release <v>" && git push --tags`, or the release error |
| `Repositories.GitView` | src/main/php/repository/GitRepository.php:68-88 | the finders see the current git branch, or its error, and the tag listing |
| `Repositories.NoRepositoryIsDirty` | src/main/php/repository/NoRepository.php:23-26 | always dirty |
| `Repositories.NoRepositoryStatus` | src/main/php/repository/NoRepository.php:33-36 | the single line "Current directory is not a known type of repository" |
| `Repositories.NoRepositoryBranch` | src/main/php/repository/NoRepository.php:43-46 | no branch |
| `Repositories.NoRepositoryLastReleases` | src/main/php/repository/NoRepository.php:55-58 | no releases, whatever is asked |
| `Repositories.NoRepositoryCreateRelease` | src/main/php/repository/NoRepository.php:67-70 | always fails with "Can't create release here, is not a known repository" |
| `Repositories.NoRepositoryView` | src/main/php/repository/NoRepository.php:43-58 | the finders see no branch and no releases |
| `LegacyRepositories.OpenLegacySvn` | src/main/php/org/bovigo/releaseit/repository/SvnRepository.php:47-58 | the same scan of `svn info` as the current adapter, keeping only the tags URL |
| `LegacyRepositories.LegacySvnIsDirty` | src/main/php/org/bovigo/releaseit/repository/SvnRepository.php:89-92 | the same status reading as the current adapter: dirty iff `svn status` printed anything |
| `LegacyRepositories.LegacySvnLastReleases` | src/main/php/org/bovigo/releaseit/repository/SvnRepository.php:109-114 | the fixed listing of the newest five `v` tags, exactly as printed |
| `LegacyRepositories.LegacySvnKeepsSlash` | src/main/php/org/bovigo/releaseit/repository/SvnRepository.php:111 | unlike the current adapter, a listed tag keeps its trailing `/` |
| `LegacyRepositories.LegacySvnCreateRelease` | src/main/php/org/bovigo/releaseit/repository/SvnRepository.php:122-127 | the same copy command and error as the current adapter |
| `LegacyRepositories.LegacyGitIsDirty` | src/main/php/org/bovigo/releaseit/repository/GitRepository.php:42-50 | the same status reading as the current adapter |
| `LegacyRepositories.LegacyGitLastReleases` | src/main/php/org/bovigo/releaseit/repository/GitRepository.php:67-70 | the fixed listing is the current adapter's listing with the defaults |
| `LegacyRepositories.LegacyGitCreateRelease` | src/main/php/org/bovigo/releaseit/repository/GitRepository.php:78-83 | the same tag-and-push command as the current adapter |
| `LegacyRepositories.LegacyNoRepositoryIsDirty` | src/main/php/org/bovigo/releaseit/repository/NoRepository.php:23-26 | always dirty, as the current stub |
| `LegacyRepositories.LegacyNoRepositoryStatus` | src/main/php/org/bovigo/releaseit/repository/NoRepository.php:33-36 | the same single status line as the current stub |
| `LegacyRepositories.LegacyNoRepositoryLastReleases` | src/main/php/org/bovigo/releaseit/repository/NoRepository.php:45-48 | the same empty listing as the current stub, whatever is asked |
| `LegacyRepositories.LegacyNoRepositoryCreateRelease` | src/main/php/org/bovigo/releaseit/repository/NoRepository.php:57-60 | always the same refusal as the current stub |

## Legacy namespace

The legacy files below behave like their current counterparts. They are
modelled by the same definitions:

| legacy file | lines | modelled by |
|---|---|---|
| src/main/php/org/bovigo/releaseit/Version.php | 31-90 | `Versions.Parse`, `Versions.IncreaseMinor`, `Versions.IncreasePatchLevel`, `Versions.ToString` (IllegalArgumentException is the same `InvalidVersion` error) |
| src/main/php/org/bovigo/releaseit/version/Version.php | 30-61 | `Versions.Parse`, `Versions.ToString`, `Versions.ParseToString` |
| src/main/php/org/bovigo/releaseit/Series.php | 44-132 | `ReleaseSeries.Parse` (type `null` for an unknown length is `KindOfLength` = None), `FirstVersion`, `NextVersion`, `ToString` |
| src/main/php/org/bovigo/releaseit/VersionFinderChain.php | 46-56 | `Finders.Chain`, `Finders.ChainFind` |
| src/main/php/org/bovigo/releaseit/NextSeriesVersionFinder.php | 45-85 | `Finders.NextSeriesSpec`, `Finders.NextSeriesFind`, `Finders.LastRelease` (for `getLastReleaseInSeries`) |
| src/main/php/org/bovigo/releaseit/AskingVersionFinder.php | 45-83 | `Finders.AskingSpec`, `Finders.AskingFind` (`writeLine('')` is the same line as `writeEmptyLine`) |

The legacy adapters have no `getBranch`, and their `getLastReleases` takes no
arguments. Their own members are listed in the table above.

## Left out

- The internals of `Herrera\Version\Validator::isVersion`. This library is
  not part of this model; `SemVer.IsVersion` stands in for it, as stated
  above.
- `Package::fromFile`: the file check and the JSON decoding are I/O. The
  package is given as its decoded configuration. Configuration levels that
  are not objects and aliases that are not strings are not modelled.
- `ReleaseIt.php` and `RepositoryDetector.php`, both copies: command-line
  orchestration and file-system probing.
- Process execution. The executor is an oracle from a command to its output
  lines or failure. The `collect` callback and the choice between
  `executeDirect` and `executeAsync` are not modelled.
- The stream-returning `readStatus` of the git and Subversion adapters.
  Only `NoRepository`'s one status line is modelled.
- Ctrl+C ends the process. The model has the user abort when the prompt
  inputs or confirmation answers run out (`Aborted`), and says nothing
  about what happens after.
- The dependency-injection annotations and the tests that check them.
- The legacy composer `Package` (`getSeries`) is not part of this model. The
  legacy finders are modelled with the current `Composer.Series`.
- The current finders call `branch()`, `lastReleases()`, `firstVersion()` and
  `nextVersion()`. The classes shown name these `getBranch`,
  `getLastReleases`, `getFirstVersion` and `getNextVersion`. The model treats
  each pair as one operation.
- Behaviour that only the tests expect is not modelled: git commands with
  `-C`, picking the `* ` line among several branches, signing flags, and
  series filtering in the legacy Subversion adapter.
- `Repositories.GitBranch`: for a first line shorter than two characters,
  PHP's `substr` gives `false` on older versions and `""` on newer ones. The
  model gives `""`.
- `Versions.IncreaseMinor`: on overflow PHP prints a float such as
  `9.2233720368548E+18`, and the rebuilt version is rejected. The model
  gives the error `IncrementOverflow` and does not model the float's text.
- `Versions.IncreasePatchLevel`: unlike `increaseMinor`, which drops the
  suffix, `increasePatchLevel` increments the third piece as a PHP string
  (`1.0.0-beta` gives `1.0.0-betb`), and the model follows the code.
- The chain's branch finder: the program binds only the next-series and the asking
  finder into its chain (src/main/php/org/bovigo/releaseit/ReleaseIt.php:64-66).
  A chain that holds the legacy branch finder runs it as written
  (`LegacyFinders.NextBranchAsWritten`), so it fails wherever a branch names a
  series; the corrected finder is not part of any chain.
- The legacy finders running on the legacy adapters are not modelled. The
  legacy finders call `getBranch()`, which no legacy adapter defines, and
  `getLastReleases($series, 1)`, whose arguments the legacy adapters ignore;
  the legacy Subversion listing keeps each tag's trailing `/`, which
  `new Version` rejects. No `RepositoryView` is built from a legacy adapter:
  the legacy finders are modelled over the current adapters' view.
- Input values that are not strings (the legacy constructors have no type
  declarations) are not modelled.
- Integers are unbounded, except for the PHP_INT_MAX overflow of `$x++`,
  which is modelled. Release amounts are printed by `IntToString`.

## Findings

| source | as written | input that shows it | evidently intended | confidence | as-written member | corrected member |
|---|---|---|---|---|---|---|
| src/main/php/org/bovigo/releaseit/NextBranchVersionFinder.php:33-38 | the release query's result is compared with `null === …`, but `getLastReleases` always returns an array, so the first-version branch never runs and the array itself goes to `new Version(...)`, which rejects it ("Given value Array is not a valid version number", under the PHP 5 conversion of an array to text) | any branch whose alias names a series, in a repository with no release in it (the query returns `[]`) | no release gives `getFirstVersion()`; otherwise `getNextVersion(new Version($releases[0]))`, as `NextSeriesVersionFinder` does | not executed | `LegacyFinders.NextBranchAsWritten`, exhibited by `LegacyFinders.NextBranchNeverFinds` | `LegacyFinders.NextBranchCorrected`, with `LegacyFinders.NextBranchNeverFinds` and `LegacyFinders.NextBranchNext` |
