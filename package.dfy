/** The part of a composer package definition the version finders use: the
    branch alias table under "extra" / "branch-alias", and the series a
    branch alias names. */
module Composer {
  import opened Base
  import opened Text
  import RS = ReleaseSeries

  /** The decoded composer.json, reduced to the levels that are read: each
      top-level key maps to an object of objects of strings. */
  datatype Package = Package(config: map<string, map<string, map<string, string>>>)

  /** `branchAlias`: the nested lookup, None when any level is missing. */
  function BranchAlias(p: Package, branch: string): (r: Option<string>)
    ensures r.Some? <==>
      "extra" in p.config && "branch-alias" in p.config["extra"]
      && branch in p.config["extra"]["branch-alias"]
    ensures r.Some? ==> r.value == p.config["extra"]["branch-alias"][branch]
  {
    if "extra" in p.config && "branch-alias" in p.config["extra"]
       && branch in p.config["extra"]["branch-alias"]
    then Some(p.config["extra"]["branch-alias"][branch])
    else None
  }

  const DevSuffix: string := ".x-dev"

  /** `series`: no series without an alias; otherwise the alias with every
      ".x-dev" removed, parsed as a series, whose error propagates. */
  function Series(p: Package, branch: string): (r: Result<Option<RS.Series>>)
    ensures r == Success(None) <==> BranchAlias(p, branch).None?
    ensures BranchAlias(p, branch).Some? ==>
      var parsed := RS.Parse(RemoveAll(BranchAlias(p, branch).value, DevSuffix));
      && (r.Success? <==> parsed.Success?)
      && (r.Success? ==> r.value == Some(parsed.value))
      && (r.Failure? ==> r.error == parsed.error)
  {
    match BranchAlias(p, branch)
    case None => Success(None)
    case Some(alias) =>
      match RS.Parse(RemoveAll(alias, DevSuffix))
      case Success(s) => Success(Some(s))
      case Failure(e) => Failure(e)
  }

  /** An alias "<n>.x-dev", with no 'x' in n, names the series n. */
  lemma SeriesOfDevAlias(p: Package, branch: string, n: string)
    requires BranchAlias(p, branch) == Some(n + DevSuffix)
    requires 'x' !in n
    ensures RS.Parse(n).Success? ==> Series(p, branch) == Success(Some(RS.Parse(n).value))
    ensures RS.Parse(n).Failure? ==> Series(p, branch) == Failure(RS.Parse(n).error)
  {
    RemoveAllTrailing(n, DevSuffix);
  }

  /** An alias "1.0.x-dev" names the minor series 1.0. */
  lemma SeriesOfAliasExample(p: Package, branch: string)
    requires BranchAlias(p, branch) == Some("1.0.x-dev")
    ensures Series(p, branch) == Success(Some(RS.Series("1.0", RS.Minor)))
  {
    assert "1.0" + DevSuffix == "1.0.x-dev";
    SeriesOfDevAlias(p, branch, "1.0");
    RS.ParseShape("1.0");
  }
}
