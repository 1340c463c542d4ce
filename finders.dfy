/** The version finders: the one that derives the next version of the
    current series and asks for confirmation, the one that asks the user,
    and the chain that tries finders in order until one yields a version.
    Each finder is a function of the package, the repository and the
    console (its specification) and a method that performs the same steps
    one after the other. */
module Finders {
  import opened Base
  import opened Sessions
  import C = Composer
  import RS = ReleaseSeries
  import V = Versions
  import LF = LegacyFinders

  /* ---------------- the next version of the current series ---------------- */

  function NoSeriesMessage(branch: string): string
  {
    "Can not determine current series for branch " + branch
  }

  function FirstVersionMessage(s: RS.Series, v: V.Version): string
  {
    "No release in series " + RS.ToString(s) + " yet, determined " + V.ToString(v) + " as first version number."
  }

  function NextVersionMessage(s: RS.Series, last: V.Version, v: V.Version): string
  {
    "Last release in series " + RS.ToString(s) + " was " + V.ToString(last)
    + ", determined " + V.ToString(v) + " as next version number."
  }

  const ConfirmQuestion: string := "Do you want to create a release with this version number? "

  /** `lastRelease`: None for a series without releases, else the newest
      release as a version, or the constructor's error for a malformed tag. */
  function LastRelease(repo: RepositoryView, s: RS.Series): (r: Result<Option<V.Version>>)
    ensures repo.lastReleases(Some(s), 1).Failure? ==> r == Failure(repo.lastReleases(Some(s), 1).error)
    ensures repo.lastReleases(Some(s), 1).Success? ==>
      var rs := repo.lastReleases(Some(s), 1).value;
      && (|rs| == 0 ==> r == Success(None))
      && (|rs| > 0 && V.Parse(rs[0]).Success? ==> r == Success(Some(V.Parse(rs[0]).value)))
      && (|rs| > 0 && V.Parse(rs[0]).Failure? ==> r == Failure(InvalidVersion(V.InvalidVersionMessage(rs[0]))))
    ensures r.Success? && r.value.Some? ==> V.Valid(r.value.value)
  {
    match repo.lastReleases(Some(s), 1)
    case Failure(e) => Failure(e)
    case Success(rs) =>
      if |rs| == 0 then Success(None)
      else
        match V.Parse(rs[0])
        case Failure(e) => Failure(e)
        case Success(v) => Success(Some(v))
  }

  /** The candidate version and the line that announces it. */
  function Candidate(s: RS.Series, last: Option<V.Version>): (r: Result<(V.Version, string)>)
    requires RS.Valid(s) && (last.Some? ==> V.Valid(last.value))
    ensures last.None? ==> r == Success((RS.FirstVersion(s), FirstVersionMessage(s, RS.FirstVersion(s))))
    ensures last.Some? ==>
      var next := RS.NextVersion(s, last.value);
      && (r.Success? <==> next.Success?)
      && (r.Success? ==> r.value == (next.value, NextVersionMessage(s, last.value, next.value)))
      && (r.Failure? ==> r.error == next.error)
  {
    match last
    case None =>
      var v := RS.FirstVersion(s);
      Success((v, FirstVersionMessage(s, v)))
    case Some(l) =>
      match RS.NextVersion(s, l)
      case Failure(e) => Failure(e)
      case Success(v) => Success((v, NextVersionMessage(s, l, v)))
  }

  /** The confirmation: the candidate when the user agrees, else none. */
  function ConfirmCandidate(v: V.Version, c: Console): (r: (Outcome, Console))
    ensures c.answers == [] ==> r == (Aborted, c)
    ensures c.answers != [] ==>
      && r.1 == Console(c.trace + [Confirmed(ConfirmQuestion, c.answers[0])], c.inputs, c.answers[1..])
      && (r.0 == Found(v) <==> c.answers[0]) && (r.0 == NotFound <==> !c.answers[0])
  {
    match Confirm(c, ConfirmQuestion)
    case None => (Aborted, c)
    case Some((yes, c1)) => (if yes then Found(v) else NotFound, c1)
  }

  /** `NextSeriesVersionFinder::find`. */
  function NextSeriesSpec(pkg: C.Package, repo: RepositoryView, c: Console): (r: (Outcome, Console))
    ensures r.1.inputs == c.inputs
    ensures |r.1.trace| > |c.trace| && r.1.trace[..|c.trace| + 1] == c.trace + [BranchQueried]
    ensures repo.branch.Failure? ==> r == (Failed(repo.branch.error), Record(c, BranchQueried))
  {
    var c1 := Record(c, BranchQueried);
    match repo.branch
    case Failure(e) => (Failed(e), c1)
    case Success(b) =>
      match C.Series(pkg, "dev-" + BranchText(b))
      case Failure(e) => (Failed(e), c1)
      case Success(None) => (NotFound, WriteLine(Record(c1, BranchQueried), NoSeriesMessage(BranchText(b))))
      case Success(Some(s)) =>
        var c2 := Record(c1, ReleasesQueried(Some(s), 1));
        match LastRelease(repo, s)
        case Failure(e) => (Failed(e), c2)
        case Success(last) =>
          match Candidate(s, last)
          case Failure(e) => (Failed(e), c2)
          case Success((v, message)) => ConfirmCandidate(v, WriteLine(c2, message))
  }

  method NextSeriesFind(pkg: C.Package, repo: RepositoryView, c: Console) returns (o: Outcome, c': Console)
    ensures (o, c') == NextSeriesSpec(pkg, repo, c)
  {
    c' := Record(c, BranchQueried);
    if repo.branch.Failure? {
      return Failed(repo.branch.error), c';
    }
    var branch := BranchText(repo.branch.value);
    var series := C.Series(pkg, "dev-" + branch);
    if series.Failure? {
      return Failed(series.error), c';
    }
    if series.value.None? {
      c' := Record(c', BranchQueried);
      c' := WriteLine(c', NoSeriesMessage(branch));
      return NotFound, c';
    }
    var s := series.value.value;
    c' := Record(c', ReleasesQueried(Some(s), 1));
    var last := LastRelease(repo, s);
    if last.Failure? {
      return Failed(last.error), c';
    }
    var candidate := Candidate(s, last.value);
    if candidate.Failure? {
      return Failed(candidate.error), c';
    }
    var (version, message) := candidate.value;
    c' := WriteLine(c', message);
    var answer := Confirm(c', ConfirmQuestion);
    if answer.None? {
      return Aborted, c';
    }
    c' := answer.value.1;
    if answer.value.0 {
      o := Found(version);
    } else {
      o := NotFound;
    }
  }

  /** Without a series for the branch: the one line naming the branch, no
      release query, no confirmation, no version. */
  lemma NextSeriesWithoutSeries(pkg: C.Package, repo: RepositoryView, c: Console, b: Option<string>)
    requires repo.branch == Success(b) && C.Series(pkg, "dev-" + BranchText(b)) == Success(None)
    ensures NextSeriesSpec(pkg, repo, c) ==
      (NotFound, Console(c.trace + [BranchQueried, BranchQueried, Wrote(NoSeriesMessage(BranchText(b)))], c.inputs, c.answers))
  {
    var line := Wrote(NoSeriesMessage(BranchText(b)));
    assert NextSeriesSpec(pkg, repo, c) == (NotFound, WriteLine(Record(Record(c, BranchQueried), BranchQueried), NoSeriesMessage(BranchText(b))));
    assert c.trace + [BranchQueried] + [BranchQueried] + [line] == c.trace + [BranchQueried, BranchQueried, line];
  }

  /** A series without releases: the first version is announced and
      returned when the user confirms. */
  lemma NextSeriesFirstRelease(pkg: C.Package, repo: RepositoryView, c: Console, b: Option<string>, s: RS.Series)
    requires repo.branch == Success(b) && C.Series(pkg, "dev-" + BranchText(b)) == Success(Some(s))
    requires repo.lastReleases(Some(s), 1) == Success([]) && c.answers != []
    ensures RS.Valid(s)
    ensures var v := RS.FirstVersion(s);
      NextSeriesSpec(pkg, repo, c) ==
      (if c.answers[0] then Found(v) else NotFound,
       Console(c.trace + [BranchQueried, ReleasesQueried(Some(s), 1), Wrote(FirstVersionMessage(s, v)),
                          Confirmed(ConfirmQuestion, c.answers[0])],
               c.inputs, c.answers[1..]))
  {
    var c2 := Record(Record(c, BranchQueried), ReleasesQueried(Some(s), 1));
    var v := RS.FirstVersion(s);
    assert LastRelease(repo, s) == Success(None);
    Announced(s, c2, v, FirstVersionMessage(s, v));
    assert NextSeriesSpec(pkg, repo, c) == ConfirmCandidate(v, WriteLine(c2, FirstVersionMessage(s, v)));
    TraceOfRun(c.trace, s, Wrote(FirstVersionMessage(s, v)), Confirmed(ConfirmQuestion, c.answers[0]));
  }

  lemma TraceOfRun(t: seq<Event>, s: RS.Series, e1: Event, e2: Event)
    ensures t + [BranchQueried] + [ReleasesQueried(Some(s), 1)] + [e1, e2]
         == t + [BranchQueried, ReleasesQueried(Some(s), 1), e1, e2]
  {
  }

  /** The tail of a successful run: the announcement and the confirmation. */
  lemma Announced(s: RS.Series, c2: Console, v: V.Version, message: string)
    requires c2.answers != []
    ensures ConfirmCandidate(v, WriteLine(c2, message)) ==
      (if c2.answers[0] then Found(v) else NotFound,
       Console(c2.trace + [Wrote(message), Confirmed(ConfirmQuestion, c2.answers[0])], c2.inputs, c2.answers[1..]))
  {
    assert c2.trace + [Wrote(message)] + [Confirmed(ConfirmQuestion, c2.answers[0])]
        == c2.trace + [Wrote(message), Confirmed(ConfirmQuestion, c2.answers[0])];
  }

  /** A series with releases: the version after the newest one is announced
      together with it and returned when the user confirms. */
  lemma NextSeriesNextRelease(pkg: C.Package, repo: RepositoryView, c: Console, b: Option<string>, s: RS.Series,
                              rs: seq<string>, last: V.Version, v: V.Version)
    requires repo.branch == Success(b) && C.Series(pkg, "dev-" + BranchText(b)) == Success(Some(s))
    requires repo.lastReleases(Some(s), 1) == Success(rs) && |rs| > 0 && V.Parse(rs[0]) == Success(last)
    requires RS.Valid(s) && V.Valid(last) && RS.NextVersion(s, last) == Success(v)
    requires c.answers != []
    ensures NextSeriesSpec(pkg, repo, c) ==
      (if c.answers[0] then Found(v) else NotFound,
       Console(c.trace + [BranchQueried, ReleasesQueried(Some(s), 1), Wrote(NextVersionMessage(s, last, v)),
                          Confirmed(ConfirmQuestion, c.answers[0])],
               c.inputs, c.answers[1..]))
  {
    var c2 := Record(Record(c, BranchQueried), ReleasesQueried(Some(s), 1));
    var message := NextVersionMessage(s, last, v);
    assert LastRelease(repo, s) == Success(Some(last));
    assert Candidate(s, Some(last)) == Success((v, message));
    Announced(s, c2, v, message);
    assert NextSeriesSpec(pkg, repo, c) == ConfirmCandidate(v, WriteLine(c2, message));
    TraceOfRun(c.trace, s, Wrote(message), Confirmed(ConfirmQuestion, c.answers[0]));
  }

  /** A malformed newest tag fails with the version error before anything is
      written or confirmed. */
  lemma NextSeriesMalformedTag(pkg: C.Package, repo: RepositoryView, c: Console, b: Option<string>, s: RS.Series,
                               rs: seq<string>)
    requires repo.branch == Success(b) && C.Series(pkg, "dev-" + BranchText(b)) == Success(Some(s))
    requires repo.lastReleases(Some(s), 1) == Success(rs) && |rs| > 0 && V.Parse(rs[0]).Failure?
    ensures NextSeriesSpec(pkg, repo, c) ==
      (Failed(InvalidVersion(V.InvalidVersionMessage(rs[0]))),
       Console(c.trace + [BranchQueried, ReleasesQueried(Some(s), 1)], c.inputs, c.answers))
  {
    assert LastRelease(repo, s) == Failure(InvalidVersion(V.InvalidVersionMessage(rs[0])));
    assert c.trace + [BranchQueried] + [ReleasesQueried(Some(s), 1)] == c.trace + [BranchQueried, ReleasesQueried(Some(s), 1)];
  }

  /** A version is only ever returned right after the user said yes, and no
      prompt input is consumed. */
  lemma NextSeriesFoundOnlyIfConfirmed(pkg: C.Package, repo: RepositoryView, c: Console)
    ensures var (o, c') := NextSeriesSpec(pkg, repo, c);
      && c'.inputs == c.inputs
      && (o.Found? ==>
            |c.answers| > 0 && c.answers[0] && c'.answers == c.answers[1..]
            && |c'.trace| > 0 && c'.trace[|c'.trace| - 1] == Confirmed(ConfirmQuestion, true))
  {
    var c1 := Record(c, BranchQueried);
    match repo.branch
    case Failure(_) =>
    case Success(b) =>
      match C.Series(pkg, "dev-" + BranchText(b))
      case Failure(_) =>
      case Success(None) =>
      case Success(Some(s)) =>
        var c2 := Record(c1, ReleasesQueried(Some(s), 1));
        match LastRelease(repo, s)
        case Failure(_) =>
        case Success(last) =>
          match Candidate(s, last)
          case Failure(_) =>
          case Success((v, message)) =>
            var c3 := WriteLine(c2, message);
            assert NextSeriesSpec(pkg, repo, c) == ConfirmCandidate(v, c3);
            ConfirmedWhenFound(v, c3);
  }

  /** Confirming yields the version only on a "yes", which it records last. */
  lemma ConfirmedWhenFound(v: V.Version, c: Console)
    ensures var (o, c') := ConfirmCandidate(v, c);
      && c'.inputs == c.inputs
      && (o.Found? ==>
            |c.answers| > 0 && c.answers[0] && c'.answers == c.answers[1..]
            && |c'.trace| > 0 && c'.trace[|c'.trace| - 1] == Confirmed(ConfirmQuestion, true))
  {
  }

  /* ---------------- asking the user ---------------- */

  const LastReleasesHeading: string := "Last 5 releases:"
  const PromptMessage: string := "Please name the version to release (press Ctrl+C to abort): "

  /** `askForVersion`: prompt until an input parses; every rejected input
      has its error message written. Only an abort ends it otherwise, and
      what was recorded before stays as it was. */
  function AskLoop(c: Console): (r: (Outcome, Console))
    ensures r.0.Found? || r.0.Aborted?
    ensures r.0.Aborted? ==> r.1.inputs == []
    ensures c.trace <= r.1.trace && r.1.answers == c.answers
    decreases |c.inputs|
  {
    match Prompt(c, PromptMessage)
    case None => (Aborted, c)
    case Some((input, c1)) =>
      match V.Parse(input)
      case Success(v) => (Found(v), c1)
      case Failure(e) => AskLoop(WriteLine(c1, e.message))
  }

  /** The events of one rejected input: its prompt, then its error message. */
  function RetryEvents(input: string): seq<Event>
  {
    [Prompted(PromptMessage, input), Wrote(V.InvalidVersionMessage(input))]
  }

  /** The events of rejected inputs, in order. */
  function Retries(inputs: seq<string>): (r: seq<Event>)
    ensures |r| == 2 * |inputs|
  {
    if inputs == [] then [] else RetryEvents(inputs[0]) + Retries(inputs[1..])
  }

  lemma RetriesCons(t: seq<Event>, input: string, rest: seq<string>)
    ensures t + RetryEvents(input) + Retries(rest) == t + Retries([input] + rest)
  {
    assert ([input] + rest)[1..] == rest;
  }

  /** The number of prompts in a trace. */
  function PromptCount(events: seq<Event>): (n: nat)
    ensures n <= |events|
  {
    if events == [] then 0
    else (if events[0].Prompted? then 1 else 0) + PromptCount(events[1..])
  }

  lemma {:induction false} PromptCountAppend(a: seq<Event>, b: seq<Event>)
    ensures PromptCount(a + b) == PromptCount(a) + PromptCount(b)
  {
    if a == [] {
      assert a + b == b;
    } else {
      assert (a + b)[0] == a[0];
      assert (a + b)[1..] == a[1..] + b;
      PromptCountAppend(a[1..], b);
    }
  }

  lemma {:induction false} RetriesPromptCount(inputs: seq<string>)
    ensures PromptCount(Retries(inputs)) == |inputs|
  {
    if inputs != [] {
      var head := RetryEvents(inputs[0]);
      PromptCountAppend(head, Retries(inputs[1..]));
      RetriesPromptCount(inputs[1..]);
      assert head[1..] == [Wrote(V.InvalidVersionMessage(inputs[0]))];
    }
  }

  /** Rejected inputs stay rejected when the first one is consumed. */
  lemma RejectedTail(inputs: seq<string>, k: nat)
    requires 0 < k <= |inputs|
    requires forall j :: 0 <= j < k ==> V.Parse(inputs[j]).Failure?
    ensures forall j :: 0 <= j < k - 1 ==> V.Parse(inputs[1..][j]).Failure?
  {
    forall j | 0 <= j < k - 1
      ensures V.Parse(inputs[1..][j]).Failure?
    {
      assert inputs[1..][j] == inputs[j + 1];
    }
  }

  /** One rejected input: its prompt and its error message, then the loop
      goes on with the rest of the inputs. */
  lemma AskLoopRetry(c: Console)
    requires c.inputs != [] && V.Parse(c.inputs[0]).Failure?
    ensures AskLoop(c) ==
      AskLoop(Console(c.trace + RetryEvents(c.inputs[0]), c.inputs[1..], c.answers))
  {
    var input := c.inputs[0];
    assert c.trace + [Prompted(PromptMessage, input)] + [Wrote(V.InvalidVersionMessage(input))]
        == c.trace + RetryEvents(input);
  }

  /** The loop returns the version of the first input that parses, after
      writing the error for each input before it, and consumes exactly the
      inputs up to and including that one. */
  lemma {:induction false} AskLoopFirstValid(c: Console, k: nat)
    requires k < |c.inputs|
    requires forall j :: 0 <= j < k ==> V.Parse(c.inputs[j]).Failure?
    requires V.Parse(c.inputs[k]).Success?
    ensures AskLoop(c) ==
      (Found(V.Parse(c.inputs[k]).value),
       Console(c.trace + Retries(c.inputs[..k]) + [Prompted(PromptMessage, c.inputs[k])], c.inputs[k + 1..], c.answers))
    decreases k
  {
    if k > 0 {
      var c1 := Console(c.trace + RetryEvents(c.inputs[0]), c.inputs[1..], c.answers);
      RejectedTail(c.inputs, k);
      assert c1.inputs[k - 1] == c.inputs[k];
      AskLoopFirstValid(c1, k - 1);
      AskLoopFirstValidStep(c, k);
    } else {
      AskLoopAccept(c);
    }
  }

  /** The step of the induction above: the result for the inputs after the
      first, rejected one is the result for all of them. */
  lemma AskLoopFirstValidStep(c: Console, k: nat)
    requires 0 < k < |c.inputs|
    requires V.Parse(c.inputs[0]).Failure? && V.Parse(c.inputs[k]).Success?
    requires var c1 := Console(c.trace + RetryEvents(c.inputs[0]), c.inputs[1..], c.answers);
      AskLoop(c1) ==
      (Found(V.Parse(c1.inputs[k - 1]).value),
       Console(c1.trace + Retries(c1.inputs[..k - 1]) + [Prompted(PromptMessage, c1.inputs[k - 1])], c1.inputs[k - 1 + 1..], c1.answers))
    ensures AskLoop(c) ==
      (Found(V.Parse(c.inputs[k]).value),
       Console(c.trace + Retries(c.inputs[..k]) + [Prompted(PromptMessage, c.inputs[k])], c.inputs[k + 1..], c.answers))
  {
    AskLoopRetry(c);
    FirstValidShift(c, k);
  }

  /** An input that parses ends the loop with its version. */
  lemma AskLoopAccept(c: Console)
    requires c.inputs != [] && V.Parse(c.inputs[0]).Success?
    ensures AskLoop(c) ==
      (Found(V.Parse(c.inputs[0]).value),
       Console(c.trace + Retries(c.inputs[..0]) + [Prompted(PromptMessage, c.inputs[0])], c.inputs[0 + 1..], c.answers))
  {
    assert c.inputs[..0] == [];
    assert c.trace + Retries(c.inputs[..0]) == c.trace;
  }

  /** The console after the first valid input, seen from one input later. */
  lemma FirstValidShift(c: Console, k: nat)
    requires 0 < k < |c.inputs|
    ensures var c1 := Console(c.trace + RetryEvents(c.inputs[0]), c.inputs[1..], c.answers);
      && c1.inputs[k - 1] == c.inputs[k]
      && Console(c1.trace + Retries(c1.inputs[..k - 1]) + [Prompted(PromptMessage, c1.inputs[k - 1])], c1.inputs[k - 1 + 1..], c1.answers)
         == Console(c.trace + Retries(c.inputs[..k]) + [Prompted(PromptMessage, c.inputs[k])], c.inputs[k + 1..], c.answers)
  {
    var input := c.inputs[0];
    var rest := c.inputs[1..];
    assert rest[k - 1 + 1..] == c.inputs[k + 1..];
    assert c.inputs[..k] == [input] + rest[..k - 1];
    RetriesCons(c.trace, input, rest[..k - 1]);
  }

  /** So the number of prompts is the position of the first valid input
      plus one. */
  lemma AskLoopPromptCount(c: Console, k: nat)
    requires k < |c.inputs|
    requires forall j :: 0 <= j < k ==> V.Parse(c.inputs[j]).Failure?
    requires V.Parse(c.inputs[k]).Success?
    ensures PromptCount(AskLoop(c).1.trace) == PromptCount(c.trace) + k + 1
  {
    AskLoopFirstValid(c, k);
    PromptCountAppend(c.trace + Retries(c.inputs[..k]), [Prompted(PromptMessage, c.inputs[k])]);
    PromptCountAppend(c.trace, Retries(c.inputs[..k]));
    RetriesPromptCount(c.inputs[..k]);
    assert [Prompted(PromptMessage, c.inputs[k])][1..] == [];
  }

  /** When no input parses the loop writes every error and ends only at the
      abort. */
  lemma {:induction false} AskLoopNoValid(c: Console)
    requires forall j :: 0 <= j < |c.inputs| ==> V.Parse(c.inputs[j]).Failure?
    ensures AskLoop(c) == (Aborted, Console(c.trace + Retries(c.inputs), [], c.answers))
    decreases |c.inputs|
  {
    if c.inputs == [] {
      assert Retries(c.inputs) == [];
      assert c.trace + Retries(c.inputs) == c.trace;
    } else {
      var input := c.inputs[0];
      var c1 := Console(c.trace + RetryEvents(input), c.inputs[1..], c.answers);
      AskLoopRetry(c);
      RejectedTail(c.inputs, |c.inputs|);
      AskLoopNoValid(c1);
      assert c.inputs == [input] + c1.inputs;
      RetriesCons(c.trace, input, c1.inputs);
      assert c1.trace + Retries(c1.inputs) == c.trace + Retries(c.inputs);
    }
  }

  /** `AskingVersionFinder::find`: the heading, the last five releases and
      an empty line, then the prompt loop. It never yields "no version":
      either the user names one, aborts, or the release query fails. */
  function AskingSpec(repo: RepositoryView, c: Console): (r: (Outcome, Console))
    ensures r.0 != NotFound
    ensures r.0.Failed? ==> repo.lastReleases(None, 5).Failure?
    ensures repo.lastReleases(None, 5).Success? ==>
      var before := c.trace + [Wrote(LastReleasesHeading), ReleasesQueried(None, 5)]
                    + Lines(repo.lastReleases(None, 5).value) + [Wrote("")];
      before <= r.1.trace
  {
    var c1 := Record(WriteLine(c, LastReleasesHeading), ReleasesQueried(None, 5));
    match repo.lastReleases(None, 5)
    case Failure(e) => (Failed(e), c1)
    case Success(rs) =>
      var c2 := WriteLine(WriteLines(c1, rs), "");
      assert c2.trace == c1.trace + Lines(rs) + [Wrote("")];
      assert c1.trace == c.trace + [Wrote(LastReleasesHeading), ReleasesQueried(None, 5)];
      AskLoop(c2)
  }

  method AskingFind(repo: RepositoryView, c: Console) returns (o: Outcome, c': Console)
    ensures (o, c') == AskingSpec(repo, c)
  {
    c' := WriteLine(c, LastReleasesHeading);
    c' := Record(c', ReleasesQueried(None, 5));
    var releases := repo.lastReleases(None, 5);
    if releases.Failure? {
      return Failed(releases.error), c';
    }
    var rs := releases.value;
    ghost var c1 := c';
    for i := 0 to |rs|
      invariant c' == WriteLines(c1, rs[..i])
    {
      WriteLinesStep(c1, rs[..i], rs[i]);
      assert rs[..i + 1] == rs[..i] + [rs[i]];
      c' := WriteLine(c', rs[i]);
    }
    assert rs[..|rs|] == rs;
    c' := WriteLine(c', "");
    ghost var start := c';
    while c'.inputs != []
      invariant AskLoop(c') == AskLoop(start)
      decreases |c'.inputs|
    {
      var input := c'.inputs[0];
      c' := Console(c'.trace + [Prompted(PromptMessage, input)], c'.inputs[1..], c'.answers);
      var version := V.Parse(input);
      if version.Success? {
        return Found(version.value), c';
      }
      c' := WriteLine(c', version.error.message);
    }
    o := Aborted;
  }

  /* ---------------- the chain ---------------- */

  /** The finders a chain can hold. The program binds only the next-series
      and the asking finder; the legacy branch finder can be put in a chain
      as it is written, and then fails wherever it runs on a branch with a
      series. */
  datatype Finder = NextSeries | Asking | NextBranch

  function Find(f: Finder, pkg: C.Package, repo: RepositoryView, c: Console): (r: (Outcome, Console))
  {
    match f
    case NextSeries => NextSeriesSpec(pkg, repo, c)
    case Asking => AskingSpec(repo, c)
    case NextBranch => LF.NextBranchAsWritten(pkg, repo, c)
  }

  method FindWith(f: Finder, pkg: C.Package, repo: RepositoryView, c: Console) returns (o: Outcome, c': Console)
    ensures (o, c') == Find(f, pkg, repo, c)
  {
    match f {
      case NextSeries => o, c' := NextSeriesFind(pkg, repo, c);
      case Asking => o, c' := AskingFind(repo, c);
      case NextBranch =>
        var r := LF.NextBranchAsWritten(pkg, repo, c);
        o, c' := r.0, r.1;
    }
  }

  /** `VersionFinderChain::find`: each finder in turn, on the console the
      previous one left, until one yields anything but "no version". */
  function Chain(finders: seq<Finder>, pkg: C.Package, repo: RepositoryView, c: Console): (r: (Outcome, Console))
    ensures finders == [] ==> r == (NotFound, c)
    decreases |finders|
  {
    if finders == [] then (NotFound, c)
    else
      var (o, c1) := Find(finders[0], pkg, repo, c);
      if o.NotFound? then Chain(finders[1..], pkg, repo, c1) else (o, c1)
  }

  method ChainFind(finders: seq<Finder>, pkg: C.Package, repo: RepositoryView, c: Console) returns (o: Outcome, c': Console)
    ensures (o, c') == Chain(finders, pkg, repo, c)
  {
    c' := c;
    var i := 0;
    while i < |finders|
      invariant 0 <= i <= |finders|
      invariant Chain(finders[i..], pkg, repo, c') == Chain(finders, pkg, repo, c)
    {
      assert finders[i..][1..] == finders[i + 1..];
      o, c' := FindWith(finders[i], pkg, repo, c');
      if !o.NotFound? {
        return;
      }
      i := i + 1;
    }
    o := NotFound;
  }

  /** Short circuit: once the first part of a chain yields something, the
      rest is never consulted; otherwise the rest runs on the console the
      first part left. */
  lemma {:induction false} ChainAppend(first: seq<Finder>, rest: seq<Finder>, pkg: C.Package, repo: RepositoryView, c: Console)
    ensures Chain(first + rest, pkg, repo, c) ==
      if Chain(first, pkg, repo, c).0.NotFound? then Chain(rest, pkg, repo, Chain(first, pkg, repo, c).1)
      else Chain(first, pkg, repo, c)
    decreases |first|
  {
    if first == [] {
      assert first + rest == rest;
    } else {
      assert (first + rest)[0] == first[0];
      assert (first + rest)[1..] == first[1..] + rest;
      var (o, c1) := Find(first[0], pkg, repo, c);
      if o.NotFound? {
        ChainAppend(first[1..], rest, pkg, repo, c1);
      }
    }
  }

  /** A chain in which every finder yields no version on the console the
      finders before it left yields no version. */
  lemma ChainAllNotFound(finders: seq<Finder>, pkg: C.Package, repo: RepositoryView, c: Console)
    requires forall k :: 0 <= k < |finders| ==> Find(finders[k], pkg, repo, Chain(finders[..k], pkg, repo, c).1).0 == NotFound
    ensures Chain(finders, pkg, repo, c).0 == NotFound
  {
    ChainPrefixNotFound(finders, |finders|, pkg, repo, c);
    assert finders[..|finders|] == finders;
  }

  lemma {:induction false} ChainPrefixNotFound(finders: seq<Finder>, j: nat, pkg: C.Package, repo: RepositoryView, c: Console)
    requires j <= |finders|
    requires forall k :: 0 <= k < |finders| ==> Find(finders[k], pkg, repo, Chain(finders[..k], pkg, repo, c).1).0 == NotFound
    ensures Chain(finders[..j], pkg, repo, c).0 == NotFound
    decreases j
  {
    if j > 0 {
      ChainPrefixNotFound(finders, j - 1, pkg, repo, c);
      assert finders[..j] == finders[..j - 1] + [finders[j - 1]];
      ChainAppend(finders[..j - 1], [finders[j - 1]], pkg, repo, c);
      var cj := Chain(finders[..j - 1], pkg, repo, c).1;
      assert Find(finders[j - 1], pkg, repo, cj).0 == NotFound;
      assert [finders[j - 1]][1..] == [];
    }
  }

  /** A chain that ends with the asking finder always ends with a version,
      an abort or an error, never with "no version". */
  lemma ChainEndingInAsking(finders: seq<Finder>, pkg: C.Package, repo: RepositoryView, c: Console)
    ensures Chain(finders + [Asking], pkg, repo, c).0 != NotFound
  {
    ChainAppend(finders, [Asking], pkg, repo, c);
  }
}
