/** The world a version finder talks to, as values: the console (what was
    written, the inputs still to be typed at prompts, the answers still to be
    given to confirmations) and the repository as the finders see it (the
    current branch and the last releases of a series). Every console call and
    every repository query is recorded, in order, in the trace. */
module Sessions {
  import opened Base
  import RS = ReleaseSeries
  import V = Versions

  datatype Event =
    | Wrote(line: string)
    | Prompted(message: string, input: string)
    | Confirmed(question: string, answer: bool)
    | BranchQueried
    | ReleasesQueried(series: Option<RS.Series>, amount: int)

  /** `inputs` and `answers` run out when the user aborts with Ctrl+C. */
  datatype Console = Console(trace: seq<Event>, inputs: seq<string>, answers: seq<bool>)

  /** `branch`: the current branch, None where the repository knows none;
      `lastReleases(series, amount)`: the tags, None for no series filter. */
  datatype RepositoryView = RepositoryView(
    branch: Result<Option<string>>,
    lastReleases: (Option<RS.Series>, int) -> Result<seq<string>>)

  /** What a finder ends with: a version, PHP's null, an exception that
      propagates, or the session ended by the user. */
  datatype Outcome =
    | Found(version: V.Version)
    | NotFound
    | Failed(error: Error)
    | Aborted

  /** The text a branch takes in string concatenation (null gives ""). */
  function BranchText(b: Option<string>): string
  {
    match b
    case None => ""
    case Some(name) => name
  }

  function Record(c: Console, e: Event): (r: Console)
    ensures r.trace == c.trace + [e] && r.inputs == c.inputs && r.answers == c.answers
  {
    c.(trace := c.trace + [e])
  }

  /** `writeLine`. */
  function WriteLine(c: Console, line: string): (r: Console)
    ensures r == Record(c, Wrote(line))
  {
    Record(c, Wrote(line))
  }

  function Lines(lines: seq<string>): (r: seq<Event>)
    ensures |r| == |lines| && forall i :: 0 <= i < |lines| ==> r[i] == Wrote(lines[i])
  {
    seq(|lines|, i requires 0 <= i < |lines| => Wrote(lines[i]))
  }

  /** One `writeLine` per line, in order. */
  function WriteLines(c: Console, lines: seq<string>): (r: Console)
    ensures r.trace == c.trace + Lines(lines) && r.inputs == c.inputs && r.answers == c.answers
  {
    c.(trace := c.trace + Lines(lines))
  }

  /** Writing the lines one by one is writing them all. */
  lemma WriteLinesStep(c: Console, lines: seq<string>, line: string)
    ensures WriteLine(WriteLines(c, lines), line) == WriteLines(c, lines + [line])
  {
    assert Lines(lines + [line]) == Lines(lines) + [Wrote(line)];
  }

  /** `prompt(message)`: the next input, None when the user aborts. */
  function Prompt(c: Console, message: string): (r: Option<(string, Console)>)
    ensures r.None? <==> c.inputs == []
    ensures r.Some? ==>
      r.value.0 == c.inputs[0]
      && r.value.1 == Console(c.trace + [Prompted(message, c.inputs[0])], c.inputs[1..], c.answers)
  {
    if c.inputs == [] then None
    else Some((c.inputs[0], Console(c.trace + [Prompted(message, c.inputs[0])], c.inputs[1..], c.answers)))
  }

  /** `confirm(question)`: the next answer, None when the user aborts. */
  function Confirm(c: Console, question: string): (r: Option<(bool, Console)>)
    ensures r.None? <==> c.answers == []
    ensures r.Some? ==>
      r.value.0 == c.answers[0]
      && r.value.1 == Console(c.trace + [Confirmed(question, c.answers[0])], c.inputs, c.answers[1..])
  {
    if c.answers == [] then None
    else Some((c.answers[0], Console(c.trace + [Confirmed(question, c.answers[0])], c.inputs, c.answers[1..])))
  }
}
