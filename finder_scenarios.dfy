/** Runs of the finders on small inputs: a newest tag in a minor series,
    and a dialogue of one rejected and one accepted input. */
module FinderScenarios {
  import opened Base
  import opened Digits
  import opened SemVer
  import opened Sessions
  import V = Versions
  import RS = ReleaseSeries
  import F = Finders
  import opened Scenarios

  /** A tag "va.b.c" of single digits parses to a.b.c, which a minor series
      follows with a.b.(c+1). */
  lemma TagFollowedInMinor(s: RS.Series, a: nat, b: nat, c: nat)
    requires RS.Valid(s) && s.kind == RS.Minor && a < 10 && b < 10 && c < 9
    ensures var last := V.Version(Dotted(D(a), D(b), D(c)));
      && V.Valid(last)
      && V.Parse("v" + last.number) == Success(last)
      && RS.NextVersion(s, last) == Success(V.Version(Dotted(D(a), D(b), D(c + 1))))
  {
    IncreasePatchDigits(a, b, c);
    ParseDigits(a, b, c);
    var last := V.Version(Dotted(D(a), D(b), D(c)));
    assert last.number[0] == DigitChar(a);
    V.ParseLeadingV(last.number);
  }

  /** A rejected input followed by a valid one: two prompts, one error
      line, and the valid input's version. */
  lemma AskingSecondInput(c: Console)
    requires |c.inputs| == 2 && V.Parse(c.inputs[0]).Failure? && V.Parse(c.inputs[1]).Success?
    ensures F.AskLoop(c) ==
      (Found(V.Parse(c.inputs[1]).value),
       Console(c.trace + [Prompted(F.PromptMessage, c.inputs[0]),
                          Wrote(V.InvalidVersionMessage(c.inputs[0])),
                          Prompted(F.PromptMessage, c.inputs[1])], [], c.answers))
    ensures F.PromptCount(F.AskLoop(c).1.trace) == F.PromptCount(c.trace) + 2
  {
    var bad, good := c.inputs[0], c.inputs[1];
    var c1 := Console(c.trace + F.RetryEvents(bad), c.inputs[1..], c.answers);
    F.AskLoopRetry(c);
    F.AskLoopAccept(c1);
    assert c1.inputs[0] == good && c1.inputs[1..] == [];
    assert c1.trace + F.Retries(c1.inputs[..0]) == c1.trace;
    var events := [Prompted(F.PromptMessage, bad), Wrote(V.InvalidVersionMessage(bad)), Prompted(F.PromptMessage, good)];
    assert c1.trace + [Prompted(F.PromptMessage, good)] == c.trace + events;
    F.PromptCountAppend(c.trace, events);
    var last := [Prompted(F.PromptMessage, good)];
    assert last[1..] == [] && F.PromptCount(last) == 1;
    assert events[1..][1..] == last && F.PromptCount(events[1..]) == 1;
  }
}
