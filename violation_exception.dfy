/** ContractViolationException: the error raised when a caller asks for a valid execution and
    the execution has violations, or when an exit-code assertion fails. */
module ViolationExceptions {
  import opened Wrappers
  import opened Text
  import opened Violations

  /** The exception's read-only state. The execution details are null unless the
      execution-details constructor supplied them. */
  datatype ContractViolationException = ContractViolationException(
    message: string,
    violations: seq<ContractViolation>,
    exitCode: Option<int>,
    stdOut: Option<string>,
    stdErr: Option<string>)

  /** The separator of the exception message: a literal line feed, whatever the platform's
      Environment.NewLine is. */
  const LineFeed: string := "\n"

  /** The "  - message" line of each violation, in order. */
  function BulletLines(vs: seq<ContractViolation>): seq<string>
  {
    seq(|vs|, i requires 0 <= i < |vs| => "  - " + vs[i].message)
  }

  /** The header line of a message about two or more violations. */
  function CountHeader(n: nat): string
  {
    "Contract violations (" + IntToString(n) + "):"
  }

  /** The exception message: a fixed text for no violations, the one message for a single
      violation, otherwise a counted header and one bullet line per violation. */
  function BuildMessage(vs: seq<ContractViolation>): (m: string)
    ensures |vs| == 0 ==> m == "Contract validation failed."
    ensures |vs| == 1 ==> m == "Contract violation: " + vs[0].message
    ensures |vs| >= 2 ==> |m| > |CountHeader(|vs|)| && m[..|CountHeader(|vs|)| + 1] == CountHeader(|vs|) + LineFeed
  {
    if |vs| == 0 then "Contract validation failed."
    else if |vs| == 1 then "Contract violation: " + vs[0].message
    else CountHeader(|vs|) + LineFeed + Join(LineFeed, BulletLines(vs))
  }

  /** The execution-details constructor: the violations in order, the message built from them,
      and the exit code and both streams exactly as given. */
  function WithExecutionDetails(vs: seq<ContractViolation>, exitCode: int, stdOut: string, stdErr: string)
    : (e: ContractViolationException)
    ensures e.violations == vs && e.message == BuildMessage(vs)
    ensures e.exitCode == Some(exitCode) && e.stdOut == Some(stdOut) && e.stdErr == Some(stdErr)
  {
    ContractViolationException(BuildMessage(vs), vs, Some(exitCode), Some(stdOut), Some(stdErr))
  }

  /** The message-only constructor: no violations and no execution details. */
  function WithMessage(message: string): (e: ContractViolationException)
    ensures e.message == message && e.violations == []
    ensures e.exitCode == None && e.stdOut == None && e.stdErr == None
  {
    ContractViolationException(message, [], None, None, None)
  }

  /** The violations-only constructor: the violations in order, the message built from them,
      and no execution details. */
  function WithViolations(vs: seq<ContractViolation>): (e: ContractViolationException)
    ensures e.violations == vs && e.message == BuildMessage(vs)
    ensures e.exitCode == None && e.stdOut == None && e.stdErr == None
  {
    ContractViolationException(BuildMessage(vs), vs, None, None, None)
  }

  /** Whenever there is at least one violation, each violation's message occurs in the
      exception message. */
  lemma BuildMessageMentionsEvery(vs: seq<ContractViolation>, i: nat)
    requires i < |vs|
    ensures Contains(BuildMessage(vs), vs[i].message)
  {
    if |vs| == 1 {
      ContainsSelf(vs[0].message);
      ContainsInConcat("Contract violation: ", vs[0].message, vs[0].message);
    } else {
      var bullets := BulletLines(vs);
      JoinContainsEach(LineFeed, bullets, i);
      ContainsSelf(vs[i].message);
      ContainsInConcat("  - ", vs[i].message, vs[i].message);
      ContainsTransitive(Join(LineFeed, bullets), bullets[i], vs[i].message);
      ContainsInConcat(CountHeader(|vs|) + LineFeed, Join(LineFeed, bullets), vs[i].message);
    }
  }

  /** A message about n >= 2 violations whose messages are single lines splits into the
      counted header followed by one "  - message" line per violation, in order. */
  lemma BuildMessageLines(vs: seq<ContractViolation>)
    requires |vs| >= 2
    requires forall i :: 0 <= i < |vs| ==> '\n' !in vs[i].message
    ensures Split(BuildMessage(vs), '\n') == [CountHeader(|vs|)] + BulletLines(vs)
  {
    var lines := [CountHeader(|vs|)] + BulletLines(vs);
    assert lines[1..] == BulletLines(vs);
    assert Join(LineFeed, lines) == BuildMessage(vs);
    assert '\n' !in IntToString(|vs|) by {
      assert AllDigits(IntToString(|vs|));
    }
    forall k | 0 <= k < |lines|
      ensures '\n' !in lines[k]
    {
      if k > 0 {
        assert lines[k] == "  - " + vs[k - 1].message;
      }
    }
    SplitJoin(lines, '\n');
  }

  /** The count of a message about n >= 2 violations appears in it. */
  lemma BuildMessageCounts(vs: seq<ContractViolation>)
    requires |vs| >= 2
    ensures Contains(BuildMessage(vs), IntToString(|vs|))
  {
    var n := IntToString(|vs|);
    ContainsSelf(n);
    ContainsInConcat("Contract violations (", n, n);
    ContainsInConcat("Contract violations (" + n, "):", n);
    ContainsInConcat(CountHeader(|vs|), LineFeed, n);
    ContainsInConcat(CountHeader(|vs|) + LineFeed, Join(LineFeed, BulletLines(vs)), n);
  }
}
