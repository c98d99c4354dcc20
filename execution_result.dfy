/** CliExecutionResult: what one validated execution produced, whether it met its contract,
    the exception that reports it when it did not, and the plain-text summary. The
    non-generic result only checks an exit code. */
module ExecutionResults {
  import opened Wrappers
  import opened Text
  import opened Violations
  import opened ViolationExceptions

  /** The result of an execution validated against a contract; all fields are init-only. */
  datatype CliExecutionResult = CliExecutionResult(
    exitCode: int,
    stdOut: string,
    stdErr: string,
    violations: seq<ContractViolation>,
    command: string,
    expectedCommand: string)

  /** IsValid: an execution is valid exactly when it has no violations. */
  predicate IsValid(r: CliExecutionResult)
    ensures IsValid(r) <==> r.violations == []
  {
    |r.violations| == 0
  }

  /** AssertValid: passes on a valid result; otherwise fails with the execution-details
      exception carrying this result's violations, exit code and both streams. */
  function AssertValid(r: CliExecutionResult): (o: Outcome<ContractViolationException>)
    ensures o.Pass? <==> r.violations == []
    ensures o.Fail? ==>
      && o.error.violations == r.violations
      && o.error.message == BuildMessage(r.violations)
      && o.error.exitCode == Some(r.exitCode)
      && o.error.stdOut == Some(r.stdOut)
      && o.error.stdErr == Some(r.stdErr)
  {
    if IsValid(r) then Pass
    else Fail(WithExecutionDetails(r.violations, r.exitCode, r.stdOut, r.stdErr))
  }

  /** The failure AssertValid reports names every violation in its message. */
  lemma AssertValidReportsEvery(r: CliExecutionResult, i: nat)
    requires i < |r.violations|
    ensures AssertValid(r).Fail?
    ensures Contains(AssertValid(r).error.message, r.violations[i].message)
  {
    BuildMessageMentionsEvery(r.violations, i);
  }

  /** bool.ToString(). */
  function BoolToString(b: bool): string
  {
    if b then "True" else "False"
  }

  /** The summary line of one violation: an indented bullet, then "[Type] Message". */
  function ViolationLine(v: ContractViolation): string
  {
    "  - " + ToString(v)
  }

  function ViolationLines(vs: seq<ContractViolation>): seq<string>
  {
    seq(|vs|, i requires 0 <= i < |vs| => ViolationLine(vs[i]))
  }

  lemma ViolationLinesSnoc(vs: seq<ContractViolation>, i: nat)
    requires i < |vs|
    ensures ViolationLines(vs[..i + 1]) == ViolationLines(vs[..i]) + [ViolationLine(vs[i])]
  {
  }

  /** The first three summary lines: the command, the exit code and the validity. */
  function HeaderLines(r: CliExecutionResult): seq<string>
  {
    ["Command: " + r.command, "Exit Code: " + IntToString(r.exitCode), "Valid: " + BoolToString(IsValid(r))]
  }

  /** The rest of the summary: nothing for no violations, else a counted header and one line
      per violation in order. */
  function ViolationSection(vs: seq<ContractViolation>): seq<string>
  {
    if |vs| > 0 then ["Violations (" + IntToString(|vs|) + "):"] + ViolationLines(vs) else []
  }

  /** The lines of the summary. */
  function SummaryLines(r: CliExecutionResult): seq<string>
  {
    HeaderLines(r) + ViolationSection(r.violations)
  }

  /** GetSummary: appends each summary line, line feed included, to a growing text. */
  method GetSummary(r: CliExecutionResult) returns (summary: string)
    ensures summary == Unlines(SummaryLines(r))
  {
    summary := "";
    summary := summary + "Command: " + r.command + NewLine;
    summary := summary + "Exit Code: " + IntToString(r.exitCode) + NewLine;
    summary := summary + "Valid: " + BoolToString(IsValid(r)) + NewLine;
    assert summary == Unlines(HeaderLines(r)) by { HeaderText(r); }
    if |r.violations| > 0 {
      var count := "Violations (" + IntToString(|r.violations|) + "):";
      ghost var head := HeaderLines(r) + [count];
      assert summary + count + NewLine == Unlines(head) by { UnlinesSnoc(HeaderLines(r), count); }
      summary := summary + count + NewLine;
      summary := AppendViolationLines(summary, head, r.violations);
      assert head + ViolationLines(r.violations) == SummaryLines(r) by {
        SeqAssoc(HeaderLines(r), [count], ViolationLines(r.violations));
      }
    } else {
      assert HeaderLines(r) == SummaryLines(r);
    }
  }

  /** The foreach of GetSummary: appends one bullet line per violation, in list order, to a text
      holding the lines `head`. */
  method AppendViolationLines(text: string, ghost head: seq<string>, vs: seq<ContractViolation>)
    returns (summary: string)
    requires text == Unlines(head)
    ensures summary == Unlines(head + ViolationLines(vs))
  {
    summary := text;
    var i := 0;
    assert head + ViolationLines(vs[..0]) == head;
    while i < |vs|
      invariant 0 <= i <= |vs|
      invariant summary == Unlines(head + ViolationLines(vs[..i]))
    {
      var line := ViolationLine(vs[i]);
      assert summary + line + NewLine == Unlines(head + ViolationLines(vs[..i + 1])) by {
        ViolationLinesSnoc(vs, i);
        SeqAssoc(head, ViolationLines(vs[..i]), [line]);
        UnlinesSnoc(head + ViolationLines(vs[..i]), line);
      }
      summary := summary + line + NewLine;
      i := i + 1;
    }
    assert vs[..i] == vs;
  }

  /** The three header lines, appended one after the other, are the text of HeaderLines. */
  lemma HeaderText(r: CliExecutionResult)
    ensures "" + "Command: " + r.command + NewLine + "Exit Code: " + IntToString(r.exitCode) + NewLine
            + "Valid: " + BoolToString(IsValid(r)) + NewLine == Unlines(HeaderLines(r))
  {
    var h := HeaderLines(r);
    UnlinesSnoc([], h[0]);
    UnlinesSnoc([h[0]], h[1]);
    UnlinesSnoc([h[0], h[1]], h[2]);
    assert [h[0]] == [] + [h[0]] && [h[0], h[1]] == [h[0]] + [h[1]] && h == [h[0], h[1]] + [h[2]];
  }

  /** The summary opens with the command, the exit code and the validity, in that order; the
      third line is "Valid: True" for a valid result and "Valid: False" otherwise. A valid result's summary ends
      there; otherwise the counted header and one line per violation follow. */
  lemma SummaryShape(r: CliExecutionResult)
    ensures |SummaryLines(r)| == if IsValid(r) then 3 else 4 + |r.violations|
    ensures SummaryLines(r)[0] == "Command: " + r.command
    ensures SummaryLines(r)[1] == "Exit Code: " + IntToString(r.exitCode)
    ensures SummaryLines(r)[2] == "Valid: " + (if r.violations == [] then "True" else "False")
    ensures SummaryLines(r)[2] == "Valid: True" <==> r.violations == []
  {
  }

  /** An invalid result's summary continues with the counted header, then one line per
      violation in list order. */
  lemma SummarySection(r: CliExecutionResult)
    requires !IsValid(r)
    ensures |SummaryLines(r)| == 4 + |r.violations|
    ensures SummaryLines(r)[3] == "Violations (" + IntToString(|r.violations|) + "):"
    ensures forall i :: 0 <= i < |r.violations| ==> SummaryLines(r)[4 + i] == ViolationLine(r.violations[i])
  {
  }

  /** A violation with a single-line message has a single-line summary line. */
  lemma ViolationLineSingle(v: ContractViolation)
    requires '\n' !in v.message
    ensures '\n' !in ViolationLine(v)
  {
    TypeNameSingleLine(v.violationType);
    assert ViolationLine(v) == "  - [" + Violations.TypeName(v.violationType) + "] " + v.message;
  }

  /** Every summary line is a single line when the command and the messages are. */
  lemma SummaryLinesSingle(r: CliExecutionResult)
    requires '\n' !in r.command
    requires forall i :: 0 <= i < |r.violations| ==> '\n' !in r.violations[i].message
    ensures NoLineFeeds(SummaryLines(r))
  {
    var header := HeaderLines(r);
    assert NoLineFeeds(header) by {
      IntToStringNoSeparators(r.exitCode);
      assert '\n' !in header[0] && '\n' !in header[1] && '\n' !in header[2];
    }
    if |r.violations| > 0 {
      var count := ["Violations (" + IntToString(|r.violations|) + "):"];
      assert NoLineFeeds(count) by {
        IntToStringNoSeparators(|r.violations|);
      }
      var bullets := ViolationLines(r.violations);
      assert NoLineFeeds(bullets) by {
        forall i | 0 <= i < |bullets|
          ensures '\n' !in bullets[i]
        {
          ViolationLineSingle(r.violations[i]);
        }
      }
      NoLineFeedsAppend(count, bullets);
      NoLineFeedsAppend(header, count + bullets);
    } else {
      assert SummaryLines(r) == header;
    }
  }

  /** The summary line of violation i sits after the four header lines and reads back as that
      violation's kind and message. */
  lemma SummaryViolationLine(r: CliExecutionResult, i: nat)
    requires i < |r.violations|
    ensures |SummaryLines(r)| > 4 + i && |SummaryLines(r)[4 + i]| >= 4
    ensures ParseViolationText(SummaryLines(r)[4 + i][4..])
      == Some((r.violations[i].violationType, r.violations[i].message))
  {
    var v := r.violations[i];
    SummarySection(r);
    assert SummaryLines(r)[4 + i][4..] == ToString(v) by {
      assert SummaryLines(r)[4 + i] == "  - " + ToString(v);
    }
    ToStringRoundTrip(v);
  }

  /** When the command and the messages are single lines, splitting the summary text at line
      feeds gives back exactly its lines (and the empty piece after the last line feed), so the
      exit code on the second line reads back as the result's exit code, and each violation
      line as its violation (SummaryViolationLine). */
  lemma SummaryReadBack(r: CliExecutionResult)
    requires '\n' !in r.command
    requires forall i :: 0 <= i < |r.violations| ==> '\n' !in r.violations[i].message
    ensures Split(Unlines(SummaryLines(r)), '\n') == SummaryLines(r) + [""]
    ensures |SummaryLines(r)[1]| >= 11 && ParseInt(SummaryLines(r)[1][11..]) == Some(r.exitCode)
  {
    SummaryLinesSingle(r);
    SplitUnlines(SummaryLines(r));
    assert SummaryLines(r)[1][11..] == IntToString(r.exitCode) by {
      assert SummaryLines(r)[1] == "Exit Code: " + IntToString(r.exitCode);
    }
    IntToStringRoundTrip(r.exitCode);
  }

  /** The non-generic result: only the exit code and the two streams. */
  datatype ExitCodeResult = ExitCodeResult(exitCode: int, stdOut: string, stdErr: string)

  /** The message AssertExitCode fails with. */
  function ExitCodeMismatchMessage(expected: int, actual: int): string
  {
    "Expected exit code " + IntToString(expected) + " but got " + IntToString(actual)
  }

  /** AssertExitCode: passes exactly when the exit code is the expected one; otherwise fails
      with a message-only exception that names both codes. */
  function AssertExitCode(r: ExitCodeResult, expected: int): (o: Outcome<ContractViolationException>)
    ensures o.Pass? <==> r.exitCode == expected
    ensures o.Fail? ==>
      && o.error.message == ExitCodeMismatchMessage(expected, r.exitCode)
      && o.error.violations == []
      && o.error.exitCode == None && o.error.stdOut == None && o.error.stdErr == None
  {
    if r.exitCode != expected then Fail(WithMessage(ExitCodeMismatchMessage(expected, r.exitCode)))
    else Pass
  }

  /** Reads the expected and the actual code back from a mismatch message. */
  function ParseExitCodeMismatch(message: string): Option<(int, int)>
  {
    var prefix := "Expected exit code ";
    if |message| >= |prefix| && message[..|prefix|] == prefix then
      var words := Split(message[|prefix|..], ' ');
      if |words| == 4 && words[1] == "but" && words[2] == "got" then
        match (ParseInt(words[0]), ParseInt(words[3]))
        case (Some(expected), Some(actual)) => Some((expected, actual))
        case _ => None
      else None
    else None
  }

  /** The mismatch message determines both codes. */
  lemma ExitCodeMismatchRoundTrip(expected: int, actual: int)
    ensures ParseExitCodeMismatch(ExitCodeMismatchMessage(expected, actual)) == Some((expected, actual))
  {
    var words := [IntToString(expected), "but", "got", IntToString(actual)];
    MismatchMessageWords(expected, actual);
    IntToStringNoSeparators(expected);
    IntToStringNoSeparators(actual);
    SplitJoin(words, ' ');
    IntToStringRoundTrip(expected);
    IntToStringRoundTrip(actual);
  }

  /** After its fixed opening, the mismatch message is the four words "<expected> but got
      <actual>" joined by spaces. */
  lemma MismatchMessageWords(expected: int, actual: int)
    ensures var message, prefix := ExitCodeMismatchMessage(expected, actual), "Expected exit code ";
      && |message| >= |prefix| && message[..|prefix|] == prefix
      && message[|prefix|..] == Join([' '], [IntToString(expected), "but", "got", IntToString(actual)])
  {
    var e, a := IntToString(expected), IntToString(actual);
    var message := ExitCodeMismatchMessage(expected, actual);
    var prefix := "Expected exit code ";
    assert message == prefix + (e + " but got " + a);
    assert message[|prefix|..] == e + " but got " + a;
    assert Join([' '], ["got", a]) == "got" + [' '] + a;
    assert Join([' '], ["but", "got", a]) == "but" + [' '] + ("got" + [' '] + a);
    assert Join([' '], [e, "but", "got", a]) == e + [' '] + ("but" + [' '] + ("got" + [' '] + a));
  }
}
