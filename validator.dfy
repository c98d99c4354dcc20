/** ValidateContract and ValidateOutputType: matching an observed exit code and the two captured
    streams against a contract, producing the ordered list of violations. ValidateOutputType keeps
    the source's two nested loops; ValidateContract has none, its first-match search and its
    declared-code query being the recursive functions FirstWithExitCode and DefinedExitCodes. The
    functions below the methods say what they compute, and the lemmas say what that means. */
module Validator {
  import opened Wrappers
  import opened Text
  import opened ContractModel
  import opened Violations

  /** One [Contains] check: the attribute and the property that carries it. */
  datatype Check = Check(property: Property, attr: ContainsAttribute)

  /** The checks of one property, in attribute order. */
  function PropertyChecks(p: Property): seq<Check>
  {
    seq(|p.contains|, k requires 0 <= k < |p.contains| => Check(p, p.contains[k]))
  }

  /** All checks of an output type: property by property, then attribute by attribute. */
  function ChecksOf(props: seq<Property>): seq<Check>
  {
    if props == [] then [] else ChecksOf(props[..|props| - 1]) + PropertyChecks(props[|props| - 1])
  }

  /** A property marked [StdErr] is checked against stderr; any other, with or without
      [StdOut], against stdout. */
  function StreamText(p: Property, stdOut: string, stdErr: string): string
  {
    if p.stdErr then stdErr else stdOut
  }

  function StreamName(p: Property): string
  {
    if p.stdErr then "stderr" else "stdout"
  }

  /** The check holds: ordinal containment when CaseSensitive, ordinal-ignore-case otherwise. */
  predicate Passes(c: Check, stdOut: string, stdErr: string)
  {
    var text := StreamText(c.property, stdOut, stdErr);
    if c.attr.caseSensitive then Contains(text, c.attr.text) else ContainsIgnoreCase(text, c.attr.text)
  }

  /** The MissingExpectedOutput violation for `text` missing from the named stream. */
  function MissingOutputViolation(stream: string, text: string, propertyName: string): ContractViolation
  {
    NewViolation(MissingExpectedOutput,
      "Expected " + stream + " to contain \"" + text + "\" (property: " + propertyName + ")")
  }

  /** The violation reported for a failing check. */
  function MissingOutput(c: Check): ContractViolation
  {
    MissingOutputViolation(StreamName(c.property), c.attr.text, c.property.name)
  }

  /** One MissingExpectedOutput violation per failing check, in check order. */
  function FailedChecks(checks: seq<Check>, stdOut: string, stdErr: string): seq<ContractViolation>
  {
    if checks == [] then []
    else
      var last := checks[|checks| - 1];
      FailedChecks(checks[..|checks| - 1], stdOut, stdErr)
      + (if Passes(last, stdOut, stdErr) then [] else [MissingOutput(last)])
  }

  /** What ValidateOutputType appends for the properties of an output type. */
  function OutputViolations(props: seq<Property>, stdOut: string, stdErr: string): seq<ContractViolation>
  {
    FailedChecks(ChecksOf(props), stdOut, stdErr)
  }

  /** The decimal text of each code, in order. */
  function CodeStrings(codes: seq<int>): seq<string>
  {
    seq(|codes|, i requires 0 <= i < |codes| => IntToString(codes[i]))
  }

  /** The violation for an exit code that no [ExitCode] property declares. */
  function UnexpectedExitCodeViolation(exitCode: int, defined: seq<int>): ContractViolation
  {
    NewViolation(UnexpectedExitCode,
      "Exit code " + IntToString(exitCode) + " is not defined in the contract. "
      + "Expected one of: " + Join(", ", CodeStrings(defined)))
  }

  /** What ValidateContract returns for the properties of a contract type. */
  function ContractViolations(props: seq<Property>, exitCode: int, stdOut: string, stdErr: string)
    : seq<ContractViolation>
  {
    match FirstWithExitCode(props, exitCode)
    case None =>
      var defined := DefinedExitCodes(props);
      if |defined| > 0 then [UnexpectedExitCodeViolation(exitCode, defined)] else []
    case Some(i) =>
      OutputViolations(PropertiesOf(props[i].propertyType), stdOut, stdErr)
  }

  /** ValidateOutputType: runs every [Contains] check of the output type's properties against
      the selected stream and appends a violation for each one that fails. */
  method ValidateOutputType(outputType: ClrType, stdOut: string, stdErr: string, violations: seq<ContractViolation>)
    returns (result: seq<ContractViolation>)
    ensures result == violations + OutputViolations(PropertiesOf(outputType), stdOut, stdErr)
  {
    var properties := PropertiesOf(outputType);
    result := violations;
    var i := 0;
    while i < |properties|
      invariant 0 <= i <= |properties|
      invariant result == violations + FailedChecks(ChecksOf(properties[..i]), stdOut, stdErr)
    {
      var property := properties[i];
      ghost var checked := ChecksOf(properties[..i]);
      var j := 0;
      while j < |property.contains|
        invariant 0 <= j <= |property.contains|
        invariant checked == ChecksOf(properties[..i]) + PropertyChecks(property)[..j]
        invariant result == violations + FailedChecks(checked, stdOut, stdErr)
      {
        var contains := property.contains[j];
        ghost var check := Check(property, contains);
        var hasStdErr := property.stdErr;
        var textToCheck := if hasStdErr then stdErr else stdOut;
        var found := if contains.caseSensitive then Contains(textToCheck, contains.text)
                     else ContainsIgnoreCase(textToCheck, contains.text);
        assert FailedChecks(checked + [check], stdOut, stdErr)
          == FailedChecks(checked, stdOut, stdErr) + (if found then [] else [MissingOutput(check)]) by {
          FailedChecksSnoc(checked, check, stdOut, stdErr);
        }
        if !found {
          var stream := if hasStdErr then "stderr" else "stdout";
          var violation := MissingOutputViolation(stream, contains.text, property.name);
          assert violation == MissingOutput(check);
          SeqAssoc(violations, FailedChecks(checked, stdOut, stdErr), [violation]);
          result := result + [violation];
        }
        assert ChecksOf(properties[..i]) + PropertyChecks(property)[..j + 1] == checked + [check] by {
          PrefixSnoc(ChecksOf(properties[..i]), PropertyChecks(property), j);
        }
        checked := checked + [check];
        j := j + 1;
      }
      assert checked == ChecksOf(properties[..i + 1]) by {
        ChecksOfSnoc(properties, i);
        assert PropertyChecks(property)[..j] == PropertyChecks(property);
      }
      i := i + 1;
    }
    assert properties[..i] == properties;
  }

  lemma ChecksOfSnoc(props: seq<Property>, i: nat)
    requires i < |props|
    ensures ChecksOf(props[..i + 1]) == ChecksOf(props[..i]) + PropertyChecks(props[i])
  {
    assert props[..i + 1][..i] == props[..i];
  }

  /** ValidateContract: finds the first property whose [ExitCode] is the observed code and
      validates its output type; when there is none, reports the code as unexpected unless the
      contract declares no exit codes at all. */
  method ValidateContract(contractType: ClrType, exitCode: int, stdOut: string, stdErr: string)
    returns (violations: seq<ContractViolation>)
    ensures violations == ContractViolations(PropertiesOf(contractType), exitCode, stdOut, stdErr)
  {
    violations := [];
    var properties := PropertiesOf(contractType);
    var exitCodeProperty := FirstWithExitCode(properties, exitCode);
    if exitCodeProperty.None? {
      var definedExitCodes := DefinedExitCodes(properties);
      if |definedExitCodes| > 0 {
        violations := violations + [UnexpectedExitCodeViolation(exitCode, definedExitCodes)];
      }
      return;
    }
    var outputType := properties[exitCodeProperty.value].propertyType;
    violations := ValidateOutputType(outputType, stdOut, stdErr, violations);
  }

  // ----- What the validator's result means -----

  /** One more check appends its violation, if it fails. */
  lemma FailedChecksSnoc(checks: seq<Check>, c: Check, stdOut: string, stdErr: string)
    ensures FailedChecks(checks + [c], stdOut, stdErr)
         == FailedChecks(checks, stdOut, stdErr) + (if Passes(c, stdOut, stdErr) then [] else [MissingOutput(c)])
  {
    assert (checks + [c])[..|checks|] == checks;
  }

  /** FailedChecks distributes over concatenation of check lists. */
  lemma {:induction false} FailedChecksAppend(a: seq<Check>, b: seq<Check>, stdOut: string, stdErr: string)
    ensures FailedChecks(a + b, stdOut, stdErr) == FailedChecks(a, stdOut, stdErr) + FailedChecks(b, stdOut, stdErr)
    decreases |b|
  {
    if b == [] {
      assert a + b == a;
    } else {
      var b' := b[..|b| - 1];
      assert (a + b)[..|a + b| - 1] == a + b';
      FailedChecksAppend(a, b', stdOut, stdErr);
    }
  }

  /** The failing checks, in order: an independent statement of which checks report. */
  function Failing(checks: seq<Check>, stdOut: string, stdErr: string): seq<Check>
  {
    if checks == [] then []
    else (if Passes(checks[0], stdOut, stdErr) then [] else [checks[0]]) + Failing(checks[1..], stdOut, stdErr)
  }

  /** Every failing check yields its own violation, in check order, with no short-circuit;
      every violation is a MissingExpectedOutput with no property name; there are at most as
      many violations as checks; and there are none exactly when every check passes. */
  lemma FailedChecksMeaning(checks: seq<Check>, stdOut: string, stdErr: string)
    ensures var vs := FailedChecks(checks, stdOut, stdErr);
      var failing := Failing(checks, stdOut, stdErr);
      && |vs| == |failing| <= |checks|
      && (forall k :: 0 <= k < |vs| ==> vs[k] == MissingOutput(failing[k]))
      && (forall k :: 0 <= k < |vs| ==> vs[k].violationType == MissingExpectedOutput && vs[k].propertyName == None)
      && (vs == [] <==> forall k :: 0 <= k < |checks| ==> Passes(checks[k], stdOut, stdErr))
  {
    FailedChecksOfFailing(checks, stdOut, stdErr);
    FailingBounds(checks, stdOut, stdErr);
  }

  /** The k-th violation reports the k-th failing check. */
  lemma {:induction false} FailedChecksOfFailing(checks: seq<Check>, stdOut: string, stdErr: string)
    ensures |FailedChecks(checks, stdOut, stdErr)| == |Failing(checks, stdOut, stdErr)|
    ensures forall k :: 0 <= k < |FailedChecks(checks, stdOut, stdErr)| ==>
      FailedChecks(checks, stdOut, stdErr)[k] == MissingOutput(Failing(checks, stdOut, stdErr)[k])
  {
    if checks != [] {
      var head, tail := checks[0], checks[1..];
      assert checks == [head] + tail;
      FailedChecksAppend([head], tail, stdOut, stdErr);
      assert [head][..0] == [];
      FailedChecksOfFailing(tail, stdOut, stdErr);
    }
  }

  /** No more failing checks than checks, and none exactly when every check passes. */
  lemma {:induction false} FailingBounds(checks: seq<Check>, stdOut: string, stdErr: string)
    ensures |Failing(checks, stdOut, stdErr)| <= |checks|
    ensures Failing(checks, stdOut, stdErr) == [] <==> forall k :: 0 <= k < |checks| ==> Passes(checks[k], stdOut, stdErr)
  {
    if checks != [] {
      FailingBounds(checks[1..], stdOut, stdErr);
      assert forall k :: 1 <= k < |checks| ==> checks[k] == checks[1..][k - 1];
    }
  }

  /** There is one check per [Contains] attribute. */
  lemma {:induction false} ChecksCount(props: seq<Property>)
    ensures |ChecksOf(props)| == ContainsCount(props)
  {
    if props != [] {
      ChecksCount(props[..|props| - 1]);
    }
  }

  /** For a matched output type: at most one violation per [Contains] attribute, all of kind
      MissingExpectedOutput; none exactly when every check passes; and when every check fails,
      exactly one per attribute. */
  lemma OutputViolationsBounds(props: seq<Property>, stdOut: string, stdErr: string)
    ensures var vs := OutputViolations(props, stdOut, stdErr);
      && |vs| <= ContainsCount(props)
      && (forall k :: 0 <= k < |vs| ==> vs[k].violationType == MissingExpectedOutput)
      && (vs == [] <==> forall c :: c in ChecksOf(props) ==> Passes(c, stdOut, stdErr))
      && ((forall c :: c in ChecksOf(props) ==> !Passes(c, stdOut, stdErr)) ==> |vs| == ContainsCount(props))
  {
    var checks := ChecksOf(props);
    ChecksCount(props);
    FailedChecksMeaning(checks, stdOut, stdErr);
    if forall c :: c in checks ==> !Passes(c, stdOut, stdErr) {
      AllFailing(checks, stdOut, stdErr);
    }
  }

  lemma {:induction false} AllFailing(checks: seq<Check>, stdOut: string, stdErr: string)
    requires forall c :: c in checks ==> !Passes(c, stdOut, stdErr)
    ensures Failing(checks, stdOut, stdErr) == checks
  {
    if checks != [] {
      AllFailing(checks[1..], stdOut, stdErr);
    }
  }

  /** An output type none of whose properties is [StdErr] never looks at stderr; one all of
      whose properties with a [Contains] are [StdErr] never looks at stdout. */
  lemma {:induction false} StreamSelection(props: seq<Property>, stdOut: string, stdOut': string, stdErr: string, stdErr': string)
    ensures (forall k :: 0 <= k < |props| ==> !props[k].stdErr)
      ==> OutputViolations(props, stdOut, stdErr) == OutputViolations(props, stdOut, stdErr')
    ensures (forall k :: 0 <= k < |props| ==> |props[k].contains| > 0 ==> props[k].stdErr)
      ==> OutputViolations(props, stdOut, stdErr) == OutputViolations(props, stdOut', stdErr)
  {
    if props != [] {
      var init, p := props[..|props| - 1], props[|props| - 1];
      StreamSelection(init, stdOut, stdOut', stdErr, stdErr');
      var pcs := PropertyChecks(p);
      FailedChecksAppend(ChecksOf(init), pcs, stdOut, stdErr);
      FailedChecksAppend(ChecksOf(init), pcs, stdOut, stdErr');
      FailedChecksAppend(ChecksOf(init), pcs, stdOut', stdErr);
      if !p.stdErr {
        PropertyChecksOneStream(pcs, stdOut, stdErr, stdErr');
      }
      if p.stdErr || |p.contains| == 0 {
        PropertyChecksOtherStream(pcs, stdOut, stdOut', stdErr);
      }
    }
  }

  lemma {:induction false} PropertyChecksOneStream(checks: seq<Check>, stdOut: string, stdErr: string, stdErr': string)
    requires forall k :: 0 <= k < |checks| ==> !checks[k].property.stdErr
    ensures FailedChecks(checks, stdOut, stdErr) == FailedChecks(checks, stdOut, stdErr')
  {
    if checks != [] {
      PropertyChecksOneStream(checks[..|checks| - 1], stdOut, stdErr, stdErr');
    }
  }

  lemma {:induction false} PropertyChecksOtherStream(checks: seq<Check>, stdOut: string, stdOut': string, stdErr: string)
    requires forall k :: 0 <= k < |checks| ==> checks[k].property.stdErr
    ensures FailedChecks(checks, stdOut, stdErr) == FailedChecks(checks, stdOut', stdErr)
  {
    if checks != [] {
      PropertyChecksOtherStream(checks[..|checks| - 1], stdOut, stdOut', stdErr);
    }
  }

  /** The violation for a failing check names the stream that was searched, the missing text
      and the property. */
  lemma MissingOutputNames(c: Check)
    ensures Contains(MissingOutput(c).message, StreamName(c.property))
    ensures Contains(MissingOutput(c).message, c.attr.text)
    ensures Contains(MissingOutput(c).message, c.property.name)
    ensures StreamName(c.property) == "stderr" <==> c.property.stdErr
  {
    var stream, text, name := StreamName(c.property), c.attr.text, c.property.name;
    var a := "Expected " + stream;
    var b := a + " to contain \"" + text;
    var d := b + "\" (property: " + name;
    ContainsSelf(stream);
    ContainsInConcat("Expected ", stream, stream);
    ContainsInConcat(a, " to contain \"", stream);
    ContainsInConcat(a + " to contain \"", text, stream);
    ContainsSelf(text);
    ContainsInConcat(a + " to contain \"", text, text);
    ContainsInConcat(b, "\" (property: ", stream);
    ContainsInConcat(b, "\" (property: ", text);
    ContainsInConcat(b + "\" (property: ", name, stream);
    ContainsInConcat(b + "\" (property: ", name, text);
    ContainsSelf(name);
    ContainsInConcat(b + "\" (property: ", name, name);
    ContainsInConcat(d, ")", stream);
    ContainsInConcat(d, ")", text);
    ContainsInConcat(d, ")", name);
    assert MissingOutput(c).message == d + ")";
    assert StreamName(c.property) == "stderr" <==> c.property.stdErr by {
      assert "stdout"[3] != "stderr"[3];
    }
  }

  /** A check that holds case-sensitively also holds with CaseSensitive = false. */
  lemma CaseSensitiveHitIsInsensitiveHit(p: Property, text: string, stdOut: string, stdErr: string)
    requires Passes(Check(p, ContainsAttribute(text, true)), stdOut, stdErr)
    ensures Passes(Check(p, ContainsAttribute(text, false)), stdOut, stdErr)
  {
    ContainsImpliesContainsIgnoreCase(StreamText(p, stdOut, stdErr), text);
  }

  /** Every check comes from a property of the list and one of that property's attributes. */
  lemma {:induction false} ChecksOfMember(props: seq<Property>, c: Check)
    requires c in ChecksOf(props)
    ensures c.property in props && c.attr in c.property.contains
  {
    var init, p := props[..|props| - 1], props[|props| - 1];
    if c in ChecksOf(init) {
      ChecksOfMember(init, c);
    } else {
      var k :| 0 <= k < |PropertyChecks(p)| && PropertyChecks(p)[k] == c;
      assert c.attr == p.contains[k];
    }
  }

  /** An empty stdout fails every stdout check with a non-empty text: an output type whose
      properties all read stdout yields exactly one violation per [Contains] attribute. */
  lemma EmptyStdOutFailsEveryCheck(props: seq<Property>, stdErr: string)
    requires forall k :: 0 <= k < |props| ==> !props[k].stdErr
    requires forall k, j :: 0 <= k < |props| && 0 <= j < |props[k].contains| ==> props[k].contains[j].text != []
    ensures |OutputViolations(props, "", stdErr)| == ContainsCount(props)
  {
    forall c | c in ChecksOf(props)
      ensures !Passes(c, "", stdErr)
    {
      ChecksOfMember(props, c);
      var k :| 0 <= k < |props| && props[k] == c.property;
      var j :| 0 <= j < |c.property.contains| && c.property.contains[j] == c.attr;
      assert c.attr.text != [];
    }
    OutputViolationsBounds(props, "", stdErr);
  }

  /** Case sensitivity is per check: "OK" is found in "ok" ignoring case, and not found
      case-sensitively. */
  lemma CaseSensitivityPerCheck(p: Property, stdErr: string)
    requires !p.stdErr
    ensures Passes(Check(p, ContainsAttribute("OK", false)), "ok", stdErr)
    ensures !Passes(Check(p, ContainsAttribute("OK", true)), "ok", stdErr)
  {
    assert FoldCase("ok") == "OK";
    assert FoldCase("OK") == "OK";
    assert OccursAt(FoldCase("ok"), FoldCase("OK"), 0);
    assert !OccursAt("ok", "OK", 0) by {
      assert "ok"[..2][0] != "OK"[0];
    }
  }

  /** An exit code that no property declares, in a contract that declares some: exactly one
      UnexpectedExitCode violation, whose message names the code and lists every declared code
      in property order, and which does not depend on either stream (no check runs). */
  lemma UndefinedExitCode(props: seq<Property>, exitCode: int, stdOut: string, stdErr: string, stdOut': string, stdErr': string)
    requires forall i :: 0 <= i < |props| ==> props[i].exitCode != Some(exitCode)
    requires exists i :: 0 <= i < |props| && props[i].exitCode.Some?
    ensures var vs := ContractViolations(props, exitCode, stdOut, stdErr);
      && |vs| == 1
      && vs[0].violationType == UnexpectedExitCode
      && vs[0].message == "Exit code " + IntToString(exitCode) + " is not defined in the contract. "
                          + "Expected one of: " + Join(", ", CodeStrings(DefinedExitCodes(props)))
      && (forall c :: c in DefinedExitCodes(props) ==> Contains(vs[0].message, IntToString(c)))
      && vs == ContractViolations(props, exitCode, stdOut', stdErr')
  {
    var defined := DefinedExitCodes(props);
    var i :| 0 <= i < |props| && props[i].exitCode.Some?;
    assert props[i].exitCode.value in defined;
    assert ContractViolations(props, exitCode, stdOut, stdErr) == [UnexpectedExitCodeViolation(exitCode, defined)];
    UnexpectedExitCodeNamesEach(exitCode, defined);
  }

  /** The UnexpectedExitCode message names every declared code. */
  lemma UnexpectedExitCodeNamesEach(exitCode: int, defined: seq<int>)
    ensures forall c :: c in defined ==> Contains(UnexpectedExitCodeViolation(exitCode, defined).message, IntToString(c))
  {
    var strings := CodeStrings(defined);
    forall c | c in defined
      ensures Contains(UnexpectedExitCodeViolation(exitCode, defined).message, IntToString(c))
    {
      var k :| 0 <= k < |defined| && defined[k] == c;
      JoinContainsEach(", ", strings, k);
      ContainsInConcat("Exit code " + IntToString(exitCode) + " is not defined in the contract. "
                       + "Expected one of: ", Join(", ", strings), strings[k]);
    }
  }

  /** A contract that declares no exit codes accepts every exit code and any output. */
  lemma NoExitCodesNoViolations(props: seq<Property>, exitCode: int, stdOut: string, stdErr: string)
    requires forall i :: 0 <= i < |props| ==> props[i].exitCode.None?
    ensures ContractViolations(props, exitCode, stdOut, stdErr) == []
  {
    NoDeclaredCodes(props);
  }

  /** A contract none of whose properties declares an exit code defines no codes. */
  lemma {:induction false} NoDeclaredCodes(props: seq<Property>)
    requires forall i :: 0 <= i < |props| ==> props[i].exitCode.None?
    ensures DefinedExitCodes(props) == []
  {
    if props != [] {
      NoDeclaredCodes(props[..|props| - 1]);
    }
  }

  /** A declared exit code: the violations are those of the first property declaring it, at most
      one per [Contains] attribute of its output type, all of kind MissingExpectedOutput. */
  lemma MatchedExitCode(props: seq<Property>, exitCode: int, stdOut: string, stdErr: string, i: nat)
    requires i < |props| && props[i].exitCode == Some(exitCode)
    requires forall j :: 0 <= j < i ==> props[j].exitCode != Some(exitCode)
    ensures var vs := ContractViolations(props, exitCode, stdOut, stdErr);
      var outputProps := PropertiesOf(props[i].propertyType);
      && vs == OutputViolations(outputProps, stdOut, stdErr)
      && |vs| <= ContainsCount(outputProps)
      && (forall k :: 0 <= k < |vs| ==> vs[k].violationType == MissingExpectedOutput)
  {
    var first := FirstWithExitCode(props, exitCode);
    assert first == Some(i);
    OutputViolationsBounds(PropertiesOf(props[i].propertyType), stdOut, stdErr);
  }
}
