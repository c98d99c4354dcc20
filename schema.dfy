/** CliSchema.From and its helpers: the machine-readable description of a contract type
    (command, description, options, and the expected output of each exit code). */
module Schema {
  import opened Wrappers
  import opened Text
  import opened ContractModel
  import opened Validator

  /** One option of the command. */
  datatype OptionSchema = OptionSchema(name: string, shortName: Option<string>, typeName: string, required: bool)

  /** The expected output of one exit code; a list stays null until some property routes a text
      to that stream. */
  datatype OutputSchema = OutputSchema(stdoutContains: Option<seq<string>>, stderrContains: Option<seq<string>>)

  /** The schema of a command; outputs are keyed by the decimal text of the exit code. */
  datatype CliSchema = CliSchema(
    command: string,
    description: Option<string>,
    options: seq<OptionSchema>,
    outputs: map<string, OutputSchema>)

  /** GetTypeString: the JSON-ish kind of a property type. Only the exact built-in types are
      recognised, so a nullable type falls through to "object". */
  function GetTypeString(t: ClrType): (s: string)
    ensures s == "bool" <==> t == Boolean
    ensures s == "int" <==> t == Int32 || t == Int64
    ensures s == "number" <==> t == Single || t == Double
    ensures s == "string" <==> t == String
    ensures s == "array" <==> t.ArrayOf?
    ensures s == "object" <==> t.NullableOf? || t.ClassType?
  {
    match t
    case Boolean => "bool"
    case Int32 | Int64 => "int"
    case Single | Double => "number"
    case String => "string"
    case ArrayOf(_) => "array"
    case _ => "object"
  }

  /** The texts of some [Contains] attributes, in order. */
  function ContainsTexts(cs: seq<ContainsAttribute>): (texts: seq<string>)
    ensures |texts| == |cs| && forall k :: 0 <= k < |cs| ==> texts[k] == cs[k].text
  {
    seq(|cs|, k requires 0 <= k < |cs| => cs[k].text)
  }

  /** The texts routed to one stream (stderr when `toStdErr`) by the properties in order, or
      null when no property with a [Contains] attribute is routed there. */
  function RoutedTexts(props: seq<Property>, toStdErr: bool): Option<seq<string>>
  {
    if props == [] then None
    else
      var p := props[|props| - 1];
      var before := RoutedTexts(props[..|props| - 1], toStdErr);
      if |p.contains| == 0 || p.stdErr != toStdErr then before
      else Some(OrEmpty(before) + ContainsTexts(p.contains))
  }

  /** What BuildOutputSchema returns for the properties of an output type. */
  function OutputSchemaOf(props: seq<Property>): OutputSchema
  {
    OutputSchema(RoutedTexts(props, false), RoutedTexts(props, true))
  }

  /** BuildOutputSchema: each property with at least one [Contains] appends its texts to the
      stderr list when it is marked [StdErr], to the stdout list otherwise, creating the list on
      first use. */
  method BuildOutputSchema(outputType: ClrType) returns (schema: OutputSchema)
    ensures schema == OutputSchemaOf(PropertiesOf(outputType))
  {
    var properties := PropertiesOf(outputType);
    schema := OutputSchema(None, None);
    var i := 0;
    while i < |properties|
      invariant 0 <= i <= |properties|
      invariant schema == OutputSchemaOf(properties[..i])
    {
      var property := properties[i];
      assert properties[..i + 1][..i] == properties[..i];
      if |property.contains| > 0 {
        var texts := ContainsTexts(property.contains);
        if property.stdErr {
          schema := schema.(stderrContains := Some(OrEmpty(schema.stderrContains) + texts));
        } else {
          schema := schema.(stdoutContains := Some(OrEmpty(schema.stdoutContains) + texts));
        }
      }
      i := i + 1;
    }
    assert properties[..i] == properties;
  }

  /** The schema entry of an [Option] property. */
  function OptionSchemaFor(p: Property): OptionSchema
    requires p.option.Some?
  {
    OptionSchema(p.option.value.longName, p.option.value.shortName, GetTypeString(p.propertyType),
                 p.option.value.required)
  }

  /** The options From lists: one per [Option] property, in property order. */
  function OptionsOf(props: seq<Property>): seq<OptionSchema>
  {
    if props == [] then []
    else
      var p := props[|props| - 1];
      OptionsOf(props[..|props| - 1]) + (if p.option.Some? then [OptionSchemaFor(p)] else [])
  }

  /** The outputs From builds: for each [ExitCode] property in order, the output schema of its
      type under the code's decimal text, a later property replacing an earlier one. */
  function OutputsOf(props: seq<Property>): map<string, OutputSchema>
  {
    if props == [] then map[]
    else
      var p := props[|props| - 1];
      var before := OutputsOf(props[..|props| - 1]);
      match p.exitCode
      case Some(code) => before[IntToString(code) := OutputSchemaOf(PropertiesOf(p.propertyType))]
      case None => before
  }

  /** From: fails with InvalidOperationException when the type has no [CliCommand]; otherwise
      the command name and description from the attribute, the options and the outputs. */
  method From(contractType: ClrType) returns (r: Result<CliSchema, ExecutionError>)
    ensures CommandAttributeOf(contractType).None? ==>
      r == Failure(InvalidOperationException(
        MissingCommandText(TypeName(contractType), "have")))
    ensures CommandAttributeOf(contractType).Some? ==>
      var attr := CommandAttributeOf(contractType).value;
      var props := PropertiesOf(contractType);
      r == Success(CliSchema(attr.name, attr.description, OptionsOf(props), OutputsOf(props)))
  {
    var commandAttr := CommandAttributeOf(contractType);
    if commandAttr.None? {
      return Failure(InvalidOperationException(
        MissingCommandText(TypeName(contractType), "have")));
    }
    var properties := PropertiesOf(contractType);
    var options: seq<OptionSchema> := [];
    var outputs: map<string, OutputSchema> := map[];
    var i := 0;
    while i < |properties|
      invariant 0 <= i <= |properties|
      invariant options == OptionsOf(properties[..i])
      invariant outputs == OutputsOf(properties[..i])
    {
      var property := properties[i];
      ghost var prefix := properties[..i + 1];
      assert prefix[..i] == properties[..i] && prefix[i] == property;
      if property.option.Some? {
        var optionAttr := property.option.value;
        options := options + [OptionSchema(optionAttr.longName, optionAttr.shortName,
                                           GetTypeString(property.propertyType), optionAttr.required)];
      }
      assert options == OptionsOf(prefix);
      if property.exitCode.Some? {
        var output := BuildOutputSchema(property.propertyType);
        assert outputs[IntToString(property.exitCode.value) := output] == OutputsOf(prefix);
        outputs := outputs[IntToString(property.exitCode.value) := output];
      } else {
        assert outputs == OutputsOf(prefix);
      }
      i := i + 1;
    }
    assert properties[..i] == properties;
    return Success(CliSchema(commandAttr.value.name, commandAttr.value.description, options, outputs));
  }

  /** A contract type without [CliCommand] is refused with a message naming the type and the
      missing attribute. */
  lemma MissingCommandMessage(t: ClrType)
    ensures Contains(MissingCommandText(TypeName(t), "have"), TypeName(t))
    ensures Contains(MissingCommandText(TypeName(t), "have"), "[CliCommand]")
  {
    MissingCommandTextNames(TypeName(t), "have");
  }

  /** Options keep property order: the options of two runs of properties are those of the first
      followed by those of the second. */
  lemma {:induction false} OptionsOfAppend(a: seq<Property>, b: seq<Property>)
    ensures OptionsOf(a + b) == OptionsOf(a) + OptionsOf(b)
    decreases |b|
  {
    if b == [] {
      assert a + b == a;
    } else {
      var b' := b[..|b| - 1];
      assert (a + b)[..|a + b| - 1] == a + b';
      OptionsOfAppend(a, b');
    }
  }

  /** Every [Option] property is listed, and every listed option comes from an [Option]
      property; there are never more options than properties. */
  lemma {:induction false} OptionsOfMeaning(props: seq<Property>)
    ensures |OptionsOf(props)| <= |props|
    ensures forall i :: 0 <= i < |props| && props[i].option.Some? ==> OptionSchemaFor(props[i]) in OptionsOf(props)
    ensures forall o :: o in OptionsOf(props) ==>
      exists i :: 0 <= i < |props| && props[i].option.Some? && o == OptionSchemaFor(props[i])
  {
    if props != [] {
      var init, p := props[..|props| - 1], props[|props| - 1];
      OptionsOfMeaning(init);
      assert forall i :: 0 <= i < |init| ==> init[i] == props[i];
      forall o | o in OptionsOf(props)
        ensures exists i :: 0 <= i < |props| && props[i].option.Some? && o == OptionSchemaFor(props[i])
      {
        if o in OptionsOf(init) {
          var i :| 0 <= i < |init| && init[i].option.Some? && o == OptionSchemaFor(init[i]);
          assert props[i] == init[i];
        } else {
          assert props[|props| - 1] == p;
        }
      }
    }
  }

  /** A code is declared by a list of properties iff it is declared before the last one or by
      the last one. */
  lemma DeclaredSnoc(props: seq<Property>, c: int)
    requires props != []
    ensures c in DefinedExitCodes(props)
      <==> c in DefinedExitCodes(props[..|props| - 1]) || props[|props| - 1].exitCode == Some(c)
  {
  }

  /** The outputs are keyed by exactly the decimal texts of the declared exit codes. */
  lemma {:induction false} OutputsKeys(props: seq<Property>)
    ensures forall c :: IntToString(c) in OutputsOf(props) <==> c in DefinedExitCodes(props)
    ensures forall key :: key in OutputsOf(props) ==> exists c :: key == IntToString(c) && c in DefinedExitCodes(props)
  {
    if props != [] {
      var init, p := props[..|props| - 1], props[|props| - 1];
      OutputsKeys(init);
      forall c
        ensures IntToString(c) in OutputsOf(props) <==> c in DefinedExitCodes(props)
      {
        DeclaredSnoc(props, c);
        if p.exitCode.Some? {
          IntToStringInjective(c, p.exitCode.value);
        }
      }
      forall key | key in OutputsOf(props)
        ensures exists c :: key == IntToString(c) && c in DefinedExitCodes(props)
      {
        if key in OutputsOf(init) {
          var c :| key == IntToString(c) && c in DefinedExitCodes(init);
          DeclaredSnoc(props, c);
        } else {
          DeclaredSnoc(props, p.exitCode.value);
        }
      }
    }
  }

  /** Under a repeated exit code, the last property declaring it supplies the output schema. */
  lemma {:induction false} OutputsLastWins(props: seq<Property>, i: nat)
    requires i < |props| && props[i].exitCode.Some?
    requires forall j :: i < j < |props| ==> props[j].exitCode != props[i].exitCode
    ensures IntToString(props[i].exitCode.value) in OutputsOf(props)
    ensures OutputsOf(props)[IntToString(props[i].exitCode.value)] == OutputSchemaOf(PropertiesOf(props[i].propertyType))
    decreases |props|
  {
    var init, p := props[..|props| - 1], props[|props| - 1];
    var key := IntToString(props[i].exitCode.value);
    if i < |props| - 1 {
      assert init[i] == props[i];
      OutputsLastWins(init, i);
      if p.exitCode.Some? {
        IntToStringInjective(p.exitCode.value, props[i].exitCode.value);
      }
    }
  }

  /** A stream's list is null exactly when no property with a [Contains] attribute is routed to
      it. */
  lemma {:induction false} RoutedTextsNull(props: seq<Property>, toStdErr: bool)
    ensures RoutedTexts(props, toStdErr).None? <==>
      forall i :: 0 <= i < |props| ==> |props[i].contains| == 0 || props[i].stdErr != toStdErr
  {
    if props != [] {
      var init := props[..|props| - 1];
      RoutedTextsNull(init, toStdErr);
      assert forall i :: 0 <= i < |init| ==> init[i] == props[i];
    }
  }

  /** Every [Contains] text lands in exactly one of the two lists. */
  lemma {:induction false} RoutedTextsCount(props: seq<Property>)
    ensures |OrEmpty(RoutedTexts(props, false))| + |OrEmpty(RoutedTexts(props, true))| == ContainsCount(props)
  {
    if props != [] {
      RoutedTextsCount(props[..|props| - 1]);
    }
  }

  /** The texts of the checks run against one stream (stderr when `toStdErr`), in check order. */
  function CheckedTexts(checks: seq<Check>, toStdErr: bool): seq<string>
  {
    if checks == [] then []
    else
      var c := checks[|checks| - 1];
      CheckedTexts(checks[..|checks| - 1], toStdErr) + (if c.property.stdErr == toStdErr then [c.attr.text] else [])
  }

  lemma {:induction false} CheckedTextsAppend(a: seq<Check>, b: seq<Check>, toStdErr: bool)
    ensures CheckedTexts(a + b, toStdErr) == CheckedTexts(a, toStdErr) + CheckedTexts(b, toStdErr)
    decreases |b|
  {
    if b == [] {
      assert a + b == a;
    } else {
      var b' := b[..|b| - 1];
      assert (a + b)[..|a + b| - 1] == a + b';
      CheckedTextsAppend(a, b', toStdErr);
    }
  }

  lemma {:induction false} CheckedTextsOfProperty(p: Property, n: nat, toStdErr: bool)
    requires n <= |p.contains|
    ensures CheckedTexts(PropertyChecks(p)[..n], toStdErr)
      == if p.stdErr == toStdErr then ContainsTexts(p.contains[..n]) else []
  {
    if n > 0 {
      CheckedTextsOfProperty(p, n - 1, toStdErr);
      assert PropertyChecks(p)[..n][..n - 1] == PropertyChecks(p)[..n - 1];
      if p.stdErr == toStdErr {
        assert ContainsTexts(p.contains[..n]) == ContainsTexts(p.contains[..n - 1]) + [p.contains[n - 1].text];
      }
    }
  }

  /** The schema describes what the validator enforces: each stream's list holds exactly the
      texts of the [Contains] checks run against that stream, in the same order. */
  lemma {:induction false} SchemaListsCheckedTexts(props: seq<Property>, toStdErr: bool)
    ensures OrEmpty(RoutedTexts(props, toStdErr)) == CheckedTexts(ChecksOf(props), toStdErr)
  {
    if props != [] {
      var init, p := props[..|props| - 1], props[|props| - 1];
      SchemaListsCheckedTexts(init, toStdErr);
      CheckedTextsAppend(ChecksOf(init), PropertyChecks(p), toStdErr);
      CheckedTextsOfProperty(p, |p.contains|, toStdErr);
      assert PropertyChecks(p)[..|p.contains|] == PropertyChecks(p);
      assert p.contains[..|p.contains|] == p.contains;
    }
  }
}
