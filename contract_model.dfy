/** A command contract as data. The library reads contracts from C# classes by reflection over
    attributes; here the same information is an explicit value: a class type carries its
    [CliCommand] attribute and its properties in declaration order, and each property carries
    its [Option], [ExitCode], [StdOut], [StdErr] and [Contains] attributes. */
module ContractModel {
  import opened Wrappers
  import opened Text

  /** [CliCommand(name, Description = ...)]. */
  datatype CliCommandAttribute = CliCommandAttribute(name: string, description: Option<string>)

  /** [Option(longName, shortName, Required = ...)]. */
  datatype OptionAttribute = OptionAttribute(longName: string, shortName: Option<string>, required: bool)

  /** [Contains(text, CaseSensitive = ...)]. */
  datatype ContainsAttribute = ContainsAttribute(text: string, caseSensitive: bool)

  /** `[Contains(text)]` with no named argument: the comparison is case-sensitive. */
  function DefaultContains(text: string): (c: ContainsAttribute)
    ensures c.text == text && c.caseSensitive
  {
    ContainsAttribute(text, true)
  }

  /** `[Option(longName, shortName)]` with no named argument: the option is not required. */
  function DefaultOption(longName: string, shortName: Option<string>): (o: OptionAttribute)
    ensures o.longName == longName && o.shortName == shortName && !o.required
  {
    OptionAttribute(longName, shortName, false)
  }

  /** A public property with the attributes the library reads. [Option], [ExitCode], [StdOut]
      and [StdErr] appear at most once; [Contains] any number of times, in order. */
  datatype Property = Property(
    name: string,
    propertyType: ClrType,
    option: Option<OptionAttribute>,
    exitCode: Option<int>,
    stdOut: bool,
    stdErr: bool,
    contains: seq<ContainsAttribute>)

  /** The CLR types a property can have, as far as the library tells them apart. ClassType
      stands for every other type as well (char, decimal, short, enums, generic collections and
      so on), not only classes: the library treats them all alike, and GetTypeString maps them
      to "object". */
  datatype ClrType =
    | Boolean
    | Int32
    | Int64
    | Single
    | Double
    | String
    | ArrayOf(element: ClrType)
    | NullableOf(underlying: ClrType)
    | ClassType(name: string, command: Option<CliCommandAttribute>, properties: seq<Property>)

  /** Type.Name. */
  function TypeName(t: ClrType): string
  {
    match t
    case Boolean => "Boolean"
    case Int32 => "Int32"
    case Int64 => "Int64"
    case Single => "Single"
    case Double => "Double"
    case String => "String"
    case ArrayOf(e) => TypeName(e) + "[]"
    case NullableOf(_) => "Nullable`1"
    case ClassType(name, _, _) => name
  }

  /** Type.GetProperties(), keeping only what carries contract attributes: built-in types
      carry none. */
  function PropertiesOf(t: ClrType): seq<Property>
  {
    if t.ClassType? then t.properties else []
  }

  /** Type.GetCustomAttribute<CliCommandAttribute>(). */
  function CommandAttributeOf(t: ClrType): Option<CliCommandAttribute>
  {
    if t.ClassType? then t.command else None
  }

  /** The exit codes declared by [ExitCode] attributes, in property order, repeats kept. */
  function DefinedExitCodes(props: seq<Property>): (codes: seq<int>)
    ensures |codes| <= |props|
    ensures forall c :: c in codes <==> exists i :: 0 <= i < |props| && props[i].exitCode == Some(c)
  {
    if props == [] then []
    else
      var init := props[..|props| - 1];
      var before := DefinedExitCodes(init);
      assert forall i :: 0 <= i < |init| ==> init[i] == props[i];
      match props[|props| - 1].exitCode
      case Some(c) => before + [c]
      case None => before
  }

  /** A single property declares its own code, or none. */
  lemma DefinedExitCodesSingle(p: Property)
    ensures DefinedExitCodes([p]) == if p.exitCode.Some? then [p.exitCode.value] else []
  {
  }

  /** Declared codes keep property order and repeats: the codes of two runs of properties are
      those of the first run followed by those of the second. */
  lemma {:induction false} DefinedExitCodesAppend(a: seq<Property>, b: seq<Property>)
    ensures DefinedExitCodes(a + b) == DefinedExitCodes(a) + DefinedExitCodes(b)
    decreases |b|
  {
    if b == [] {
      assert a + b == a;
    } else {
      var b' := b[..|b| - 1];
      assert (a + b)[..|a + b| - 1] == a + b';
      DefinedExitCodesAppend(a, b');
    }
  }

  /** Properties declaring 0 and then 1 list [0, 1], not [1, 0]; declaring 0 twice lists [0, 0]. */
  lemma DefinedExitCodesOrderExample(p: Property, q: Property)
    requires p.exitCode == Some(0) && q.exitCode == Some(1)
    ensures DefinedExitCodes([p, q]) == [0, 1]
    ensures DefinedExitCodes([p, p]) == [0, 0]
  {
    assert [p, q] == [p] + [q] && [p, p] == [p] + [p];
    DefinedExitCodesAppend([p], [q]);
    DefinedExitCodesAppend([p], [p]);
    DefinedExitCodesSingle(p);
    DefinedExitCodesSingle(q);
  }

  /** The text a contract type without [CliCommand] is refused with: "Type <name> must
      <requirement> [CliCommand] attribute.". */
  function MissingCommandText(name: string, requirement: string): string
  {
    "Type " + name + " must " + requirement + " " + "[CliCommand]" + " attribute."
  }

  /** The refusal text names both the type and the missing attribute. */
  lemma MissingCommandTextNames(name: string, requirement: string)
    ensures Contains(MissingCommandText(name, requirement), name)
    ensures Contains(MissingCommandText(name, requirement), "[CliCommand]")
  {
    var typed := "Type " + name;
    var required := typed + " must " + requirement + " ";
    var named := required + "[CliCommand]";
    ContainsSelf(name);
    ContainsInConcat("Type ", name, name);
    ContainsInConcat(typed, " must ", name);
    ContainsInConcat(typed + " must ", requirement, name);
    ContainsInConcat(typed + " must " + requirement, " ", name);
    ContainsInConcat(required, "[CliCommand]", name);
    ContainsInConcat(named, " attribute.", name);
    ContainsSelf("[CliCommand]");
    ContainsInConcat(required, "[CliCommand]", "[CliCommand]");
    ContainsInConcat(named, " attribute.", "[CliCommand]");
  }

  /** The position of the first property whose [ExitCode] is `code`. */
  function FirstWithExitCode(props: seq<Property>, code: int): (r: Option<nat>)
    ensures r.Some? ==> r.value < |props| && props[r.value].exitCode == Some(code)
    ensures r.Some? ==> forall j :: 0 <= j < r.value ==> props[j].exitCode != Some(code)
    ensures r.None? <==> forall j :: 0 <= j < |props| ==> props[j].exitCode != Some(code)
  {
    if props == [] then None
    else if props[0].exitCode == Some(code) then Some(0)
    else
      match FirstWithExitCode(props[1..], code)
      case Some(i) => Some(i + 1)
      case None =>
        assert forall j :: 1 <= j < |props| ==> props[j] == props[1..][j - 1];
        None
  }

  /** The number of [Contains] attributes over all properties. */
  function ContainsCount(props: seq<Property>): nat
  {
    if props == [] then 0 else ContainsCount(props[..|props| - 1]) + |props[|props| - 1].contains|
  }

  /** The failures that end a call instead of producing violations. */
  datatype ExecutionError =
    | InvalidOperationException(message: string)
    | TimeoutException(timeout: int)
    | LaunchFailure(reason: string)
}
