/** ContractViolation and ViolationType: one itemised way in which an execution failed its
    contract, and its "[Type] Message" rendering. */
module Violations {
  import opened Wrappers
  import opened Text

  /** The five kinds of violation. Only the first two are ever produced by the validator;
      the other three are declared for later use. */
  datatype ViolationType =
    | UnexpectedExitCode
    | MissingExpectedOutput
    | ForbiddenOutput
    | MissingRequiredOption
    | InvalidOutputFormat

  /** Every kind, in declaration order. */
  const AllViolationTypes: seq<ViolationType> :=
    [UnexpectedExitCode, MissingExpectedOutput, ForbiddenOutput, MissingRequiredOption, InvalidOutputFormat]

  /** Enum.ToString(): the member's name. */
  function TypeName(t: ViolationType): string
  {
    match t
    case UnexpectedExitCode => "UnexpectedExitCode"
    case MissingExpectedOutput => "MissingExpectedOutput"
    case ForbiddenOutput => "ForbiddenOutput"
    case MissingRequiredOption => "MissingRequiredOption"
    case InvalidOutputFormat => "InvalidOutputFormat"
  }

  /** Enum.TryParse for exact member names. */
  function TypeFromName(name: string): Option<ViolationType>
  {
    if name == "UnexpectedExitCode" then Some(UnexpectedExitCode)
    else if name == "MissingExpectedOutput" then Some(MissingExpectedOutput)
    else if name == "ForbiddenOutput" then Some(ForbiddenOutput)
    else if name == "MissingRequiredOption" then Some(MissingRequiredOption)
    else if name == "InvalidOutputFormat" then Some(InvalidOutputFormat)
    else None
  }

  /** A name determines its kind. */
  lemma TypeNameRoundTrip(t: ViolationType)
    ensures TypeFromName(TypeName(t)) == Some(t)
    ensures ']' !in TypeName(t)
  {
  }

  /** A kind's name is a single line. */
  lemma TypeNameSingleLine(t: ViolationType)
    ensures '\n' !in TypeName(t)
  {
  }

  /** There are exactly five kinds, each named once. */
  lemma ViolationTypesExactlyFive()
    ensures |AllViolationTypes| == 5
    ensures forall t: ViolationType :: t in AllViolationTypes
    ensures forall i, j :: 0 <= i < j < 5 ==> TypeName(AllViolationTypes[i]) != TypeName(AllViolationTypes[j])
  {
    forall t: ViolationType
      ensures t in AllViolationTypes
    {
      match t
      case UnexpectedExitCode => assert AllViolationTypes[0] == t;
      case MissingExpectedOutput => assert AllViolationTypes[1] == t;
      case ForbiddenOutput => assert AllViolationTypes[2] == t;
      case MissingRequiredOption => assert AllViolationTypes[3] == t;
      case InvalidOutputFormat => assert AllViolationTypes[4] == t;
    }
  }

  /** A violation: its kind and message are required; the property name is optional. The
      record is init-only, so all three are fixed once it is built. */
  datatype ContractViolation = ContractViolation(
    violationType: ViolationType,
    message: string,
    propertyName: Option<string>)

  /** `new ContractViolation { Type = t, Message = m }`: the property name is left unset. */
  function NewViolation(t: ViolationType, message: string): (v: ContractViolation)
    ensures v.violationType == t && v.message == message
    ensures v.propertyName == None
  {
    ContractViolation(t, message, None)
  }

  /** ContractViolation.ToString(). */
  function ToString(v: ContractViolation): (s: string)
    ensures |s| == |TypeName(v.violationType)| + |v.message| + 3
    ensures s[0] == '[' && s[|TypeName(v.violationType)| + 1] == ']'
    ensures s[|TypeName(v.violationType)| + 2] == ' '
    ensures s[1..|TypeName(v.violationType)| + 1] == TypeName(v.violationType)
    ensures s[|s| - |v.message|..] == v.message
  {
    "[" + TypeName(v.violationType) + "] " + v.message
  }

  /** Reads back the kind and message from a "[Type] Message" text. */
  function ParseViolationText(s: string): Option<(ViolationType, string)>
  {
    var close := IndexOf(s, ']');
    if |s| >= 1 && s[0] == '[' && close >= 1 && close + 1 < |s| && s[close + 1] == ' ' then
      match TypeFromName(s[1..close])
      case Some(t) => Some((t, s[close + 2..]))
      case None => None
    else None
  }

  /** The pieces of "[name] message" when the name holds no closing bracket. */
  lemma BracketedPieces(name: string, message: string)
    requires ']' !in name
    ensures var s := "[" + name + "] " + message;
      && IndexOf(s, ']') == |name| + 1
      && s[1..|name| + 1] == name
      && s[|name| + 2] == ' '
      && s[|name| + 3..] == message
  {
    var s := "[" + name + "] " + message;
    assert s == ("[" + name) + [']'] + (" " + message);
    IndexOfAfter("[" + name, ']', " " + message);
  }

  /** The rendering keeps the kind and the whole message: parsing it back recovers both. */
  lemma ToStringRoundTrip(v: ContractViolation)
    ensures ParseViolationText(ToString(v)) == Some((v.violationType, v.message))
  {
    TypeNameRoundTrip(v.violationType);
    BracketedPieces(TypeName(v.violationType), v.message);
  }
}
