# CliContracts in Dafny

CliContracts lets a C# test suite describe a command-line tool's contract declaratively. A contract
is a class with a `[CliCommand]` attribute. It holds properties marked `[Option]` and
`[ExitCode(n)]`. Each exit code's property type carries `[Contains]` checks against `[StdOut]` or
`[StdErr]`. The library runs the command, compares the exit code and the two captured streams with
the contract, and reports an ordered list of violations. It can also export the contract as a
schema.

This project models the library's core and proves what it promises:

- `text.dfy` holds the .NET string operations the core relies on:
  - `Trim`, `IndexOf` and ordinal `Contains`.
  - ASCII ignore-case containment.
  - `string.Join`.
  - Line building, as done by `StringBuilder.AppendLine`.
  - `int.ToString`.

  It also holds two inverses that no core file calls: `Split` and the decimal parser
  `ParseInt`. The read-back lemmas use them to show that a message or summary determines what it
  was built from (`BuildMessageLines`, `SummaryReadBack`, `ExitCodeMismatchRoundTrip`).
- `contract_model.dfy` replaces reflection with data. A `ClrType` carries its `[CliCommand]`
  attribute and its properties in declaration order. Each `Property` carries its attributes.
- `violations.dfy`: `ContractViolation`, `ViolationType` and the `"[Type] Message"` rendering.
- `violation_exception.dfy`: the three `ContractViolationException` constructors and the message
  builder with its three cases.
- `validator.dfy`: `ValidateContract` and `ValidateOutputType`.
  - `ValidateOutputType` is a method that keeps the source's two nested loops.
  - `ValidateContract` has no loop. Its `FirstOrDefault` and its `Select`/`Where` query become
    the recursive functions `FirstWithExitCode` and `DefinedExitCodes`.
  - Each method is proved equal to a specification function.
  - Lemmas state what the violation list means.
- `builder.dfy`: `ParseCommand`, and the builder as a class.
  - The class holds the working directory, the environment overlay and the timeout.
  - Its `With*` methods update one field each.
  - `Execute` takes the process runner as a parameter.
- `execution_result.dfy`:
  - The execution result and `IsValid`/`AssertValid`.
  - `GetSummary`, which appends the summary lines; its `foreach` over the violations is the
    loop method `AppendViolationLines`.
  - The non-generic exit-code assertion.
- `schema.dfy`: `CliSchema.From`, `BuildOutputSchema` and `GetTypeString`, with the link between
  the schema's output lists and the checks the validator runs.

Exceptions thrown by the source are modelled as values:

- `Outcome.Fail` when an assertion fails.
- `Result.Failure(InvalidOperationException …)` when the contract type lacks `[CliCommand]`.
- `Result.Failure(TimeoutException …)` when the runner reports a timeout.

Three behaviours of the code are worth stating, because the contracts depend on them:

- An undefined exit code's message lists the declared codes in property order, repeats included
  (`src/CliContracts/Runtime/CliContractBuilder.cs:181-193`; `ContractModel.DefinedExitCodesAppend`).
- A `[Contains]` on a property without `[StdErr]` is checked against stdout, as the comment at
  `src/CliContracts/Runtime/CliContractBuilder.cs:225-227` says (`Validator.MissingOutputNames`).
- Violations come in property order, then in attribute order within a property
  (`src/CliContracts/Runtime/CliContractBuilder.cs:215-244`; `Validator.FailedChecksMeaning`).

A contract may declare the same exit code twice. The validator then uses the first property
declaring it (`Validator.MatchedExitCode`). The schema keeps the last one
(`Schema.OutputsLastWins`).

## Model

| member | source | states |
|---|---|---|
| ContractModel.DefaultContains | src/CliContracts/Attributes/ContainsAttribute.cs:11-21 | `[Contains(text)]` keeps the text and is case-sensitive by default |
| ContractModel.DefaultOption | src/CliContracts/Attributes/OptionAttribute.cs:12-27 | `[Option(long, short)]` keeps both names and is not required by default |
| ContractModel.DefinedExitCodes | src/CliContracts/Runtime/CliContractBuilder.cs:181-185 | a code is listed iff some property declares it; there are at most as many codes as properties |
| ContractModel.DefinedExitCodesSingle | src/CliContracts/Runtime/CliContractBuilder.cs:181-185 | one property contributes its own code, or nothing when it has no `[ExitCode]` |
| ContractModel.DefinedExitCodesAppend | src/CliContracts/Runtime/CliContractBuilder.cs:181-185 | the codes of two runs of properties are the first run's codes followed by the second's: property order, repeats kept |
| ContractModel.DefinedExitCodesOrderExample | src/CliContracts/Runtime/CliContractBuilder.cs:181-185 | properties declaring 0 then 1 list `[0, 1]`; declaring 0 twice lists `[0, 0]` |
| ContractModel.MissingCommandTextNames | src/CliContracts/Runtime/CliContractBuilder.cs:60-64 | the refusal text "Type <name> must <requirement> [CliCommand] attribute." contains the type name and "[CliCommand]" |
| ContractModel.FirstWithExitCode | src/CliContracts/Runtime/CliContractBuilder.cs:171-176 | finds the first property declaring the code, with none before it; returns none iff no property declares it |
| Violations.NewViolation | src/CliContracts/Runtime/ContractViolation.cs:11-21 | the kind and message are set at construction; the property name stays absent unless set |
| Violations.TypeNameRoundTrip | src/CliContracts/Runtime/ContractViolation.cs:29-55 | each kind's name parses back to that kind and holds no `]` |
| Violations.TypeNameSingleLine | src/CliContracts/Runtime/ContractViolation.cs:29-55 | no kind's name holds a line feed |
| Violations.ViolationTypesExactlyFive | src/CliContracts/Runtime/ContractViolation.cs:29-55 | every kind is one of exactly five, with five distinct names |
| Violations.ToString | src/CliContracts/Runtime/ContractViolation.cs:23 | renders "[Type] Message": the kind's name in brackets at the front, then a space, then the whole message at the end; `Violations.ToStringRoundTrip` proves it parses back |
| Violations.ToStringRoundTrip | src/CliContracts/Runtime/ContractViolation.cs:23 | `"[Type] Message"` parses back to the violation's kind and whole message |
| ViolationExceptions.WithExecutionDetails | src/CliContracts/Runtime/ContractViolationException.cs:31-42 | stores the violations in order, the built message, and exactly the given exit code, stdout and stderr |
| ViolationExceptions.WithMessage | src/CliContracts/Runtime/ContractViolationException.cs:47-51 | keeps the message; the violation list is empty and the exit code and both streams are null |
| ViolationExceptions.WithViolations | src/CliContracts/Runtime/ContractViolationException.cs:56-60 | stores the violations in order and the built message; the execution details are null |
| ViolationExceptions.BuildMessage | src/CliContracts/Runtime/ContractViolationException.cs:62-76 | no violations give "Contract validation failed."; one gives "Contract violation: " and its message; two or more start with the counted header and a line feed, then one bullet line per violation (`BuildMessageLines`, `BuildMessageCounts`, `BuildMessageMentionsEvery`) |
| ViolationExceptions.BuildMessageMentionsEvery | src/CliContracts/Runtime/ContractViolationException.cs:62-76 | with at least one violation, every violation's message occurs in the exception message |
| ViolationExceptions.BuildMessageLines | src/CliContracts/Runtime/ContractViolationException.cs:74-75 | for n >= 2 single-line messages, the message splits at line feeds into the `Contract violations (n):` header and one `  - message` line per violation, in order |
| ViolationExceptions.BuildMessageCounts | src/CliContracts/Runtime/ContractViolationException.cs:74-75 | for n >= 2 violations, the count n appears in the message |
| Validator.ValidateOutputType | src/CliContracts/Runtime/CliContractBuilder.cs:207-246 | appends exactly the violations of the output type's failing checks, in property-then-attribute order, after the existing ones |
| Validator.ValidateContract | src/CliContracts/Runtime/CliContractBuilder.cs:161-205 | returns the contract's violations for the exit code and both streams, as the lemmas below characterise them |
| Validator.FailedChecksMeaning | src/CliContracts/Runtime/CliContractBuilder.cs:215-244 | one violation per failing check, in check order, with no short-circuit; each is a MissingExpectedOutput with no property name; none iff every check passes |
| Validator.FailedChecksOfFailing | src/CliContracts/Runtime/CliContractBuilder.cs:215-244 | violation k reports failing check k, and there are as many violations as failing checks |
| Validator.FailingBounds | src/CliContracts/Runtime/CliContractBuilder.cs:215-244 | no more failing checks than checks; none exactly when every check passes |
| Validator.ChecksCount | src/CliContracts/Runtime/CliContractBuilder.cs:215-220 | there is exactly one check per `[Contains]` attribute |
| Validator.OutputViolationsBounds | src/CliContracts/Runtime/CliContractBuilder.cs:215-244 | at most one violation per `[Contains]`, all MissingExpectedOutput; none iff all checks pass; one per attribute when all fail |
| Validator.StreamSelection | src/CliContracts/Runtime/CliContractBuilder.cs:222-228 | without `[StdErr]` the result does not depend on stderr; with `[StdErr]` on every property that has a `[Contains]` it does not depend on stdout |
| Validator.MissingOutputNames | src/CliContracts/Runtime/CliContractBuilder.cs:236-242 | the violation message names the searched stream, the missing text and the property; the stream is "stderr" iff the property is `[StdErr]` |
| Validator.CaseSensitiveHitIsInsensitiveHit | src/CliContracts/Runtime/CliContractBuilder.cs:230-234 | a text found with the ordinal comparison is also found with the ignore-case comparison |
| Validator.ChecksOfMember | src/CliContracts/Runtime/CliContractBuilder.cs:215-220 | every check pairs a property of the output type with one of its own `[Contains]` attributes |
| Validator.EmptyStdOutFailsEveryCheck | src/CliContracts/Runtime/CliContractBuilder.cs:215-244 | empty stdout with non-empty stdout texts gives exactly one violation per `[Contains]` |
| Validator.CaseSensitivityPerCheck | src/CliContracts/Runtime/CliContractBuilder.cs:230-234 | "OK" is found in "ok" ignoring case and not found case-sensitively |
| Validator.UndefinedExitCode | src/CliContracts/Runtime/CliContractBuilder.cs:178-197 | an undeclared code, with some code declared, gives exactly one UnexpectedExitCode violation; its message names the code and every declared code in property order; no stream is inspected |
| Validator.UnexpectedExitCodeNamesEach | src/CliContracts/Runtime/CliContractBuilder.cs:189-194 | the UnexpectedExitCode message contains the decimal text of every declared code |
| Validator.NoExitCodesNoViolations | src/CliContracts/Runtime/CliContractBuilder.cs:187-197 | a contract declaring no exit code has no violations for any exit code or output |
| Validator.NoDeclaredCodes | src/CliContracts/Runtime/CliContractBuilder.cs:181-185 | with no [ExitCode] attribute on any property, the list of declared codes is empty |
| Validator.MatchedExitCode | src/CliContracts/Runtime/CliContractBuilder.cs:171-202 | a declared code gives the output violations of the first property declaring it: at most one per `[Contains]`, all MissingExpectedOutput |
| Builder.ParseCommand | src/CliContracts/Runtime/CliContractBuilder.cs:88-99 | the executable has no space; with no space in the trimmed command the result is (trimmed, ""), else executable + " " + arguments is the trimmed command |
| Builder.ParseCommandRoundTrip | src/CliContracts/Runtime/CliContractBuilder.cs:88-99 | a whitespace-free executable, a space, and arguments not ending in whitespace parse back into the same pair |
| Builder.ContractBuilder.constructor | src/CliContracts/Runtime/CliContractBuilder.cs:12-14 | no working directory, an empty environment overlay and a 30-second timeout |
| Builder.ContractBuilder.WithWorkingDirectory | src/CliContracts/Runtime/CliContractBuilder.cs:21-25 | sets only the working directory and returns the same builder |
| Builder.ContractBuilder.WithEnvironmentVariable | src/CliContracts/Runtime/CliContractBuilder.cs:33-37 | sets exactly that name to that value, keeps every other entry, changes nothing else and returns the same builder |
| Builder.ContractBuilder.WithTimeout | src/CliContracts/Runtime/CliContractBuilder.cs:44-48 | sets only the timeout and returns the same builder |
| Builder.ContractBuilder.InvocationFor | src/CliContracts/Runtime/CliContractBuilder.cs:67-120 | the runner gets the parsed executable and arguments, the configured directory or else the current one, the overlay and the timeout |
| Builder.ContractBuilder.Execute | src/CliContracts/Runtime/CliContractBuilder.cs:55-86 | no `[CliCommand]` fails with InvalidOperationException naming the type; a timeout fails with TimeoutException; on exit the result holds the code, both streams, the validator's violations, the command and the contract's command name |
| Builder.MissingCommandMessage | src/CliContracts/Runtime/CliContractBuilder.cs:60-64 | the refusal message names the type and "[CliCommand]" |
| ExecutionResults.IsValid | src/CliContracts/Runtime/CliExecutionResult.cs:42 | a result is valid exactly when its violation list is empty; `AssertValid` and `SummaryShape` build on it |
| ExecutionResults.AssertValid | src/CliContracts/Runtime/CliExecutionResult.cs:42-56 | fails iff there is a violation; the exception carries the same violations, exit code, stdout and stderr |
| ExecutionResults.AssertValidReportsEvery | src/CliContracts/Runtime/CliExecutionResult.cs:50-56 | the failure's message names every violation |
| ExecutionResults.GetSummary | src/CliContracts/Runtime/CliExecutionResult.cs:61-78 | the text is the summary lines, each followed by a line feed |
| ExecutionResults.AppendViolationLines | src/CliContracts/Runtime/CliExecutionResult.cs:71-74 | appending one bullet line per violation, in list order, to the text of some lines gives the text of those lines followed by the violation lines |
| ExecutionResults.SummaryShape | src/CliContracts/Runtime/CliExecutionResult.cs:63-77 | starts with the Command, Exit Code and Valid lines; "Valid: True" when valid and "Valid: False" otherwise; 3 lines when valid, 4 + n otherwise |
| ExecutionResults.SummarySection | src/CliContracts/Runtime/CliExecutionResult.cs:68-75 | an invalid result's fourth line is the "Violations (n):" header and line 4 + i is violation i's line, in list order |
| ExecutionResults.SummaryViolationLine | src/CliContracts/Runtime/CliExecutionResult.cs:71-74 | line 4 + i is violation i's line, which reads back as its kind and message |
| ExecutionResults.SummaryReadBack | src/CliContracts/Runtime/CliExecutionResult.cs:61-78 | with single-line command and messages, splitting the text at line feeds gives back the summary lines, then the empty piece after the final line feed, and the exit code reads back from the second line |
| ExecutionResults.AssertExitCode | src/CliContracts/Runtime/CliExecutionResult.cs:104-111 | fails iff the exit code differs from the expected one, with a message-only exception |
| ExecutionResults.ExitCodeMismatchRoundTrip | src/CliContracts/Runtime/CliExecutionResult.cs:108-109 | the mismatch message determines both the expected and the actual code |
| ExecutionResults.MismatchMessageWords | src/CliContracts/Runtime/CliExecutionResult.cs:108-109 | after "Expected exit code " the message is the two codes and "but got" joined by single spaces |
| Schema.GetTypeString | src/CliContracts/Schema/CliSchema.cs:121-129 | "bool" iff bool; "int" iff int or long; "number" iff float or double; "string" iff string; "array" iff an array; otherwise "object", nullable types included |
| Schema.ContainsTexts | src/CliContracts/Schema/CliSchema.cs:104 | the texts of the attributes, one each, in order |
| Schema.BuildOutputSchema | src/CliContracts/Schema/CliSchema.cs:92-119 | the two lists are the texts routed to each stream in property order, null when nothing is routed |
| Schema.From | src/CliContracts/Schema/CliSchema.cs:50-90 | no `[CliCommand]` fails with InvalidOperationException; otherwise the command name and description from the attribute, the options and the outputs |
| Schema.MissingCommandMessage | src/CliContracts/Schema/CliSchema.cs:52-54 | the refusal message names the type and "[CliCommand]" |
| Schema.OptionsOfAppend | src/CliContracts/Schema/CliSchema.cs:60-73 | options keep property order |
| Schema.OptionsOfMeaning | src/CliContracts/Schema/CliSchema.cs:63-73 | every `[Option]` property is listed with its names, type string and Required flag; every listed option comes from such a property |
| Schema.OutputsKeys | src/CliContracts/Schema/CliSchema.cs:76-80 | the output keys are exactly the decimal texts of the declared exit codes |
| Schema.OutputsLastWins | src/CliContracts/Schema/CliSchema.cs:76-80 | under a repeated code, the last property declaring it supplies the output |
| Schema.RoutedTextsNull | src/CliContracts/Schema/CliSchema.cs:99-115 | a stream's list is null iff no property with a `[Contains]` is routed to it |
| Schema.RoutedTextsCount | src/CliContracts/Schema/CliSchema.cs:99-115 | the two lists together hold one text per `[Contains]` attribute |
| Schema.SchemaListsCheckedTexts | src/CliContracts/Schema/CliSchema.cs:99-115 | each stream's list is exactly the texts the validator checks against that stream, in the same order |

## Left out

- `RunProcessAsync` is a parameter of `Execute`: the `Invocation -> RunOutcome` runner. Process
  start, asynchronous line capture, the cancellation timeout and killing the process tree are
  operating-system I/O and concurrency.
- Builder.ContractBuilder.Execute: the timeout message with its `TotalSeconds` formatting is not
  modelled. The error carries the timeout in ticks instead.
- Reflection is not modelled. .NET does not promise an order for either `GetProperties`
  (`src/CliContracts/Runtime/CliContractBuilder.cs:168,213`, `src/CliContracts/Schema/CliSchema.cs:56,95`)
  or `GetCustomAttributes<ContainsAttribute>()`
  (`src/CliContracts/Runtime/CliContractBuilder.cs:218`, `src/CliContracts/Schema/CliSchema.cs:99`).
  The model fixes both to declaration order: the order of `ClassType.properties` and of
  `Property.contains`. The order of the violations (`Validator.FailedChecksMeaning`) and of the
  schema's text lists (`Schema.SchemaListsCheckedTexts`) rests on that choice.
- `CliContract.For` is not modelled. It is a one-line factory.
- The argument schema is not modelled. `From` never fills it in.
- `ToJson` and `Save` are not modelled. They are JSON serialisation and file I/O.
- `[MatchesPattern]` is not modelled, and neither are the pattern lists of the separately
  declared `OutputSchema`. The validator never evaluates patterns, and they would need a regular
  expression engine.
- Text.ContainsIgnoreCase: the ordinal ignore-case comparison folds ASCII letters only, not the
  full Unicode upper-case mapping.
- `Environment.NewLine` (the summary's `AppendLine`) is taken to be a line feed, and
  `int.ToString` to use invariant-culture digits. The exception message joins with a literal line
  feed on every platform, and the model keeps it as its own constant.
- Exit codes are unbounded integers rather than 32-bit. The model does no arithmetic on them.
- A timeout is an integer count of 100-nanosecond ticks rather than a `TimeSpan`.
