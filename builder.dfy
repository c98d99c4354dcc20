/** CliContractBuilder: the fluent configuration (working directory, environment overlay,
    timeout), the split of a command line into executable and arguments, and Execute, which
    hands the invocation to a process runner and validates what comes back. The runner itself
    (process start, stream capture, timeout kill) is a parameter: it is operating-system I/O. */
module Builder {
  import opened Wrappers
  import opened Text
  import opened ContractModel
  import opened Validator
  import opened ExecutionResults

  /** TimeSpan ticks per second (one tick is 100 ns). */
  const TicksPerSecond: int := 10_000_000

  /** The timeout a new builder starts with: 30 seconds. */
  const DefaultTimeout: int := 30 * TicksPerSecond

  /** ParseCommand: trims the command, then splits it at its first space into the executable
      and the rest; with no space, the whole trimmed command is the executable. */
  function ParseCommand(command: string): (parts: (string, string))
    ensures var trimmed := Trim(command);
      && ' ' !in parts.0
      && (' ' !in trimmed ==> parts == (trimmed, ""))
      && (' ' in trimmed ==> parts.0 + " " + parts.1 == trimmed)
  {
    var trimmed := Trim(command);
    var firstSpace := IndexOf(trimmed, ' ');
    if firstSpace == -1 then (trimmed, "")
    else
      SliceAround(trimmed, firstSpace);
      (trimmed[..firstSpace], trimmed[firstSpace + 1..])
  }

  /** An executable with no whitespace, a space, and arguments that do not end in whitespace
      parse back into that executable and those arguments. */
  lemma ParseCommandRoundTrip(executable: string, arguments: string)
    requires executable != []
    requires forall k :: 0 <= k < |executable| ==> !IsWhiteSpace(executable[k])
    requires arguments == [] || !IsWhiteSpace(arguments[|arguments| - 1])
    ensures ParseCommand(executable + " " + arguments) == (executable, arguments)
  {
    var command := executable + " " + arguments;
    assert IsWhiteSpace(' ');
    assert ' ' !in executable;
    if arguments == [] {
      assert command == executable + [' '];
      assert TrimStart(command) == command;
      assert TrimEnd(command) == TrimEnd(executable) by {
        assert command[..|command| - 1] == executable;
      }
      TrimUnchanged(executable);
      assert Trim(command) == executable;
    } else {
      TrimUnchanged(command);
      IndexOfAfter(executable, ' ', arguments);
      assert command == executable + [' '] + arguments;
      assert command[..|executable|] == executable;
      assert command[|executable| + 1..] == arguments;
    }
  }

  /** What the runner is asked to do: the executable, the argument string, the working
      directory, the environment overlay and the timeout. */
  datatype Invocation = Invocation(
    executable: string,
    arguments: string,
    workingDirectory: string,
    environment: map<string, string>,
    timeout: int)

  /** What the runner reports: an exit with both captured streams, a timeout (after the
      process tree was killed), or a failure to launch. */
  datatype RunOutcome =
    | Exited(exitCode: int, stdOut: string, stdErr: string)
    | TimedOut
    | LaunchFailed(reason: string)

  /** A builder for the contract type it was created for. */
  class ContractBuilder {
    const contractType: ClrType
    var workingDirectory: Option<string>
    var environment: map<string, string>
    var timeout: int

    /** `new CliContractBuilder<T>()`: no working directory, an empty overlay, 30 seconds. */
    constructor (contractType: ClrType)
      ensures this.contractType == contractType
      ensures workingDirectory == None && environment == map[] && timeout == DefaultTimeout
    {
      this.contractType := contractType;
      workingDirectory := None;
      environment := map[];
      timeout := DefaultTimeout;
    }

    /** Sets the working directory and returns the same builder. */
    method WithWorkingDirectory(path: string) returns (b: ContractBuilder)
      modifies this`workingDirectory
      ensures b == this
      ensures workingDirectory == Some(path)
    {
      workingDirectory := Some(path);
      b := this;
    }

    /** Sets one variable of the overlay, replacing any earlier value for that name, and
      returns the same builder. */
    method WithEnvironmentVariable(name: string, value: string) returns (b: ContractBuilder)
      modifies this`environment
      ensures b == this
      ensures environment == old(environment)[name := value]
      ensures name in environment && environment[name] == value
      ensures forall n :: n != name ==> (n in environment <==> n in old(environment))
      ensures forall n :: n != name && n in old(environment) ==> environment[n] == old(environment)[n]
    {
      environment := environment[name := value];
      b := this;
    }

    /** Sets the timeout and returns the same builder. */
    method WithTimeout(t: int) returns (b: ContractBuilder)
      modifies this`timeout
      ensures b == this
      ensures timeout == t
    {
      timeout := t;
      b := this;
    }

    /** The invocation handed to the runner for `command`: the parsed executable and arguments,
        the configured working directory or else the current one, the overlay and the timeout. */
    function InvocationFor(command: string, currentDirectory: string): (inv: Invocation)
      reads this
      ensures (inv.executable, inv.arguments) == ParseCommand(command)
      ensures inv.workingDirectory == (if workingDirectory.Some? then workingDirectory.value else currentDirectory)
      ensures inv.environment == environment && inv.timeout == timeout
    {
      var parts := ParseCommand(command);
      Invocation(parts.0, parts.1,
        match workingDirectory case Some(d) => d case None => currentDirectory,
        environment, timeout)
    }

    /** Execute: fails with InvalidOperationException when the contract type has no
        [CliCommand]; otherwise runs the parsed command through `run`, passes a timeout or a
        launch failure on as an error (never as a violation), and on exit returns the result
        with the validator's violations, the command as given and the contract's command name. */
    method Execute(command: string, currentDirectory: string, run: Invocation -> RunOutcome)
      returns (r: Result<CliExecutionResult, ExecutionError>)
      ensures CommandAttributeOf(contractType).None? ==>
        r == Failure(InvalidOperationException(
          MissingCommandText(TypeName(contractType), "be decorated with")))
      ensures CommandAttributeOf(contractType).Some? ==>
        match run(InvocationFor(command, currentDirectory))
        case Exited(code, out, err) =>
          && r.Success?
          && r.value.exitCode == code && r.value.stdOut == out && r.value.stdErr == err
          && r.value.violations == ContractViolations(PropertiesOf(contractType), code, out, err)
          && r.value.command == command
          && r.value.expectedCommand == CommandAttributeOf(contractType).value.name
        case TimedOut => r == Failure(TimeoutException(timeout))
        case LaunchFailed(reason) => r == Failure(LaunchFailure(reason))
    {
      var commandAttr := CommandAttributeOf(contractType);
      if commandAttr.None? {
        return Failure(InvalidOperationException(
          MissingCommandText(TypeName(contractType), "be decorated with")));
      }
      var parts := ParseCommand(command);
      var executable, arguments := parts.0, parts.1;
      var directory := match workingDirectory case Some(d) => d case None => currentDirectory;
      var outcome := run(Invocation(executable, arguments, directory, environment, timeout));
      match outcome {
        case TimedOut =>
          return Failure(TimeoutException(timeout));
        case LaunchFailed(reason) =>
          return Failure(LaunchFailure(reason));
        case Exited(exitCode, stdOut, stdErr) =>
          var violations := ValidateContract(contractType, exitCode, stdOut, stdErr);
          return Success(CliExecutionResult(exitCode, stdOut, stdErr, violations, command,
                                            commandAttr.value.name));
      }
    }
  }

  /** A contract type without [CliCommand] is refused with a message naming the type and the
      missing attribute. */
  lemma MissingCommandMessage(t: ClrType)
    ensures Contains(MissingCommandText(TypeName(t), "be decorated with"), TypeName(t))
    ensures Contains(MissingCommandText(TypeName(t), "be decorated with"), "[CliCommand]")
  {
    MissingCommandTextNames(TypeName(t), "be decorated with");
  }
}
