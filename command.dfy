/**
 * The command-line record and the split of the argument vector into it
 * (src/command.rs). The vector includes the program name at index 0.
 */
module Command {
  import opened Wrappers

  /** A command name and its raw, still unparsed degree text. */
  datatype Command = Command(command: string, degrees: string)

  /** The only way building a command fails. */
  const WrongNumberOfArguments := "Wrong number of arguments!"

  /**
   * The case split on the length of `args` that both revisions of
   * `Command::new` make; `default` is the command used when only the
   * program name was given.
   */
  function NewWithDefault(args: seq<string>, default: string): (r: Result<Command, string>)
    ensures r.Ok? <==> 1 <= |args| <= 3
    ensures r.Err? ==> r.error == WrongNumberOfArguments
    ensures r.Ok? ==> r.value.command == (if |args| == 1 then default else args[1])
    ensures r.Ok? ==> r.value.degrees == (if |args| == 3 then args[2] else "")
  {
    if |args| == 1 then Ok(Command(default, ""))
    else if |args| == 2 then Ok(Command(args[1], ""))
    else if |args| == 3 then Ok(Command(args[1], args[2]))
    else Err(WrongNumberOfArguments)
  }

  /** `Command::new` of src/command.rs: the program name alone starts the interactive loop. */
  function New(args: seq<string>): (r: Result<Command, string>)
    ensures r.Ok? <==> 1 <= |args| <= 3
    ensures r.Err? ==> r.error == WrongNumberOfArguments
    ensures |args| == 1 ==> r == Ok(Command("interactive", ""))
    ensures 2 <= |args| <= 3 ==> r == Ok(Command(args[1], if |args| == 3 then args[2] else ""))
  {
    NewWithDefault(args, "interactive")
  }

  /** The argument vector a command is written as, after a program name. */
  function ToArgs(program: string, c: Command): (args: seq<string>)
    ensures |args| == 3 && args[0] == program
  {
    [program, c.command, c.degrees]
  }

  /** Writing a command out and reading it back gives the same command, whatever the default. */
  lemma NewInvertsToArgs(program: string, c: Command, default: string)
    ensures NewWithDefault(ToArgs(program, c), default) == Ok(c)
  {
  }

  /** Leaving out empty degree text reads back the same as writing it. */
  lemma EmptyDegreesMayBeOmitted(program: string, name: string, default: string)
    ensures NewWithDefault([program, name], default) == NewWithDefault(ToArgs(program, Command(name, "")), default)
  {
  }

  /** The program name never influences the result: only the length and `args[1..]` do. */
  lemma ProgramNameIgnored(args: seq<string>, other: seq<string>, default: string)
    requires |args| == |other|
    requires forall i :: 1 <= i < |args| ==> args[i] == other[i]
    ensures NewWithDefault(args, default) == NewWithDefault(other, default)
  {
  }

  /** The default matters for the one-element vector only. */
  lemma DefaultOnlyForProgramAlone(args: seq<string>, d1: string, d2: string)
    requires |args| != 1
    ensures NewWithDefault(args, d1) == NewWithDefault(args, d2)
  {
  }

  /** The doc example `["test"]` and the unit test `["1", "2"]` both succeed. */
  lemma DocumentedExamples()
    ensures New(["test"]) == Ok(Command("interactive", ""))
    ensures New(["1", "2"]) == Ok(Command("2", ""))
    ensures New([]).Err? && New(["a", "b", "c", "d"]).Err?
  {
  }
}
