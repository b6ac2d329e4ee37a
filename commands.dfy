/**
 * The command-line front end of src/commands.rs: its own `Command::new`
 * (defaulting to the usage text), the dispatch of a command, the menu of the
 * interactive loop and the table of common conversions.
 *
 * What the program prints is modelled as the `Effect` it chooses; the text
 * itself and the reading of standard input are not. The f64 parser Rust's
 * `str::parse` provides is the parameter `parseReal`.
 */
module Commands {
  import opened Wrappers
  import StdText
  import opened Temperatures
  import Command

  /** `Command::new` of src/commands.rs: the program name alone asks for the usage text. */
  function New(args: seq<string>): (r: Result<Command.Command, string>)
    ensures r.Ok? <==> 1 <= |args| <= 3
    ensures r.Err? ==> r.error == Command.WrongNumberOfArguments
    ensures |args| == 1 ==> r == Ok(Command.Command("usage", ""))
    ensures 2 <= |args| <= 3 ==> r == Ok(Command.Command(args[1], if |args| == 3 then args[2] else ""))
  {
    Command.NewWithDefault(args, "usage")
  }

  /** The two revisions of `Command::new` differ on the one-element vector and nowhere else. */
  lemma NewAgreesWithCommandRs(args: seq<string>)
    ensures |args| != 1 <==> New(args) == Command.New(args)
  {
    if |args| != 1 {
      Command.DefaultOnlyForProgramAlone(args, "usage", "interactive");
    }
  }

  /** The unit test's vector `["test"]` succeeds. */
  lemma TestedNew()
    ensures New(["test"]) == Ok(Command.Command("usage", ""))
  {
  }

  /** What a command or a menu choice makes the program do. */
  datatype Effect =
    | Usage                    // print the usage text
    | Table                    // print the table of common conversions
    | InteractiveLoop          // run the interactive loop
    | Show(t: Temperature)     // print `t` and what it converts to
    | ChoiceHint               // remind the user of the valid menu entries

  /** The effect `run_command` chooses and the result it returns. */
  datatype Dispatch = Dispatch(effect: Effect, status: Result<(), string>)

  const CouldNotParseFahrenheit := "Error: Could not parse degrees Fahrenheit!"
  const CouldNotParseCelsius := "Error: Could not parse degrees Celsius!"
  const UnknownCommand := "Error: Unknown command!"

  /** The names `run_command` accepts whatever the degree text is. */
  predicate AlwaysSucceeds(name: string) {
    name == "help" || name == "usage" || name == "table" || name == "interactive"
  }

  /**
   * `run_command`: the command name selects the effect. The degree text is
   * read, without trimming, only by `ftoc` and `ctof`; every failure also
   * prints the usage text.
   */
  function RunCommand(cmd: Command.Command, parseReal: string -> Option<real>): (d: Dispatch)
    ensures d.status.Ok? <==>
      AlwaysSucceeds(cmd.command)
      || ((cmd.command == "ftoc" || cmd.command == "ctof") && parseReal(cmd.degrees).Some?)
    ensures d.status.Err? ==> d.effect == Usage
    ensures cmd.command == "help" || cmd.command == "usage" ==> d == Dispatch(Usage, Ok(()))
    ensures cmd.command == "table" ==> d == Dispatch(Table, Ok(()))
    ensures cmd.command == "interactive" ==> d == Dispatch(InteractiveLoop, Ok(()))
    ensures (cmd.command == "ftoc" || cmd.command == "ctof") && parseReal(cmd.degrees).Some? ==>
      d == Dispatch(Show(if cmd.command == "ftoc" then F(parseReal(cmd.degrees).value) else C(parseReal(cmd.degrees).value)), Ok(()))
    ensures d.effect.Show? ==>
      parseReal(cmd.degrees) == Some(d.effect.t.degrees) && (d.effect.t.F? <==> cmd.command == "ftoc")
  {
    if cmd.command == "help" || cmd.command == "usage" then Dispatch(Usage, Ok(()))
    else if cmd.command == "table" then Dispatch(Table, Ok(()))
    else if cmd.command == "interactive" then Dispatch(InteractiveLoop, Ok(()))
    else if cmd.command == "ftoc" then
      match parseReal(cmd.degrees)
      case Some(t) => Dispatch(Show(F(t)), Ok(()))
      case None => Dispatch(Usage, Err(CouldNotParseFahrenheit))
    else if cmd.command == "ctof" then
      match parseReal(cmd.degrees)
      case Some(t) => Dispatch(Show(C(t)), Ok(()))
      case None => Dispatch(Usage, Err(CouldNotParseCelsius))
    else Dispatch(Usage, Err(UnknownCommand))
  }

  /** Which message each failure of `run_command` carries. */
  lemma RunCommandErrors(cmd: Command.Command, parseReal: string -> Option<real>)
    ensures RunCommand(cmd, parseReal).status ==
      if AlwaysSucceeds(cmd.command) then Ok(())
      else if cmd.command == "ftoc" then
        (if parseReal(cmd.degrees).Some? then Ok(()) else Err(CouldNotParseFahrenheit))
      else if cmd.command == "ctof" then
        (if parseReal(cmd.degrees).Some? then Ok(()) else Err(CouldNotParseCelsius))
      else Err(UnknownCommand)
  {
  }

  /**
   * From the argument vector to the effect: the program name alone prints the
   * usage text, and `ftoc 212` shows 212 ºF as 100 ºC.
   */
  lemma CommandLineExamples(program: string, parseReal: string -> Option<real>)
    requires parseReal("212") == Some(212.0)
    ensures RunCommand(New([program]).value, parseReal) == Dispatch(Usage, Ok(()))
    ensures RunCommand(New([program, "ftoc", "212"]).value, parseReal) == Dispatch(Show(F(212.0)), Ok(()))
    ensures Opposite(F(212.0)) == C(100.0)
  {
  }

  /** The menu choices that go on to read a temperature. */
  predicate ReadsTemperature(choice: StdText.u8) {
    choice == 1 || choice == 2
  }

  const ChoiceHintText := "\nEnter 1, 2, 3, exit, or quit!\n"

  /**
   * `match_user_choice`: 1 and 2 convert the temperature typed on `line` from
   * Fahrenheit or from Celsius, 3 prints the table, any other value only
   * prints a hint. `line` is read for choices 1 and 2 only.
   */
  function MatchUserChoice(choice: StdText.u8, line: string, parseReal: string -> Option<real>): (r: Result<Effect, string>)
    ensures r.Err? <==> ReadsTemperature(choice) && GetTemperature(line, parseReal).Err?
    ensures r.Err? ==> r.error == InvalidInput
    ensures r.Ok? && ReadsTemperature(choice) ==>
      r.value == Show(if choice == 1 then F(GetTemperature(line, parseReal).value) else C(GetTemperature(line, parseReal).value))
    ensures r.Ok? && !ReadsTemperature(choice) ==> r.value == (if choice == 3 then Table else ChoiceHint)
  {
    if choice == 1 then
      match GetTemperature(line, parseReal)
      case Ok(t) => Ok(Show(F(t)))
      case Err(e) => Err(e)
    else if choice == 2 then
      match GetTemperature(line, parseReal)
      case Ok(t) => Ok(Show(C(t)))
      case Err(e) => Err(e)
    else if choice == 3 then Ok(Table)
    else Ok(ChoiceHint)
  }

  /** How the interactive loop reads a line typed at the menu. */
  datatype LineKind = Quit | NotAChoice | Choice(n: StdText.u8)

  /** Trimmed `quit` or `exit` ends the loop; otherwise the trimmed line must be a `u8`. */
  function ClassifyLine(line: string): (r: LineKind)
    ensures r == Quit <==> StdText.Trim(line) == "quit" || StdText.Trim(line) == "exit"
  {
    var choice := StdText.Trim(line);
    if choice == "quit" || choice == "exit" then Quit
    else
      match StdText.ParseU8(choice)
      case Some(n) => Choice(n)
      case None => NotAChoice
  }

  /** A line that is not `quit` or `exit` is a choice exactly when its trimmed text parses as a `u8`. */
  lemma ClassifyLineChoice(line: string)
    ensures ClassifyLine(line).Choice? <==> StdText.ParseU8(StdText.Trim(line)).Some?
    ensures ClassifyLine(line).Choice? ==> StdText.ParseU8(StdText.Trim(line)) == Some(ClassifyLine(line).n)
  {
    var choice := StdText.Trim(line);
    if choice == "quit" || choice == "exit" {
      assert choice[0] !in "0123456789+";
    }
  }

  /** White space around `quit` or `exit` does not stop it from ending the loop. */
  lemma {:induction false} PaddedQuitEndsLoop(w1: string, word: string, w2: string)
    requires word == "quit" || word == "exit"
    requires StdText.AllWhitespace(w1) && StdText.AllWhitespace(w2)
    ensures ClassifyLine(w1 + word + w2) == Quit
  {
    StdText.TrimIgnoresPadding(w1, word, w2);
    assert StdText.Trim(word) == word by {
      assert StdText.TrimStart(word) == word;
      assert StdText.TrimEnd(word) == word;
    }
  }

  /**
   * At end of input `read_line` leaves the line empty, which is not a choice:
   * the loop reports it and prompts again rather than ending.
   */
  lemma EmptyLineIsNotAChoice()
    ensures ClassifyLine("") == NotAChoice
  {
    assert StdText.Trim("") == "";
  }

  /** What one round of the interactive loop reports. */
  datatype Event =
    | Goodbye                  // the loop ends
    | InvalidChoice            // the menu line was not a number
    | Failed(message: string)  // `match_user_choice` returned this error
    | Performed(effect: Effect)

  function Report(r: Result<Effect, string>): Event {
    match r
    case Ok(e) => Performed(e)
    case Err(message) => Failed(message)
  }

  /**
   * One round of the interactive loop: what it reports, and whether it read
   * a temperature line after the menu line.
   */
  datatype Round = Round(event: Event, readTemperature: bool)

  /** The input left after a round played on the first line(s) of `input`. */
  function After(input: seq<string>, r: Round): (rest: seq<string>)
    requires input != []
    ensures |rest| < |input|
    ensures r.readTemperature && |input| > 2 ==> rest == input[2..]
    ensures !r.readTemperature ==> rest == input[1..]
  {
    var used := if r.readTemperature then 2 else 1;
    if used < |input| then input[used..] else []
  }

  /**
   * A round fed the menu line `choice`; `following` is the line after it,
   * which only choices 1 and 2 go on to read.
   */
  function PlayRound(choice: string, following: string, parseReal: string -> Option<real>): Round {
    match ClassifyLine(choice)
    case Quit => Round(Goodbye, false)
    case NotAChoice => Round(InvalidChoice, false)
    case Choice(n) =>
      if ReadsTemperature(n) then Round(Report(MatchUserChoice(n, following, parseReal)), true)
      else Round(Report(MatchUserChoice(n, "", parseReal)), false)
  }

  /**
   * The control structure of `run_interactive_loop` for any way `play` of
   * running one round: stop after `Goodbye`, otherwise go on after the lines
   * the round read. The line after the last one reads as empty, as
   * `read_line` leaves it at end of input; the loop stops when a menu line
   * is due and none is left.
   */
  function Rounds(input: seq<string>, play: (string, string) -> Round): (events: seq<Event>)
    decreases |input|
  {
    if input == [] then []
    else
      var r := play(input[0], if |input| > 1 then input[1] else "");
      if r.event == Goodbye then [Goodbye]
      else [r.event] + Rounds(After(input, r), play)
  }

  /** The events of the interactive loop fed the lines of `input` in order. */
  function Session(input: seq<string>, parseReal: string -> Option<real>): seq<Event> {
    Rounds(input, (choice, following) => PlayRound(choice, following, parseReal))
  }

  /** Which lines a round reads and whether it ends the loop, as `run_interactive_loop` decides them. */
  lemma RoundDecisions(choice: string, following: string, parseReal: string -> Option<real>)
    ensures var r := PlayRound(choice, following, parseReal);
      && (r.event == Goodbye <==> ClassifyLine(choice) == Quit)
      && (r.event == InvalidChoice <==> ClassifyLine(choice) == NotAChoice)
      && (r.readTemperature <==> ClassifyLine(choice).Choice? && ReadsTemperature(ClassifyLine(choice).n))
  {
  }

  /** Whether a round ends the loop does not depend on the line after it. */
  lemma GoodbyeIgnoresFollowing(choice: string, a: string, b: string, parseReal: string -> Option<real>)
    requires PlayRound(choice, a, parseReal).event == Goodbye
    ensures PlayRound(choice, b, parseReal) == PlayRound(choice, a, parseReal)
  {
  }

  /** A round that shows a temperature parsed it from the trimmed line after the menu line. */
  lemma ShownTemperatureFollows(choice: string, following: string, parseReal: string -> Option<real>, t: Temperature)
    requires PlayRound(choice, following, parseReal).event == Performed(Show(t))
    ensures PlayRound(choice, following, parseReal).readTemperature
    ensures parseReal(StdText.Trim(following)) == Some(t.degrees)
  {
    match ClassifyLine(choice)
    case Quit =>
    case NotAChoice =>
    case Choice(n) =>
      if ReadsTemperature(n) {
        assert MatchUserChoice(n, following, parseReal) == Ok(Show(t));
        assert GetTemperature(following, parseReal) == Ok(t.degrees);
      }
  }

  /** The round for a menu line that is a number: the event `match_user_choice` reports for it. */
  lemma RoundOfChoice(choice: string, following: string, parseReal: string -> Option<real>, n: StdText.u8)
    requires ClassifyLine(choice) == Choice(n)
    ensures PlayRound(choice, following, parseReal) ==
      if ReadsTemperature(n) then Round(Report(MatchUserChoice(n, following, parseReal)), true)
      else Round(Report(MatchUserChoice(n, "", parseReal)), false)
  {
  }

  /**
   * `run_interactive_loop`, reading its lines from `input` instead of
   * standard input: play rounds until one says goodbye or no menu line is
   * left.
   */
  method RunInteractiveLoop(input: seq<string>, parseReal: string -> Option<real>) returns (events: seq<Event>)
    ensures events == Session(input, parseReal)
  {
    ghost var play := (choice, following) => PlayRound(choice, following, parseReal);
    events := [];
    var next := 0;
    while next < |input|
      invariant 0 <= next <= |input|
      invariant events + Rounds(input[next..], play) == Rounds(input, play)
    {
      var following := if next + 1 < |input| then input[next + 1] else "";
      var round := PlayRound(input[next], following, parseReal);
      var used := if round.readTemperature then 2 else 1;
      var after := if next + used < |input| then next + used else |input|;
      RoundsFrom(input, next, after, play, round);
      if round.event == Goodbye {
        events := events + [Goodbye];
        break;
      }
      AppendAssociates(events, [round.event], Rounds(input[after..], play));
      events := events + [round.event];
      next := after;
    }
  }

  /** The rounds from the menu line at `next` on: its round, then those from the line at `after`. */
  lemma RoundsFrom(input: seq<string>, next: nat, after: nat, play: (string, string) -> Round, r: Round)
    requires next < |input|
    requires r == play(input[next], Following(input, next))
    requires var used := if r.readTemperature then 2 else 1;
      after == if next + used < |input| then next + used else |input|
    ensures Rounds(input[next..], play) ==
      if r.event == Goodbye then [Goodbye] else [r.event] + Rounds(input[after..], play)
  {
    var rest := input[next..];
    assert rest[0] == input[next];
    assert (if |rest| > 1 then rest[1] else "") == Following(input, next);
    RoundsStep(rest, play);
    assert After(rest, r) == input[after..];
  }

  lemma AppendAssociates(a: seq<Event>, b: seq<Event>, c: seq<Event>)
    ensures a + b + c == a + (b + c)
  {
  }

  /** Unfolding `Rounds` once: the first round's event, then the rounds after the lines it read. */
  lemma RoundsStep(input: seq<string>, play: (string, string) -> Round)
    requires input != []
    ensures var r := play(input[0], if |input| > 1 then input[1] else "");
      Rounds(input, play) ==
        if r.event == Goodbye then [Goodbye]
        else [r.event] + Rounds(After(input, r), play)
  {
  }

  /** `Goodbye` can only be the last event, whatever the rounds do. */
  lemma {:induction false} GoodbyeOnlyAtEnd(input: seq<string>, play: (string, string) -> Round)
    ensures var events := Rounds(input, play);
      forall i :: 0 <= i < |events| - 1 ==> events[i] != Goodbye
    decreases |input|
  {
    if input != [] {
      var r := play(input[0], if |input| > 1 then input[1] else "");
      if r.event != Goodbye {
        var rest := After(input, r);
        GoodbyeOnlyAtEnd(rest, play);
        var events := Rounds(input, play);
        assert events == [r.event] + Rounds(rest, play);
        forall i | 0 <= i < |events| - 1 ensures events[i] != Goodbye {
          if i > 0 {
            assert events[i] == Rounds(rest, play)[i - 1];
          } else {
            assert events[0] == r.event;
          }
        }
      }
    }
  }

  /**
   * Once the loop has said goodbye, nothing typed afterwards is read,
   * provided a round that says goodbye does not look at the line after it.
   */
  lemma {:induction false} InputAfterGoodbyeIgnored(input: seq<string>, more: seq<string>, play: (string, string) -> Round)
    requires forall choice, a, b :: play(choice, a).event == Goodbye ==> play(choice, b) == play(choice, a)
    requires var events := Rounds(input, play); events != [] && events[|events| - 1] == Goodbye
    ensures Rounds(input + more, play) == Rounds(input, play)
    decreases |input|
  {
    var all := input + more;
    assert all[0] == input[0];
    var r := play(input[0], if |input| > 1 then input[1] else "");
    var r' := play(all[0], if |all| > 1 then all[1] else "");
    if r.event != Goodbye {
      var rest := After(input, r);
      assert rest != [];
      assert all[1] == input[1];
      assert After(all, r) == rest + more;
      InputAfterGoodbyeIgnored(rest, more, play);
    }
  }

  /** The interactive loop reads nothing after `quit` or `exit`. */
  lemma InputAfterQuitIgnored(input: seq<string>, more: seq<string>, parseReal: string -> Option<real>)
    requires var events := Session(input, parseReal); events != [] && events[|events| - 1] == Goodbye
    ensures Session(input + more, parseReal) == Session(input, parseReal)
  {
    var play := (choice, following) => PlayRound(choice, following, parseReal);
    forall choice, a, b | play(choice, a).event == Goodbye ensures play(choice, b) == play(choice, a) {
      GoodbyeIgnoresFollowing(choice, a, b, parseReal);
    }
    InputAfterGoodbyeIgnored(input, more, play);
  }

  /** The line a round fed the menu line at `k` reads next: empty after the last line. */
  function Following(input: seq<string>, k: nat): string {
    if k + 1 < |input| then input[k + 1] else ""
  }

  /** Every event but the last comes from a round played on some menu line of the input. */
  lemma {:induction false} EventsComeFromRounds(input: seq<string>, play: (string, string) -> Round, e: Event)
    requires e in Rounds(input, play)
    ensures exists k :: 0 <= k < |input| && play(input[k], Following(input, k)).event == e
    decreases |input|
  {
    RoundsStep(input, play);
    var r := play(input[0], Following(input, 0));
    if r.event != e {
      var rest := After(input, r);
      EventsComeFromRounds(rest, play, e);
      var k :| 0 <= k < |rest| && play(rest[k], Following(rest, k)).event == e;
      var used := if r.readTemperature then 2 else 1;
      assert rest[k] == input[k + used] && Following(rest, k) == Following(input, k + used);
    }
  }

  /**
   * Every temperature the loop shows was typed, trimmed, on some line of the
   * input (Rust's f64 parser rejects the empty text `read_line` leaves at end
   * of input).
   */
  lemma ShownTemperaturesWereTyped(input: seq<string>, parseReal: string -> Option<real>, t: Temperature)
    requires parseReal("") == None
    requires Performed(Show(t)) in Session(input, parseReal)
    ensures exists j :: 0 <= j < |input| && parseReal(StdText.Trim(input[j])) == Some(t.degrees)
  {
    var play := (choice, following) => PlayRound(choice, following, parseReal);
    EventsComeFromRounds(input, play, Performed(Show(t)));
    var k :| 0 <= k < |input| && play(input[k], Following(input, k)).event == Performed(Show(t));
    ShownTemperatureFollows(input[k], Following(input, k), parseReal, t);
    if k + 1 == |input| {
      assert false;
    }
    assert parseReal(StdText.Trim(input[k + 1])) == Some(t.degrees);
  }

  /**
   * A session of three lines, a menu choice of 1, a temperature and a line
   * that quits: the temperature is shown in Fahrenheit, then the loop says
   * goodbye.
   */
  lemma ConvertThenQuit(choice: string, temperature: string, quit: string, parseReal: string -> Option<real>, t: real)
    requires ClassifyLine(choice) == Choice(1)
    requires parseReal(StdText.Trim(temperature)) == Some(t)
    requires ClassifyLine(quit) == Quit
    ensures Session([choice, temperature, quit], parseReal) == [Performed(Show(F(t))), Goodbye]
  {
    var play := (c, f) => PlayRound(c, f, parseReal);
    FahrenheitRound(choice, temperature, parseReal, t);
    QuitRound(quit, "", parseReal);
    TwoRoundsThenGoodbye([choice, temperature, quit], play, Performed(Show(F(t))));
  }

  /** Choice 1 followed by a line that parses: the round shows it in Fahrenheit. */
  lemma FahrenheitRound(choice: string, temperature: string, parseReal: string -> Option<real>, t: real)
    requires ClassifyLine(choice) == Choice(1)
    requires parseReal(StdText.Trim(temperature)) == Some(t)
    ensures PlayRound(choice, temperature, parseReal) == Round(Performed(Show(F(t))), true)
  {
    assert GetTemperature(temperature, parseReal) == Ok(t);
  }

  /** A line that quits: the round says goodbye and reads nothing more. */
  lemma QuitRound(quit: string, following: string, parseReal: string -> Option<real>)
    requires ClassifyLine(quit) == Quit
    ensures PlayRound(quit, following, parseReal) == Round(Goodbye, false)
  {
  }

  lemma TwoRoundsThenGoodbye(input: seq<string>, play: (string, string) -> Round, e: Event)
    requires |input| == 3 && e != Goodbye
    requires play(input[0], input[1]) == Round(e, true)
    requires play(input[2], "") == Round(Goodbye, false)
    ensures Rounds(input, play) == [e, Goodbye]
  {
    RoundsStep(input, play);
    assert input[2..] == [input[2]];
    RoundsStep([input[2]], play);
  }

  /** The line `1` picks the Fahrenheit-to-Celsius conversion. */
  lemma LineOneIsChoiceOne()
    ensures ClassifyLine("1") == Choice(1)
  {
    StdText.TrimKeepsUnpadded("1");
    assert StdText.DigitsValue("1") == 1 by {
      assert "1"[..0] == [];
    }
    assert StdText.ParseU8("1") == Some(1);
  }

  /** The line `quit` ends the loop. */
  lemma LineQuitQuits()
    ensures ClassifyLine("quit") == Quit
  {
    StdText.TrimKeepsUnpadded("quit");
  }

  /** The Celsius value on row `i` of the common table. */
  function CelsiusRow(i: int): real {
    -40.0 + 10.0 * (i as real)
  }

  /** Fifteen Celsius values from -40 to 100 in steps of 10, each beside its Fahrenheit value. */
  predicate IsCommonTable(table: seq<(real, real)>) {
    |table| == 15 && forall i :: 0 <= i < |table| ==> table[i] == (CelsiusRow(i), Convert(C(CelsiusRow(i))))
  }

  /**
   * The rows `print_common_table` prints: -40, then `n + 10` for every `n` of
   * `(-40..100).step_by(10)`, each zipped with its conversion to Fahrenheit.
   */
  method CommonTable() returns (table: seq<(real, real)>)
    ensures IsCommonTable(table)
  {
    var celsius: seq<real> := [-40.0];
    var n := -40;
    while n < 100
      invariant -40 <= n <= 100 && n == -50 + 10 * |celsius|
      invariant forall i :: 0 <= i < |celsius| ==> celsius[i] == CelsiusRow(i)
    {
      celsius := celsius + [n as real + 10.0];
      n := n + 10;
    }
    var fahrenheit := seq(|celsius|, i requires 0 <= i < |celsius| => Convert(C(celsius[i])));
    table := seq(|celsius|, i requires 0 <= i < |celsius| => (celsius[i], fahrenheit[i]));
  }

  /**
   * The table starts at (-40, -40) and ends at (100, 212); each row is 10 ºC
   * and 18 ºF above the one before.
   */
  lemma CommonTableShape(table: seq<(real, real)>)
    requires IsCommonTable(table)
    ensures table[0] == (-40.0, -40.0) && table[14] == (100.0, 212.0)
    ensures forall i :: 0 < i < |table| ==>
      table[i].0 == table[i - 1].0 + 10.0 && table[i].1 == table[i - 1].1 + 18.0
  {
  }
}
