# temperature_converter in Dafny

A model of the core of `temperature_converter`, a small Rust command-line program that converts temperatures between Fahrenheit and Celsius. The model covers:

- the conversion formulas and the validation of a typed temperature (`src/lib.rs`);
- the split of the argument vector into a command record, in both revisions of `Command::new` (`src/command.rs` and `src/commands.rs`);
- the dispatch of a command (`run_command`) and of a menu choice (`match_user_choice`);
- the interactive loop (`run_interactive_loop`), fed a finite sequence of input lines;
- the table of common conversions (`print_common_table`).

Modules:

- `Wrappers`: the `Option` and `Result` datatypes.
- `StdText`: the two pieces of Rust's standard library the program's decisions depend on, written out.
  - `str::trim` strips characters with the Unicode White_Space property.
  - `u8::from_str` accepts an optional `+`, then at least one ASCII digit, with a value below 256.
- `Temperatures`: `src/lib.rs`.
  - Degrees are `real`.
  - Rust's `str::parse::<f64>` is a function parameter `parseReal: string -> Option<real>`.
- `Command`: the record and the argument split of `src/command.rs`. `NewWithDefault` is the case split on the length. Both revisions of `Command::new` are built on it, each with its own default command.
- `Commands`: `src/commands.rs`.
  - What the program prints is modelled as the `Effect` it chooses: usage text, table, interactive loop, a temperature shown with its conversion, or the menu hint.
  - The interactive loop is the method `RunInteractiveLoop`. It reads its lines from a `seq<string>` and returns the `Event` of each round. It is proved equal to the function `Session`.
  - `Session` is the generic loop structure `Rounds` applied to one round, `PlayRound`. Quitting ends the loop. A line that is not a `u8` is reported. Choices 1 and 2 read one more line, the temperature.
  - The common table is the method `CommonTable`. It pushes the Celsius values in a loop exactly as the source does, then maps and zips. It is proved to meet the predicate `IsCommonTable`.

At end of input, Rust's `read_line` returns without adding anything to the buffer. The empty line that is left is not `quit`, `exit` or a `u8`, so the source loop reports an invalid choice and prompts again, forever. The model stops once no menu line is left. A temperature read after the last line reads as the empty text. `EmptyLineIsNotAChoice` states the decision the source takes on that empty line.

## Model

Some functions carry no contract of their own. The rows of the lemmas and methods about them state their properties:

- `Temperatures.FToC`, `Temperatures.CToF` and `Temperatures.Convert` model `f_to_c`, `c_to_f` and `convert` (src/lib.rs:11-26). Their rows are `ConvertFahrenheit`, `ConvertCelsius`, `RoundTrip`, `TestedValues`, `CrossoverPoint` and `ConvertStrictlyIncreasing`.
- `StdText.ParseU8` models the `u8` parse of the menu line (src/commands.rs:110). Its rows are `ParseU8OfDecimal`, `ParseU8Overflow`, `ParseU8OnlyDigits` and `Commands.ClassifyLineChoice`.
- `Commands.PlayRound` models one pass through the loop body (src/commands.rs:100-121). Its rows are `RoundDecisions`, `GoodbyeIgnoresFollowing`, `ShownTemperatureFollows` and `FahrenheitRound`.
- `Commands.Rounds` and `Commands.Session` model the loop's control flow (src/commands.rs:92-122). Their rows are `RunInteractiveLoop`, `GoodbyeOnlyAtEnd`, `InputAfterGoodbyeIgnored`, `InputAfterQuitIgnored`, `EventsComeFromRounds`, `ShownTemperaturesWereTyped`, `TwoRoundsThenGoodbye` and `ConvertThenQuit`.

The lemmas `RoundsStep`, `RoundsFrom`, `RoundOfChoice`, `QuitRound` and `AppendAssociates` are proof steps that unfold those definitions. They have no rows.

| member | source | states |
|---|---|---|
| Temperatures.Opposite | src/lib.rs:28-52 | `print_temperature` shows a Fahrenheit value beside Celsius and the reverse, and the other value is `convert` of the given one |
| Temperatures.ConvertFahrenheit | src/lib.rs:10-26 | `convert(F(f))` is `(f - 32) * 5/9` |
| Temperatures.ConvertCelsius | src/lib.rs:15-26 | `convert(C(c))` is `c * 9/5 + 32` |
| Temperatures.RoundTrip | src/lib.rs:10-18 | `f_to_c` and `c_to_f` undo each other over the reals |
| Temperatures.OppositeInvolution | src/lib.rs:46-52 | the other side of the other side is the temperature itself |
| Temperatures.TestedValues | src/lib.rs:85-123 | the unit tests' fixed points: 0 ºC = 32 ºF, 100 ºC = 212 ºF, 32 ºF = 0 ºC, 212 ºF = 100 ºC, 98.6 ºF = 37 ºC |
| Temperatures.CrossoverPoint | src/lib.rs:125-131 | a value converts to itself on either scale exactly when it is -40 |
| Temperatures.ConvertStrictlyIncreasing | src/lib.rs:10-18 | both conversions preserve strict order, in both directions |
| Temperatures.GetTemperature | src/lib.rs:68-73 | `Err("\nInvalid input!\n")` exactly when the trimmed line does not parse; otherwise `Ok` of the value the trimmed line parses to |
| Temperatures.GetTemperatureIgnoresPadding | src/lib.rs:68-73 | white space typed around the number does not change the result |
| StdText.TrimStart | src/lib.rs:68 | the result is a suffix of the text and does not start with white space |
| StdText.TrimEnd | src/lib.rs:68 | the result is a prefix of the text and does not end with white space |
| StdText.Trim | src/lib.rs:68 | `str::trim`: the result is no longer than the text and neither starts nor ends with white space |
| StdText.TrimStartDropsWhitespace | src/lib.rs:68 | everything dropped at the front is white space |
| StdText.TrimEndDropsWhitespace | src/lib.rs:68 | everything dropped at the back is white space |
| StdText.TrimIsSlice | src/lib.rs:68 | the text is white space, then the trimmed result, then white space |
| StdText.TrimIgnoresPadding | src/commands.rs:105 | white space added on either side does not change the trim |
| StdText.TrimKeepsUnpadded | src/commands.rs:105 | a text with no white space at its ends is its own trim |
| StdText.TrimIdempotent | src/lib.rs:68 | a fact about `str::trim` as used here: trimming twice is trimming once |
| StdText.DigitsValueOfDecimal | src/commands.rs:110 | the value of the decimal spelling of `n` is `n` |
| StdText.ParseU8OfDecimal | src/commands.rs:110 | parsing a `u8` gives back every value from 0 to 255 from its decimal spelling, with or without a leading `+` |
| StdText.ParseU8Overflow | src/commands.rs:110 | the spelling of a number of 256 or more does not parse as a `u8` |
| StdText.ParseU8OnlyDigits | src/commands.rs:110 | a fact about `u8::from_str` as used here: a text that parses as a `u8` is digits after an optional `+`, and is not empty or `+` alone |
| Command.NewWithDefault | src/command.rs:22-44 | succeeds exactly for 1 to 3 arguments; otherwise the error is "Wrong number of arguments!"; the command is the default or `args[1]`; the degrees are `args[2]` or empty |
| Command.New | src/command.rs:22-44 | the program name alone gives `("interactive", "")`; 2 or 3 arguments give `args[1]` and `args[2]` or empty; any other length fails with "Wrong number of arguments!" |
| Command.NewInvertsToArgs | src/command.rs:36-43 | a command written out as three arguments reads back as itself, whatever the default |
| Command.EmptyDegreesMayBeOmitted | src/command.rs:32-39 | two arguments read the same as three with empty degrees |
| Command.ProgramNameIgnored | src/command.rs:27-43 | `args[0]` never influences the result; only the length and `args[1..]` do |
| Command.DefaultOnlyForProgramAlone | src/command.rs:27-43 | the default command matters only for the one-element vector |
| Command.DocumentedExamples | src/command.rs:16-21 | the doc example `["test"]` and the library test's `["1", "2"]` succeed; the empty vector and four arguments fail |
| Commands.New | src/commands.rs:31-53 | the program name alone gives `("usage", "")`; 2 or 3 arguments give `args[1]` and `args[2]` or empty; any other length fails with "Wrong number of arguments!" |
| Commands.NewAgreesWithCommandRs | src/commands.rs:36-50 | the two revisions of `Command::new` agree exactly on every vector whose length is not 1 |
| Commands.TestedNew | src/commands.rs:199-204 | the unit test's `["test"]` succeeds |
| Commands.RunCommand | src/commands.rs:165-190 | help and usage print usage, table prints the table, interactive runs the loop, and ftoc or ctof with degree text that parses to `t` show `F(t)` or `C(t)`, all with `Ok`; `Ok` holds exactly in those cases; every failure prints usage; a shown temperature is the parsed degree text, Fahrenheit exactly for ftoc |
| Commands.RunCommandErrors | src/commands.rs:171-188 | the error message of each failing case: Fahrenheit or Celsius parse failure, or unknown command |
| Commands.CommandLineExamples | src/commands.rs:165-172 | the program name alone prints usage successfully; `ftoc 212` shows 212 ºF, which is 100 ºC |
| Commands.MatchUserChoice | src/commands.rs:149-162 | `Err("\nInvalid input!\n")` exactly for choice 1 or 2 with a line that does not parse; 1 shows Fahrenheit and 2 Celsius of the parsed line; 3 prints the table; any other `u8` only prints the hint |
| Commands.ClassifyLine | src/commands.rs:105-116 | a menu line ends the loop exactly when its trimmed text is `quit` or `exit` |
| Commands.ClassifyLineChoice | src/commands.rs:110-116 | a line is a choice exactly when its trimmed text parses as a `u8`, and the choice is that value |
| Commands.PaddedQuitEndsLoop | src/commands.rs:105-108 | `quit` or `exit` surrounded by white space still ends the loop |
| Commands.EmptyLineIsNotAChoice | src/commands.rs:100-116 | the empty line `read_line` leaves at end of input is reported as an invalid choice and does not end the loop |
| Commands.RoundDecisions | src/commands.rs:105-121 | a round says goodbye exactly for `quit`/`exit`, reports an invalid choice exactly for a line that is not a `u8`, and reads a temperature line exactly for choices 1 and 2 |
| Commands.GoodbyeIgnoresFollowing | src/commands.rs:105-108 | a round that quits does not depend on the line after it |
| Commands.ShownTemperatureFollows | src/commands.rs:151-158 | a round that shows a temperature read a second line, and that line, trimmed, parses to the shown value |
| Commands.RunInteractiveLoop | src/commands.rs:92-122 | the events the loop produces on the input lines are exactly `Session` of those lines |
| Commands.GoodbyeOnlyAtEnd | src/commands.rs:105-108 | `Goodbye` can only be the last event of a session |
| Commands.InputAfterGoodbyeIgnored | src/commands.rs:105-108 | after a round that says goodbye and ignores the next line, nothing further is read |
| Commands.InputAfterQuitIgnored | src/commands.rs:105-108 | lines typed after `quit` or `exit` do not change the session |
| Commands.EventsComeFromRounds | src/commands.rs:92-122 | every event of a session is the event of a round played on some line of the input |
| Commands.ShownTemperaturesWereTyped | src/commands.rs:118-121 | every temperature the loop shows is the parse of some trimmed input line |
| Commands.ConvertThenQuit | src/commands.rs:92-122 | choice 1, a temperature, then `quit`: the temperature is shown in Fahrenheit, then goodbye |
| Commands.FahrenheitRound | src/commands.rs:151-152 | choice 1 followed by a line that parses shows that value as Fahrenheit and reads two lines |
| Commands.TwoRoundsThenGoodbye | src/commands.rs:92-122 | a round reading two lines followed by a quitting round gives exactly those two events |
| Commands.LineOneIsChoiceOne | src/commands.rs:110-111 | the line `1` is menu choice 1 |
| Commands.LineQuitQuits | src/commands.rs:105-108 | the line `quit` ends the loop |
| Commands.CommonTable | src/commands.rs:126-141 | the table is 15 rows; row `i` is `-40 + 10i` ºC beside its conversion to Fahrenheit |
| Commands.CommonTableShape | src/commands.rs:127-141 | the table runs from (-40, -40) to (100, 212), each row 10 ºC and 18 ºF above the one before |

## Left out

- Floating point: degrees are real numbers. The model does not capture f64 rounding or the `{:.2}` and `{:7.2}` formatting of printed values. The tested fixed points therefore hold exactly, where in f64 they hold up to rounding.
- Rust's `str::parse::<f64>` is the abstract parameter `parseReal`. Its grammar is not modelled.
- Non-finite values: Rust's f64 parser also accepts `inf`, `infinity` and `NaN`, so `ftoc nan` succeeds and prints NaN. `parseReal` returns real numbers only, so these inputs have no counterpart in the model.
- Printing to standard output and standard error is left out, including the menu, the prompts, "Goodbye!", "Invalid choice!" and the error messages the loop prints. Each is modelled as the `Effect` or `Event` it stands for.
- Reading standard input is left out, and so is the `expect` panic when a read fails. The loop's input is a finite sequence of lines.
- Commands.RunInteractiveLoop: stops when no menu line is left. The source loop at end of input prompts again forever, because each round reads an empty line, as `EmptyLineIsNotAChoice` states. The model does not capture that endless repetition.
- `parse_command_line` (src/commands.rs:57-63) only reads `env::args()` and forwards the vector to `Command::new`, which is modelled.
- `usage` (src/commands.rs:66-85) reads usage.txt or prints fixed help text. It is file and terminal I/O, modelled only as the `Usage` effect.
- Exit status: no file of the program shown here maps `run_command`'s result to an exit status, so the model has none.
- src/main.rs is not part of this model. It is a wrapper over the `clap` argument library from another revision of the program, never calls `run_command`, and always returns `Ok(())`.
- The two source structs named `Command` have identical fields, so both are the one datatype `Command.Command`.
