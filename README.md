# Bud.Exec, modelled in Dafny

Bud.Exec is a small C# library for running external programs in batch
mode. This project models the pure core of the library and proves
properties about it:

- **The argument quoter** (`Exec.Args`, `Exec.Arg`). It turns a list of
  tokens into one raw argument line. The only test is whether a token holds
  the space character U+0020. A token with a space is wrapped in `"`, and
  each `"` inside it is doubled. A token without one has each `"` tripled.
  The quoted tokens are joined with single spaces.
- **The exit-code check and its failure message** (`AssertProcessSucceeded`
  in `Exec` and `BatchExec`, and `ExecException.ToMessage`). The check
  raises exactly when the exit code is non-zero. The message names the
  command, the arguments (or `without args`), the working directory (the
  current directory when none was given), the exit code and the full error
  output.
- **The `ExecException` record**: five get-only properties set once by the
  constructor, plus the message rendered at that moment.
- **The process descriptor** (`CreateProcess`) and **the decision taken
  after the process exits** in `CheckCall` and `CheckOutput`. What the
  process produced is passed in: its exit code, its standard output, and
  its standard error. For `CheckCall` the standard error is the text read
  to its end. For `CheckOutput` it is the sequence of deliveries to the
  standard-error handler.

Files and modules:

- `wrappers.dfy` (`Wrappers`): `Option`, `Outcome`, `Result`.
- `text.dfy` (`Text`): the .NET string operations the core uses. These are
  `String.Replace` of one character, `String.Join`, `String.Contains`,
  decimal rendering of an `int` (with a parser as its round-trip partner),
  and a `StringWriter` class.
- `process.dfy` (`Process`): `ProcessStartInfo`, the exited process,
  `System.Exception`, and the `int32` exit-code type.
- `exec_exception.dfy` (`ExecErrors`): `ExecException` and its message.
- `exec.dfy` (`Exec`): `Bud.Exec/Exec.cs`.
- `batch_exec.dfy` (`BatchExec`): `Bud.Exec/BatchExec.cs`, the older
  revision without the quoter.

Modelling decisions:

- The message text appears three times in the source
  (`Exec.cs:129-133`, `BatchExec.cs:106-110`, `ExecException.cs:50-55`).
  The three copies are identical, so the model writes it once, as
  `ExecErrors.ToMessage`. The same holds for the three identical copies of
  `GetArgumentsErrorMessagePart` (`Exec.cs:137-139`,
  `BatchExec.cs:114-116`, `ExecException.cs:57-59`), modelled once as
  `ExecErrors.ArgumentsPart`.
- `Exec` and `BatchExec` raise a plain `System.Exception` with this message,
  not an `ExecException`. The model follows the code: its failures carry
  `Process.Exception(message)`. `Exec.AssertProcessSucceeded` states that its
  message equals the one an `ExecException` built from the same values
  would carry.
- `Directory.GetCurrentDirectory()` is passed in as `currentDir`. The
  source reads it lazily (`GetOrElse` of a function), only when no `cwd`
  is given. `MessageUsesCurrentDirOnlyWithoutCwd` proves that the
  parameter matters exactly then.
- The standard-error handler of `CheckOutput` receives `a.Data`, which is
  null once the stream ends. `StringWriter.Write(null)` writes nothing, so
  the model uses `seq<Option<string>>`, where `None` is a null delivery.
  `CheckOutput`'s loop mirrors the event dispatch: one `Write` per
  delivery.
- `StartInfo.workingDirectory` is `None` when `WorkingDirectory` was never
  assigned (.NET then reads it as `""`). The source assigns it only when
  `cwd` has a value. `Some("")` is an assigned empty directory, which at
  launch behaves like `None`: the child runs in the caller's directory.
- The code does not set `RedirectStandardInput` (the doc comment of `Run`
  says so too), and the model proves `!redirectStandardInput`.
- `Arg` quotes only for U+0020, so a tab does not cause quoting.
- `Exec.Unquote` is a decoder written for this model. It inverts `Arg` and
  thereby proves that `Arg` is injective. It is not the operating system's
  command-line parser (see "Left out").

## Model

| member | source | states |
|---|---|---|
| `Exec.ArgPlain` | Bud.Exec/Exec.cs:174-178 | A token with neither a space nor a `"` is passed through unchanged. |
| `Exec.ArgSpacedPlain` | Bud.Exec/Exec.cs:174-178 | A token with a space but no `"` is only wrapped in one pair of quotes. |
| `Exec.ArgRoundTrip` | Bud.Exec/Exec.cs:174-178 | The quoted form holds a space iff the token does, and `Unquote` recovers the token from it. |
| `Exec.ArgInjective` | Bud.Exec/Exec.cs:174-178 | Two distinct tokens never get the same quoted form. |
| `Exec.ArgOnlyAddsQuotes` | Bud.Exec/Exec.cs:175-177 | Apart from `"` characters, the quoted form equals the token. Without a space, the number of `"` triples. With a space, it doubles, plus the two wrapping quotes. |
| `Exec.ArgLength` | Bud.Exec/Exec.cs:175-177 | With q quotes in a token of length n, the quoted form has length n + 2q without a space and n + q + 2 with one. |
| `Exec.ArgEmpty` | Bud.Exec/Exec.cs:174-178 | The empty token stays empty. |
| `Exec.ArgsStructure` | Bud.Exec/Exec.cs:122 | `Args([])` is empty. A single token gives its quoted form. Appending a token to a non-empty list appends one space and its quoted form. |
| `Exec.ArgsPlain` | Bud.Exec/Exec.cs:122 | Tokens without spaces or quotes are joined by single spaces. |
| `Exec.ArgsExamplePlain` | Bud.Exec.Test/ExecTest.cs:62-63 | `["foo","bar","zar"]` gives `foo bar zar`. |
| `Exec.ArgsExampleSpace` | Bud.Exec.Test/ExecTest.cs:66-67 | `["foo bar","zar"]` gives `"foo bar" zar`. |
| `Exec.ArgFooSpaceBar` | Bud.Exec/Exec.cs:174-178 | The token `foo bar` becomes `"foo bar"`. |
| `Exec.ArgsExampleQuote` | Bud.Exec.Test/ExecTest.cs:70-71 | `["foo\"bar","zar"]` gives `foo"""bar zar`. |
| `Exec.ArgFooQuoteBar` | Bud.Exec/Exec.cs:174-178 | The token `foo"bar` (no spaces) becomes `foo"""bar`: each quote is tripled and no surrounding quotes are added. |
| `Exec.ArgOneQuote` | Bud.Exec/Exec.cs:174-178 | For any two words without spaces or quotes, a single `"` between them is tripled and nothing is wrapped. |
| `Exec.AssertProcessSucceeded` | Bud.Exec/Exec.cs:124-135 | Raises iff the exit code is non-zero. The message is the one `ExecException` renders for the same values. |
| `Exec.CreateProcess` | Bud.Exec/Exec.cs:141-158 | The descriptor runs the given path. Its arguments are `args`, or empty when absent. Its working directory is set iff `cwd` is given, and then to `cwd`. The flags are always: no window, no shell, stdout and stderr redirected, stdin not redirected. |
| `Exec.CheckCall` | Bud.Exec/Exec.cs:59-67 | Returns the process iff the exit code is 0, and the returned process has exit code 0 and the descriptor above. Otherwise raises with the message built from the error output read. |
| `Exec.CheckOutput` | Bud.Exec/Exec.cs:89-99 | Returns exactly the captured standard output iff the exit code is 0. Otherwise raises with the message built from the concatenation, without separators, of the lines delivered to the error handler. |
| `Exec.CheckOutputReportsErrorLines` | Bud.Exec/Exec.cs:90-98 | Every line the process wrote on standard error occurs in the message `CheckOutput` raises. |
| `BatchExec.AssertProcessSucceeded` | Bud.Exec/BatchExec.cs:100-112 | Raises iff the process's exit code is non-zero. It gives the same outcome and message as the later revision in `Exec.cs` for equal inputs. |
| `BatchExec.CreateProcess` | Bud.Exec/BatchExec.cs:118-133 | Same descriptor as `Exec.CreateProcess`: arguments or empty, working directory only if given, fixed flags. |
| `BatchExec.CheckCall` | Bud.Exec/BatchExec.cs:57-65 | Returns the process, with exit code 0, iff the exit code is 0. Otherwise raises with the message built from the error output. |
| `BatchExec.CheckOutput` | Bud.Exec/BatchExec.cs:87-97 | Returns the standard output iff the exit code is 0. Otherwise the message holds the error lines concatenated without separators. |
| `ExecErrors.New` | Bud.Exec/ExecException.cs:41-48 | The constructor stores path, args, cwd, error output and exit code unchanged. Its message is `ToMessage` of the same values, so the value is `WellFormed`: its message is the one rendered from its own properties. |
| `ExecErrors.ArgumentsPart` | Bud.Exec/ExecException.cs:57-59 | The arguments part is `without args` iff no arguments were given. |
| `ExecErrors.MessageStartsWithCommand` | Bud.Exec/ExecException.cs:50-52 | The message starts with `Command '<path>' `. |
| `ExecErrors.MessageEndsWithErrorOutput` | Bud.Exec/ExecException.cs:55 | The message ends with ` and error output: ` followed by the whole error output. |
| `ExecErrors.MessageContainsPath` | Bud.Exec/ExecException.cs:51 | The message contains the executable path. |
| `ExecErrors.MessageContainsArgs` | Bud.Exec/ExecException.cs:52 | With arguments, the message contains `with arguments '<a>'` and so `a`. Without them, it contains `without args`. |
| `ExecErrors.MessageContainsWorkingDir` | Bud.Exec/ExecException.cs:53 | The message contains `cwd` when given, and the current directory otherwise. |
| `ExecErrors.MessageContainsExitCode` | Bud.Exec/ExecException.cs:54 | The message contains the decimal exit code between single quotes. |
| `ExecErrors.MessageContainsErrorOutput` | Bud.Exec/ExecException.cs:55 | The message contains `error output: ` followed by the error output. |
| `ExecErrors.MessageContents` | Bud.Exec/ExecException.cs:50-59 | The five `MessageContains*` facts at once, together with the message's start (`MessageStartsWithCommand`), its end (`MessageEndsWithErrorOutput`) and the `without args` iff of `ArgumentsPart`. |
| `ExecErrors.MessageUsesCurrentDirOnlyWithoutCwd` | Bud.Exec/ExecException.cs:53 | With a `cwd`, the current directory does not affect the message. Without one, distinct current directories give distinct messages. |
| `ExecErrors.MessageDeterminesExitCode` | Bud.Exec/ExecException.cs:54 | Equal messages from otherwise equal inputs have equal exit codes. |
| `ExecErrors.ExampleFooException` | Bud.Exec.Test/ExecExceptionTest.cs:6-24 | The exception of the first test (path `foo`) reads back the five values it was given. The message of the second test's exception (path `fooExecPath`) contains `'42'`, `error output: foostderr`, `fooExecPath`, `fooargs` and `foocwd`. |
| `ExecErrors.ExampleFooMessage` | Bud.Exec.Test/ExecExceptionTest.cs:16-23 | The message for the test's values contains `'42'`, `error output: foostderr`, `fooExecPath`, `fooargs` and `foocwd`. |
| `Text.WrittenAppend` | Bud.Exec/Exec.cs:90-93 | What the error `StringWriter` holds after a sequence of writes is the concatenation of the parts, with no separator. |
| `Text.WrittenContains` | Bud.Exec/Exec.cs:90-93 | Every non-null line written occurs in the captured error text. |
| `Text.ParseIntToString` | Bud.Exec/ExecException.cs:54 | The decimal rendering of the exit code (sign, then digits) parses back to the exit code. |

## Left out

- `Run`, and the OS-facing parts of `CheckCall` and `CheckOutput`, in both
  `Exec.cs` and `BatchExec.cs`. These are `Process.Start`,
  `BeginOutputReadLine`/`BeginErrorReadLine`, the event handlers that
  forward to the console, `StandardError.ReadToEnd`,
  `StandardOutput.ReadToEnd` and `WaitForExit`. This is operating-system
  process I/O and asynchronous pipe draining. The model takes the
  process's exit code and outputs as parameters and models only the
  decision taken after exit.
- That the asynchronous error handler has received every line before
  `WaitForExit` returns. This is a guarantee of the .NET runtime, and the
  model assumes it.
- Whether `Args` round-trips through the Windows command-line parser
  (`Bud.Exec.Test/ExecTest.cs:74-81`). That parser (the C runtime's
  `CommandLineToArgvW` rules, including its treatment of backslashes before
  quotes) is not in this repository. `Exec.Unquote` inverts `Arg` alone.
- `Exec.Args` over the `params string[]` overload (`Exec.cs:111`). It
  forwards to the enumerable overload, and both are modelled by one
  function on `seq<string>`.
- Null strings, which Dafny strings cannot express. A null token throws
  `NullReferenceException` in `Arg`, at `arg.Contains(" ")`
  (`Exec.cs:175`). A null path or error output is never dereferenced: it
  is stored as null and rendered as empty text in the message
  (`Exec.cs:129-133`, `ExecException.cs:50-55`). A null token list makes
  `Select` throw `ArgumentNullException`: `Args((string[])null)` forwards
  to the enumerable overload, which calls `args.Select(Arg)`
  (`Exec.cs:111`, `Exec.cs:122`).
- UTF-16 code units. A Dafny `char` is a Unicode scalar value, while a C#
  `string` is a sequence of UTF-16 code units. A token holding a lone
  surrogate therefore cannot be written in the model, and `|s|` counts
  scalar values where .NET's `Length` counts code units. The quoter tests
  only U+0020 and U+0022, and the length law has the same form under
  either count, so nothing is lost for the strings the model can express.
- `Text.IntToString`: renders the exit code with `-` as the negative sign.
  `int.ToString()` uses the current culture's sign, which is `-` in the
  invariant culture.
- Stdin pumping, caller-supplied sinks, environment overrides and launch or
  I/O failures. They have no code in `Exec.cs`, `BatchExec.cs` or
  `ExecException.cs`.
- `Bud.Exec.TesterApp` (a test fixture doing console and file I/O),
  `Bud.Exec/Properties/AssemblyInfo.cs` (metadata) and
  `Bud.Exec.Test/ExecTesterAppPath.cs` (a test path helper).
