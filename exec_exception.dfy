/** `ExecException`: the immutable record of a failed execution and the
    message rendered from it. */
module ExecErrors {
  import opened Wrappers
  import opened Text
  import opened Process

  /** The five get-only properties set by the constructor, and the
      exception's `Message`, rendered once when it is constructed. */
  datatype ExecException = ExecException(
    executablePath: string,
    args: Option<string>,
    cwd: Option<string>,
    errorOutput: string,
    exitCode: int32,
    message: string)

  /** `e` is a value the constructor can produce: its message is the one
      rendered from its five properties, for some current directory. The
      constructor is the only way to build an `ExecException`, so every
      exception the library raises satisfies this. */
  ghost predicate WellFormed(e: ExecException)
  {
    exists currentDir: string ::
      e.message == ToMessage(e.executablePath, e.args, e.cwd, e.errorOutput, e.exitCode, currentDir)
  }

  /** The constructor `new ExecException(...)`. `currentDir` is the value
      `Directory.GetCurrentDirectory()` would return at that moment. */
  function New(executablePath: string, args: Option<string>, cwd: Option<string>,
               errorOutput: string, exitCode: int32, currentDir: string): (e: ExecException)
    ensures e.executablePath == executablePath && e.args == args && e.cwd == cwd
    ensures e.errorOutput == errorOutput && e.exitCode == exitCode
    ensures e.message == ToMessage(executablePath, args, cwd, errorOutput, exitCode, currentDir)
    ensures WellFormed(e)
  {
    ExecException(executablePath, args, cwd, errorOutput, exitCode,
                  ToMessage(executablePath, args, cwd, errorOutput, exitCode, currentDir))
  }

  /** The part of the message that describes the arguments. */
  function ArgumentsPart(args: Option<string>): (part: string)
    ensures part == "without args" <==> args.None?
  {
    match args
    case Some(argStr) => "with arguments '" + argStr + "'"
    case None => "without args"
  }

  /** The working directory the message names: `cwd`, or the current
      directory when no `cwd` was given. */
  function WorkingDir(cwd: Option<string>, currentDir: string): string
  {
    cwd.GetOrElse(currentDir)
  }

  /** The failure message: the command, its arguments, the working
      directory, the exit code and the error output, in that order. The
      pieces are those of the interpolated strings, grouped from the right,
      which gives the same text as concatenating them left to right. */
  function ToMessage(executablePath: string, args: Option<string>, cwd: Option<string>,
                     errorOutput: string, exitCode: int32, currentDir: string): string
  {
    "Command '" + (executablePath + ("' " + (ArgumentsPart(args) +
    (" at working dir '" + (WorkingDir(cwd, currentDir) + ("'" +
    CodePart(IntToString(exitCode as int), errorOutput)))))))
  }

  /** The message from the exit code on. */
  function CodePart(code: string, errorOutput: string): string
  {
    " failed with error code '" + (code + ("'" + (" and error output: " + errorOutput)))
  }

  /** Whatever occurs after the working directory occurs in the message. */
  lemma ContainsAfterDir(executablePath: string, args: Option<string>, cwd: Option<string>,
                         errorOutput: string, exitCode: int32, currentDir: string, t: string)
    requires Contains(CodePart(IntToString(exitCode as int), errorOutput), t)
    ensures Contains(ToMessage(executablePath, args, cwd, errorOutput, exitCode, currentDir), t)
  {
    var r5 := CodePart(IntToString(exitCode as int), errorOutput);
    ContainsRight("'", r5, t);
    ContainsRight(WorkingDir(cwd, currentDir), "'" + r5, t);
    ContainsAfterArgs(executablePath, args, cwd, errorOutput, exitCode, currentDir, "'" + r5, t);
  }

  /** Whatever occurs after the arguments part occurs in the message. */
  lemma ContainsAfterArgs(executablePath: string, args: Option<string>, cwd: Option<string>,
                          errorOutput: string, exitCode: int32, currentDir: string, r: string, t: string)
    requires r == "'" + CodePart(IntToString(exitCode as int), errorOutput)
    requires Contains(WorkingDir(cwd, currentDir) + r, t)
    ensures Contains(ToMessage(executablePath, args, cwd, errorOutput, exitCode, currentDir), t)
  {
    var r4 := WorkingDir(cwd, currentDir) + r;
    ContainsRight(" at working dir '", r4, t);
    var r3 := " at working dir '" + r4;
    ContainsRight(ArgumentsPart(args), r3, t);
    ContainsRight("' ", ArgumentsPart(args) + r3, t);
    ContainsRight(executablePath, "' " + (ArgumentsPart(args) + r3), t);
    ContainsAfterPath(executablePath, args, cwd, errorOutput, exitCode, currentDir, ArgumentsPart(args) + r3, t);
  }

  /** Whatever occurs after the command occurs in the message. */
  lemma ContainsAfterPath(executablePath: string, args: Option<string>, cwd: Option<string>,
                          errorOutput: string, exitCode: int32, currentDir: string, r: string, t: string)
    requires r == ArgumentsPart(args) + (" at working dir '" + (WorkingDir(cwd, currentDir) + ("'" +
                  CodePart(IntToString(exitCode as int), errorOutput))))
    requires Contains(executablePath + ("' " + r), t)
    ensures Contains(ToMessage(executablePath, args, cwd, errorOutput, exitCode, currentDir), t)
  {
    ContainsRight("Command '", executablePath + ("' " + r), t);
  }

  /** The message starts by naming the command. */
  lemma MessageStartsWithCommand(executablePath: string, args: Option<string>, cwd: Option<string>,
                                 errorOutput: string, exitCode: int32, currentDir: string)
    ensures "Command '" + executablePath + "' "
         <= ToMessage(executablePath, args, cwd, errorOutput, exitCode, currentDir)
  {
  }

  /** The message ends with the whole error output, after its label. */
  lemma MessageEndsWithErrorOutput(executablePath: string, args: Option<string>, cwd: Option<string>,
                                   errorOutput: string, exitCode: int32, currentDir: string)
    ensures EndsWith(ToMessage(executablePath, args, cwd, errorOutput, exitCode, currentDir),
                     " and error output: " + errorOutput)
  {
    // Dafny can find this suffix alone, but on some solver seeds only at
    // several times the resource limit; the chain keeps it cheap.
    var t := " and error output: " + errorOutput;
    EndsWithSelf(t);
    var code := IntToString(exitCode as int);
    EndsWithRight("'", t, t);
    EndsWithRight(code, "'" + t, t);
    EndsWithRight(" failed with error code '", code + ("'" + t), t);
    var r5 := CodePart(code, errorOutput);
    EndsWithRight("'", r5, t);
    var dir := WorkingDir(cwd, currentDir);
    EndsWithRight(dir, "'" + r5, t);
    EndsWithRight(" at working dir '", dir + ("'" + r5), t);
    var r3 := " at working dir '" + (dir + ("'" + r5));
    EndsWithRight(ArgumentsPart(args), r3, t);
    EndsWithRight("' ", ArgumentsPart(args) + r3, t);
    EndsWithRight(executablePath, "' " + (ArgumentsPart(args) + r3), t);
    EndsWithRight("Command '", executablePath + ("' " + (ArgumentsPart(args) + r3)), t);
  }

  /** The message names the command. */
  lemma MessageContainsPath(executablePath: string, args: Option<string>, cwd: Option<string>,
                            errorOutput: string, exitCode: int32, currentDir: string)
    ensures Contains(ToMessage(executablePath, args, cwd, errorOutput, exitCode, currentDir), executablePath)
  {
    var r := ArgumentsPart(args) + (" at working dir '" + (WorkingDir(cwd, currentDir) + ("'" +
             CodePart(IntToString(exitCode as int), errorOutput))));
    ContainsStart(executablePath, "' " + r);
    ContainsAfterPath(executablePath, args, cwd, errorOutput, exitCode, currentDir, r, executablePath);
  }

  /** The message quotes the arguments when there are some, and says
      `without args` otherwise. */
  lemma MessageContainsArgs(executablePath: string, args: Option<string>, cwd: Option<string>,
                            errorOutput: string, exitCode: int32, currentDir: string)
    ensures var m := ToMessage(executablePath, args, cwd, errorOutput, exitCode, currentDir);
      && (args.Some? ==> Contains(m, "with arguments '" + args.value + "'") && Contains(m, args.value))
      && (args.None? ==> Contains(m, "without args"))
  {
    var part := ArgumentsPart(args);
    var r3 := " at working dir '" + (WorkingDir(cwd, currentDir) + ("'" +
              CodePart(IntToString(exitCode as int), errorOutput)));
    var r := part + r3;
    ContainsStart(part, r3);
    ContainsRight("' ", r, part);
    ContainsRight(executablePath, "' " + r, part);
    ContainsAfterPath(executablePath, args, cwd, errorOutput, exitCode, currentDir, r, part);
    if args.Some? {
      assert part == "with arguments '" + (args.value + "'");
      ContainsStart(args.value, "'");
      ContainsRight("with arguments '", args.value + "'", args.value);
      ContainsTransitive(ToMessage(executablePath, args, cwd, errorOutput, exitCode, currentDir), part, args.value);
    }
  }

  /** The message names the working directory: `cwd`, or the current
      directory when no `cwd` was given. */
  lemma MessageContainsWorkingDir(executablePath: string, args: Option<string>, cwd: Option<string>,
                                  errorOutput: string, exitCode: int32, currentDir: string)
    ensures var m := ToMessage(executablePath, args, cwd, errorOutput, exitCode, currentDir);
      && (cwd.Some? ==> Contains(m, cwd.value))
      && (cwd.None? ==> Contains(m, currentDir))
  {
    var r := "'" + CodePart(IntToString(exitCode as int), errorOutput);
    ContainsStart(WorkingDir(cwd, currentDir), r);
    ContainsAfterArgs(executablePath, args, cwd, errorOutput, exitCode, currentDir, r, WorkingDir(cwd, currentDir));
  }

  /** The message names the exit code between single quotes. */
  lemma MessageContainsExitCode(executablePath: string, args: Option<string>, cwd: Option<string>,
                                errorOutput: string, exitCode: int32, currentDir: string)
    ensures Contains(ToMessage(executablePath, args, cwd, errorOutput, exitCode, currentDir),
                     "'" + IntToString(exitCode as int) + "'")
  {
    var code := IntToString(exitCode as int);
    var c := CodePart(code, errorOutput);
    var t := "'" + code + "'";
    var pre := " failed with error code ";
    assert " failed with error code '" == pre + "'";
    assert c[|pre|..] == "'" + (code + ("'" + (" and error output: " + errorOutput)));
    forall k | 0 <= k < |t|
      ensures t[k] == c[|pre|..][k]
    {
    }
    assert t <= c[|pre|..];
    ContainsAfterDir(executablePath, args, cwd, errorOutput, exitCode, currentDir, t);
  }

  /** The message holds the whole error output after its label. */
  lemma MessageContainsErrorOutput(executablePath: string, args: Option<string>, cwd: Option<string>,
                                   errorOutput: string, exitCode: int32, currentDir: string)
    ensures Contains(ToMessage(executablePath, args, cwd, errorOutput, exitCode, currentDir),
                     "error output: " + errorOutput)
  {
    var code := IntToString(exitCode as int);
    var c := CodePart(code, errorOutput);
    var t := "error output: " + errorOutput;
    assert " and error output: " == " and " + "error output: ";
    assert " and error output: " + errorOutput == " and " + t;
    ContainsStart(t, "");
    assert t + "" == t;
    ContainsRight(" and ", t, t);
    ContainsRight("'", " and " + t, t);
    ContainsRight(code, "'" + (" and " + t), t);
    ContainsRight(" failed with error code '", code + ("'" + (" and " + t)), t);
    ContainsAfterDir(executablePath, args, cwd, errorOutput, exitCode, currentDir, t);
  }

  /** Everything the message is required to name, together with how it
      starts and ends. */
  lemma MessageContents(executablePath: string, args: Option<string>, cwd: Option<string>,
                        errorOutput: string, exitCode: int32, currentDir: string)
    ensures var m := ToMessage(executablePath, args, cwd, errorOutput, exitCode, currentDir);
      && Contains(m, executablePath)
      && Contains(m, "'" + IntToString(exitCode as int) + "'")
      && Contains(m, "error output: " + errorOutput)
      && (args.Some? ==> Contains(m, "with arguments '" + args.value + "'") && Contains(m, args.value))
      && (args.None? ==> Contains(m, "without args"))
      && (cwd.Some? ==> Contains(m, cwd.value))
      && (cwd.None? ==> Contains(m, currentDir))
      && "Command '" + executablePath + "' " <= m
      && EndsWith(m, " and error output: " + errorOutput)
      && (ArgumentsPart(args) == "without args" <==> args.None?)
  {
    MessageStartsWithCommand(executablePath, args, cwd, errorOutput, exitCode, currentDir);
    MessageEndsWithErrorOutput(executablePath, args, cwd, errorOutput, exitCode, currentDir);
    MessageContainsPath(executablePath, args, cwd, errorOutput, exitCode, currentDir);
    MessageContainsArgs(executablePath, args, cwd, errorOutput, exitCode, currentDir);
    MessageContainsWorkingDir(executablePath, args, cwd, errorOutput, exitCode, currentDir);
    MessageContainsExitCode(executablePath, args, cwd, errorOutput, exitCode, currentDir);
    MessageContainsErrorOutput(executablePath, args, cwd, errorOutput, exitCode, currentDir);
  }

  /** The current directory matters exactly when no `cwd` is given: with a
      `cwd` it is ignored, and without one distinct directories give
      distinct messages. */
  lemma {:induction false} MessageUsesCurrentDirOnlyWithoutCwd(
    executablePath: string, args: Option<string>, cwd: Option<string>,
    errorOutput: string, exitCode: int32, currentDir1: string, currentDir2: string)
    ensures cwd.Some? ==>
      ToMessage(executablePath, args, cwd, errorOutput, exitCode, currentDir1)
      == ToMessage(executablePath, args, cwd, errorOutput, exitCode, currentDir2)
    ensures cwd.None? && currentDir1 != currentDir2 ==>
      ToMessage(executablePath, args, cwd, errorOutput, exitCode, currentDir1)
      != ToMessage(executablePath, args, cwd, errorOutput, exitCode, currentDir2)
  {
    if cwd.None? && ToMessage(executablePath, args, cwd, errorOutput, exitCode, currentDir1)
                    == ToMessage(executablePath, args, cwd, errorOutput, exitCode, currentDir2) {
      var q := "'" + CodePart(IntToString(exitCode as int), errorOutput);
      var part := ArgumentsPart(args);
      var w1, w2 := " at working dir '" + (currentDir1 + q), " at working dir '" + (currentDir2 + q);
      PrefixCancel("Command '", executablePath + ("' " + (part + w1)), executablePath + ("' " + (part + w2)));
      PrefixCancel(executablePath, "' " + (part + w1), "' " + (part + w2));
      PrefixCancel("' ", part + w1, part + w2);
      PrefixCancel(part, w1, w2);
      PrefixCancel(" at working dir '", currentDir1 + q, currentDir2 + q);
      SuffixCancel(currentDir1, currentDir2, q);
    }
  }

  /** The message determines the exit code: two exit codes that differ
      give different messages, all else being equal. */
  lemma {:induction false} MessageDeterminesExitCode(
    executablePath: string, args: Option<string>, cwd: Option<string>,
    errorOutput: string, exitCode1: int32, exitCode2: int32, currentDir: string)
    requires ToMessage(executablePath, args, cwd, errorOutput, exitCode1, currentDir)
          == ToMessage(executablePath, args, cwd, errorOutput, exitCode2, currentDir)
    ensures exitCode1 == exitCode2
  {
    var part, dir := ArgumentsPart(args), WorkingDir(cwd, currentDir);
    var c1, c2 := IntToString(exitCode1 as int), IntToString(exitCode2 as int);
    var k1, k2 := CodePart(c1, errorOutput), CodePart(c2, errorOutput);
    var w1, w2 := " at working dir '" + (dir + ("'" + k1)), " at working dir '" + (dir + ("'" + k2));
    PrefixCancel("Command '", executablePath + ("' " + (part + w1)), executablePath + ("' " + (part + w2)));
    PrefixCancel(executablePath, "' " + (part + w1), "' " + (part + w2));
    PrefixCancel("' ", part + w1, part + w2);
    PrefixCancel(part, w1, w2);
    PrefixCancel(" at working dir '", dir + ("'" + k1), dir + ("'" + k2));
    PrefixCancel(dir, "'" + k1, "'" + k2);
    PrefixCancel("'", k1, k2);
    var t := "'" + (" and error output: " + errorOutput);
    PrefixCancel(" failed with error code '", c1 + t, c2 + t);
    SuffixCancel(c1, c2, t);
    IntToStringInjective(exitCode1 as int, exitCode2 as int);
  }

  /** The values of the repository's two exception tests: the first
      exception reads back all five values, and the message of the second
      names each of them. */
  lemma ExampleFooException()
    ensures var e := New("foo", Some("fooargs"), Some("foocwd"), "foostderr", 42, "elsewhere");
      && e.executablePath == "foo" && e.args == Some("fooargs") && e.cwd == Some("foocwd")
      && e.errorOutput == "foostderr" && e.exitCode == 42
    ensures var e := New("fooExecPath", Some("fooargs"), Some("foocwd"), "foostderr", 42, "elsewhere");
      && Contains(e.message, "'42'")
      && Contains(e.message, "error output: foostderr")
      && Contains(e.message, "fooExecPath")
      && Contains(e.message, "fooargs")
      && Contains(e.message, "foocwd")
  {
    ExampleFooMessage(ToMessage("fooExecPath", Some("fooargs"), Some("foocwd"), "foostderr", 42, "elsewhere"));
  }

  /** The message of that example names each of the five values. */
  lemma ExampleFooMessage(m: string)
    requires m == ToMessage("fooExecPath", Some("fooargs"), Some("foocwd"), "foostderr", 42, "elsewhere")
    ensures Contains(m, "'42'") && Contains(m, "error output: foostderr")
    ensures Contains(m, "fooExecPath") && Contains(m, "fooargs") && Contains(m, "foocwd")
  {
    MessageContainsExitCode("fooExecPath", Some("fooargs"), Some("foocwd"), "foostderr", 42, "elsewhere");
    RenderFortyTwo();
    MessageContainsErrorOutput("fooExecPath", Some("fooargs"), Some("foocwd"), "foostderr", 42, "elsewhere");
    MessageContainsPath("fooExecPath", Some("fooargs"), Some("foocwd"), "foostderr", 42, "elsewhere");
    MessageContainsArgs("fooExecPath", Some("fooargs"), Some("foocwd"), "foostderr", 42, "elsewhere");
    MessageContainsWorkingDir("fooExecPath", Some("fooargs"), Some("foocwd"), "foostderr", 42, "elsewhere");
  }

  /** The exit code of the example above, rendered in decimal between
      quotes. The second clause joins the label and the error output of
      that example; `ExampleFooMessage` cannot do that join cheaply in its
      own context. */
  lemma RenderFortyTwo()
    ensures "'" + IntToString(42) + "'" == "'42'"
    ensures "error output: " + "foostderr" == "error output: foostderr"
  {
    assert NatToString(42) == NatToString(4) + [DigitChar(2)];
  }
}
