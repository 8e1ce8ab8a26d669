/** `Bud.Exec`: the argument quoter, the process descriptor, and the
    decision taken once a process has exited. Running the process itself
    (starting it, draining its pipes, waiting for it) is not modelled: the
    methods below take what the process produced as parameters. */
module Exec {
  import opened Wrappers
  import opened Text
  import opened Process
  import ExecErrors

  // ---------------------------------------------------------------------
  // Argument quoting
  // ---------------------------------------------------------------------

  /** One command-line token as it appears in the argument line. A token
      holding a space (U+0020 only) is wrapped in quotes, each quote inside
      it written twice; otherwise each quote is written three times. */
  function Arg(arg: string): string
  {
    var containsSpaces := ' ' in arg;
    var quotesEscaped := Replace(arg, '"', if containsSpaces then "\"\"" else "\"\"\"");
    if containsSpaces then "\"" + quotesEscaped + "\"" else quotesEscaped
  }

  /** The argument line for a list of tokens: each token quoted by `Arg`,
      joined by single spaces. Both `Args` overloads (an array of tokens
      and any enumerable of tokens) compute this. */
  function Args(args: seq<string>): string
  {
    Join(" ", seq(|args|, i requires 0 <= i < |args| => Arg(args[i])))
  }

  /** Reads back the token from its quoted form: the inverse of `Arg`. */
  function Unquote(quoted: string): string
  {
    if ' ' in quoted && |quoted| >= 2 then Collapse(quoted[1..|quoted| - 1], '"', 2)
    else Collapse(quoted, '"', 3)
  }

  /** A token without spaces or quotes is passed through unchanged. */
  lemma ArgPlain(arg: string)
    requires ' ' !in arg && '"' !in arg
    ensures Arg(arg) == arg
  {
    ReplaceAbsent(arg, '"', "\"\"\"");
  }

  /** Quoting keeps the decision visible: the quoted form holds a space
      exactly when the token does, and `Unquote` gives the token back, so
      distinct tokens are never quoted alike. */
  lemma ArgRoundTrip(arg: string)
    ensures (' ' in Arg(arg)) <==> (' ' in arg)
    ensures Unquote(Arg(arg)) == arg
  {
    var r := if ' ' in arg then "\"\"" else "\"\"\"";
    assert Repeat('"', 2) == "\"\"";
    assert Repeat('"', 3) == "\"\"\"";
    var inner := Replace(arg, '"', r);
    ReplaceMembership(arg, '"', r, ' ');
    CollapseReplace(arg, '"', |r|);
    if ' ' in arg {
      var q := Arg(arg);
      assert q == "\"" + inner + "\"";
      assert ' ' in q;
      assert q[1..|q| - 1] == inner;
    }
  }

  /** Distinct tokens have distinct quoted forms. */
  lemma ArgInjective(a: string, b: string)
    requires Arg(a) == Arg(b)
    ensures a == b
  {
    ArgRoundTrip(a);
    ArgRoundTrip(b);
  }

  /** Quoting changes nothing but quotes: ignoring `"`, the quoted form is
      the token; it holds three times as many quotes as the token when the
      token has no space, and twice as many plus the two around it when it
      has one. */
  lemma ArgOnlyAddsQuotes(arg: string)
    ensures Strip(Arg(arg), '"') == Strip(arg, '"')
    ensures ' ' !in arg ==> Count(Arg(arg), '"') == 3 * Count(arg, '"')
    ensures ' ' in arg ==> Count(Arg(arg), '"') == 2 * Count(arg, '"') + 2
  {
    if ' ' in arg {
      assert Repeat('"', 2) == "\"\"";
      var inner := Replace(arg, '"', Repeat('"', 2));
      assert Arg(arg) == "\"" + inner + "\"";
      ReplaceByCopiesStrip(arg, '"', 2);
      ReplaceByCopiesCount(arg, '"', 2);
      StripCountAppend("\"", inner, '"');
      StripCountAppend("\"" + inner, "\"", '"');
      assert Strip("\"", '"') == [] && Count("\"", '"') == 1 by {
        assert "\""[1..] == [];
      }
    } else {
      assert Repeat('"', 3) == "\"\"\"";
      assert Arg(arg) == Replace(arg, '"', Repeat('"', 3));
      ReplaceByCopiesStrip(arg, '"', 3);
      ReplaceByCopiesCount(arg, '"', 3);
    }
  }

  /** Length law: with `q` quotes in the token, the quoted form is `2q`
      longer without a space, and `q + 2` longer with one. */
  lemma ArgLength(arg: string)
    ensures ' ' !in arg ==> |Arg(arg)| == |arg| + 2 * Count(arg, '"')
    ensures ' ' in arg ==> |Arg(arg)| == |arg| + Count(arg, '"') + 2
  {
    if ' ' in arg {
      var r := "\"\"";
      var inner := Replace(arg, '"', r);
      ReplaceLength(arg, '"', r);
      assert |r| - 1 == 1;
      assert |inner| == |arg| + Count(arg, '"');
      assert Arg(arg) == "\"" + inner + "\"";
    } else {
      var r := "\"\"\"";
      ReplaceLength(arg, '"', r);
      assert |r| - 1 == 2;
      assert |Replace(arg, '"', r)| == |arg| + 2 * Count(arg, '"');
      ArgUnspaced(arg);
    }
  }

  /** The empty token stays empty (it is not quoted). */
  lemma ArgEmpty()
    ensures Arg("") == ""
  {
  }

  /** No tokens give an empty argument line; one token gives its quoted
      form; appending a token appends a space and its quoted form. */
  lemma ArgsStructure(args: seq<string>, arg: string)
    ensures Args([]) == ""
    ensures Args([arg]) == Arg(arg)
    ensures args != [] ==> Args(args + [arg]) == Args(args) + " " + Arg(arg)
  {
    if args != [] {
      var quoted := seq(|args|, i requires 0 <= i < |args| => Arg(args[i]));
      var longer := args + [arg];
      assert seq(|longer|, i requires 0 <= i < |longer| => Arg(longer[i])) == quoted + [Arg(arg)];
      JoinSnoc(" ", quoted, Arg(arg));
    }
  }

  /** Tokens without spaces or quotes are simply joined by single spaces. */
  lemma ArgsPlain(args: seq<string>)
    requires forall i :: 0 <= i < |args| ==> ' ' !in args[i] && '"' !in args[i]
    ensures Args(args) == Join(" ", args)
  {
    forall i | 0 <= i < |args|
      ensures Arg(args[i]) == args[i]
    {
      ArgPlain(args[i]);
    }
    assert seq(|args|, i requires 0 <= i < |args| => Arg(args[i])) == args;
  }

  /** Quoting example: plain tokens are joined by spaces. */
  lemma ArgsExamplePlain()
    ensures Args(["foo", "bar", "zar"]) == "foo bar zar"
  {
    ArgsPlain(["foo", "bar", "zar"]);
    assert Join(" ", ["foo", "bar", "zar"]) == "foo bar zar";
  }

  /** Quoting example: a token with a space is wrapped in quotes. */
  lemma ArgsExampleSpace()
    ensures Args(["foo bar", "zar"]) == "\"foo bar\" zar"
  {
    ArgsStructure(["foo bar"], "zar");
    assert ["foo bar"] + ["zar"] == ["foo bar", "zar"];
    ArgFooSpaceBar();
    ArgPlain("zar");
    assert "\"foo bar\"" + " " + "zar" == "\"foo bar\" zar";
  }

  /** The token of the quoting example above. */
  lemma ArgFooSpaceBar()
    ensures Arg("foo bar") == "\"foo bar\""
  {
    ArgSpacedPlain("foo bar");
  }

  /** A token without a space has its quotes tripled and is not wrapped. */
  lemma ArgUnspaced(arg: string)
    requires ' ' !in arg
    ensures Arg(arg) == Replace(arg, '"', "\"\"\"")
  {
  }

  /** A token with a space but no quote is only wrapped in quotes. */
  lemma ArgSpacedPlain(arg: string)
    requires ' ' in arg && '"' !in arg
    ensures Arg(arg) == "\"" + arg + "\""
  {
    ReplaceAbsent(arg, '"', "\"\"");
  }

  /** Quoting example: a quote in a token without spaces is tripled. */
  lemma ArgsExampleQuote()
    ensures Args(["foo\"bar", "zar"]) == "foo\"\"\"bar zar"
  {
    ArgsStructure(["foo\"bar"], "zar");
    assert ["foo\"bar"] + ["zar"] == ["foo\"bar", "zar"];
    ArgFooQuoteBar();
    ArgPlain("zar");
    assert "foo\"\"\"bar" + " " + "zar" == "foo\"\"\"bar zar";
  }

  /** The token of the quoting example above. */
  lemma ArgFooQuoteBar()
    ensures Arg("foo\"bar") == "foo\"\"\"bar"
  {
    assert "foo\"bar" == "foo" + "\"" + "bar";
    ArgOneQuote("foo", "bar");
    assert "foo" + "\"\"\"" + "bar" == "foo\"\"\"bar";
  }

  /** A single quote between two plain words is tripled. */
  lemma ArgOneQuote(a: string, b: string)
    requires ' ' !in a && '"' !in a && ' ' !in b && '"' !in b
    ensures Arg(a + "\"" + b) == a + "\"\"\"" + b
  {
    var t := "\"\"\"";
    ArgUnspaced(a + "\"" + b);
    ReplaceAppend(a + "\"", b, '"', t);
    ReplaceAppend(a, "\"", '"', t);
    ReplaceAbsent(a, '"', t);
    ReplaceAbsent(b, '"', t);
    assert Replace("\"", '"', t) == t;
  }

  // ---------------------------------------------------------------------
  // The exit-code check
  // ---------------------------------------------------------------------

  /** `AssertProcessSucceeded`: raises an exception exactly when the exit
      code is non-zero. Its message is the one `ExecException` renders for
      the same values; `currentDir` is the current directory, consulted
      only when no `cwd` was given. */
  function AssertProcessSucceeded(executablePath: string, args: Option<string>, cwd: Option<string>,
                                  errorOutput: string, exitCode: int32, currentDir: string): (r: Outcome<Exception>)
    ensures r.Pass? <==> exitCode == 0
    ensures r.Fail? ==>
      r.error.message == ExecErrors.New(executablePath, args, cwd, errorOutput, exitCode, currentDir).message
  {
    if exitCode != 0 then
      Fail(Exception(ExecErrors.ToMessage(executablePath, args, cwd, errorOutput, exitCode, currentDir)))
    else
      Pass
  }

  // ---------------------------------------------------------------------
  // Launching and the post-exit decision
  // ---------------------------------------------------------------------

  /** `CreateProcess`: the descriptor of a process not yet started. */
  method CreateProcess(executablePath: string, args: Option<string>, cwd: Option<string>)
    returns (info: StartInfo)
    ensures Prepared(info, executablePath, args, cwd)
  {
    var argumentsString := args.GetOrElse("");
    info := NewStartInfo(executablePath, "");
    info := info.(createNoWindow := true, useShellExecute := false,
                  redirectStandardOutput := true, redirectStandardError := true,
                  arguments := argumentsString);
    if cwd.Some? {
      info := info.(workingDirectory := Some(cwd.value));
    }
  }

  /** What `CheckCall` does once the process has exited with `exitCode`
      after writing `errorOutput` (read to its end) on standard error:
      returns the process when the exit code is 0 and raises otherwise. */
  method CheckCall(executablePath: string, args: Option<string>, cwd: Option<string>,
                   errorOutput: string, exitCode: int32, currentDir: string)
    returns (r: Result<ProcessHandle, Exception>)
    ensures r.Ok? <==> exitCode == 0
    ensures r.Ok? ==> r.value.exitCode == 0 && Prepared(r.value.startInfo, executablePath, args, cwd)
    ensures r.Failed? ==>
      r.error.message == ExecErrors.ToMessage(executablePath, args, cwd, errorOutput, exitCode, currentDir)
  {
    var info := CreateProcess(executablePath, args, cwd);
    var process := ProcessHandle(info, exitCode);
    var check := AssertProcessSucceeded(executablePath, args, cwd, errorOutput, process.exitCode, currentDir);
    if check.Fail? {
      return Failed(check.error);
    }
    return Ok(process);
  }

  /** What `CheckOutput` does once the process has exited with `exitCode`,
      having written `output` on standard output and delivered
      `errorLines` to the handler of standard error (a line without its
      terminator each time, null at the end of the stream). Each delivery
      is written to a `StringWriter`, with no separator; the output is
      returned when the exit code is 0, and an exception naming the
      written error text is raised otherwise. */
  method CheckOutput(executablePath: string, args: Option<string>, cwd: Option<string>,
                     output: string, errorLines: seq<Option<string>>, exitCode: int32, currentDir: string)
    returns (r: Result<string, Exception>)
    ensures r.Ok? <==> exitCode == 0
    ensures r.Ok? ==> r.value == output
    ensures r.Failed? ==>
      r.error.message == ExecErrors.ToMessage(executablePath, args, cwd, Written(errorLines), exitCode, currentDir)
  {
    var info := CreateProcess(executablePath, args, cwd);
    var errorOutput := new StringWriter();
    var i := 0;
    while i < |errorLines|
      invariant 0 <= i <= |errorLines|
      invariant errorOutput.text == Written(errorLines[..i])
    {
      errorOutput.Write(errorLines[i]);
      assert errorLines[..i + 1][..i] == errorLines[..i];
      i := i + 1;
    }
    assert errorLines[..i] == errorLines;
    var check := AssertProcessSucceeded(executablePath, args, cwd, errorOutput.ToString(), exitCode, currentDir);
    if check.Fail? {
      return Failed(check.error);
    }
    return Ok(output);
  }

  /** Every line the process wrote on standard error appears in the
      message `CheckOutput` raises. */
  lemma CheckOutputReportsErrorLines(executablePath: string, args: Option<string>, cwd: Option<string>,
                                     errorLines: seq<Option<string>>, exitCode: int32, currentDir: string, k: nat)
    requires k < |errorLines| && errorLines[k].Some?
    ensures Contains(ExecErrors.ToMessage(executablePath, args, cwd, Written(errorLines), exitCode, currentDir),
                     errorLines[k].value)
  {
    var m := ExecErrors.ToMessage(executablePath, args, cwd, Written(errorLines), exitCode, currentDir);
    WrittenContains(errorLines, k);
    ExecErrors.MessageContainsErrorOutput(executablePath, args, cwd, Written(errorLines), exitCode, currentDir);
    var e := "error output: " + Written(errorLines);
    ContainsRight("error output: ", Written(errorLines), errorLines[k].value);
    ContainsTransitive(m, e, errorLines[k].value);
  }
}
