/** `Bud.BatchExec`: the earlier revision of `Exec`, without the argument
    quoter. Its check reads the exit code from the process object. */
module BatchExec {
  import opened Wrappers
  import opened Text
  import opened Process
  import ExecErrors
  import Exec

  /** `AssertProcessSucceeded`: raises exactly when the process exited with
      a non-zero code, and then with the same message as the later
      revision. */
  function AssertProcessSucceeded(executablePath: string, arguments: Option<string>, workingDir: Option<string>,
                                  process: ProcessHandle, errorOutput: string, currentDir: string): (r: Outcome<Exception>)
    ensures r.Pass? <==> process.exitCode == 0
    ensures r == Exec.AssertProcessSucceeded(executablePath, arguments, workingDir, errorOutput, process.exitCode, currentDir)
  {
    if process.exitCode != 0 then
      Fail(Exception(ExecErrors.ToMessage(executablePath, arguments, workingDir, errorOutput, process.exitCode, currentDir)))
    else
      Pass
  }

  /** `CreateProcess`: the descriptor of a process not yet started, built
      with the two-argument `ProcessStartInfo` constructor. */
  method CreateProcess(executablePath: string, arguments: Option<string>, workingDir: Option<string>)
    returns (info: StartInfo)
    ensures Prepared(info, executablePath, arguments, workingDir)
  {
    var argumentsString := arguments.GetOrElse("");
    info := NewStartInfo(executablePath, argumentsString);
    info := info.(createNoWindow := true, useShellExecute := false,
                  redirectStandardOutput := true, redirectStandardError := true);
    if workingDir.Some? {
      info := info.(workingDirectory := Some(workingDir.value));
    }
  }

  /** What `CheckCall` does once the process has exited with `exitCode`
      after writing `errorOutput` on standard error. */
  method CheckCall(executablePath: string, args: Option<string>, cwd: Option<string>,
                   errorOutput: string, exitCode: int32, currentDir: string)
    returns (r: Result<ProcessHandle, Exception>)
    ensures r.Ok? <==> exitCode == 0
    ensures r.Ok? ==> r.value.exitCode == 0 && Prepared(r.value.startInfo, executablePath, args, cwd)
    ensures r.Failed? ==>
      r.error.message == ExecErrors.ToMessage(executablePath, args, cwd, errorOutput, exitCode, currentDir)
  {
    var info := CreateProcess(executablePath, args, cwd);
    var process := ProcessHandle(info, exitCode);
    var check := AssertProcessSucceeded(executablePath, args, cwd, process, errorOutput, currentDir);
    if check.Fail? {
      return Failed(check.error);
    }
    return Ok(process);
  }

  /** What `CheckOutput` does once the process has exited: the deliveries
      to the standard-error handler are written to a `StringWriter` with no
      separator, and the standard output is returned only on exit code 0. */
  method CheckOutput(executablePath: string, args: Option<string>, cwd: Option<string>,
                     output: string, errorLines: seq<Option<string>>, exitCode: int32, currentDir: string)
    returns (r: Result<string, Exception>)
    ensures r.Ok? <==> exitCode == 0
    ensures r.Ok? ==> r.value == output
    ensures r.Failed? ==>
      r.error.message == ExecErrors.ToMessage(executablePath, args, cwd, Written(errorLines), exitCode, currentDir)
  {
    var info := CreateProcess(executablePath, args, cwd);
    var errorOutput := new StringWriter();
    var i := 0;
    while i < |errorLines|
      invariant 0 <= i <= |errorLines|
      invariant errorOutput.text == Written(errorLines[..i])
    {
      errorOutput.Write(errorLines[i]);
      assert errorLines[..i + 1][..i] == errorLines[..i];
      i := i + 1;
    }
    assert errorLines[..i] == errorLines;
    var process := ProcessHandle(info, exitCode);
    var check := AssertProcessSucceeded(executablePath, args, cwd, process, errorOutput.ToString(), currentDir);
    if check.Fail? {
      return Failed(check.error);
    }
    return Ok(output);
  }
}
