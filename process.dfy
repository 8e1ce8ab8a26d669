/** The parts of `System.Diagnostics` that the core configures or reads:
    the start-info record of a child process, the handle returned for it,
    and the plain `System.Exception` the checks raise. */
module Process {
  import opened Wrappers

  /** A C# `int`, the type of a process exit code. */
  newtype int32 = x: int | -0x8000_0000 <= x < 0x8000_0000

  /** The `ProcessStartInfo` fields the core sets. `workingDirectory` is
      `None` when `WorkingDirectory` was never assigned (.NET reads it as
      `""`); the child then runs in the caller's current directory, as it
      also does for an assigned `Some("")`. */
  datatype StartInfo = StartInfo(
    fileName: string,
    arguments: string,
    workingDirectory: Option<string>,
    createNoWindow: bool,
    useShellExecute: bool,
    redirectStandardOutput: bool,
    redirectStandardError: bool,
    redirectStandardInput: bool)

  /** A process that has exited: how it was started and its exit code. */
  datatype ProcessHandle = ProcessHandle(startInfo: StartInfo, exitCode: int32)

  /** `System.Exception` carrying only its message. */
  datatype Exception = Exception(message: string)

  /** `info` launches `executablePath` directly (no shell, no window) with
      the argument line `args` (empty when absent), with the working
      directory set to `cwd` when one is given and left unassigned
      otherwise (an empty `cwd` also runs in the caller's directory), with
      standard output and standard error piped back to the caller and
      standard input left alone. */
  predicate Prepared(info: StartInfo, executablePath: string, args: Option<string>, cwd: Option<string>)
  {
    && info.fileName == executablePath
    && (args.Some? ==> info.arguments == args.value)
    && (args.None? ==> info.arguments == "")
    && (cwd.Some? ==> info.workingDirectory == Some(cwd.value))
    && (cwd.None? ==> info.workingDirectory == None)
    && info.createNoWindow
    && !info.useShellExecute
    && info.redirectStandardOutput
    && info.redirectStandardError
    && !info.redirectStandardInput
  }

  /** A fresh `ProcessStartInfo(fileName, arguments)`: the runtime's
      defaults, which run through the shell, open a window and redirect
      nothing. */
  function NewStartInfo(fileName: string, arguments: string): (info: StartInfo)
    ensures info.fileName == fileName && info.arguments == arguments
    ensures info.workingDirectory.None?
    ensures !info.redirectStandardInput
  {
    StartInfo(fileName, arguments, None, false, true, false, false, false)
  }
}
