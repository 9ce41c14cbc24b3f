/** Running an external program (GitManager.Exec) as an oracle.

    The model never spawns a process: every operation that runs `git` or `ssh` takes an
    `Exec` function that maps the command to the lines the program printed, or to the
    message of the exception the call raised (a start failure, or the timeout after
    which the process tree is killed). */
module Process {
  import opened Base

  /** A program, its argument string, and the working directory (None: unchanged). */
  datatype Command = Command(filename: string, arguments: string, workdir: Option<string>)

  datatype ExecResult = Output(lines: seq<string>) | Failed(message: string)

  type Exec = Command -> ExecResult

  /** The exception raised when the program does not exit within a minute. */
  function Timeout(cmd: Command): ExecResult {
    Failed("Executing command timeout: [" + cmd.filename + " " + cmd.arguments + "]")
  }
}
