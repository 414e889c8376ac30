/** The operating system as the launcher sees it, reduced to values: the result of an
    external command, the working directory, the environment and process termination. */
module Host {

  /** What a finished external command reports: whether it exited with status zero, and
      the text it printed. */
  datatype ProcessResult = ProcessResult(ok: bool, output: string)

  /** Runs an external command given as its argument vector, program name first. */
  type Runner = seq<string> -> ProcessResult

  /** The files of the working directory, by name, with their contents. */
  type Directory = map<string, string>

  datatype Option<T> = None | Some(value: T)

  /** The result of a routine that may end the whole process: either it returns a value
      to its caller, or the process exits with the given status code. */
  datatype Outcome<T> = Continue(value: T) | Exited(code: int)

  /** An environment lookup as os.Getenv makes it: an unset variable reads as "". */
  function Getenv(env: map<string, string>, key: string): string {
    if key in env then env[key] else ""
  }
}
