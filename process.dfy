/** What the class sees of a Symfony `Process`: the command vector and the
    timeout it is started with, and, once `run()` has returned, the exit code
    and what the process wrote.  Starting, waiting for and killing the child
    process are outside the model; a caller supplies the outcome of each run
    as a function from invocation to completion. */
module Process {

  /** `new Process($command)` followed by `setTimeout($timeout)`. */
  datatype Invocation = Invocation(command: seq<string>, timeout: int)

  /** The state of a process after `run()` has returned. */
  datatype Completed = Completed(exitCode: int, output: string, errorOutput: string)

  /** `Process::isSuccessful()`: the exit code is 0. */
  predicate IsSuccessful(c: Completed)
  {
    c.exitCode == 0
  }
}
