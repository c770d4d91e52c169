/** utils.RunCommand: how the outcome of running an external engine is turned
    into the (output, error) pair every plugin parses. Process creation, the
    timer and the pipes are outside the model: the environment hands over what
    `Output()` returned and whether the context's deadline had passed. */
module Exec {
  import opened GoValues

  /** Captured stdout and the error of a run (`exit status N`, a launch
      failure, ...), or the (output, error) pair RunCommand returns. */
  datatype Run = Run(output: string, err: Error)

  /** The context passed to RunCommand: nil, or one with a deadline that has
      or has not passed by the time the command returned. */
  datatype Context = NilContext | Deadline(exceeded: bool)

  predicate Expired(ctx: Context)
  {
    ctx.Deadline? && ctx.exceeded
  }

  /** The one context a plugin's AvScan passes to both of its runs, read at
      each: it comes from context.WithTimeout, so it is never nil, and a
      deadline that has passed by the first run has still passed by the
      second. */
  predicate SameDeadline(first: Context, second: Context)
  {
    first.Deadline? && second.Deadline? && (first.exceeded ==> second.exceeded)
  }

  function TimedOut(cmd: string): string
  {
    "command " + cmd + " timed out"
  }

  /** RunCommand's decision: an exec error wins and is returned with the
      captured output; only a clean exit is checked against the deadline. */
  function RunCommand(ctx: Context, cmd: string, exec: Run): (r: Run)
    ensures exec.err.Some? ==> r == exec
    ensures r.err.None? <==> exec.err.None? && !Expired(ctx)
    ensures r.err.None? ==> r.output == exec.output
    ensures exec.err.None? && Expired(ctx) ==> r == Run("", Some(TimedOut(cmd)))
  {
    if exec.err.Some? then exec
    else if ctx.Deadline? && ctx.exceeded then Run("", Some(TimedOut(cmd)))
    else exec
  }

  /** Without a context no timeout error is ever produced: the result is what
      exec returned. */
  lemma NilContextNeverTimesOut(cmd: string, exec: Run)
    ensures RunCommand(NilContext, cmd, exec) == exec
  {
  }

  /** Under one deadline, a run that finishes cleanly after a timed-out run
      times out as well. */
  lemma ExpiredStaysExpired(first: Context, second: Context, cmd: string, exec: Run)
    requires SameDeadline(first, second) && Expired(first) && exec.err.None?
    ensures RunCommand(second, cmd, exec) == Run("", Some(TimedOut(cmd)))
  {
  }
}
