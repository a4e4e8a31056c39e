/**
 The boundary to the host's command-line tools. A page never runs a tool
 here: each call it would make is recorded as a `Command`, and what the tool
 answered is handed in as a `Reply`.
 */
module Actions {
  import opened Messages

  datatype Option<T> = None | Some(value: T)

  /** Which runner is used: the plain one or the privilege-escalating one. */
  datatype Privilege = User | Superuser

  /** One invocation of a named tool with its argument list. */
  datatype Command = Command(privilege: Privilege, tool: string, args: seq<string>)

  /** The captured standard output and the optional error text of a tool run. */
  datatype Reply = Reply(output: string, error: Option<string>) {
    /** An error counts only when present and non-empty. */
    predicate Failed() {
      error.Some? && |error.value| > 0
    }
  }

  /** A value, or the reason of the exception raised instead. */
  datatype Result<T> = Ok(value: T) | Raised(reason: string)

  /** What a helper that appends to the request's message list left behind:
      the list as it stands, the commands it ran, and the exception it raised, if any. */
  datatype Step = Step(messages: seq<Message>, commands: seq<Command>, raised: Option<string>)

  /** What a page handler produces: a rendered form with its messages, or an
      exception that escapes to the host; either way, the commands run on the way. */
  datatype Page<F> =
    | Rendered(commands: seq<Command>, form: F, messages: seq<Message>)
    | Aborted(commands: seq<Command>, reason: string)

  /** Does any of `commands` go through the privilege-escalating runner? */
  predicate AnyPrivileged(commands: seq<Command>) {
    exists k :: 0 <= k < |commands| && commands[k].privilege == Superuser
  }
}
