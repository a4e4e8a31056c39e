/**
 The (severity, text) notes a page collects while serving one request and
 shows once it is rendered.
 */
module Messages {

  datatype Severity = Info | Success | Error

  datatype Message = Message(severity: Severity, text: string)

  /** `after` is `before` with exactly `n` messages added at the end; nothing earlier changed. */
  predicate Appended(before: seq<Message>, after: seq<Message>, n: nat) {
    |after| == |before| + n && after[..|before|] == before
  }

  /** The most recent message. */
  function Last(messages: seq<Message>): Message
    requires |messages| > 0
  {
    messages[|messages| - 1]
  }
}
