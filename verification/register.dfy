/**
 The XMPP account registration page: a valid submission runs the
 registration tool with privileges and classifies its answer by looking for
 the tool's success phrase.
 */
module Register {
  import opened Actions
  import opened Messages
  import Substring

  /** The cleaned fields of a submitted registration form. */
  datatype Account = Account(username: string, password: string)

  /** A request: no fields at all, or submitted fields judged valid or not by the form library. */
  datatype Request = NoFields | Fields(valid: bool, account: Account)

  /** The form rendered: empty, or still carrying the submitted fields. */
  datatype Form = Blank | Filled(account: Account)

  const RegisterTool := "xmpp-register"

  /** The phrase in the tool's output that reports a created account. */
  const SuccessPhrase := "successfully registered"

  function RegisterCommand(account: Account): Command {
    Command(Superuser, RegisterTool, [account.username, account.password])
  }

  /** Runs the registration tool with exactly the username and the password.
      An error aborts before any message is added; otherwise one message is
      added, a success naming the user when the output reports the account as
      created, and an error quoting the user and the tool's output when not. */
  function RegisterUser(account: Account, messages: seq<Message>, reply: Reply): (r: Step)
    ensures r.commands == [RegisterCommand(account)]
    ensures r.raised.Some? <==> reply.Failed()
    ensures r.raised.Some? ==>
              && r.messages == messages
              && r.raised.value == "Error registering user - " + reply.error.value
    ensures r.raised.None? ==>
              && Appended(messages, r.messages, 1)
              && (Last(r.messages).severity == Success <==> Substring.Occurs(SuccessPhrase, reply.output))
              && (Last(r.messages).severity == Success || Last(r.messages).severity == Error)
              && Substring.Occurs(account.username, Last(r.messages).text)
              && (Last(r.messages).severity == Error ==> Substring.Occurs(reply.output, Last(r.messages).text))
  {
    var command := RegisterCommand(account);
    if reply.Failed() then
      Step(messages, [command], Some("Error registering user - " + reply.error.value))
    else
      Substring.ContainsIff(SuccessPhrase, reply.output);
      if Substring.Contains(SuccessPhrase, reply.output) then
        var text := "Registered account for " + account.username;
        Substring.OccursInMiddle("Registered account for ", account.username, "");
        assert text == "Registered account for " + account.username + "";
        Step(messages + [Message(Success, text)], [command], None)
      else
        var prefix := "Failed to register account for ";
        var text := prefix + account.username + ": " + reply.output;
        Substring.OccursInMiddle(prefix, account.username, ": " + reply.output);
        Substring.OccursInMiddle(prefix + account.username + ": ", reply.output, "");
        assert text == prefix + account.username + ": " + reply.output + "";
        assert text == prefix + account.username + (": " + reply.output);
        Step(messages + [Message(Error, text)], [command], None)
  }

  /** Serves the page. A valid submission registers the account and the form is
      then reset to empty, whether the tool reported success or failure; an
      invalid one is shown again with its fields. */
  function Index(request: Request, reply: Reply): (p: Page<Form>)
    ensures request.NoFields? ==> p == Rendered([], Blank, [])
    ensures request.Fields? && !request.valid ==> p == Rendered([], Filled(request.account), [])
    ensures p.Rendered? && p.messages != [] ==> request.Fields? && request.valid
    ensures AnyPrivileged(p.commands) <==> request.Fields? && request.valid
    ensures request.Fields? && request.valid ==>
              && p.commands == [RegisterCommand(request.account)]
              && (p.Aborted? <==> reply.Failed())
              && (p.Aborted? ==> p.reason == "Error registering user - " + reply.error.value)
              && (p.Rendered? ==>
                    && p.form == Blank
                    && |p.messages| == 1
                    && (p.messages[0].severity == Success <==> Substring.Occurs(SuccessPhrase, reply.output))
                    && Substring.Occurs(request.account.username, p.messages[0].text))
  {
    match request
    case NoFields => Rendered([], Blank, [])
    case Fields(valid, account) =>
      if !valid then
        Rendered([], Filled(account), [])
      else
        var step := RegisterUser(account, [], reply);
        assert step.commands[0].privilege == Superuser;
        if step.raised.Some? then
          Aborted(step.commands, step.raised.value)
        else
          Rendered(step.commands, Blank, step.messages)
  }
}
