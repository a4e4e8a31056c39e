/**
 The XMPP server configuration page: it reads whether in-band registration
 is enabled from the setup tool's status listing, and on a valid submission
 switches it on or off through the same tool run with privileges.
 */
module Configure {
  import opened Actions
  import opened Messages
  import Whitespace

  /** The server settings the page shows. */
  datatype Status = Status(inbandEnabled: bool)

  /** A request: no fields at all, or submitted fields judged valid or not by the
      form library, with the already-cleaned checkbox (absent means false). */
  datatype Request = NoFields | Fields(valid: bool, inbandEnabled: bool)

  /** The form rendered: built from a status, or bound to the submitted fields. */
  datatype Form = Initial(status: Status) | Bound(inbandEnabled: bool)

  const SetupTool := "xmpp-setup"

  /** The status listing's flag for in-band registration. */
  const InbandToken := "inband_enable"

  /** The unprivileged status query. */
  const StatusCommand := Command(User, SetupTool, ["status"])

  /** The setup tool's option that switches in-band registration on or off. */
  function SetupOption(enable: bool): string {
    if enable then "inband_enable" else "noinband_enable"
  }

  function SetupCommand(enable: bool): Command {
    Command(Superuser, SetupTool, [SetupOption(enable)])
  }

  /** Reads the status from the reply to `StatusCommand`: an error aborts, and
      otherwise in-band registration is on exactly when the flag is a whole
      whitespace-separated token of the output. */
  function GetStatus(reply: Reply): (r: Result<Status>)
    ensures r.Raised? <==> reply.Failed()
    ensures r.Raised? ==> r.reason == "Error getting status: " + reply.error.value
    ensures r.Ok? ==> (r.value.inbandEnabled <==> Whitespace.IsToken(InbandToken, reply.output))
  {
    if reply.Failed() then
      Raised("Error getting status: " + reply.error.value)
    else
      Whitespace.SplitListsTokens(InbandToken, reply.output);
      Ok(Status(InbandToken in Whitespace.Split(reply.output)))
  }

  /** A status listing made of flags separated by spaces reads as enabled
      exactly when the in-band flag is one of them. */
  lemma StatusOfFlags(flags: seq<string>)
    requires forall k :: 0 <= k < |flags| ==> Whitespace.IsWord(flags[k])
    ensures GetStatus(Reply(Whitespace.Join(flags), None)) == Ok(Status(InbandToken in flags))
  {
    Whitespace.SplitJoin(flags);
  }

  /** The setup option and the status flag share one vocabulary: a listing
      holding just the option last applied reads back as the state it set. */
  lemma OptionReadsBack(enable: bool)
    ensures GetStatus(Reply(SetupOption(enable), None)) == Ok(Status(enable))
  {
    StatusOfFlags([SetupOption(enable)]);
    assert Whitespace.Join([SetupOption(enable)]) == SetupOption(enable);
  }

  /** The flag is found beside other flags. */
  lemma FlagAmongOthers()
    ensures GetStatus(Reply("other_flag inband_enable", None)) == Ok(Status(true))
  {
    var flags := ["other_flag", "inband_enable"];
    assert Whitespace.Join(flags) == "other_flag inband_enable";
    assert Whitespace.IsWord(flags[0]);
    assert Whitespace.IsWord(flags[1]);
    StatusOfFlags(flags);
  }

  /** The flag is matched as a whole token only: neither another flag, nor a
      longer one, nor one that merely ends with it is mistaken for it. */
  lemma WholeTokenOnly()
    ensures GetStatus(Reply("other_flag", None)) == Ok(Status(false))
    ensures GetStatus(Reply("inband_enabled", None)) == Ok(Status(false))
    ensures GetStatus(Reply("noinband_enable", None)) == Ok(Status(false))
  {
    SingleFlag("other_flag");
    SingleFlag("inband_enabled");
    OptionReadsBack(false);
  }

  /** A listing of one flag reads as enabled only if that flag is the in-band one. */
  lemma SingleFlag(flag: string)
    requires Whitespace.IsWord(flag)
    ensures GetStatus(Reply(flag, None)) == Ok(Status(flag == InbandToken))
  {
    StatusOfFlags([flag]);
    assert Whitespace.Join([flag]) == flag;
  }

  /** Compares the shown and the submitted setting and reports the outcome in
      one new message; a change is then applied with one privileged run of the
      setup tool, whose error aborts after the message was already added. */
  function ApplyChanges(shown: Status, wanted: Status, messages: seq<Message>, setupReply: Reply): (r: Step)
    ensures Appended(messages, r.messages, 1)
    ensures shown == wanted ==>
              && Last(r.messages) == Message(Info, "Setting unchanged")
              && r.commands == []
              && r.raised == None
    ensures shown != wanted ==>
              && Last(r.messages).severity == Success
              && r.commands == [SetupCommand(wanted.inbandEnabled)]
              && (r.raised.Some? <==> setupReply.Failed())
    ensures shown != wanted && wanted.inbandEnabled ==> Last(r.messages).text == "Inband registration enabled"
    ensures shown != wanted && !wanted.inbandEnabled ==> Last(r.messages).text == "Inband registration disabled"
    ensures r.raised.Some? ==> r.raised.value == "Error running command - " + setupReply.error.value
  {
    if shown.inbandEnabled == wanted.inbandEnabled then
      Step(messages + [Message(Info, "Setting unchanged")], [], None)
    else
      var text := if wanted.inbandEnabled then "Inband registration enabled" else "Inband registration disabled";
      var appended := messages + [Message(Success, text)];
      var command := SetupCommand(wanted.inbandEnabled);
      if setupReply.Failed() then
        Step(appended, [command], Some("Error running command - " + setupReply.error.value))
      else
        Step(appended, [command], None)
  }

  /** A change that went through leaves the tool set to the submitted value:
      the one option it was run with reads back as that value. */
  lemma ChangeReadsBack(shown: Status, wanted: Status, messages: seq<Message>, setupReply: Reply)
    requires shown != wanted
    ensures var r := ApplyChanges(shown, wanted, messages, setupReply);
            GetStatus(Reply(r.commands[0].args[0], None)) == Ok(wanted)
  {
    OptionReadsBack(wanted.inbandEnabled);
  }

  /** Serves the page. The status is read first, on every request; fields that
      the form accepts are applied, and the form is then rebuilt from a second,
      fresh status read. `statusReply`, `setupReply` and `rereadReply` are the
      tool's answers to those three runs, each used only if the run happens. */
  function Index(request: Request, statusReply: Reply, setupReply: Reply, rereadReply: Reply): (p: Page<Form>)
    ensures |p.commands| >= 1 && p.commands[0] == StatusCommand
    ensures statusReply.Failed() ==>
              p == Aborted([StatusCommand], "Error getting status: " + statusReply.error.value)
    ensures !statusReply.Failed() && request.NoFields? ==>
              p == Rendered([StatusCommand], Initial(GetStatus(statusReply).value), [])
    ensures !statusReply.Failed() && request.Fields? && !request.valid ==>
              p == Rendered([StatusCommand], Bound(request.inbandEnabled), [])
    ensures p.Rendered? && p.messages != [] ==> request.Fields? && request.valid
    ensures AnyPrivileged(p.commands) <==>
              && !statusReply.Failed()
              && request.Fields? && request.valid
              && request.inbandEnabled != GetStatus(statusReply).value.inbandEnabled
    ensures AnyPrivileged(p.commands) ==>
              p.commands[1] == SetupCommand(request.inbandEnabled)
    ensures !statusReply.Failed() && request.Fields? && request.valid ==>
              var changed := request.inbandEnabled != GetStatus(statusReply).value.inbandEnabled;
              var applied := [StatusCommand] + (if changed then [SetupCommand(request.inbandEnabled)] else []);
              && (changed && setupReply.Failed() ==>
                    p == Aborted(applied, "Error running command - " + setupReply.error.value))
              && (!(changed && setupReply.Failed()) && rereadReply.Failed() ==>
                    p == Aborted(applied + [StatusCommand], "Error getting status: " + rereadReply.error.value))
              && (!(changed && setupReply.Failed()) && !rereadReply.Failed() ==>
                    && p.Rendered?
                    && p.commands == applied + [StatusCommand]
                    && p.form == Initial(GetStatus(rereadReply).value))
              && (p.Rendered? && !changed ==>
                    p.messages == [Message(Info, "Setting unchanged")])
              && (p.Rendered? && changed && request.inbandEnabled ==>
                    p.messages == [Message(Success, "Inband registration enabled")])
              && (p.Rendered? && changed && !request.inbandEnabled ==>
                    p.messages == [Message(Success, "Inband registration disabled")])
  {
    match GetStatus(statusReply)
    case Raised(reason) => Aborted([StatusCommand], reason)
    case Ok(status) =>
      match request
      case NoFields => Rendered([StatusCommand], Initial(status), [])
      case Fields(valid, inbandEnabled) =>
        if !valid then
          Rendered([StatusCommand], Bound(inbandEnabled), [])
        else
          var step := ApplyChanges(status, Status(inbandEnabled), [], setupReply);
          var commands := [StatusCommand] + step.commands;
          assert step.commands != [] ==> commands[1] == step.commands[0];
          if step.raised.Some? then
            Aborted(commands, step.raised.value)
          else
            var all := commands + [StatusCommand];
            assert step.commands != [] ==> all[1] == step.commands[0];
            match GetStatus(rereadReply)
            case Raised(reason) => Aborted(all, reason)
            case Ok(current) => Rendered(all, Initial(current), step.messages)
  }
}
