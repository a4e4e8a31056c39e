# XMPP server admin pages, modelled in Dafny

This project models the decision logic of the XMPP plugin of a web admin
panel (`modules/xmpp/xmpp.py`). The plugin has two working pages:

- **Configure** reads whether in-band registration is enabled by running
  `xmpp-setup status` and looking for the token `inband_enable` in its
  output. On a valid form submission it compares the submitted setting with
  the current one. It adds one message and, if the setting changed, runs
  `xmpp-setup inband_enable` or `xmpp-setup noinband_enable` with
  privileges. It then re-reads the status to rebuild the form.
- **Register** runs `xmpp-register <username> <password>` with privileges.
  It reports success if the output contains `successfully registered`, and
  otherwise reports an error quoting the output.

No tool is ever run by the model. Each run the page would make is recorded as
a `Command` (runner privilege, tool name, argument list). The tool's answer is
a `Reply` parameter (output plus optional error text). A non-empty error makes
the page raise, modelled as `Raised`/`Aborted` with the exact exception text.
The per-request message list is a `seq<Message>` that helpers only append to.

Files:

- `whitespace.dfy` (`Whitespace`): argument-less `split()`, a reference
  definition of "whole token" (a maximal run between whitespace or the ends),
  and a proof that the two agree. Also `Join` with the round trip
  `Split(Join(ws)) == ws`.
- `substring.dfy` (`Substring`): the `in` test on strings, proved equal to
  "occurs at some index".
- `messages.dfy` (`Messages`): severities, messages and the append-only relation.
- `actions.dfy` (`Actions`): commands, replies, results and page outcomes.
- `configure.dfy` (`Configure`): `get_status`, `_apply_changes` and the
  configure page's `index`.
- `register.dfy` (`Register`): `_register_user` and the register page's `index`.

After every valid submission that does not raise, the register form is
reset to empty, also when the tool's output reports a failure
(`modules/xmpp/xmpp.py:161-162`). A tool error raises at line 179, before
the reset is reached. `Register.Index` states this behaviour.

The source dates from Python 2, where tool output is a byte string. Its
`split()` then separates on exactly six bytes: space, tab, line feed,
carriage return, vertical tab and form feed. `Whitespace.IsSpace` uses that set.

## Model

| member | source | states |
|---|---|---|
| Whitespace.Split | modules/xmpp/xmpp.py:107 | every token produced is non-empty and contains no whitespace |
| Whitespace.TokenComplete | modules/xmpp/xmpp.py:107 | every maximal whitespace-free run of the output is one of the split tokens |
| Whitespace.TokenSound | modules/xmpp/xmpp.py:107 | every split token is a maximal whitespace-free run of the output, bounded by whitespace or an end |
| Whitespace.SplitListsTokens | modules/xmpp/xmpp.py:107 | a string is among the split tokens if and only if it is a whole whitespace-separated token of the output |
| Whitespace.SplitJoin | modules/xmpp/xmpp.py:107 | splitting words joined by single spaces gives back exactly those words, in order |
| Substring.ContainsIff | modules/xmpp/xmpp.py:181 | the `in` test on strings is true if and only if the needle occurs at some position of the haystack (the empty needle always does) |
| Configure.GetStatus | modules/xmpp/xmpp.py:100-107 | a non-empty error raises "Error getting status: " plus the error and yields no status; otherwise in-band registration is on if and only if `inband_enable` is a whole token of the output |
| Configure.StatusOfFlags | modules/xmpp/xmpp.py:107 | a status listing of space-separated flags reads as enabled if and only if `inband_enable` is one of the flags |
| Configure.SingleFlag | modules/xmpp/xmpp.py:107 | a one-flag listing reads as enabled only when that flag is exactly `inband_enable` |
| Configure.FlagAmongOthers | modules/xmpp/xmpp.py:107 | the listing `other_flag inband_enable` reads as enabled |
| Configure.WholeTokenOnly | modules/xmpp/xmpp.py:107 | the listings `other_flag`, `inband_enabled` and `noinband_enable` each read as disabled |
| Configure.OptionReadsBack | modules/xmpp/xmpp.py:107-123 | the setup option chosen for a setting, read as a status listing, gives back that setting |
| Configure.ApplyChanges | modules/xmpp/xmpp.py:109-130 | exactly one message is appended and earlier ones are kept; an unchanged setting gives ("info", "Setting unchanged") and runs nothing; a change gives one success message saying enabled or disabled and runs exactly one privileged `xmpp-setup` with `inband_enable` or `noinband_enable`; that run's error raises "Error running command - " plus the error, with the message already appended |
| Configure.ChangeReadsBack | modules/xmpp/xmpp.py:118-127 | when the setting changes, the single argument passed to the setup tool names the submitted setting in the status listing's vocabulary |
| Configure.Index | modules/xmpp/xmpp.py:76-91 | the status is read first on every request and its error aborts; no fields or invalid fields render with no messages and run nothing privileged; a privileged run happens if and only if a valid submission differs from the current status; for a valid submission the exact command list is status read, the setup run only if the setting changed, then a second status read; a setup error or a re-read error aborts with its own exception text; otherwise the one message is ("info", "Setting unchanged") or the success message for enabling or disabling, and the form is rebuilt from the second status read |
| Register.RegisterUser | modules/xmpp/xmpp.py:173-188 | the registration tool is run with privileges and exactly [username, password]; a non-empty error raises "Error registering user - " plus the error and appends nothing; otherwise exactly one message is appended, a success if and only if `successfully registered` occurs in the output, and the message names the user, an error one also quoting the output |
| Register.Index | modules/xmpp/xmpp.py:150-164 | no fields render an empty form and invalid fields the submitted form, both with no messages and no tool run; a valid submission runs only the registration command and aborts exactly on its error, with "Error registering user - " plus the error; otherwise it renders one message, a success if and only if `successfully registered` occurs in the output, naming the user, with the form reset to empty |

## Left out

- The landing page `XMPP.index` (lines 43-50): it renders fixed HTML and a side menu and makes no decision.
- Service registrations, menu entries and page mounting (lines 23-38, 69-72, 145-148): registry side effects of the host framework.
- The authentication gate and URL routing decorators: framework behaviour outside this file.
- Template rendering and the side menu contents: presentation only. A page's result is modelled as the form, the message list and the commands run.
- Log lines (lines 112 and 125) and translation of message texts: texts are the literal English strings.
- Form validation and cleaning, including the hidden `dummy` field: library behaviour. Validity is an input and `inband_enabled` arrives as an already-cleaned boolean; the field errors shown with an invalid form are not modelled.
- Running the tools: each run is a recorded `Command` and its answer a `Reply` parameter, so timeouts and process failures appear only as an error text.
- Configure.Index: the messages appended before a raised exception are not part of an `Aborted` page, since the exception escapes before anything is rendered.
- Register.Index: likewise, an `Aborted` page carries no messages.
- Register.RegisterUser: strings are modelled as sequences of characters, so the implicit ASCII decoding that Python 2 applies when formatting the failure message (a byte-string output combined with a unicode username) is not modelled; an output holding a non-ASCII byte would raise there instead of appending the error message.
- Whitespace.IsSpace: Unicode whitespace classes are not modelled; only the six ASCII separators of a byte-string split are.
