# Authenticated command protocol of the A4 bots, in Dafny

This project models the protocol logic of the three A4 programs:

- **`nccontrolller.py`**, the controller, frames an operator command as `<nonce> <mac> <command>\n`. The nonce is the decimal time stamp and the MAC is the first eight hex digits of SHA-256 over the nonce followed by the shared secret. It then summarises the distinct replies collected during its window.
- **`ncbot.py`**, the agent on a direct shared socket, does the following:
  - It strips each received chunk.
  - It skips presence lines (`-joined …`) and the replies of other agents.
  - It authenticates `nonce mac verb args…` against its set of seen nonces.
  - It counts and executes the four verbs `status`, `shutdown`, `attack` and `move`.
  - It refuses any other verb by name.
- **`ircbot.py`**, the agent on an IRC channel, does the same with a few differences:
  - It reads the text after the second `:` of a `PRIVMSG` line.
  - It announces duplicate nonces to the channel.
  - It counts every authenticated command.
  - It reconnects under a fresh random nick after any exception that reaches the `except` in `listen_for_commands` (`ircbot.py` lines 92-95). Exceptions caught inside `process_command` cause no reconnect: the `ValueError` of a non-integer attack port, and a failed send of a status or attack report.

Each agent is a pure step function: `(state, event) -> (state, replies, control)`.

- **The state** holds the seen nonces, the counter, the endpoint, and for the IRC agent the nick.
- **The control value** says what the process does next. Either the loop goes on, or an exception that reaches the loop's handler sends it back to a reconnect, or `shutdown` ends it.
- **Runs** fold the step over a sequence of inputs.

The model replaces everything outside the program's own logic with inputs:

- SHA-256 is a function parameter. The model assumes only that it returns 64 lowercase hex digits (`Auth.IsHexDigest`).
- The outcome of the network probe that `attack` performs is an input (`Probe.ProbeInput`).
- The time stamp and the random nick are inputs.

The Python string operations the programs rely on are defined in `Text` and `Numerals`, with their laws proved there: `split()`, `strip()`, `split(':')`, `split(':', 2)`, `startswith`, `in`, `str(n)` and `int(s)`.

The modules are:

- `Wrappers`: the `Option` type.
- `Text`, `Numerals`: the Python string operations.
- `Auth`: the MAC.
- `Probe`: the probe outcomes.
- `NcBot`, `IrcBot`, `Controller`: the three programs.
- `Agreement`: lemmas that connect the controller's frames to the agents' rules.

Where the code departs from the protocol's evident intent, the model follows the code (and, for the three bugs under Findings, also gives the intended behaviour):

- `ncbot.py` keeps its seen nonces and counter as locals of `listen_for_commands`, so both are lost whenever an exception leaves that function (see Findings).
- `ircbot.py` counts every authenticated command, even one with an unknown verb or a malformed argument, and sends no refusal for unknown verbs. `ncbot.py` counts only the four verbs and refuses the rest by name.
- `ircbot.py` gets a new random nick at every reconnect, including after `move`. The nick is not stable.
- In `ircbot.py`, an unresolvable attack target raises from `connect`. The listen loop catches it and reconnects instead of reporting a failure.
- `ircbot.py` does not notice an orderly close by the server: the empty read is treated as an empty line, so the agent never reconnects (see Findings).
- The controller files attack replies by substring, so one reply can count as a success and a failure at once (see Findings). `Controller.Summarize` is the controller as written; `Controller.SummarizeCorrected` files replies by their status word.
- The controller speaks only to a raw socket and never joins IRC, so only the direct-socket agent receives its frames. The `Agreement` lemmas about the IRC agent concern the text formats alone: a channel message whose text is a frame, and the report texts the IRC agent writes.

## Model

| member | source | states |
|---|---|---|
| Auth.Mac | A4/nccontrolller.py:24-26 | the MAC is a prefix of the digest of nonce followed by secret, of length eight unless the digest is shorter |
| Auth.MacIsEightHexDigits | A4/ncbot.py:72 | for a real hex digest the MAC is exactly eight lowercase hex digits and a single whitespace-free token |
| Controller.SendCommandWords | A4/nccontrolller.py:59-61 | splitting the sent frame on whitespace gives the nonce, the MAC, then the command's own tokens |
| Controller.ProcessResponsesWith | A4/nccontrolller.py:91-144 | the summary is a refusal exactly when some kept reply contains "The command", whichever way attack replies are filed |
| Controller.AttackSummaryAsWritten | A4/nccontrolller.py:120-131 | as written, the attack summary's successes are exactly the kept replies containing "OK" anywhere and its failures those containing "FAIL" anywhere |
| Controller.AttackSummaryCorrected | A4/nccontrolller.py:120-131 | with the intended filing, successes and failures are the kept replies whose status word is "OK" or "FAIL", and no reply is both |
| Controller.AttackSummaryDoubleCountsAsWritten | A4/nccontrolller.py:123-124 | as written, the one reply `-attack BOOK FAIL Timeout` makes the attack summary report it as a success and as a failure |
| Controller.StatusReplyCountsAsAttackAsWritten | A4/nccontrolller.py:123 | as written, a stray `-status BOOK 3` in an attack window is counted as a successful attack |
| Controller.MoveCountsDistinctMoves | A4/nccontrolller.py:136-144 | `move` reports the distinct `-move` replies when there are any, says nothing came back for an empty window, prints nothing when only presence lines came, and reports no moves exactly when some non-presence reply came but no `-move` reply |
| Controller.RefusalShortCircuits | A4/nccontrolller.py:96-98 | one refusal line makes the summary a refusal whatever the command, and that line is shown |
| Controller.StatusCountsDistinctReplies | A4/nccontrolller.py:101-108 | without refusals, `status` reports exactly the distinct `-status` lines |
| Controller.ShutdownCountsDistinctReplies | A4/nccontrolller.py:111-118 | without refusals, `shutdown` reports exactly the distinct `-shutdown` lines |
| Controller.SummaryIgnoresRepetition | A4/nccontrolller.py:93 | two collections with the same replies, in any order or multiplicity, give the same summary |
| Controller.EmptyWindowReportsZero | A4/nccontrolller.py:164-175 | with no reply at all, status, shutdown and attack report zero bots, never an error |
| Controller.TwoBotsFromThreeReplies | A4/nccontrolller.py:101-104 | a repeated status line is counted once: three replies from two agents give two bots |
| Controller.AttackPartitionAsWrittenOverlaps | A4/nccontrolller.py:123-124 | as written, for every nick containing "OK" and every reason, the report `-attack <nick> FAIL <reason>` is filed under both outcomes |
| NcBot.Classify | A4/ncbot.py:137-163 | a stripped line is blank, a presence line, another agent's report, too short, or a command whose tokens are the nonce, MAC, verb and arguments |
| NcBot.ClassifyCommandLine | A4/ncbot.py:144-163 | a line with three tokens that does not start with `-` is a command |
| NcBot.AttackReport | A4/ncbot.py:75-105 | no report exactly when `connect` raises; otherwise `-attack nick OK` exactly for a writable target, "FAIL no such hostname" for an unresolvable host, "FAIL Timeout or Unable to Connect" for an error or a timeout, and "FAIL" with the exception's text otherwise |
| NcBot.Execute | A4/ncbot.py:187-223 | executing a verb never touches the seen set or the counter and sends at most one line |
| NcBot.ExecuteStatusAndShutdown | A4/ncbot.py:195-205 | the process exits exactly on `shutdown`, after sending `-shutdown <nick>`; `status` sends `-status <nick> <count>` and goes on |
| NcBot.ExecuteBadArguments | A4/ncbot.py:207-218 | `attack` or `move` without exactly one argument does nothing and goes on; one argument without exactly one colon restarts the loop, because unpacking it raises ValueError |
| NcBot.OnTarget | A4/ncbot.py:207-223 | a target that is not two fields restarts the loop; a non-integer port restarts for `attack`, where nothing catches the ValueError, and is ignored for `move`; a valid `attack` sends the probe's report, or restarts when `connect` raises; a valid `move` announces itself and switches the endpoint |
| NcBot.OnCommand | A4/ncbot.py:166-178 | a spent nonce or a wrong MAC changes nothing; otherwise the nonce is spent, and the counter advances exactly for the four verbs |
| NcBot.OnData | A4/ncbot.py:137-178 | one line spends at most one nonce and advances the counter only together with a newly spent nonce |
| NcBot.Step | A4/ncbot.py:130-184 | the seen set only grows, by at most one; the counter advances only with a newly spent nonce and stays within the seen set; the step's lines begin with the reconnect announcement when one is due |
| NcBot.SkipsPresenceAndReports | A4/ncbot.py:144-154 | a named presence line or another agent's report changes nothing and gets no reply |
| NcBot.DropsShortLines | A4/ncbot.py:157-160 | a line of fewer than three tokens changes nothing and gets no reply |
| NcBot.RejectsReplayedNonce | A4/ncbot.py:166-168 | a spent nonce is rejected even with a correct MAC, with nothing counted |
| NcBot.BadMacKeepsNonceUsable | A4/ncbot.py:166-169 | a wrong MAC leaves the nonce unspent, so the correct MAC for it is accepted afterwards |
| NcBot.RefusesUnknownVerb | A4/ncbot.py:175-178 | an authenticated unknown verb is refused by name and not counted, but its nonce is spent |
| NcBot.StatusIncludesItself | A4/ncbot.py:172-174 | `status` replies with the counter including itself, and the reported number reads back as that count |
| NcBot.StatusLineWords | A4/ncbot.py:196 | the status reply has exactly the tokens `-status`, the nick and the decimal count |
| NcBot.ShutdownIsTerminal | A4/ncbot.py:199-205 | `shutdown` is counted, acknowledged with `-shutdown nick`, and ends the process |
| NcBot.ExecuteSplitsTarget | A4/ncbot.py:209 | a `host:port` argument with no other colon splits back into its two fields |
| NcBot.MoveSwitchesEndpoint | A4/ncbot.py:214-221 | `move` announces the move, disconnects and switches to the new endpoint, keeping the nonces and counter |
| NcBot.ReconnectAnnounces | A4/ncbot.py:132-134 | after a disconnect, the next step's first line is `-joined nick` |
| NcBot.BareJoinedRestarts | A4/ncbot.py:144-145 | a bare `-joined` line, which needs no MAC, restarts the loop; as written, the restart forgets every spent nonce |
| NcBot.TargetWithoutColonRestarts | A4/ncbot.py:207-218 | an authenticated `attack` or `move` whose argument has no colon spends its nonce and restarts the loop; as written, the restart forgets that nonce again |
| NcBot.MoveWithBadPortStays | A4/ncbot.py:218-223 | `move` with a non-integer port is counted and spends its nonce but changes nothing else |
| NcBot.AttackReportsProbe | A4/ncbot.py:207-210 | `attack host:port` sends exactly one report, OK exactly for a writable target, and a named failure for an unresolvable host |
| NcBot.LostConnectionRestarts | A4/ncbot.py:179-184 | a transport failure leaves `listen_for_commands`, so `main` reconnects and calls it again |
| NcBot.ResumeAsWritten | A4/ncbot.py:126-129 | as written, the restarted loop starts from an empty seen set and a zero counter |
| NcBot.Resume | A4/ncbot.py:230-247 | the corrected restart keeps the seen set and the counter and only reconnects |
| NcBot.RunKeepsCountWithinSeen | A4/ncbot.py:166-174 | with the corrected restart, the counter never exceeds the number of spent nonces and no nonce is ever forgotten |
| IrcBot.NormalizeChannel | A4/ircbot.py:236-237 | the channel always starts with `#` and is unchanged when it already does |
| IrcBot.NormalizeChannelIdempotent | A4/ircbot.py:236-237 | normalising twice is normalising once |
| IrcBot.Authenticate | A4/ircbot.py:60-75 | duplicate exactly when the nonce is spent, whatever the MAC; accepted exactly for a fresh nonce with the right MAC |
| IrcBot.AcceptedNonceIsSpent | A4/ircbot.py:63-74 | after a message is accepted, any message with the same nonce is turned away with the duplicate notice and changes nothing |
| IrcBot.AttackReport | A4/ircbot.py:160-182 | a report exactly when the probe reached `select`: OK exactly for a writable target, "FAIL Unable to Connect or Error" for an error, "FAIL Timeout" for a timeout, and "FAIL" with the exception's text otherwise |
| IrcBot.Target | A4/ircbot.py:119-122 | an attack or move target exists exactly for one argument with exactly one colon, and it rejoins to that argument |
| IrcBot.Dispatch | A4/ircbot.py:113-134 | dispatch never touches the seen set or the counter and says at most one thing; it exits exactly on `shutdown`, after `-shutdown <nick>`; `status` reports the count; unknown verbs and malformed targets do nothing, and so does an `attack` port that is not an integer; a valid `attack` says the probe's report, or reconnects under a new nick when `connect` raises; a non-integer `move` port reconnects to the old endpoint under a new nick; a valid `move` announces itself under the old nick and switches endpoint and nick |
| IrcBot.ProcessCommand | A4/ircbot.py:101-136 | the seen set only grows, and the counter grows by exactly as much, at most one |
| IrcBot.OnLine | A4/ircbot.py:84-91 | one channel line spends at most one nonce and counts exactly the nonces it spends |
| IrcBot.StepWith | A4/ircbot.py:79-95 | the same for one pass of the loop, including a reconnect after a raised connection error, as written or with the intended handling of a close |
| IrcBot.ClosedConnectionIgnoredAsWritten | A4/ircbot.py:84-91 | as written, the empty read after the server closes the connection changes nothing and does not reconnect |
| IrcBot.ClosedServerStallsAsWritten | A4/ircbot.py:80-95 | as written, after the server closes the connection, no number of further passes ever reconnects or says anything |
| IrcBot.ClosedConnectionReconnects | A4/ircbot.py:92-95 | with the intended handling, a close reconnects under a new nick and keeps the nonces, counter and endpoint |
| IrcBot.AnnouncesDuplicate | A4/ircbot.py:63-68 | a spent nonce gets the duplicate notice on the channel and changes nothing |
| IrcBot.BadMacKeepsNonceUsable | A4/ircbot.py:69-75 | a wrong MAC says nothing and leaves the nonce unspent, so the right MAC is accepted afterwards |
| IrcBot.IgnoresShortMessage | A4/ircbot.py:105-106 | a message of fewer than three tokens changes nothing and says nothing |
| IrcBot.CountsEveryAcceptedCommand | A4/ircbot.py:110-111 | every authenticated command is counted once and spends its nonce, whatever the verb |
| IrcBot.StatusIncludesItself | A4/ircbot.py:139-145 | `status` reports the counter including itself, under the current nick |
| IrcBot.ShutdownIsTerminal | A4/ircbot.py:116-117 | an authenticated `shutdown` says `-shutdown <nick>` and exits, with its nonce spent and counted; a run stops at it, whatever inputs would have followed |
| IrcBot.MoveWithBadPortReconnects | A4/ircbot.py:129-132 | `move host:port` with a non-integer port reconnects to the old endpoint under a new nick and says nothing; the command stays counted and its nonce spent |
| IrcBot.AttackDispatchesProbe | A4/ircbot.py:119-125 | an attack on `host:port` with an integer port says the probe's report under the current nick, and when `connect` raises it says nothing and reconnects under a new nick |
| IrcBot.AttackNeedsWellFormedTarget | A4/ircbot.py:119-127 | an attack is reported exactly for one `host:port` argument with an integer port whose probe reached `select` |
| IrcBot.TargetOfFields | A4/ircbot.py:130-131 | `host:port` with no other colon yields exactly that host and port |
| IrcBot.MoveSwitchesEndpoint | A4/ircbot.py:194-221 | `move` announces under the old nick, switches the endpoint and reconnects under a fresh nick |
| IrcBot.RunCountsAcceptedNonces | A4/ircbot.py:60-111 | over any run, as written or corrected, the counter equals the number of accepted nonces, across reconnects and moves |
| Text.WordsOfStrip | A4/ncbot.py:137 | stripping a line does not change how it splits on whitespace |
| Text.StripKeepsHead | A4/ncbot.py:137 | a line that starts with a non-space character keeps it first after stripping |
| Text.JoinOfSplit | A4/ircbot.py:120 | joining the pieces of `split(':')` with `:` gives back the text |
| Text.SplitOfJoin | A4/ncbot.py:209 | joining colon-free pieces with `:` and splitting again gives back the pieces |
| Text.SplitOnCount | A4/ncbot.py:209 | `split(':')` has one more piece than the text has colons |
| Text.AfterSecondSplit | A4/ircbot.py:88-90 | `split(':', 2)` has a third field exactly when `split(':')` has at least three pieces, and it is the rest rejoined |
| Numerals.NatToString | A4/ncbot.py:196 | the decimal form of a count is non-empty digits without a leading zero |
| Numerals.ParseIntOfNatToString | A4/ncbot.py:220 | `int(str(n)) == n` for every count and port |
| Numerals.NatToStringInjective | A4/nccontrolller.py:59 | distinct time stamps give distinct nonces |
| Agreement.ClassifyControllerFrame | A4/ncbot.py:157-163 | the controller's frame, once stripped, is a command with the controller's nonce, MAC, verb and arguments |
| Agreement.NcBotAcceptsControllerFrame | A4/ncbot.py:166-174 | the direct-socket agent accepts the controller's frame with a fresh nonce and counts it when the verb is one of the four |
| Agreement.NcBotRejectsResentFrame | A4/ncbot.py:166-168 | the same frame sent again is dropped without reply or count |
| Agreement.IrcBotAcceptsControllerFrameOnce | A4/ircbot.py:60-75 | a channel message whose text has the controller's frame format is accepted once by the IRC agent, and the same text again gets the duplicate notice |
| Agreement.ControllerSortsNcBotReport | A4/nccontrolller.py:120-131 | the corrected partition files the direct-socket agent's report under success exactly when the target was writable |
| Agreement.ControllerSortsIrcBotReport | A4/nccontrolller.py:120-131 | the corrected filing also sorts the IRC agent's report texts by the probe outcome |
| Agreement.StatusFrameAccepted | A4/ncbot.py:195-197 | a fresh status frame is executed and reports the advanced counter |
| Agreement.StatusFrameReplayed | A4/ncbot.py:166-168 | a status frame with a spent nonce produces nothing but a reconnect announcement |
| Agreement.ReplayAcceptedAfterRestartAsWritten | A4/ncbot.py:128-129 | as written, a status frame replayed after a lost connection is executed again and the counter restarts at one |
| Agreement.ReplayRejectedAfterRestart | A4/ncbot.py:179-184 | with the corrected restart, the replayed frame is dropped and the counter keeps its value |

## Left out

- Sockets, connecting with retries, the five-second sleeps, `send`/`recv` loops and socket shutdown are I/O. Every send is modelled as succeeding, so the IRC agent's caught failures to send a status or attack report are not represented. Each `recv` is modelled as one received line. For the direct-socket agent, a closed or failed transport is one event, `ConnectionLost`, because `recv_data` raises for both. For the IRC agent, an orderly close (`Closed`, an empty read that raises nothing) and a raised socket error (`ConnectionLost`) are separate events.
- The IRC handshake (`NICK`, `USER`, waiting for `001`), the `JOIN`, and the `PONG` reply to `PING` are transport chatter. A `PING` line is modelled as ignored by the command logic.
- SHA-256 is a parameter. The model assumes only that its output is 64 lowercase hex digits.
- The probe's name resolution, non-blocking connect, three-second `select` and payload write are network I/O. Their result is the `ProbeInput`.
- `time.time()` for the nonce and `random.randint` for the IRC nick are inputs (`now`, `freshNick`).
- The controller's collection window (`receive_responses`) is I/O. The collected, stripped replies are its input.
- The controller's read–send–summarise loop in `main` and its `quit` command are interactive I/O. One cycle is `Controller.Summarize`.
- Command-line parsing, usage messages and all `print` output are left out, including the controller's listing of nicks and the debug print of the expected MAC in `execute_command`.
- `KeyboardInterrupt` handling is left out because it is operator interaction.
- Byte decoding is not modelled: strings are sequences of Unicode characters.
- `int()` accepting non-ASCII Unicode digits is not modelled. `Numerals.ParseInt` accepts ASCII digits with an optional sign, underscores between digits, and surrounding whitespace.
- NcBot.Step: when a step is the first after a restart, the model does not record that `main` sends `-joined` and the first loop iteration does not send it again. The model sends one announcement per reconnect.
- NcBot.RunKeepsCountWithinSeen states `count <= |seen|` rather than equality. The direct-socket agent spends a nonce on an unknown verb without counting it.

## Findings

| source | as written | input that shows it | evidently intended | confidence | as-written member | corrected member |
|---|---|---|---|---|---|---|
| A4/ncbot.py:128-129 | `seen_nonces` and `command_count` are locals of `listen_for_commands`. A lost connection (or any other exception) leaves the function, and `main` calls it again with an empty set and a zero counter. | a `status` frame is accepted, the connection drops, and the same frame is sent again: it is executed a second time and reports count 1 | accepted nonces and the counter persist for the life of the process, so a replay is rejected after a reconnect | high; not executed | Agreement.ReplayAcceptedAfterRestartAsWritten | Agreement.ReplayRejectedAfterRestart |
| A4/nccontrolller.py:123-124 | attack replies are sorted by the substring tests `"OK" in resp` and `"FAIL" in resp` | the reply `-attack BOOK FAIL Timeout` from an agent nicknamed `BOOK` is counted as a success and as a failure | a reply is a success or a failure according to the status word after the nick | high; not executed | Controller.AttackSummaryDoubleCountsAsWritten | Controller.AttackSummaryCorrected |
| A4/ircbot.py:82-91 | after the server closes the connection, `select` keeps reporting the socket readable and `recv` returns nothing. The stripped empty text is neither `PING` nor `PRIVMSG`, nothing raises, and the reconnect in the `except` at lines 92-95 is never reached | the IRC server closes the connection in order | reconnect as after a socket error, keeping the nonces and counter | high; not executed | IrcBot.ClosedServerStallsAsWritten | IrcBot.ClosedConnectionReconnects |
