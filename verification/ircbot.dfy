/** The relay-channel agent (A4/ircbot.py). Commands arrive as the text of
    channel messages and replies go back as channel messages. Its rules differ
    from the direct-socket agent's: duplicates are announced, every
    authenticated command is counted, `host:port` arguments are checked more
    strictly, and every (re)connect picks a new random nick, which the model
    takes as an input. The IRC handshake (NICK/USER, PING/PONG, waiting for
    001, JOIN) is not modelled. */
module IrcBot {

  import opened Wrappers
  import opened Text
  import opened Numerals
  import opened Auth
  import opened Probe

  datatype Config = Config(secret: string, hash: string -> string)

  /** The module-level globals: accepted nonces, command counter, the endpoint
      to (re)connect to and the current nick. */
  datatype Agent = Agent(seen: set<string>, count: nat, host: string, port: int, nick: string)

  /** What one pass of the loop in `listen_for_commands` gets from the server:
      a chunk of text; `Closed`, the empty read after the server closed the
      connection in order (no exception is raised); or `ConnectionLost`, a
      socket error raised by `select`, `recv` or `send`. */
  datatype Event = Line(raw: string) | Closed | ConnectionLost

  /** `Reconnect`: an exception reached the loop in `listen_for_commands`,
      which calls `connect_to_irc_server` again. */
  datatype Control = Continue | Reconnect | Exit

  /** `said` holds the texts sent to the channel as `PRIVMSG <channel> :<text>`. */
  datatype Outcome = Outcome(agent: Agent, said: seq<string>, control: Control)

  const DuplicateNotice: string := "duplicated nonce, try again"

  /** The channel name from the command line, with `#` added when it is missing. */
  function NormalizeChannel(c: string): (r: string)
    ensures StartsWith(r, "#")
    ensures StartsWith(c, "#") ==> r == c
    ensures !StartsWith(c, "#") ==> r == "#" + c
  {
    if StartsWith(c, "#") then c else "#" + c
  }

  lemma NormalizeChannelIdempotent(c: string)
    ensures NormalizeChannel(NormalizeChannel(c)) == NormalizeChannel(c)
  {
  }

  datatype Verdict = Accepted | Duplicate | BadMac

  /** `authenticate_command`: the duplicate check comes first and needs no MAC;
      only a matching MAC accepts. */
  function Authenticate(cfg: Config, seen: set<string>, nonce: string, mac: string): (v: Verdict)
    ensures v == Duplicate <==> nonce in seen
    ensures v == Accepted <==> nonce !in seen && mac == Mac(cfg.hash, nonce, cfg.secret)
  {
    if nonce in seen then Duplicate
    else if mac == Mac(cfg.hash, nonce, cfg.secret) then Accepted
    else BadMac
  }

  function StatusText(nick: string, count: nat): string { "-status " + nick + " " + NatToString(count) }
  function ShutdownText(nick: string): string { "-shutdown " + nick }
  function MoveText(nick: string): string { "-move " + nick }

  /** `perform_attack`'s report; `None` when `connect` raises (an unresolvable
      host raises gaierror there) and the exception leaves `process_command`. */
  function AttackReport(nick: string, probe: ProbeInput): (r: Option<string>)
    ensures r.None? <==> !probe.Selected?
    ensures r.Some? ==> StartsWith(r.value, AttackHead(nick))
    ensures r == Some(AttackHead(nick) + "OK") <==> probe == Selected(Writable)
    ensures r.Some? && probe != Selected(Writable) ==> StartsWith(r.value, AttackHead(nick) + "FAIL ")
    ensures probe == Selected(Errored) ==> r == Some(AttackHead(nick) + "FAIL Unable to Connect or Error")
    ensures probe == Selected(TimedOut) ==> r == Some(AttackHead(nick) + "FAIL Timeout")
    ensures probe.Selected? && probe.outcome.Raised?
            ==> r == Some(AttackHead(nick) + ("FAIL " + probe.outcome.text))
  {
    var head := AttackHead(nick);
    var ok := head + "OK";
    assert ok[..|head|] == head && ok[|head|] == 'O';
    match probe
    case Selected(Writable) => Some(ok)
    case Selected(outcome) =>
      var tail := match outcome
        case Errored => "FAIL Unable to Connect or Error"
        case TimedOut => "FAIL Timeout"
        case Raised(text) => "FAIL " + text
        case Writable => "";
      assert tail[..5] == "FAIL ";
      var line := head + tail;
      assert line[..|head| + 5] == head + "FAIL " && line[|head|] == 'F';
      Some(line)
    case _ => None
  }

  /** The argument of `attack` and `move`: exactly two `:`-separated fields. */
  function Target(args: seq<string>): (t: Option<(string, string)>)
    ensures t.Some? <==> |args| == 1 && |SplitOn(args[0], ':')| == 2
    ensures t.Some? ==> args[0] == t.value.0 + ":" + t.value.1
  {
    if |args| != 1 then None
    else
      var parts := SplitOn(args[0], ':');
      if |parts| != 2 then None
      else
        JoinOfSplit(args[0], ':');
        Some((parts[0], parts[1]))
  }

  /** The verb dispatch of `process_command`; `a` is already counted and its
      nonce admitted. `freshNick` is the nick a reconnect would pick. */
  function Dispatch(a: Agent, verb: string, args: seq<string>, freshNick: string, probe: ProbeInput): (o: Outcome)
    ensures o.agent.seen == a.seen && o.agent.count == a.count
    ensures |o.said| <= 1
    ensures o.control == Exit <==> verb == "shutdown"
    ensures verb == "status" ==> o == Outcome(a, [StatusText(a.nick, a.count)], Continue)
    ensures verb == "shutdown" ==> o == Outcome(a, [ShutdownText(a.nick)], Exit)
    ensures verb != "status" && verb != "shutdown" && verb != "attack" && verb != "move"
            ==> o == Outcome(a, [], Continue)
    // a malformed target is reported locally; for attack so is a non-integer port
    ensures (verb == "attack" || verb == "move") && Target(args).None? ==> o == Outcome(a, [], Continue)
    ensures verb == "attack" && Target(args).Some? && ParseInt(Target(args).value.1).None?
            ==> o == Outcome(a, [], Continue)
    // `int(port)` of move is not guarded: the ValueError reaches the loop's
    // handler, which reconnects to the old endpoint under a new nick
    // a valid attack says the probe's report, or reconnects when `connect` raises
    ensures verb == "attack" && Target(args).Some? && ParseInt(Target(args).value.1).Some?
            ==> o == if probe.Selected? then Outcome(a, [AttackReport(a.nick, probe).value], Continue)
                     else Outcome(a.(nick := freshNick), [], Reconnect)
    ensures verb == "move" && Target(args).Some? && ParseInt(Target(args).value.1).None?
            ==> o == Outcome(a.(nick := freshNick), [], Reconnect)
    ensures verb == "move" && Target(args).Some? && ParseInt(Target(args).value.1).Some?
            ==> o == Outcome(a.(host := Target(args).value.0, port := ParseInt(Target(args).value.1).value,
                                nick := freshNick), [MoveText(a.nick)], Continue)
  {
    if verb == "status" then Outcome(a, [StatusText(a.nick, a.count)], Continue)
    else if verb == "shutdown" then Outcome(a, [ShutdownText(a.nick)], Exit)
    else if verb == "attack" && |args| == 1 then
      match Target(args)
      case None => Outcome(a, [], Continue)
      case Some((_, portText)) =>
        match ParseInt(portText)
        case None => Outcome(a, [], Continue)  // ValueError caught around the attack
        case Some(_) =>
          match AttackReport(a.nick, probe)
          case None => Outcome(a.(nick := freshNick), [], Reconnect)
          case Some(text) => Outcome(a, [text], Continue)
    else if verb == "move" && |args| == 1 then
      match Target(args)
      case None => Outcome(a, [], Continue)
      case Some((host, portText)) =>
        match ParseInt(portText)
        case None => Outcome(a.(nick := freshNick), [], Reconnect)  // ValueError is not caught here
        case Some(port) =>
          Outcome(a.(host := host, port := port, nick := freshNick), [MoveText(a.nick)], Continue)
    else Outcome(a, [], Continue)
  }

  /** `process_command` on the text of one channel message. */
  function ProcessCommand(cfg: Config, a: Agent, message: string, freshNick: string, probe: ProbeInput): (o: Outcome)
    ensures a.seen <= o.agent.seen
    ensures o.agent.count - a.count == |o.agent.seen| - |a.seen| <= 1
  {
    var parts := Words(message);
    if |parts| < 3 then Outcome(a, [], Continue)
    else
      var nonce, mac, verb, args := parts[0], parts[1], parts[2], parts[3..];
      match Authenticate(cfg, a.seen, nonce, mac)
      case Duplicate => Outcome(a, [DuplicateNotice], Continue)
      case BadMac => Outcome(a, [], Continue)
      case Accepted =>
        Dispatch(a.(seen := a.seen + {nonce}, count := a.count + 1), verb, args, freshNick, probe)
  }

  /** One line read in `listen_for_commands`: a PING is answered by the
      transport layer (not modelled), a PRIVMSG line's text after the second
      `:` is processed as a command, anything else is ignored. */
  function OnLine(cfg: Config, a: Agent, raw: string, freshNick: string, probe: ProbeInput): (o: Outcome)
    ensures a.seen <= o.agent.seen
    ensures o.agent.count - a.count == |o.agent.seen| - |a.seen| <= 1
  {
    var response := Strip(raw);
    if StartsWith(response, "PING") then Outcome(a, [], Continue)
    else if Contains(response, "PRIVMSG") then
      match AfterSecond(response, ':')
      case None => Outcome(a, [], Continue)
      case Some(message) => ProcessCommand(cfg, a, Strip(message), freshNick, probe)
    else Outcome(a, [], Continue)
  }

  /** How the loop treats an orderly close: as written, the empty read is just
      an empty line, so the loop goes back to the dead socket; the intended
      handling reconnects as it does after a socket error. */
  datatype ClosePolicy = IgnoreClose | ReconnectOnClose

  /** One pass of the loop in `listen_for_commands`; a raised error reconnects
      under a new nick (the `except` around the pass). */
  function StepWith(policy: ClosePolicy, cfg: Config, a: Agent, ev: Event, freshNick: string, probe: ProbeInput): (o: Outcome)
    ensures a.seen <= o.agent.seen
    ensures o.agent.count - a.count == |o.agent.seen| - |a.seen| <= 1
  {
    match ev
    case ConnectionLost => Outcome(a.(nick := freshNick), [], Reconnect)
    case Closed =>
      if policy == ReconnectOnClose then Outcome(a.(nick := freshNick), [], Reconnect)
      else OnLine(cfg, a, "", freshNick, probe)
    case Line(raw) => OnLine(cfg, a, raw, freshNick, probe)
  }

  /** The intended pass, which the rest of the model uses. */
  function Step(cfg: Config, a: Agent, ev: Event, freshNick: string, probe: ProbeInput): Outcome {
    StepWith(ReconnectOnClose, cfg, a, ev, freshNick, probe)
  }

  /** One input to the loop: the event, the nick a reconnect during it would
      generate, and the probe outcome an `attack` in it would see. */
  datatype Input = Input(event: Event, freshNick: string, probe: ProbeInput)

  datatype Trace = Trace(agent: Agent, said: seq<string>, exited: bool)

  /** The loop over a sequence of inputs until they run out or `shutdown` ends
      the process. */
  function RunWith(policy: ClosePolicy, cfg: Config, a: Agent, ins: seq<Input>): Trace
    decreases |ins|
  {
    if |ins| == 0 then Trace(a, [], false)
    else
      var o := StepWith(policy, cfg, a, ins[0].event, ins[0].freshNick, ins[0].probe);
      if o.control == Exit then Trace(o.agent, o.said, true)
      else
        var t := RunWith(policy, cfg, o.agent, ins[1..]);
        t.(said := o.said + t.said)
  }

  /** The agent as the source behaves. */
  function RunAsWritten(cfg: Config, a: Agent, ins: seq<Input>): Trace {
    RunWith(IgnoreClose, cfg, a, ins)
  }

  /** The agent with the intended handling of an orderly close. */
  function Run(cfg: Config, a: Agent, ins: seq<Input>): Trace {
    RunWith(ReconnectOnClose, cfg, a, ins)
  }

  // ---------------------------------------------------------------------------
  // Properties

  /** A replayed nonce is turned away before any MAC is looked at, and the
      channel is told. */
  lemma AnnouncesDuplicate(cfg: Config, a: Agent, message: string, freshNick: string, probe: ProbeInput)
    requires |Words(message)| >= 3 && Words(message)[0] in a.seen
    ensures ProcessCommand(cfg, a, message, freshNick, probe) == Outcome(a, [DuplicateNotice], Continue)
  {
  }

  /** A wrong MAC changes nothing and says nothing; the right MAC for the same
      nonce is accepted afterwards. */
  lemma BadMacKeepsNonceUsable(cfg: Config, a: Agent, bad: string, good: string, freshNick: string, probe: ProbeInput)
    requires |Words(bad)| >= 3 && |Words(good)| >= 3
    requires Words(bad)[0] == Words(good)[0] && Words(bad)[0] !in a.seen
    requires Words(bad)[1] != Mac(cfg.hash, Words(bad)[0], cfg.secret)
    requires Words(good)[1] == Mac(cfg.hash, Words(good)[0], cfg.secret)
    ensures ProcessCommand(cfg, a, bad, freshNick, probe) == Outcome(a, [], Continue)
    ensures Words(good)[0] in ProcessCommand(cfg, a, good, freshNick, probe).agent.seen
  {
    var n := Words(good)[0];
    var b := a.(seen := a.seen + {n}, count := a.count + 1);
    var w := Words(good);
    assert ProcessCommand(cfg, a, good, freshNick, probe) == Dispatch(b, w[2], w[3..], freshNick, probe);
  }

  /** Once a message is accepted, every later message with the same nonce is
      turned away as a duplicate, whatever its MAC and verb. */
  lemma AcceptedNonceIsSpent(cfg: Config, a: Agent, message: string, again: string,
                             freshNick: string, freshNick': string, probe: ProbeInput, probe': ProbeInput)
    requires |Words(message)| >= 3
    requires Authenticate(cfg, a.seen, Words(message)[0], Words(message)[1]) == Accepted
    requires |Words(again)| >= 3 && Words(again)[0] == Words(message)[0]
    ensures var b := ProcessCommand(cfg, a, message, freshNick, probe).agent;
      ProcessCommand(cfg, b, again, freshNick', probe') == Outcome(b, [DuplicateNotice], Continue)
  {
    CountsEveryAcceptedCommand(cfg, a, message, freshNick, probe);
    var b := ProcessCommand(cfg, a, message, freshNick, probe).agent;
    AnnouncesDuplicate(cfg, b, again, freshNick', probe');
  }

  /** Fewer than three tokens: reported locally as an invalid format, nothing changes. */
  lemma IgnoresShortMessage(cfg: Config, a: Agent, message: string, freshNick: string, probe: ProbeInput)
    requires |Words(message)| < 3
    ensures ProcessCommand(cfg, a, message, freshNick, probe) == Outcome(a, [], Continue)
  {
  }

  /** Every authenticated command is counted exactly once, whatever its verb,
      even one the agent then ignores. */
  lemma CountsEveryAcceptedCommand(cfg: Config, a: Agent, message: string, freshNick: string, probe: ProbeInput)
    requires |Words(message)| >= 3
    requires Authenticate(cfg, a.seen, Words(message)[0], Words(message)[1]) == Accepted
    ensures var o := ProcessCommand(cfg, a, message, freshNick, probe);
      o.agent.count == a.count + 1 && o.agent.seen == a.seen + {Words(message)[0]}
  {
  }

  /** `status` reports the counter with this command included. */
  lemma StatusIncludesItself(cfg: Config, a: Agent, message: string, freshNick: string, probe: ProbeInput)
    requires |Words(message)| >= 3 && Words(message)[2] == "status"
    requires Authenticate(cfg, a.seen, Words(message)[0], Words(message)[1]) == Accepted
    ensures ProcessCommand(cfg, a, message, freshNick, probe).said == [StatusText(a.nick, a.count + 1)]
  {
  }

  /** `shutdown` announces itself under the current nick and ends the process;
      a run stops at it, whatever inputs would have followed. */
  lemma ShutdownIsTerminal(policy: ClosePolicy, cfg: Config, a: Agent, message: string, freshNick: string,
                           probe: ProbeInput, rest: seq<Input>)
    requires |Words(message)| >= 3 && Words(message)[2] == "shutdown"
    requires Authenticate(cfg, a.seen, Words(message)[0], Words(message)[1]) == Accepted
    ensures var o := ProcessCommand(cfg, a, message, freshNick, probe);
      && o.control == Exit && o.said == ["-shutdown " + a.nick]
      && o.agent == a.(seen := a.seen + {Words(message)[0]}, count := a.count + 1)
    ensures forall raw :: OnLine(cfg, a, raw, freshNick, probe).control == Exit ==>
      var o := OnLine(cfg, a, raw, freshNick, probe);
      RunWith(policy, cfg, a, [Input(Line(raw), freshNick, probe)] + rest) == Trace(o.agent, o.said, true)
  {
    forall raw | OnLine(cfg, a, raw, freshNick, probe).control == Exit
      ensures var o := OnLine(cfg, a, raw, freshNick, probe);
        RunWith(policy, cfg, a, [Input(Line(raw), freshNick, probe)] + rest) == Trace(o.agent, o.said, true)
    {
      assert ([Input(Line(raw), freshNick, probe)] + rest)[0] == Input(Line(raw), freshNick, probe);
    }
  }

  /** `move` to `host:port` with a non-integer port never leaves: the agent
      reconnects to its old endpoint under a new nick, says nothing, and keeps
      the command counted and its nonce spent. */
  lemma MoveWithBadPortReconnects(cfg: Config, a: Agent, message: string, host: string, portText: string,
                                  freshNick: string, probe: ProbeInput)
    requires |Words(message)| == 4 && Words(message)[2] == "move" && Words(message)[3] == host + ":" + portText
    requires ':' !in host && ':' !in portText && ParseInt(portText).None?
    requires Authenticate(cfg, a.seen, Words(message)[0], Words(message)[1]) == Accepted
    ensures ProcessCommand(cfg, a, message, freshNick, probe)
         == Outcome(Agent(a.seen + {Words(message)[0]}, a.count + 1, a.host, a.port, freshNick), [], Reconnect)
  {
    var w := Words(message);
    assert w[3..] == [host + ":" + portText];
    TargetOfFields(host, portText);
  }

  /** An attack on `host:port` with an integer port says the report of the
      probe under the current nick; when `connect` raises (an unresolvable
      host), the exception reaches the loop, which reconnects under a new nick. */
  lemma AttackDispatchesProbe(a: Agent, host: string, portText: string, freshNick: string, probe: ProbeInput)
    requires ':' !in host && ':' !in portText && ParseInt(portText).Some?
    ensures Dispatch(a, "attack", [host + ":" + portText], freshNick, probe)
         == if probe.Selected? then Outcome(a, [AttackReport(a.nick, probe).value], Continue)
            else Outcome(a.(nick := freshNick), [], Reconnect)
  {
    TargetOfFields(host, portText);
  }

  /** An attack report appears exactly when the single argument has the form
      `host:port` with an integer port and the probe got as far as `select`. */
  lemma AttackNeedsWellFormedTarget(a: Agent, args: seq<string>, freshNick: string, probe: ProbeInput)
    ensures var o := Dispatch(a, "attack", args, freshNick, probe);
      |o.said| == 1 <==>
        && |args| == 1
        && |SplitOn(args[0], ':')| == 2
        && ParseInt(SplitOn(args[0], ':')[1]).Some?
        && probe.Selected?
  {
  }

  /** `move host:port` announces the move under the old nick, switches the
      endpoint, reconnects under a new nick, and keeps nonces and counter. */
  lemma MoveSwitchesEndpoint(a: Agent, host: string, portText: string, port: int, freshNick: string, probe: ProbeInput)
    requires ':' !in host && ':' !in portText && ParseInt(portText) == Some(port)
    ensures Dispatch(a, "move", [host + ":" + portText], freshNick, probe)
         == Outcome(a.(host := host, port := port, nick := freshNick), ["-move " + a.nick], Continue)
  {
    TargetOfFields(host, portText);
  }

  /** `host:port` with no other colon splits back into its two fields. */
  lemma TargetOfFields(host: string, portText: string)
    requires ':' !in host && ':' !in portText
    ensures Target([host + ":" + portText]) == Some((host, portText))
  {
    SplitOfJoin([host, portText], ':');
    assert JoinOn([host, portText], ':') == host + ":" + portText;
  }

  /** The counter always equals the number of accepted nonces: each is counted
      once and nothing else is. Reconnects and moves keep both. */
  lemma {:induction false} RunCountsAcceptedNonces(policy: ClosePolicy, cfg: Config, a: Agent, ins: seq<Input>)
    requires a.count == |a.seen|
    ensures var t := RunWith(policy, cfg, a, ins); t.agent.count == |t.agent.seen| && a.seen <= t.agent.seen
    decreases |ins|
  {
    if |ins| > 0 {
      var o := StepWith(policy, cfg, a, ins[0].event, ins[0].freshNick, ins[0].probe);
      if o.control != Exit {
        RunCountsAcceptedNonces(policy, cfg, o.agent, ins[1..]);
        var t := RunWith(policy, cfg, o.agent, ins[1..]);
        assert RunWith(policy, cfg, a, ins) == t.(said := o.said + t.said);
      }
    }
  }

  /** As written, an orderly close by the server is read as an empty line: the
      loop neither reconnects nor changes anything, and goes back to `select`. */
  lemma ClosedConnectionIgnoredAsWritten(cfg: Config, a: Agent, freshNick: string, probe: ProbeInput)
    ensures StepWith(IgnoreClose, cfg, a, Closed, freshNick, probe) == Outcome(a, [], Continue)
  {
    EmptyLineIgnored(cfg, a, freshNick, probe);
  }

  lemma EmptyLineIgnored(cfg: Config, a: Agent, freshNick: string, probe: ProbeInput)
    ensures OnLine(cfg, a, "", freshNick, probe) == Outcome(a, [], Continue)
  {
    assert LStrip("") == "" && RStrip("") == "";
    assert !StartsWith("", "PING") && !Contains("", "PRIVMSG");
  }

  /** So, as written, once the server has closed the connection the agent stays
      silent and on the same endpoint for ever: however many passes the loop
      makes, it never reconnects and never says anything. */
  lemma {:induction false} ClosedServerStallsAsWritten(cfg: Config, a: Agent, ins: seq<Input>)
    requires forall i :: 0 <= i < |ins| ==> ins[i].event == Closed
    ensures RunAsWritten(cfg, a, ins) == Trace(a, [], false)
    decreases |ins|
  {
    if |ins| > 0 {
      ClosedConnectionIgnoredAsWritten(cfg, a, ins[0].freshNick, ins[0].probe);
      ClosedServerStallsAsWritten(cfg, a, ins[1..]);
      assert RunWith(IgnoreClose, cfg, a, ins) == RunWith(IgnoreClose, cfg, a, ins[1..]);
    }
  }

  /** With the intended handling, an orderly close reconnects under a new nick
      and keeps the accepted nonces, the counter and the endpoint. */
  lemma ClosedConnectionReconnects(cfg: Config, a: Agent, freshNick: string, probe: ProbeInput)
    ensures var o := Step(cfg, a, Closed, freshNick, probe);
      && o.control == Reconnect && o.said == []
      && o.agent == Agent(a.seen, a.count, a.host, a.port, freshNick)
  {
  }
}
