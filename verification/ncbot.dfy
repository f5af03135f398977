/** The direct-socket agent (A4/ncbot.py). One pass of the loop in
    `listen_for_commands` is a pure function from the agent's state and one
    received chunk of text to the new state, the lines the agent sends back,
    and what the loop does next. Connecting (which retries forever) and the
    socket calls are not modelled: a step that finds no connection first
    connects and announces `-joined <nick>`. */
module NcBot {

  import opened Wrappers
  import opened Text
  import opened Numerals
  import opened Auth
  import opened Probe

  /** Fixed for the life of the process: the operator-supplied nick, the shared
      secret, and the digest function standing for SHA-256. */
  datatype Config = Config(nick: string, secret: string, hash: string -> string)

  /** The loop's state: the nonces accepted so far, the command counter, the
      endpoint to (re)connect to, and whether a socket is open. */
  datatype Agent = Agent(seen: set<string>, count: nat, host: string, port: int, connected: bool)

  /** What one `recv` produced: text, or a transport failure (peer closed, or a
      socket error). */
  datatype Event = Received(data: string) | ConnectionLost

  /** How the loop goes on: next iteration, an exception that leaves
      `listen_for_commands` (after which `main` reconnects and calls it again),
      or process exit after `shutdown`. */
  datatype Control = Continue | Restart | Exit

  datatype Outcome = Outcome(agent: Agent, replies: seq<string>, control: Control)

  const Verbs: set<string> := {"status", "shutdown", "move", "attack"}

  function JoinedLine(nick: string): string { "-joined " + nick + "\n" }
  function StatusLine(nick: string, count: nat): string { "-status " + nick + " " + NatToString(count) + "\n" }
  function ShutdownLine(nick: string): string { "-shutdown " + nick + "\n" }
  function MoveLine(nick: string): string { "-move " + nick + "\n" }
  /** Sent without a trailing newline. */
  function NotAcceptedLine(verb: string): string { "The command '" + verb + "' is not accepted." }

  /** A reply another agent broadcast on the shared socket. */
  predicate IsReport(data: string) {
    StartsWith(data, "-attack") || StartsWith(data, "-status") || StartsWith(data, "-shutdown") || StartsWith(data, "-move")
  }

  /** How the loop sorts a stripped line before any authentication. */
  datatype LineKind =
    | Blank                                   // strips to nothing: treated as a disconnect
    | Presence(named: bool)                   // `-joined`, with or without a second token
    | Report                                  // another agent's reply
    | Malformed                               // fewer than three tokens
    | Command(nonce: string, mac: string, verb: string, args: seq<string>)

  function Classify(data: string): (k: LineKind)
    ensures k.Blank? <==> data == ""
    ensures k.Presence? ==> StartsWith(data, "-joined") && (k.named <==> |Words(data)| >= 2)
    ensures k.Report? ==> IsReport(data)
    ensures k.Malformed? ==> |Words(data)| < 3
    ensures k.Command? ==> Words(data) == [k.nonce, k.mac, k.verb] + k.args
    ensures (k.Malformed? || k.Command?) ==> !StartsWith(data, "-joined") && !IsReport(data)
  {
    if data == "" then Blank
    else if StartsWith(data, "-joined") then Presence(|Words(data)| >= 2)
    else if IsReport(data) then Report
    else
      var parts := Words(data);
      if |parts| < 3 then Malformed
      else
        assert parts == [parts[0], parts[1], parts[2]] + parts[3..];
        Command(parts[0], parts[1], parts[2], parts[3..])
  }

  /** A line that does not start with `-` and has three tokens is a command. */
  lemma ClassifyCommandLine(data: string)
    requires |data| > 0 && data[0] != '-' && |Words(data)| >= 3
    ensures var w := Words(data); Classify(data) == Command(w[0], w[1], w[2], w[3..])
  {
    assert !StartsWith(data, "-joined") && !IsReport(data);
  }

  /** What follows the nick in a failed `attack` report. */
  function FailTail(probe: ProbeInput): (t: string)
    requires probe != Selected(Writable)
    ensures StartsWith(t, "FAIL ")
  {
    match probe
    case Selected(Raised(text)) =>
      assert ("FAIL " + text + "\n")[..5] == "FAIL ";
      "FAIL " + text + "\n"
    case Unresolvable => "FAIL no such hostname\n"
    case _ => "FAIL Timeout or Unable to Connect\n"
  }

  /** The report of `attack` for a probe outcome; `None` when the exception
      from `connect` escapes `attack` and no report is sent. */
  function AttackReport(nick: string, probe: ProbeInput): (r: Option<string>)
    ensures r.None? <==> probe.ConnectRaised?
    ensures r.Some? ==> StartsWith(r.value, AttackHead(nick))
    ensures r == Some(AttackHead(nick) + "OK\n") <==> probe == Selected(Writable)
    ensures r.Some? && probe != Selected(Writable) ==> StartsWith(r.value, AttackHead(nick) + "FAIL ")
    ensures probe == Unresolvable ==> r == Some(AttackHead(nick) + "FAIL no such hostname\n")
    ensures probe == Selected(Errored) || probe == Selected(TimedOut)
            ==> r == Some(AttackHead(nick) + "FAIL Timeout or Unable to Connect\n")
    ensures probe.Selected? && probe.outcome.Raised?
            ==> r == Some(AttackHead(nick) + ("FAIL " + probe.outcome.text + "\n"))
  {
    var head := AttackHead(nick);
    var ok := head + "OK\n";
    assert ok[..|head|] == head && ok[|head|] == 'O';
    if probe.ConnectRaised? then None
    else if probe == Selected(Writable) then Some(ok)
    else
      var tail := FailTail(probe);
      var line := head + tail;
      assert line[..|head| + 5] == head + "FAIL " && line[|head|] == 'F';
      Some(line)
  }

  /** `execute_command` for a recognised verb; `a.count` already includes this command. */
  function Execute(cfg: Config, a: Agent, verb: string, args: seq<string>, probe: ProbeInput): (o: Outcome)
    requires verb in Verbs
    ensures o.agent.seen == a.seen && o.agent.count == a.count
    ensures |o.replies| <= 1
  {
    if verb == "status" then Outcome(a, [StatusLine(cfg.nick, a.count)], Continue)
    else if verb == "shutdown" then Outcome(a, [ShutdownLine(cfg.nick)], Exit)
    else if |args| != 1 then Outcome(a, [], Continue)
    else OnTarget(cfg, a, verb, SplitOn(args[0], ':'), probe)
  }

  /** The process exits exactly on `shutdown`, after acknowledging it;
      `status` reports the counter. */
  lemma ExecuteStatusAndShutdown(cfg: Config, a: Agent, verb: string, args: seq<string>, probe: ProbeInput)
    requires verb in Verbs
    ensures Execute(cfg, a, verb, args, probe).control == Exit <==> verb == "shutdown"
    ensures verb == "status" ==> Execute(cfg, a, verb, args, probe) == Outcome(a, [StatusLine(cfg.nick, a.count)], Continue)
    ensures verb == "shutdown" ==> Execute(cfg, a, verb, args, probe) == Outcome(a, [ShutdownLine(cfg.nick)], Exit)
  {
  }

  /** `attack` and `move` report a wrong number of arguments locally and go on;
      one argument without exactly one ':' cannot be unpacked into host and
      port, and the ValueError restarts the loop. */
  lemma ExecuteBadArguments(cfg: Config, a: Agent, verb: string, args: seq<string>, probe: ProbeInput)
    requires verb == "attack" || verb == "move"
    ensures verb in Verbs
    ensures |args| != 1 ==> Execute(cfg, a, verb, args, probe) == Outcome(a, [], Continue)
    ensures |args| == 1 && multiset(args[0])[':'] != 1 ==> Execute(cfg, a, verb, args, probe) == Outcome(a, [], Restart)
  {
    if |args| == 1 {
      SplitOnCount(args[0], ':');
    }
  }

  /** `attack` and `move` once their one argument has been split at `:`. */
  function OnTarget(cfg: Config, a: Agent, verb: string, target: seq<string>, probe: ProbeInput): (o: Outcome)
    ensures o.agent.seen == a.seen && o.agent.count == a.count
    ensures |o.replies| <= 1 && o.control != Exit
    ensures |target| != 2 ==> o == Outcome(a, [], Restart)
    ensures |target| == 2 && ParseInt(target[1]).None?
            ==> o == Outcome(a, [], if verb == "attack" then Restart else Continue)
    ensures |target| == 2 && ParseInt(target[1]).Some? && verb == "attack"
            ==> && o.agent == a
                && (o.control == Restart <==> probe.ConnectRaised?)
                && o.replies == if probe.ConnectRaised? then [] else [AttackReport(cfg.nick, probe).value]
    ensures |target| == 2 && ParseInt(target[1]).Some? && verb != "attack"
            ==> o == Outcome(a.(host := target[0], port := ParseInt(target[1]).value, connected := false),
                             [MoveLine(cfg.nick)], Continue)
  {
    if |target| != 2 then Outcome(a, [], Restart)  // unpacking into host, port raises ValueError
    else
      match ParseInt(target[1])
      case None =>
        // `int(port)` raises ValueError: uncaught for attack, caught for move
        Outcome(a, [], if verb == "attack" then Restart else Continue)
      case Some(port) =>
        if verb == "attack" then
          match AttackReport(cfg.nick, probe)
          case None => Outcome(a, [], Restart)
          case Some(line) => Outcome(a, [line], Continue)
        else
          Outcome(a.(host := target[0], port := port, connected := false), [MoveLine(cfg.nick)], Continue)
  }

  /** Authentication and dispatch of a well-formed command line. */
  function OnCommand(cfg: Config, a: Agent, nonce: string, mac: string, verb: string, args: seq<string>,
                     probe: ProbeInput): (o: Outcome)
    ensures nonce in a.seen || mac != Mac(cfg.hash, nonce, cfg.secret) ==> o == Outcome(a, [], Continue)
    ensures nonce !in a.seen && mac == Mac(cfg.hash, nonce, cfg.secret) ==>
              && o.agent.seen == a.seen + {nonce}
              && o.agent.count == if verb in Verbs then a.count + 1 else a.count
  {
    if nonce in a.seen || mac != Mac(cfg.hash, nonce, cfg.secret) then Outcome(a, [], Continue)
    else
      var b := a.(seen := a.seen + {nonce});
      if verb in Verbs then Execute(cfg, b.(count := b.count + 1), verb, args, probe)
      else Outcome(b, [NotAcceptedLine(verb)], Continue)
  }

  /** Everything the loop does with one stripped line. */
  function OnData(cfg: Config, a: Agent, data: string, probe: ProbeInput): (o: Outcome)
    ensures a.seen <= o.agent.seen && |o.agent.seen| <= |a.seen| + 1
    ensures o.agent.count == a.count || (o.agent.count == a.count + 1 && |o.agent.seen| == |a.seen| + 1)
    ensures a.count <= |a.seen| ==> o.agent.count <= |o.agent.seen|
  {
    match Classify(data)
    case Blank => Outcome(a.(connected := false), [], Continue)
    case Presence(named) => Outcome(a, [], if named then Continue else Restart)  // `split()[1]` raises IndexError
    case Report => Outcome(a, [], Continue)
    case Malformed => Outcome(a, [], Continue)
    case Command(nonce, mac, verb, args) => OnCommand(cfg, a, nonce, mac, verb, args, probe)
  }

  /** Lines the loop sends before reading: the presence announcement after a (re)connect. */
  function Announce(cfg: Config, a: Agent): seq<string> {
    if a.connected then [] else [JoinedLine(cfg.nick)]
  }

  /** One iteration of the loop in `listen_for_commands`. */
  function Step(cfg: Config, a: Agent, ev: Event, probe: ProbeInput): (o: Outcome)
    ensures a.seen <= o.agent.seen && |o.agent.seen| <= |a.seen| + 1
    ensures o.agent.count == a.count || (o.agent.count == a.count + 1 && |o.agent.seen| == |a.seen| + 1)
    ensures a.count <= |a.seen| ==> o.agent.count <= |o.agent.seen|
    ensures |Announce(cfg, a)| <= |o.replies| && o.replies[..|Announce(cfg, a)|] == Announce(cfg, a)
  {
    var live := a.(connected := true);
    var o := match ev
      case ConnectionLost => Outcome(live.(connected := false), [], Restart)
      case Received(raw) => OnData(cfg, live, Strip(raw), probe);
    o.(replies := Announce(cfg, a) + o.replies)
  }

  // ---------------------------------------------------------------------------
  // Restarting the loop

  /** What `listen_for_commands` starts from when `main` calls it again after an
      exception, as the source is written: `seen_nonces` and `command_count`
      are locals of that function and start over empty. */
  function ResumeAsWritten(a: Agent): (b: Agent)
    ensures b.seen == {} && b.count == 0
    ensures b.host == a.host && b.port == a.port && !b.connected
  {
    Agent({}, 0, a.host, a.port, false)
  }

  /** The intended restart: reconnect to the current endpoint, keep the accepted
      nonces and the counter. */
  function Resume(a: Agent): (b: Agent)
    ensures b.seen == a.seen && b.count == a.count
    ensures b.host == a.host && b.port == a.port && !b.connected
  {
    a.(connected := false)
  }

  /** One received event together with the probe outcome an `attack` in it would see. */
  datatype Input = Input(event: Event, probe: ProbeInput)

  datatype Trace = Trace(agent: Agent, replies: seq<string>, exited: bool)

  /** The loop run over a sequence of inputs until they run out or `shutdown`
      ends the process; after an exception `main` reconnects with the intended
      restart, which keeps the accepted nonces and the counter. */
  function Run(cfg: Config, a: Agent, ins: seq<Input>): Trace
    decreases |ins|
  {
    if |ins| == 0 then Trace(a, [], false)
    else
      var o := Step(cfg, a, ins[0].event, ins[0].probe);
      if o.control == Exit then Trace(o.agent, o.replies, true)
      else
        var next := if o.control == Restart then Resume(o.agent) else o.agent;
        var t := Run(cfg, next, ins[1..]);
        t.(replies := o.replies + t.replies)
  }

  // ---------------------------------------------------------------------------
  // Properties of one step

  /** Presence lines and other agents' replies are skipped: no reply, nothing changes. */
  lemma SkipsPresenceAndReports(cfg: Config, a: Agent, raw: string, probe: ProbeInput)
    requires a.connected
    requires Classify(Strip(raw)) == Presence(true) || Classify(Strip(raw)) == Report
    ensures Step(cfg, a, Received(raw), probe) == Outcome(a, [], Continue)
  {
  }

  /** A line of fewer than three tokens is dropped without reply or state change. */
  lemma DropsShortLines(cfg: Config, a: Agent, raw: string, probe: ProbeInput)
    requires a.connected
    requires Strip(raw) != "" && !StartsWith(Strip(raw), "-joined") && !IsReport(Strip(raw))
    requires |Words(raw)| < 3
    ensures Step(cfg, a, Received(raw), probe) == Outcome(a, [], Continue)
  {
    WordsOfStrip(raw);
  }

  /** A nonce already accepted is rejected even with the right MAC; nothing is counted. */
  lemma RejectsReplayedNonce(cfg: Config, a: Agent, raw: string, probe: ProbeInput)
    requires a.connected
    requires Classify(Strip(raw)).Command? && Classify(Strip(raw)).nonce in a.seen
    ensures Step(cfg, a, Received(raw), probe) == Outcome(a, [], Continue)
  {
  }

  /** A wrong MAC leaves the seen set alone, so the same nonce with the right
      MAC is still accepted afterwards. */
  lemma BadMacKeepsNonceUsable(cfg: Config, a: Agent, bad: string, good: string, probe: ProbeInput)
    requires a.connected
    requires Classify(Strip(bad)).Command? && Classify(Strip(good)).Command?
    requires Classify(Strip(bad)).nonce == Classify(Strip(good)).nonce && Classify(Strip(bad)).nonce !in a.seen
    requires Classify(Strip(bad)).mac != Mac(cfg.hash, Classify(Strip(bad)).nonce, cfg.secret)
    requires Classify(Strip(good)).mac == Mac(cfg.hash, Classify(Strip(good)).nonce, cfg.secret)
    ensures Step(cfg, a, Received(bad), probe) == Outcome(a, [], Continue)
    ensures Classify(Strip(good)).nonce in Step(cfg, a, Received(good), probe).agent.seen
  {
  }

  /** An authenticated unknown verb is refused by name and not counted, but its
      nonce is used up. */
  lemma RefusesUnknownVerb(cfg: Config, a: Agent, raw: string, probe: ProbeInput)
    requires a.connected
    requires Classify(Strip(raw)).Command?
    requires var k := Classify(Strip(raw));
      k.nonce !in a.seen && k.mac == Mac(cfg.hash, k.nonce, cfg.secret) && k.verb !in Verbs
    ensures var k := Classify(Strip(raw));
      Step(cfg, a, Received(raw), probe)
      == Outcome(a.(seen := a.seen + {k.nonce}), ["The command '" + k.verb + "' is not accepted."], Continue)
  {
  }

  /** `status` reports the counter including the status command itself, and the
      reported number reads back as that count. */
  lemma StatusIncludesItself(cfg: Config, a: Agent, raw: string, probe: ProbeInput)
    requires a.connected && IsWord(cfg.nick)
    requires Classify(Strip(raw)).Command?
    requires var k := Classify(Strip(raw));
      k.nonce !in a.seen && k.mac == Mac(cfg.hash, k.nonce, cfg.secret) && k.verb == "status"
    ensures var o := Step(cfg, a, Received(raw), probe);
      && o.agent.count == a.count + 1
      && o.replies == [StatusLine(cfg.nick, a.count + 1)]
      && Words(o.replies[0]) == ["-status", cfg.nick, NatToString(a.count + 1)]
      && ParseInt(Words(o.replies[0])[2]) == Some(a.count + 1)
  {
    StatusStep(cfg, a, raw, probe);
    StatusLineWords(cfg.nick, a.count + 1);
    ParseIntOfNatToString(a.count + 1);
  }

  lemma StatusStep(cfg: Config, a: Agent, raw: string, probe: ProbeInput)
    requires a.connected
    requires Classify(Strip(raw)).Command?
    requires var k := Classify(Strip(raw));
      k.nonce !in a.seen && k.mac == Mac(cfg.hash, k.nonce, cfg.secret) && k.verb == "status"
    ensures var k := Classify(Strip(raw));
      Step(cfg, a, Received(raw), probe)
      == Outcome(a.(seen := a.seen + {k.nonce}, count := a.count + 1), [StatusLine(cfg.nick, a.count + 1)], Continue)
  {
    StepOnCommand(cfg, a, raw, probe);
    assert "status" in Verbs;
  }

  /** A step first (re)connects if need be: it is the step of the connected
      agent with the announcement in front. */
  lemma StepAfterAnnounce(cfg: Config, a: Agent, raw: string, probe: ProbeInput)
    ensures var o := Step(cfg, a.(connected := true), Received(raw), probe);
      Step(cfg, a, Received(raw), probe) == o.(replies := Announce(cfg, a) + o.replies)
  {
    assert a.(connected := true).(connected := true) == a.(connected := true);
  }

  /** On an open connection, a command line goes straight to authentication. */
  lemma StepOnCommand(cfg: Config, a: Agent, raw: string, probe: ProbeInput)
    requires a.connected && Classify(Strip(raw)).Command?
    ensures var k := Classify(Strip(raw));
      Step(cfg, a, Received(raw), probe) == OnCommand(cfg, a, k.nonce, k.mac, k.verb, k.args, probe)
  {
    assert a.(connected := true) == a;
  }

  lemma StatusLineWords(nick: string, count: nat)
    requires IsWord(nick)
    ensures Words(StatusLine(nick, count)) == ["-status", nick, NatToString(count)]
  {
    var n := NatToString(count);
    assert IsWord(n) by {
      assert forall i :: 0 <= i < |n| ==> IsDigit(n[i]) && !IsSpace(n[i]);
    }
    assert StatusLine(nick, count) == "-status" + [' '] + (nick + [' '] + (n + "\n"));
    WordsOfWordThenSpace("-status", ' ', nick + [' '] + (n + "\n"));
    WordsOfWordThenSpace(nick, ' ', n + "\n");
    WordsIgnoreTrailingSpaces(n, "\n");
    WordsOfWord(n);
  }

  /** `shutdown` acknowledges and ends the process. */
  lemma ShutdownIsTerminal(cfg: Config, a: Agent, raw: string, probe: ProbeInput)
    requires a.connected
    requires Classify(Strip(raw)).Command?
    requires var k := Classify(Strip(raw));
      k.nonce !in a.seen && k.mac == Mac(cfg.hash, k.nonce, cfg.secret) && k.verb == "shutdown"
    ensures var o := Step(cfg, a, Received(raw), probe);
      o.control == Exit && o.replies == ["-shutdown " + cfg.nick + "\n"] && o.agent.count == a.count + 1
  {
  }

  /** An authenticated command with a fresh nonce and a recognised verb is
      executed with the nonce spent and the counter advanced. */
  lemma AcceptedCommandExecutes(cfg: Config, a: Agent, nonce: string, verb: string, args: seq<string>, probe: ProbeInput)
    requires nonce !in a.seen && verb in Verbs
    ensures OnCommand(cfg, a, nonce, Mac(cfg.hash, nonce, cfg.secret), verb, args, probe)
         == Execute(cfg, a.(seen := a.seen + {nonce}, count := a.count + 1), verb, args, probe)
  {
  }

  /** The `host:port` argument of `attack` and `move` splits back into its two fields. */
  lemma ExecuteSplitsTarget(cfg: Config, a: Agent, verb: string, host: string, portText: string, probe: ProbeInput)
    requires verb == "attack" || verb == "move"
    requires ':' !in host && ':' !in portText
    ensures verb in Verbs
    ensures Execute(cfg, a, verb, [JoinOn([host, portText], ':')], probe) == OnTarget(cfg, a, verb, [host, portText], probe)
  {
    SplitOfJoin([host, portText], ':');
  }

  /** `move host:port` announces the move, drops the connection and switches the
      endpoint; the seen set and the counter carry over. Being disconnected, the
      agent announces `-joined` again at its next step (see `Step`). */
  lemma MoveSwitchesEndpoint(cfg: Config, a: Agent, nonce: string, host: string, portText: string,
                             port: int, probe: ProbeInput)
    requires nonce !in a.seen
    requires ':' !in host && ':' !in portText && ParseInt(portText) == Some(port)
    ensures var o := OnCommand(cfg, a, nonce, Mac(cfg.hash, nonce, cfg.secret), "move", [JoinOn([host, portText], ':')], probe);
      && o.replies == ["-move " + cfg.nick + "\n"]
      && o.control == Continue
      && o.agent == Agent(a.seen + {nonce}, a.count + 1, host, port, false)
  {
    var b := a.(seen := a.seen + {nonce}, count := a.count + 1);
    ExecuteSplitsTarget(cfg, b, "move", host, portText, probe);
    AcceptedCommandExecutes(cfg, a, nonce, "move", [JoinOn([host, portText], ':')], probe);
    assert OnTarget(cfg, b, "move", [host, portText], probe)
        == Outcome(b.(host := host, port := port, connected := false), [MoveLine(cfg.nick)], Continue);
  }

  /** A lost connection ends the loop with an exception: `main` restarts it. */
  lemma LostConnectionRestarts(cfg: Config, a: Agent, probe: ProbeInput)
    ensures Step(cfg, a, ConnectionLost, probe) == Outcome(a.(connected := false), Announce(cfg, a), Restart)
  {
  }

  /** After a disconnect, whatever arrives next, the first line out is `-joined`. */
  lemma ReconnectAnnounces(cfg: Config, a: Agent, ev: Event, probe: ProbeInput)
    requires !a.connected
    ensures Step(cfg, a, ev, probe).replies[..1] == ["-joined " + cfg.nick + "\n"]
  {
  }

  /** `move` with a non-numeric port is ignored (the ValueError is caught), but
      the command is counted and its nonce used up. */
  lemma MoveWithBadPortStays(cfg: Config, a: Agent, nonce: string, host: string, portText: string, probe: ProbeInput)
    requires nonce !in a.seen
    requires ':' !in host && ':' !in portText && ParseInt(portText).None?
    ensures OnCommand(cfg, a, nonce, Mac(cfg.hash, nonce, cfg.secret), "move", [JoinOn([host, portText], ':')], probe)
         == Outcome(a.(seen := a.seen + {nonce}, count := a.count + 1), [], Continue)
  {
    var b := a.(seen := a.seen + {nonce}, count := a.count + 1);
    ExecuteSplitsTarget(cfg, b, "move", host, portText, probe);
    AcceptedCommandExecutes(cfg, a, nonce, "move", [JoinOn([host, portText], ':')], probe);
  }

  /** A bare `-joined` line needs no MAC, yet `split()[1]` raises IndexError and
      the loop restarts; as written, that restart forgets every spent nonce. */
  lemma BareJoinedRestarts(cfg: Config, a: Agent, raw: string, probe: ProbeInput)
    requires a.connected && Strip(raw) == "-joined"
    ensures Step(cfg, a, Received(raw), probe) == Outcome(a, [], Restart)
    ensures ResumeAsWritten(Step(cfg, a, Received(raw), probe).agent).seen == {}
  {
    BareJoinedIsPresence();
    assert a.(connected := true) == a;
  }

  lemma BareJoinedIsPresence()
    ensures Classify("-joined") == Presence(false)
  {
    var j := "-joined";
    assert IsWord(j) by {
      forall i | 0 <= i < |j| ensures !IsSpace(j[i]) {
      }
    }
    WordsOfWord(j);
    assert StartsWith(j, "-joined");
  }

  /** An authenticated `attack` or `move` whose one argument has no ':' spends
      its nonce and then restarts the loop (the unpacking raises ValueError);
      as written, the restart forgets that nonce again. */
  lemma TargetWithoutColonRestarts(cfg: Config, a: Agent, nonce: string, verb: string, target: string,
                                   probe: ProbeInput)
    requires nonce !in a.seen && (verb == "attack" || verb == "move") && ':' !in target
    ensures var o := OnCommand(cfg, a, nonce, Mac(cfg.hash, nonce, cfg.secret), verb, [target], probe);
      && o == Outcome(a.(seen := a.seen + {nonce}, count := a.count + 1), [], Restart)
      && nonce !in ResumeAsWritten(o.agent).seen
  {
    AcceptedCommandExecutes(cfg, a, nonce, verb, [target], probe);
    ExecuteBadArguments(cfg, a.(seen := a.seen + {nonce}, count := a.count + 1), verb, [target], probe);
    assert multiset(target)[':'] == 0;
  }

  /** `attack host:port` reports the probe outcome; an unresolvable host fails
      by name before any connect. */
  lemma AttackReportsProbe(cfg: Config, a: Agent, nonce: string, host: string, portText: string,
                           port: int, probe: ProbeInput)
    requires nonce !in a.seen
    requires ':' !in host && ':' !in portText && ParseInt(portText) == Some(port)
    requires !probe.ConnectRaised?
    ensures var o := OnCommand(cfg, a, nonce, Mac(cfg.hash, nonce, cfg.secret), "attack", [JoinOn([host, portText], ':')], probe);
      && o.control == Continue
      && o.agent == a.(seen := a.seen + {nonce}, count := a.count + 1)
      && |o.replies| == 1
      && (probe == Unresolvable ==> o.replies == [AttackHead(cfg.nick) + "FAIL no such hostname\n"])
      && (o.replies == [AttackHead(cfg.nick) + "OK\n"] <==> probe == Selected(Writable))
  {
    var b := a.(seen := a.seen + {nonce}, count := a.count + 1);
    ExecuteSplitsTarget(cfg, b, "attack", host, portText, probe);
    AcceptedCommandExecutes(cfg, a, nonce, "attack", [JoinOn([host, portText], ':')], probe);
    assert OnTarget(cfg, b, "attack", [host, portText], probe)
        == Outcome(b, [AttackReport(cfg.nick, probe).value], Continue);
  }

  // ---------------------------------------------------------------------------
  // Properties of runs

  /** Every counted command used up a distinct nonce, whatever happens in the run,
      as long as restarts keep the state. */
  lemma {:induction false} RunKeepsCountWithinSeen(cfg: Config, a: Agent, ins: seq<Input>)
    requires a.count <= |a.seen|
    ensures var t := Run(cfg, a, ins); t.agent.count <= |t.agent.seen| && a.seen <= t.agent.seen
    decreases |ins|
  {
    if |ins| > 0 {
      var o := Step(cfg, a, ins[0].event, ins[0].probe);
      if o.control != Exit {
        var next := if o.control == Restart then Resume(o.agent) else o.agent;
        RunKeepsCountWithinSeen(cfg, next, ins[1..]);
        var t := Run(cfg, next, ins[1..]);
        assert Run(cfg, a, ins) == t.(replies := o.replies + t.replies);
      }
    }
  }
}
