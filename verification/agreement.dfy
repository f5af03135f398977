/** How the controller's frames and the agents' rules fit together. The
    controller talks only to a raw socket, so the direct-socket agent is the
    one that receives its frames: that agent accepts a frame exactly once, the
    controller files its attack reports correctly, and its replay protection
    across a restart is examined. The relay-channel agent never receives the
    controller's frames (the controller does not speak IRC); the lemmas about
    it concern the text formats only: the frame text, when it arrives as the
    text of a channel message, and the report texts the agent writes. */
module Agreement {

  import opened Wrappers
  import opened Text
  import opened Numerals
  import opened Auth
  import opened Probe
  import Controller
  import NcBot
  import IrcBot

  /** The stripped frame keeps the frame's tokens and starts with the nonce's
      first digit. */
  lemma StrippedFrame(hash: string -> string, secret: string, now: nat, command: string)
    requires IsHexDigest(hash)
    ensures var nonce := NatToString(now);
      var data := Strip(Controller.SendCommand(hash, secret, now, command));
      && Words(data) == [nonce, Mac(hash, nonce, secret)] + Words(command)
      && |data| > 0 && data[0] != '-'
  {
    var nonce := NatToString(now);
    var frame := Controller.SendCommand(hash, secret, now, command);
    Controller.SendCommandWords(hash, secret, now, command);
    WordsOfStrip(frame);
    FrameHead(nonce, Mac(hash, nonce, secret), command);
    StripKeepsHead(frame);
  }

  /** The tokens of a frame whose command has at least one token. */
  lemma FrameTokens(ws: seq<string>, nonce: string, mac: string, w: seq<string>)
    requires ws == [nonce, mac] + w && |w| >= 1
    ensures |ws| >= 3 && ws[0] == nonce && ws[1] == mac && ws[2] == w[0] && ws[3..] == w[1..]
  {
  }

  /** The stripped frame starts with the nonce's first digit, so the direct-socket
      agent sees a command line rather than a presence line or a report. */
  lemma ClassifyControllerFrame(hash: string -> string, secret: string, now: nat, command: string)
    requires IsHexDigest(hash)
    requires |Words(command)| >= 1
    ensures var nonce := NatToString(now);
      var w := Words(command);
      NcBot.Classify(Strip(Controller.SendCommand(hash, secret, now, command)))
      == NcBot.Command(nonce, Mac(hash, nonce, secret), w[0], w[1..])
  {
    var nonce := NatToString(now);
    var data := Strip(Controller.SendCommand(hash, secret, now, command));
    StrippedFrame(hash, secret, now, command);
    FrameTokens(Words(data), nonce, Mac(hash, nonce, secret), Words(command));
    NcBot.ClassifyCommandLine(data);
  }

  lemma FrameHead(nonce: string, mac: string, command: string)
    requires |nonce| > 0 && IsDigit(nonce[0])
    ensures var f := Controller.Frame(nonce, mac, command);
      |f| > 0 && f[0] == nonce[0] && f[0] != '-' && !IsSpace(f[0])
  {
  }

  /** A frame from the controller, with a nonce the agent has not seen, is
      accepted by the direct-socket agent: the nonce is spent and the command
      counted when its verb is one of the four. */
  lemma NcBotAcceptsControllerFrame(cfg: NcBot.Config, a: NcBot.Agent, now: nat, command: string, probe: ProbeInput)
    requires IsHexDigest(cfg.hash)
    requires a.connected && NatToString(now) !in a.seen
    requires |Words(command)| >= 1
    ensures var o := NcBot.Step(cfg, a, NcBot.Received(Controller.SendCommand(cfg.hash, cfg.secret, now, command)), probe);
      && o.agent.seen == a.seen + {NatToString(now)}
      && o.agent.count == if Words(command)[0] in NcBot.Verbs then a.count + 1 else a.count
  {
    ClassifyControllerFrame(cfg.hash, cfg.secret, now, command);
  }

  /** Sent a second time, the same frame is rejected without reply or count. */
  lemma NcBotRejectsResentFrame(cfg: NcBot.Config, a: NcBot.Agent, now: nat, command: string, probe: ProbeInput)
    requires IsHexDigest(cfg.hash)
    requires a.connected && NatToString(now) in a.seen
    requires |Words(command)| >= 1
    ensures NcBot.Step(cfg, a, NcBot.Received(Controller.SendCommand(cfg.hash, cfg.secret, now, command)), probe)
         == NcBot.Outcome(a, [], NcBot.Continue)
  {
    ClassifyControllerFrame(cfg.hash, cfg.secret, now, command);
  }

  /** Text format only: a message whose text is a frame in the controller's
      format is accepted once by the relay-channel agent and counted whatever
      the verb; the same text again is announced as a duplicate. */
  lemma IrcBotAcceptsControllerFrameOnce(cfg: IrcBot.Config, a: IrcBot.Agent, now: nat, command: string,
                                         freshNick: string, probe: ProbeInput)
    requires IsHexDigest(cfg.hash)
    requires NatToString(now) !in a.seen
    requires |Words(command)| >= 1
    ensures var text := Controller.SendCommand(cfg.hash, cfg.secret, now, command);
      var o := IrcBot.ProcessCommand(cfg, a, text, freshNick, probe);
      && o.agent.seen == a.seen + {NatToString(now)}
      && o.agent.count == a.count + 1
      && IrcBot.ProcessCommand(cfg, o.agent, text, freshNick, probe).said == [IrcBot.DuplicateNotice]
  {
    Controller.SendCommandWords(cfg.hash, cfg.secret, now, command);
  }

  lemma AttackLineWords(nick: string, tail: string)
    requires IsWord(nick)
    ensures Words(AttackHead(nick) + tail) == ["-attack", nick] + Words(tail)
  {
    assert AttackHead(nick) + tail == "-attack" + [' '] + (nick + [' '] + tail);
    WordsOfWordThenSpace("-attack", ' ', nick + [' '] + tail);
    WordsOfWordThenSpace(nick, ' ', tail);
  }

  lemma OkNewlineWords()
    ensures Words("OK\n") == ["OK"]
  {
    assert forall i :: 0 <= i < 2 ==> "OK"[i] == 'O' || "OK"[i] == 'K';
    WordsOfWord("OK");
    assert AllSpace("\n") by {
      assert IsSpace("\n"[0]);
    }
    assert "OK\n" == "OK" + "\n";
    WordsIgnoreTrailingSpaces("OK", "\n");
  }

  /** A success report, with or without its newline, is filed under success only. */
  lemma OkLineSorted(nick: string, line: string)
    requires IsWord(nick)
    requires line == AttackHead(nick) + "OK" || line == AttackHead(nick) + "OK\n"
    ensures Controller.IsOkReport(Strip(line)) && !Controller.IsFailReport(Strip(line))
  {
    var w := ["-attack", nick, "OK"];
    if line == AttackHead(nick) + "OK" {
      assert forall i :: 0 <= i < 2 ==> "OK"[i] == 'O' || "OK"[i] == 'K';
      WordsOfWord("OK");
      AttackLineWords(nick, "OK");
    } else {
      OkNewlineWords();
      AttackLineWords(nick, "OK\n");
    }
    assert Words(line) == w;
    WordsOfStrip(line);
    ReportSorted(Strip(line), w);
  }

  lemma FailLineWords(nick: string, line: string)
    requires IsWord(nick)
    requires StartsWith(line, AttackHead(nick) + "FAIL ")
    ensures |Words(line)| >= 3 && Words(line)[2] == "FAIL"
  {
    var head := AttackHead(nick);
    var reason := line[|head| + 5..];
    assert line == head + ("FAIL" + [' '] + reason);
    AttackLineWords(nick, "FAIL" + [' '] + reason);
    WordsOfWordThenSpace("FAIL", ' ', reason);
  }

  /** A failure report is filed under failure only, whatever reason follows. */
  lemma FailLineSorted(nick: string, line: string)
    requires IsWord(nick)
    requires StartsWith(line, AttackHead(nick) + "FAIL ")
    ensures Controller.IsFailReport(Strip(line)) && !Controller.IsOkReport(Strip(line))
  {
    FailLineWords(nick, line);
    WordsOfStrip(line);
    ReportSorted(Strip(line), Words(line));
  }

  lemma ReportSorted(r: string, w: seq<string>)
    requires Words(r) == w && |w| >= 3
    ensures Controller.IsOkReport(r) <==> w[2] == "OK"
    ensures Controller.IsFailReport(r) <==> w[2] == "FAIL"
  {
  }

  /** The controller files every report of the direct-socket agent under the
      outcome the probe had: success exactly when the target was writable. */
  lemma ControllerSortsNcBotReport(nick: string, probe: ProbeInput)
    requires IsWord(nick) && !probe.ConnectRaised?
    ensures var line := Strip(NcBot.AttackReport(nick, probe).value);
      && (Controller.IsOkReport(line) <==> probe == Selected(Writable))
      && (Controller.IsFailReport(line) <==> probe != Selected(Writable))
  {
    var line := NcBot.AttackReport(nick, probe).value;
    if probe == Selected(Writable) {
      OkLineSorted(nick, line);
    } else {
      FailLineSorted(nick, line);
    }
  }

  /** Text format only: the relay-channel agent's report texts, read with the
      controller's corrected sorting, are filed by the probe outcome too. */
  lemma ControllerSortsIrcBotReport(nick: string, probe: ProbeInput)
    requires IsWord(nick) && probe.Selected?
    ensures var line := Strip(IrcBot.AttackReport(nick, probe).value);
      && (Controller.IsOkReport(line) <==> probe == Selected(Writable))
      && (Controller.IsFailReport(line) <==> probe != Selected(Writable))
  {
    var line := IrcBot.AttackReport(nick, probe).value;
    if probe == Selected(Writable) {
      OkLineSorted(nick, line);
    } else {
      FailLineSorted(nick, line);
    }
  }

  // ---------------------------------------------------------------------------
  // Replay across a restart of the direct-socket agent

  /** A fresh status frame is executed: the nonce is spent, the counter
      advances and the agent reports the new count. */
  lemma StatusFrameAccepted(cfg: NcBot.Config, a: NcBot.Agent, now: nat, probe: ProbeInput)
    requires IsHexDigest(cfg.hash) && NatToString(now) !in a.seen
    ensures NcBot.Step(cfg, a, NcBot.Received(Controller.SendCommand(cfg.hash, cfg.secret, now, "status")), probe)
         == NcBot.Outcome(a.(seen := a.seen + {NatToString(now)}, count := a.count + 1, connected := true),
                          NcBot.Announce(cfg, a) + [NcBot.StatusLine(cfg.nick, a.count + 1)], NcBot.Continue)
  {
    var frame := Controller.SendCommand(cfg.hash, cfg.secret, now, "status");
    var live := a.(connected := true);
    WordsOfWord("status");
    ClassifyControllerFrame(cfg.hash, cfg.secret, now, "status");
    NcBot.StatusStep(cfg, live, frame, probe);
    NcBot.StepAfterAnnounce(cfg, a, frame, probe);
  }

  /** A status frame whose nonce is spent is dropped; only the announcement,
      if the agent had to reconnect, goes out. */
  lemma StatusFrameReplayed(cfg: NcBot.Config, a: NcBot.Agent, now: nat, probe: ProbeInput)
    requires IsHexDigest(cfg.hash) && NatToString(now) in a.seen
    ensures NcBot.Step(cfg, a, NcBot.Received(Controller.SendCommand(cfg.hash, cfg.secret, now, "status")), probe)
         == NcBot.Outcome(a.(connected := true), NcBot.Announce(cfg, a), NcBot.Continue)
  {
    WordsOfWord("status");
    ClassifyControllerFrame(cfg.hash, cfg.secret, now, "status");
  }

  /** A status frame executed, then the connection lost: the loop restarts
      from the agent that has spent the nonce and counted the command. */
  lemma StatusThenLost(cfg: NcBot.Config, a: NcBot.Agent, now: nat, probe: ProbeInput)
    requires IsHexDigest(cfg.hash)
    requires a.connected && NatToString(now) !in a.seen
    ensures var o1 := NcBot.Step(cfg, a, NcBot.Received(Controller.SendCommand(cfg.hash, cfg.secret, now, "status")), probe);
      var o2 := NcBot.Step(cfg, o1.agent, NcBot.ConnectionLost, probe);
      && o1.replies == [NcBot.StatusLine(cfg.nick, a.count + 1)]
      && o2 == NcBot.Outcome(a.(seen := a.seen + {NatToString(now)}, count := a.count + 1, connected := false), [], NcBot.Restart)
  {
    StatusFrameAccepted(cfg, a, now, probe);
    var o1 := NcBot.Step(cfg, a, NcBot.Received(Controller.SendCommand(cfg.hash, cfg.secret, now, "status")), probe);
    NcBot.LostConnectionRestarts(cfg, o1.agent, probe);
  }

  /** As written, the restart forgets the seen nonces: after a status frame
      has been executed and the connection lost, the same frame is executed a
      second time, and the counter has started over. */
  lemma ReplayAcceptedAfterRestartAsWritten(cfg: NcBot.Config, a: NcBot.Agent, now: nat, probe: ProbeInput)
    requires IsHexDigest(cfg.hash)
    requires a.connected && NatToString(now) !in a.seen
    ensures var frame := NcBot.Received(Controller.SendCommand(cfg.hash, cfg.secret, now, "status"));
      var o1 := NcBot.Step(cfg, a, frame, probe);
      var o2 := NcBot.Step(cfg, o1.agent, NcBot.ConnectionLost, probe);
      var o3 := NcBot.Step(cfg, NcBot.ResumeAsWritten(o2.agent), frame, probe);
      && o1.replies == [NcBot.StatusLine(cfg.nick, a.count + 1)]
      && o2.control == NcBot.Restart
      && o3.replies == [NcBot.JoinedLine(cfg.nick), NcBot.StatusLine(cfg.nick, 1)]
      && o3.agent.count == 1
  {
    var frame := NcBot.Received(Controller.SendCommand(cfg.hash, cfg.secret, now, "status"));
    StatusThenLost(cfg, a, now, probe);
    var o1 := NcBot.Step(cfg, a, frame, probe);
    var o2 := NcBot.Step(cfg, o1.agent, NcBot.ConnectionLost, probe);
    assert NcBot.ResumeAsWritten(o2.agent) == NcBot.Agent({}, 0, a.host, a.port, false);
    StatusFrameOnFreshAgent(cfg, a.host, a.port, now, probe);
  }

  /** The agent `main` restarts with, as written, executes a status frame as new. */
  lemma StatusFrameOnFreshAgent(cfg: NcBot.Config, host: string, port: int, now: nat, probe: ProbeInput)
    requires IsHexDigest(cfg.hash)
    ensures var o := NcBot.Step(cfg, NcBot.Agent({}, 0, host, port, false),
                                NcBot.Received(Controller.SendCommand(cfg.hash, cfg.secret, now, "status")), probe);
      o.replies == [NcBot.JoinedLine(cfg.nick), NcBot.StatusLine(cfg.nick, 1)] && o.agent.count == 1
  {
    var b := NcBot.Agent({}, 0, host, port, false);
    StatusFrameAccepted(cfg, b, now, probe);
    assert NcBot.Announce(cfg, b) == [NcBot.JoinedLine(cfg.nick)];
  }

  /** With the intended restart the replayed frame is dropped: only the
      re-announcement goes out and the counter keeps its value. */
  lemma ReplayRejectedAfterRestart(cfg: NcBot.Config, a: NcBot.Agent, now: nat, probe: ProbeInput)
    requires IsHexDigest(cfg.hash)
    requires a.connected && NatToString(now) !in a.seen
    ensures var frame := NcBot.Received(Controller.SendCommand(cfg.hash, cfg.secret, now, "status"));
      var o1 := NcBot.Step(cfg, a, frame, probe);
      var o2 := NcBot.Step(cfg, o1.agent, NcBot.ConnectionLost, probe);
      var o3 := NcBot.Step(cfg, NcBot.Resume(o2.agent), frame, probe);
      && o1.replies == [NcBot.StatusLine(cfg.nick, a.count + 1)]
      && o2.control == NcBot.Restart
      && o3.replies == [NcBot.JoinedLine(cfg.nick)]
      && o3.agent.count == a.count + 1
  {
    var frame := NcBot.Received(Controller.SendCommand(cfg.hash, cfg.secret, now, "status"));
    StatusThenLost(cfg, a, now, probe);
    var o1 := NcBot.Step(cfg, a, frame, probe);
    var b := NcBot.Resume(NcBot.Step(cfg, o1.agent, NcBot.ConnectionLost, probe).agent);
    assert b == a.(seen := a.seen + {NatToString(now)}, count := a.count + 1, connected := false);
    StatusFrameReplayed(cfg, b, now, probe);
  }
}
