/** The controller (A4/nccontrolller.py): it frames one operator command with
    a nonce and its MAC, then summarises the distinct replies collected during
    the five-second window. Reading the socket and the clock are not modelled:
    the nonce's time stamp and the collected (already stripped) replies are
    inputs. */
module Controller {

  import opened Text
  import opened Numerals
  import opened Auth
  import opened Probe

  /** The line `send_command` writes: nonce, MAC and the command as typed. */
  function Frame(nonce: string, mac: string, command: string): string {
    nonce + " " + mac + " " + command + "\n"
  }

  /** `send_command` at time `now` (whole seconds): the nonce is the decimal
      time stamp and the MAC is computed over it with the shared secret. */
  function SendCommand(hash: string -> string, secret: string, now: nat, command: string): string {
    var nonce := NatToString(now);
    Frame(nonce, Mac(hash, nonce, secret), command)
  }

  /** Splitting a frame on whitespace gives back the nonce, the MAC and the
      command's own tokens, in order. */
  lemma FrameWords(nonce: string, mac: string, command: string)
    requires IsWord(nonce) && IsWord(mac)
    ensures Words(Frame(nonce, mac, command)) == [nonce, mac] + Words(command)
  {
    var f := Frame(nonce, mac, command);
    assert f == nonce + [' '] + (mac + [' '] + (command + "\n"));
    WordsOfWordThenSpace(nonce, ' ', mac + [' '] + (command + "\n"));
    WordsOfWordThenSpace(mac, ' ', command + "\n");
    WordsIgnoreTrailingSpaces(command, "\n");
  }

  /** The sent frame, for a real digest, has the agents' token layout: the
      decimal nonce, eight hex digits, then the command's tokens. */
  lemma SendCommandWords(hash: string -> string, secret: string, now: nat, command: string)
    requires IsHexDigest(hash)
    ensures var nonce := NatToString(now);
      Words(SendCommand(hash, secret, now, command)) == [nonce, Mac(hash, nonce, secret)] + Words(command)
  {
    var nonce := NatToString(now);
    assert IsWord(nonce) by {
      assert forall i :: 0 <= i < |nonce| ==> IsDigit(nonce[i]) && !IsSpace(nonce[i]);
    }
    MacIsEightHexDigits(hash, nonce, secret);
    FrameWords(nonce, Mac(hash, nonce, secret), command);
  }

  // ---------------------------------------------------------------------------
  // Aggregation

  /** What the controller reports for one command. */
  datatype Summary =
    | Refused(messages: set<string>)          // one of these "The command ..." lines is shown
    | Status(bots: set<string>)               // "<n> bots discovered", n = |bots|
    | Shutdown(bots: set<string>)             // "<n> bots shut down"
    | Attack(succeeded: set<string>, failed: set<string>)
    | Moved(bots: set<string>)                // "<n> bots moved", n > 0
    | NoMoves                                 // replies came, none was a move acknowledgement
    | NoResponses                             // nothing came back for another command
    | Silent                                  // nothing is printed

  /** The distinct replies other than presence announcements. */
  function Distinct(responses: seq<string>): (d: set<string>)
    ensures forall r :: r in d <==> r in responses && !StartsWith(r, "-joined")
  {
    set r | r in responses && !StartsWith(r, "-joined")
  }

  /** The attack replies sorted by the status word that follows the nick. */
  function AttackPartition(d: set<string>): (p: (set<string>, set<string>))
    ensures forall r :: r in p.0 <==> r in d && IsOkReport(r)
    ensures forall r :: r in p.1 <==> r in d && IsFailReport(r)
  {
    (set r | r in d && IsOkReport(r), set r | r in d && IsFailReport(r))
  }

  predicate IsOkReport(r: string) {
    var w := Words(r); |w| >= 3 && w[2] == "OK"
  }

  predicate IsFailReport(r: string) {
    var w := Words(r); |w| >= 3 && w[2] == "FAIL"
  }

  /** The partition as the source writes it: by substring, `"OK" in r` and `"FAIL" in r`. */
  function AttackPartitionAsWritten(d: set<string>): (p: (set<string>, set<string>))
    ensures forall r :: r in p.0 <==> r in d && Contains(r, "OK")
    ensures forall r :: r in p.1 <==> r in d && Contains(r, "FAIL")
  {
    (set r | r in d && Contains(r, "OK"), set r | r in d && Contains(r, "FAIL"))
  }

  /** How attack replies are filed: as the source does, by the substrings "OK"
      and "FAIL" anywhere in the reply, or as intended, by the status word. */
  datatype AttackSort = BySubstring | ByStatusWord

  function SortAttacks(sort: AttackSort, d: set<string>): (set<string>, set<string>) {
    match sort
    case BySubstring => AttackPartitionAsWritten(d)
    case ByStatusWord => AttackPartition(d)
  }

  /** `process_responses`, for a non-empty collection. */
  function ProcessResponsesWith(sort: AttackSort, command: string, responses: seq<string>): (s: Summary)
    ensures s.Refused? <==> exists r :: r in Distinct(responses) && Contains(r, "The command")
  {
    var d := Distinct(responses);
    var refusals := set r | r in d && Contains(r, "The command");
    assert forall r :: r in d && Contains(r, "The command") ==> r in refusals;
    if refusals != {} then
      Refused(refusals)
    else if command == "status" then
      Status(set r | r in d && StartsWith(r, "-status"))
    else if command == "shutdown" then
      Shutdown(set r | r in d && StartsWith(r, "-shutdown"))
    else if StartsWith(command, "attack") then
      var p := SortAttacks(sort, d);
      Attack(p.0, p.1)
    else if StartsWith(command, "move") && d != {} then
      var moved := set r | r in d && StartsWith(r, "-move");
      if moved != {} then Moved(moved) else NoMoves
    else
      Silent
  }

  /** The end of one cycle of `main`: with no reply at all, status, shutdown and
      attack still report zero; otherwise the replies are processed. */
  function SummarizeWith(sort: AttackSort, command: string, responses: seq<string>): Summary {
    if |responses| == 0 then
      if command == "shutdown" then Shutdown({})
      else if command == "status" then Status({})
      else if StartsWith(command, "attack") then Attack({}, {})
      else NoResponses
    else
      ProcessResponsesWith(sort, command, responses)
  }

  /** The controller as the source behaves. */
  function Summarize(command: string, responses: seq<string>): Summary {
    SummarizeWith(BySubstring, command, responses)
  }

  /** The controller with attack replies filed by their status word. */
  function SummarizeCorrected(command: string, responses: seq<string>): Summary {
    SummarizeWith(ByStatusWord, command, responses)
  }

  /** Presence announcements never count, and an agent that replied twice counts
      once: for `status`, the count is the number of distinct status lines. */
  lemma StatusCountsDistinctReplies(responses: seq<string>)
    requires forall r :: r in responses ==> !Contains(r, "The command")
    ensures Summarize("status", responses).Status?
    ensures Summarize("status", responses).bots
         == set r | r in responses && StartsWith(r, "-status")
  {
    if |responses| > 0 {
      var d := Distinct(responses);
      assert (set r | r in d && StartsWith(r, "-status")) == set r | r in responses && StartsWith(r, "-status") by {
        forall r | r in responses && StartsWith(r, "-status")
          ensures !StartsWith(r, "-joined")
        {
          assert r[1] == 's';
        }
      }
    }
  }

  /** The same for `shutdown`. */
  lemma ShutdownCountsDistinctReplies(responses: seq<string>)
    requires forall r :: r in responses ==> !Contains(r, "The command")
    ensures Summarize("shutdown", responses).Shutdown?
    ensures Summarize("shutdown", responses).bots
         == set r | r in responses && StartsWith(r, "-shutdown")
  {
    if |responses| > 0 {
      var d := Distinct(responses);
      assert (set r | r in d && StartsWith(r, "-shutdown")) == set r | r in responses && StartsWith(r, "-shutdown") by {
        forall r | r in responses && StartsWith(r, "-shutdown")
          ensures !StartsWith(r, "-joined")
        {
          assert r[1] == 's';
        }
      }
    }
  }

  /** One refusal short-circuits every verb summary. */
  lemma RefusalShortCircuits(command: string, responses: seq<string>, r: string)
    requires r in responses && !StartsWith(r, "-joined") && Contains(r, "The command")
    ensures Summarize(command, responses).Refused?
    ensures r in Summarize(command, responses).messages
  {
  }

  /** Only the set of replies matters: order and repetition do not. */
  lemma SummaryIgnoresRepetition(sort: AttackSort, command: string, rs: seq<string>, rs': seq<string>)
    requires |rs| > 0 <==> |rs'| > 0
    requires forall r :: r in rs <==> r in rs'
    ensures SummarizeWith(sort, command, rs) == SummarizeWith(sort, command, rs')
  {
    assert Distinct(rs) == Distinct(rs');
  }

  /** As written, an attack is reported by filing every kept reply that
      contains "OK" as a success and every one that contains "FAIL" as a
      failure, wherever the text occurs. */
  lemma AttackSummaryAsWritten(command: string, responses: seq<string>)
    requires StartsWith(command, "attack") && command != "status" && command != "shutdown"
    requires forall r :: r in responses ==> !Contains(r, "The command")
    ensures var s := Summarize(command, responses);
      && s.Attack?
      && (forall r :: r in s.succeeded <==> r in responses && !StartsWith(r, "-joined") && Contains(r, "OK"))
      && (forall r :: r in s.failed <==> r in responses && !StartsWith(r, "-joined") && Contains(r, "FAIL"))
  {
  }

  /** With the intended filing, the successes and failures are the kept
      replies whose third token is "OK" and "FAIL", and no reply is both. */
  lemma AttackSummaryCorrected(command: string, responses: seq<string>)
    requires StartsWith(command, "attack") && command != "status" && command != "shutdown"
    requires forall r :: r in responses ==> !Contains(r, "The command")
    ensures var s := SummarizeCorrected(command, responses);
      && s.Attack?
      && (forall r :: r in s.succeeded <==> r in responses && !StartsWith(r, "-joined") && IsOkReport(r))
      && (forall r :: r in s.failed <==> r in responses && !StartsWith(r, "-joined") && IsFailReport(r))
      && s.succeeded !! s.failed
  {
  }

  /** A move is reported by the distinct `-move` replies; a window with
      replies but no acknowledgement says so, and a quiet one says nothing
      came back. */
  lemma MoveCountsDistinctMoves(sort: AttackSort, command: string, responses: seq<string>)
    requires StartsWith(command, "move")
    requires forall r :: r in responses ==> !Contains(r, "The command")
    ensures var s := SummarizeWith(sort, command, responses);
      && (s == NoResponses <==> |responses| == 0)
      && (s.Moved? <==> exists r :: r in responses && StartsWith(r, "-move"))
      && (s.Moved? ==> s.bots == set r | r in responses && StartsWith(r, "-move"))
      && (s == Silent <==> |responses| > 0 && forall r :: r in responses ==> StartsWith(r, "-joined"))
      && (s == NoMoves <==> && (forall r :: r in responses ==> !StartsWith(r, "-move"))
                            && exists r :: r in responses && !StartsWith(r, "-joined"))
  {
    assert command != "status" && command != "shutdown" && !StartsWith(command, "attack") by {
      assert command[0] == 'm';
    }
    forall r | StartsWith(r, "-move")
      ensures !StartsWith(r, "-joined")
    {
      assert r[1] == 'm';
    }
    if |responses| > 0 {
      var d := Distinct(responses);
      var moved := set r | r in d && StartsWith(r, "-move");
      assert SummarizeWith(sort, command, responses)
          == if d == {} then Silent else if moved != {} then Moved(moved) else NoMoves;
      if moved != {} {
        var r :| r in moved;
        assert r in responses && StartsWith(r, "-move");
      }
      if r :| r in responses && StartsWith(r, "-move") {
        assert r in moved;
      }
    }
  }

  /** A quiet window is a zero count, never an error, for status, shutdown and attack. */
  lemma EmptyWindowReportsZero(command: string)
    requires command == "status" || command == "shutdown" || StartsWith(command, "attack")
    ensures var s := Summarize(command, []);
      (s.Status? && |s.bots| == 0) || (s.Shutdown? && |s.bots| == 0)
      || (s.Attack? && |s.succeeded| == 0 && |s.failed| == 0)
  {
  }

  /** The two agents and a duplicate of one reply: two bots, not three. */
  lemma TwoBotsFromThreeReplies()
    ensures Summarize("status", ["-status A 3", "-status A 3", "-status B 1"]) == Status({"-status A 3", "-status B 1"})
    ensures |Summarize("status", ["-status A 3", "-status A 3", "-status B 1"]).bots| == 2
  {
    var rs := ["-status A 3", "-status A 3", "-status B 1"];
    forall r | r in rs ensures !Contains(r, "The command") {
      assert |r| == 11 && r[0] == '-';
    }
    StatusCountsDistinctReplies(rs);
    assert (set r | r in rs && StartsWith(r, "-status")) == {"-status A 3", "-status B 1"};
  }

  /** As written, the substring test files the failure report of any agent
      whose nick contains "OK" under both outcomes, whatever the reason. */
  lemma AttackPartitionAsWrittenOverlaps(nick: string, reason: string)
    requires Contains(nick, "OK")
    ensures var r := AttackHead(nick) + "FAIL " + reason;
      r in AttackPartitionAsWritten({r}).0 && r in AttackPartitionAsWritten({r}).1
  {
    var r := AttackHead(nick) + "FAIL " + reason;
    assert r == "-attack " + nick + (" FAIL " + reason);
    ContainsInside("-attack ", nick, " FAIL " + reason, "OK");
    assert r == AttackHead(nick) + "FAIL" + (" " + reason);
    assert Contains("FAIL", "FAIL") by { assert StartsWith("FAIL"[0..], "FAIL"); }
    ContainsInside(AttackHead(nick), "FAIL", " " + reason, "FAIL");
  }

  /** The whole summary as written: a failure report from an agent whose nick
      contains "OK" counts as a success and as a failure at once. */
  lemma AttackSummaryDoubleCountsAsWritten(command: string)
    requires StartsWith(command, "attack") && command != "status" && command != "shutdown"
    ensures Summarize(command, [BookFails]) == Attack({BookFails}, {BookFails})
  {
    SampleRepliesAreNoRefusals();
    AttackSummaryAsWritten(command, [BookFails]);
    assert !StartsWith(BookFails, "-joined") by { assert BookFails[1] == 'a'; }
    assert Contains(BookFails, "OK") by { assert StartsWith(BookFails[10..], "OK"); }
    assert Contains(BookFails, "FAIL") by { assert StartsWith(BookFails[13..], "FAIL"); }
  }

  /** As written, a stray status reply in an attack window counts as a success
      when the nick contains "OK". */
  lemma StatusReplyCountsAsAttackAsWritten(command: string)
    requires StartsWith(command, "attack") && command != "status" && command != "shutdown"
    ensures Summarize(command, [BookStatus]) == Attack({BookStatus}, {})
  {
    SampleRepliesAreNoRefusals();
    AttackSummaryAsWritten(command, [BookStatus]);
    assert !StartsWith(BookStatus, "-joined") by { assert BookStatus[1] == 's'; }
    assert Contains(BookStatus, "OK") by { assert StartsWith(BookStatus[10..], "OK"); }
    NotContains(BookStatus, "FAIL", 0);
  }

  const BookFails: string := "-attack BOOK FAIL Timeout"
  const BookStatus: string := "-status BOOK 3"

  lemma SampleRepliesAreNoRefusals()
    ensures !Contains(BookFails, "The command") && !Contains(BookStatus, "The command")
  {
    NotContains(BookFails, "The command", 1);
    NotContains(BookStatus, "The command", 1);
  }
}
