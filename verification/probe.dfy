/** What the outbound probe of the `attack` verb observed. The probe itself
    (name resolution, the non-blocking connect, the three-second `select`, the
    `"{nick} {nonce}\n"` payload) is network I/O and is given to the model as
    one of these outcomes. */
module Probe {

  /** What `select` on the probe socket reported, or the exception raised
      inside the `try` that wraps it (including a failing `sendall`). */
  datatype SelectOutcome =
    | Writable            // ready to write before the timeout; the payload was sent
    | Errored             // listed in the error set before the timeout
    | TimedOut            // neither within three seconds
    | Raised(text: string)  // `str(e)` of the exception

  datatype ProbeInput =
    | Unresolvable        // the target host name does not resolve
    | ConnectRaised       // `connect` raised something other than BlockingIOError
    | Selected(outcome: SelectOutcome)

  /** Both agents open their `attack` report with the verb and the nick. */
  function AttackHead(nick: string): string { "-attack " + nick + " " }
}
