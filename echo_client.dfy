/**
 * The two string rules of the asio echo client: the outgoing message is
 * terminated by '\n' before it is written, and the echo is the first line
 * read back, with its '\n' put back after `getline`.
 */
module AsioEchoClient {
  import opened Wrappers
  import opened Framing
  import AsioEchoServer

  /** A non-empty message that does not end in '\n' gets one appended. */
  function Normalize(message: string): (r: string)
    ensures message == [] ==> r == []
    ensures message != [] ==> |r| > 0 && r[|r| - 1] == '\n'
    ensures message <= r && |r| <= |message| + 1
    ensures message != [] && message[|message| - 1] == '\n' ==> r == message
  {
    if message != [] && message[|message| - 1] != '\n' then message + "\n" else message
  }

  /** Terminating an already terminated message changes nothing. */
  lemma NormalizeIdempotent(message: string)
    ensures Normalize(Normalize(message)) == Normalize(message)
  {
  }

  /**
   * `read_until(socket, buffer, '\n')`, `getline` and the rebuild of the echo:
   * the first line of what the server sent, '\n' included. Without any '\n'
   * `read_until` reports EOF as an exception and there is no echo.
   */
  function ReceiveEcho(incoming: string): (echo: Option<string>)
    ensures echo.None? <==> '\n' !in incoming
    ensures echo.Some? ==> IsRecord(echo.value) && echo.value <= incoming
  {
    match FirstNewline(incoming)
    case None => None
    case Some(k) =>
      var (line, _) := Getline(incoming);
      var echo := Reconstruct(k + 1, line);
      assert ReadLine(incoming).value.0 == echo;
      Some(echo)
  }

  /**
   * A one-line message makes the round trip: the session echoes the
   * terminated message as its single record and the client reads it back
   * unchanged.
   */
  lemma RoundTrip(message: string)
    requires message != [] && '\n' !in message[..|message| - 1]
    ensures AsioEchoServer.Step(AsioEchoServer.Started, AsioEchoServer.Chunk(Normalize(message))).sent
            == [Normalize(message)]
    ensures ReceiveEcho(Normalize(message)) == Some(Normalize(message))
  {
    var wire := Normalize(message);
    assert IsRecord(wire) by {
      if message[|message| - 1] != '\n' {
        assert wire[..|wire| - 1] == message;
        assert '\n' !in message by {
          assert message == message[..|message| - 1] + [message[|message| - 1]];
        }
      }
    }
    AsioEchoServer.ReadOneRecord(AsioEchoServer.Started, wire);
    ReadLineOfRecord(wire, []);
    assert wire + [] == wire;
  }
}
