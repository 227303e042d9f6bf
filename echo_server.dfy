/**
 * The asio echo server: one `EchoSession` per accepted connection, cycling
 * read-line -> echo-line -> read-line until EOF or an I/O error, and an
 * `EchoServer` whose acceptor is armed once, from its constructor.
 *
 * The socket is replaced by the completion events the event loop delivers to
 * the session's handlers. At most one operation is outstanding at a time
 * (a read in `Reading`, a write in `Writing`, none in `Idle` or `Done`), and
 * the event loop only ever delivers the completion of the outstanding
 * operation; any other event is modelled as a no-op, so `Step` is total.
 *
 * The pure part (`SessionState`, `ReadNext`, `Step`, `Run` and the lemmas
 * about them) is the specification; the classes implement it and their
 * methods are proved against it.
 */
module AsioEchoServer {
  import opened Wrappers
  import opened Framing

  /** Idle: constructed, `start()` not yet called; Done: no operation outstanding, ever again. */
  datatype Phase = Idle | Reading | Writing | Done

  /** What the socket reports to the handler of the outstanding operation. */
  datatype Event =
    | Chunk(data: seq<char>)  // bytes read by the composed `async_read_until`
    | Eof                     // `asio::error::eof`
    | ReadError               // any other read error code
    | WriteOk                 // `async_write` sent the whole message
    | WriteError              // `async_write` failed

  /**
   * The session's state: the streambuf's content, the phase, every message
   * handed to `async_write` in order, and every byte read from the socket.
   */
  datatype SessionState = SessionState(
    buffer: seq<char>,
    phase: Phase,
    sent: seq<seq<char>>,
    received: seq<char>)

  /** A freshly constructed session. */
  const Created := SessionState([], Idle, [], [])

  /**
   * What every reachable state satisfies: the echoed messages followed by the
   * buffer are exactly the bytes received; each echo is one record; while a
   * read is outstanding the buffer holds no '\n'; while a write is outstanding
   * there is a message being written (the last one sent).
   */
  ghost predicate Inv(s: SessionState) {
    && Concat(s.sent) + s.buffer == s.received
    && AllRecords(s.sent)
    && (s.phase == Reading ==> '\n' !in s.buffer)
    && (s.phase == Writing ==> s.sent != [])
    && (s.phase == Idle ==> s == Created)
  }

  /**
   * `do_read`: `async_read_until` completes at once when the buffer already
   * holds a '\n' (then `getline` takes the line and `do_write` echoes it);
   * otherwise a read is left outstanding.
   */
  function ReadNext(s: SessionState): (t: SessionState)
    ensures t.received == s.received
    ensures t.phase == Reading || t.phase == Writing
    ensures t.phase == Reading <==> '\n' !in s.buffer
    ensures t.phase == Reading ==> t.buffer == s.buffer && t.sent == s.sent
    ensures t.phase == Writing ==>
      && |t.sent| == |s.sent| + 1
      && t.sent[..|s.sent|] == s.sent
      && IsRecord(t.sent[|s.sent|])
      && t.sent[|s.sent|] + t.buffer == s.buffer
  {
    match ReadLine(s.buffer)
    case None => s.(phase := Reading)
    case Some((msg, rest)) =>
      assert (s.sent + [msg])[..|s.sent|] == s.sent;
      s.(buffer := rest, phase := Writing, sent := s.sent + [msg])
  }

  /** `start()`: the first `do_read`; only a constructed session is started. */
  function StartSession(s: SessionState): (t: SessionState)
    ensures s.phase != Idle ==> t == s
    ensures s == Created ==> t == SessionState([], Reading, [], [])
  {
    if s.phase == Idle then ReadNext(s) else s
  }

  /** One completion handler run (lines 21-41 for reads, 48-54 for writes). */
  function Step(s: SessionState, e: Event): (t: SessionState)
    ensures s.phase == Done || s.phase == Idle ==> t == s
    ensures t.phase == Idle ==> s.phase == Idle
    ensures |s.sent| <= |t.sent| <= |s.sent| + 1 && t.sent[..|s.sent|] == s.sent
    ensures |t.sent| == |s.sent| + 1 ==> t.phase == Writing
    ensures (e.Eof? || e.ReadError?) ==> t.sent == s.sent && t.buffer == s.buffer
    ensures s.phase == Reading && (e.Eof? || e.ReadError?) ==> t.phase == Done
    ensures s.phase == Writing && e.WriteError? ==> t.phase == Done && t.sent == s.sent
    ensures s.phase == Writing && e.WriteOk? ==> t.phase != Done
    ensures t.received == s.received + (if s.phase == Reading && e.Chunk? then e.data else [])
  {
    match e
    case Chunk(data) =>
      if s.phase == Reading
      then ReadNext(s.(buffer := s.buffer + data, received := s.received + data))
      else s
    case Eof => if s.phase == Reading then s.(phase := Done) else s
    case ReadError => if s.phase == Reading then s.(phase := Done) else s
    case WriteOk => if s.phase == Writing then ReadNext(s) else s
    case WriteError => if s.phase == Writing then s.(phase := Done) else s
  }

  /** The state after a sequence of completions. */
  function Run(s: SessionState, events: seq<Event>): (t: SessionState)
    ensures |s.sent| <= |t.sent| <= |s.sent| + |events|
    decreases |events|
  {
    if events == [] then s else Run(Step(s, events[0]), events[1..])
  }

  lemma ReadNextPreservesInv(s: SessionState)
    requires Concat(s.sent) + s.buffer == s.received && AllRecords(s.sent)
    ensures Inv(ReadNext(s))
  {
    var r := ReadLine(s.buffer);
    if r.None? {
      assert ReadNext(s) == s.(phase := Reading);
    } else {
      var msg, rest := r.value.0, r.value.1;
      var sent := s.sent + [msg];
      assert ReadNext(s) == SessionState(rest, Writing, sent, s.received);
      assert AllRecords(sent) by {
        AllRecordsAppend(s.sent, msg);
      }
      assert Concat(sent) + rest == s.received by {
        ConcatAppend(s.sent, msg);
        AppendAssoc(Concat(s.sent), msg, rest, s.buffer);
      }
    }
  }

  lemma AllRecordsAppend(ms: seq<seq<char>>, m: seq<char>)
    requires AllRecords(ms) && IsRecord(m)
    ensures AllRecords(ms + [m])
  {
  }

  /** Every completion keeps the invariant. */
  lemma StepPreservesInv(s: SessionState, e: Event)
    requires Inv(s)
    ensures Inv(Step(s, e))
  {
    match e
    case Chunk(data) =>
      if s.phase == Reading {
        var u := s.(buffer := s.buffer + data, received := s.received + data);
        assert Concat(u.sent) + u.buffer == u.received;
        ReadNextPreservesInv(u);
      }
    case WriteOk =>
      if s.phase == Writing {
        ReadNextPreservesInv(s);
      }
    case _ =>
  }

  lemma StartPreservesInv(s: SessionState)
    requires Inv(s)
    ensures Inv(StartSession(s))
  {
    if s.phase == Idle {
      ReadNextPreservesInv(s);
    }
  }

  /** Every run keeps the invariant. */
  lemma {:induction false} RunPreservesInv(s: SessionState, events: seq<Event>)
    requires Inv(s)
    ensures Inv(Run(s, events))
    decreases |events|
  {
    if events != [] {
      StepPreservesInv(s, events[0]);
      RunPreservesInv(Step(s, events[0]), events[1..]);
    }
  }

  /** Echoes only accumulate: nothing sent or received is ever taken back. */
  lemma {:induction false} RunOnlyExtends(s: SessionState, events: seq<Event>)
    ensures s.sent <= Run(s, events).sent
    ensures s.received <= Run(s, events).received
    decreases |events|
  {
    if events != [] {
      var t := Step(s, events[0]);
      RunOnlyExtends(t, events[1..]);
      assert s.sent == t.sent[..|s.sent|];
    }
  }

  /** No event leaves `Done`: nothing is read or written after it. */
  lemma {:induction false} DoneIsFinal(s: SessionState, events: seq<Event>)
    requires s.phase == Done
    ensures Run(s, events) == s
    decreases |events|
  {
    if events != [] {
      DoneIsFinal(Step(s, events[0]), events[1..]);
    }
  }

  /**
   * The echoes are the records of the received bytes, one for one and in
   * receipt order, followed by the records still buffered; while a read is
   * outstanding every complete record has been echoed and the buffer is the
   * trailing fragment.
   */
  lemma EchoesAreReceivedRecords(s: SessionState)
    requires Inv(s)
    ensures Concat(s.sent) <= s.received
    ensures Records(s.received) == s.sent + Records(s.buffer)
    ensures Remainder(s.received) == Remainder(s.buffer)
    ensures s.phase == Reading ==> s.sent == Records(s.received) && s.buffer == Remainder(s.received)
  {
    RecordsOfConcat(s.sent, s.buffer);
    RemainderOfConcat(s.sent, s.buffer);
    if s.phase == Reading {
      NoNewlineNoRecords(s.buffer);
    }
  }

  /**
   * What is echoed does not depend on how the bytes were split into reads:
   * two sessions that received the same bytes and are both waiting for more
   * have echoed the same messages and buffer the same fragment.
   */
  lemma ChunkingIrrelevant(s1: SessionState, s2: SessionState)
    requires Inv(s1) && Inv(s2)
    requires s1.phase == Reading && s2.phase == Reading
    requires s1.received == s2.received
    ensures s1.sent == s2.sent && s1.buffer == s2.buffer
  {
    EchoesAreReceivedRecords(s1);
    EchoesAreReceivedRecords(s2);
  }

  /**
   * EOF or a read error ends the session without a write; the trailing
   * fragment without '\n' stays unechoed for ever.
   */
  lemma ReadEndDiscardsFragment(s: SessionState, e: Event, later: seq<Event>)
    requires Inv(s) && s.phase == Reading && (e.Eof? || e.ReadError?)
    ensures Step(s, e).phase == Done
    ensures Run(Step(s, e), later).sent == s.sent == Records(s.received)
    ensures Run(Step(s, e), later).buffer == Remainder(s.received)
    ensures '\n' !in Run(Step(s, e), later).buffer
  {
    EchoesAreReceivedRecords(s);
    DoneIsFinal(Step(s, e), later);
  }

  // Scenarios of the wire protocol, from a started session.

  const Started := SessionState([], Reading, [], [])

  lemma RunFirst(s: SessionState, e: Event, events: seq<Event>)
    ensures Run(s, [e] + events) == Run(Step(s, e), events)
  {
    assert ([e] + events)[1..] == events;
  }

  /** Reading a single complete record `m` echoes exactly `m`. */
  lemma ReadOneRecord(s: SessionState, m: seq<char>)
    requires s.phase == Reading && s.buffer == [] && IsRecord(m)
    ensures Step(s, Chunk(m)) == SessionState([], Writing, s.sent + [m], s.received + m)
  {
    ReadLineOfRecord(m, []);
    assert m + [] == m && [] + m == m;
  }

  /** Runs compose: the events of two runs in sequence. */
  lemma {:induction false} RunAppend(s: SessionState, a: seq<Event>, b: seq<Event>)
    ensures Run(s, a + b) == Run(Run(s, a), b)
    decreases |a|
  {
    if a == [] {
      assert a + b == b;
    } else {
      assert (a + b)[0] == a[0] && (a + b)[1..] == a[1..] + b;
      RunAppend(Step(s, a[0]), a[1..], b);
    }
  }

  /**
   * From a session waiting on an empty buffer, a record delivered in one
   * chunk is echoed, and once the write completes the session reads again.
   */
  lemma EchoAndResume(s: SessionState, m: seq<char>)
    requires s.phase == Reading && s.buffer == [] && IsRecord(m)
    ensures Run(s, [Chunk(m), WriteOk]) == SessionState([], Reading, s.sent + [m], s.received + m)
  {
    var s1 := Step(s, Chunk(m));
    ReadOneRecord(s, m);
    RunFirst(s, Chunk(m), [WriteOk]);
    RunFirst(s1, WriteOk, []);
  }

  /** A record sent in one chunk is echoed verbatim (for example `"hello\n"`). */
  lemma RecordIsEchoed(m: seq<char>)
    requires IsRecord(m)
    ensures Run(Started, [Chunk(m), WriteOk]) == SessionState([], Reading, [m], m)
  {
    EchoAndResume(Started, m);
    assert [] + [m] == [m] && [] + m == m;
  }

  /** An empty line is echoed as `"\n"`, not dropped. */
  lemma EmptyLineIsEchoed()
    ensures Run(Started, [Chunk("\n"), WriteOk]) == SessionState([], Reading, ["\n"], "\n")
  {
    RecordIsEchoed("\n");
  }

  /** Each message sent as one chunk, the next one only after the previous echo completed. */
  function Exchanges(ms: seq<seq<char>>): seq<Event> {
    if ms == [] then [] else [Chunk(ms[0]), WriteOk] + Exchanges(ms[1..])
  }

  /**
   * Records sent one at a time, each after the previous echo completed, are
   * echoed verbatim and in that order (for example `"a\n"` then `"b\n"`), and
   * the session ends up reading on an empty buffer.
   */
  lemma {:induction false} EchoesInOrder(s: SessionState, ms: seq<seq<char>>)
    requires s.phase == Reading && s.buffer == [] && AllRecords(ms)
    ensures Run(s, Exchanges(ms)) == SessionState([], Reading, s.sent + ms, s.received + Concat(ms))
    decreases |ms|
  {
    if ms == [] {
      assert s.sent + ms == s.sent && s.received + Concat(ms) == s.received;
    } else {
      var m, later := ms[0], ms[1..];
      AllRecordsTail(ms);
      var s1 := SessionState([], Reading, s.sent + [m], s.received + m);
      assert Run(s, [Chunk(m), WriteOk]) == s1 by {
        EchoAndResume(s, m);
      }
      EchoesInOrder(s1, later);
      RunAppend(s, [Chunk(m), WriteOk], Exchanges(later));
      EchoesInOrderStep(s, ms, m, later, s1, Run(s1, Exchanges(later)));
    }
  }

  lemma EchoesInOrderStep(
    s: SessionState, ms: seq<seq<char>>, m: seq<char>, later: seq<seq<char>>,
    s1: SessionState, t: SessionState)
    requires ms != [] && m == ms[0] && later == ms[1..]
    requires s1.sent == s.sent + [m] && s1.received == s.received + m
    requires t == SessionState([], Reading, s1.sent + later, s1.received + Concat(later))
    ensures t == SessionState([], Reading, s.sent + ms, s.received + Concat(ms))
  {
    assert [m] + later == ms;
    ConcatCons(m, later);
  }

  /** A fragment without '\n' followed by EOF is never echoed (for example `"partial"`). */
  lemma FragmentThenEofEchoesNothing(f: seq<char>)
    requires '\n' !in f
    ensures Run(Started, [Chunk(f), Eof]) == SessionState(f, Done, [], f)
  {
    assert [] + f == f;
    var s1 := Step(Started, Chunk(f));
    assert s1 == SessionState(f, Reading, [], f);
    RunFirst(Started, Chunk(f), [Eof]);
    RunFirst(s1, Eof, []);
  }

  /**
   * `EchoSession`: the streambuf, the phase and the messages written are
   * updated in place by the completion handlers; `received` records what the
   * socket delivered.
   */
  class EchoSession {
    var buffer: seq<char>
    var phase: Phase
    var sent: seq<seq<char>>
    ghost var received: seq<char>

    ghost function State(): SessionState
      reads this
    {
      SessionState(buffer, phase, sent, received)
    }

    ghost predicate Valid()
      reads this
    {
      Inv(State())
    }

    /** `EchoSession(socket)`: takes the accepted socket; nothing is read yet. */
    constructor ()
      ensures Valid() && State() == Created
    {
      buffer, phase, sent, received := [], Idle, [], [];
    }

    /** `start()`: issues the first read. */
    method Start()
      requires Valid() && phase == Idle
      modifies this
      ensures Valid() && State() == StartSession(old(State()))
    {
      StartPreservesInv(State());
      DoRead();
    }

    /**
     * `do_read`: if the streambuf already holds a '\n' the read completes at
     * once: `getline` consumes the line, the newline is put back and the
     * line is written; otherwise the read stays outstanding.
     */
    method DoRead()
      modifies this
      ensures State() == ReadNext(old(State()))
    {
      var pos := FirstNewline(buffer);
      if pos.None? {
        phase := Reading;
      } else {
        var length := pos.value + 1;
        var (line, rest) := Getline(buffer);
        buffer := rest;
        DoWrite(Reconstruct(length, line));
      }
    }

    /** `do_write`: one `async_write` of the whole message is outstanding. */
    method DoWrite(message: seq<char>)
      modifies this
      ensures State() == old(State()).(phase := Writing, sent := old(sent) + [message])
    {
      sent := sent + [message];
      phase := Writing;
    }

    /** The read handler after the socket delivered `data` (no error). */
    method OnChunk(data: seq<char>)
      requires Valid()
      modifies this
      ensures Valid() && State() == Step(old(State()), Chunk(data))
    {
      ghost var s0 := State();
      StepPreservesInv(s0, Chunk(data));
      if phase == Reading {
        buffer := buffer + data;
        received := received + data;
        assert State() == s0.(buffer := s0.buffer + data, received := s0.received + data);
        DoRead();
      }
    }

    /** The read handler with `asio::error::eof`: "Client disconnected". */
    method OnEof()
      requires Valid()
      modifies this
      ensures Valid() && State() == Step(old(State()), Eof)
    {
      StepPreservesInv(State(), Eof);
      if phase == Reading {
        phase := Done;
      }
    }

    /** The read handler with any other error: "Read error". */
    method OnReadError()
      requires Valid()
      modifies this
      ensures Valid() && State() == Step(old(State()), ReadError)
    {
      StepPreservesInv(State(), ReadError);
      if phase == Reading {
        phase := Done;
      }
    }

    /** The write handler without error: the next `do_read`. */
    method OnWriteOk()
      requires Valid()
      modifies this
      ensures Valid() && State() == Step(old(State()), WriteOk)
    {
      StepPreservesInv(State(), WriteOk);
      if phase == Writing {
        DoRead();
      }
    }

    /** The write handler with an error: "Write error", nothing further. */
    method OnWriteError()
      requires Valid()
      modifies this
      ensures Valid() && State() == Step(old(State()), WriteError)
    {
      StepPreservesInv(State(), WriteError);
      if phase == Writing {
        phase := Done;
      }
    }
  }

  /** How the one outstanding `async_accept` completes (lines 72-82). */
  datatype AcceptOutcome =
    | Accepted      // no error code, and `socket.remote_endpoint()` returned
    | PeerGone      // no error code, but `remote_endpoint()` threw: the peer was already gone
    | AcceptFailed  // an error code: it is logged

  /**
   * The acceptor: whether an accept is outstanding, how many sessions it
   * created, and whether an exception from the accept handler has left
   * `io_context.run()` (so `main` returns 1 and no handler ever runs again).
   */
  datatype AcceptorState = AcceptorState(accepting: bool, sessions: nat, aborted: bool)

  /** After the constructor's `do_accept`. */
  const Listening := AcceptorState(true, 0, false)

  /**
   * The accept handler: a session when the endpoint could be read, an
   * escaping exception when it could not, a logged error otherwise; in no
   * case is `do_accept` called again.
   */
  function Accept(a: AcceptorState, outcome: AcceptOutcome): (b: AcceptorState)
    ensures !b.accepting
    ensures a.sessions <= b.sessions <= a.sessions + 1
    ensures b.sessions == a.sessions + 1 <==> a.accepting && outcome == Accepted
    ensures b.aborted <==> a.aborted || (a.accepting && outcome == PeerGone)
  {
    if !a.accepting then a
    else match outcome
      case Accepted => a.(accepting := false, sessions := a.sessions + 1)
      case PeerGone => a.(accepting := false, aborted := true)
      case AcceptFailed => a.(accepting := false)
  }

  /** The acceptor after a sequence of accept outcomes. */
  function AcceptAll(a: AcceptorState, outcomes: seq<AcceptOutcome>): (b: AcceptorState)
    ensures a.sessions <= b.sessions <= a.sessions + (if a.accepting then 1 else 0)
    ensures b.accepting ==> outcomes == []
    decreases |outcomes|
  {
    if outcomes == [] then a else AcceptAll(Accept(a, outcomes[0]), outcomes[1..])
  }

  lemma {:induction false} NotAcceptingIsFinal(a: AcceptorState, outcomes: seq<AcceptOutcome>)
    requires !a.accepting
    ensures AcceptAll(a, outcomes) == a
    decreases |outcomes|
  {
    if outcomes != [] {
      NotAcceptingIsFinal(Accept(a, outcomes[0]), outcomes[1..]);
    }
  }

  /**
   * The server accepts exactly one connection: at most one session ever
   * exists; one exists exactly when the first accept completed and its
   * endpoint could be read; the run is aborted exactly when that read threw.
   */
  lemma AtMostOneSession(outcomes: seq<AcceptOutcome>)
    ensures AcceptAll(Listening, outcomes).sessions <= 1
    ensures AcceptAll(Listening, outcomes).sessions == 1 <==> outcomes != [] && outcomes[0] == Accepted
    ensures AcceptAll(Listening, outcomes).aborted <==> outcomes != [] && outcomes[0] == PeerGone
    ensures AcceptAll(Listening, outcomes).accepting <==> outcomes == []
  {
    if outcomes != [] {
      NotAcceptingIsFinal(Accept(Listening, outcomes[0]), outcomes[1..]);
    }
  }

  /** `EchoServer`: the acceptor and the session it spawned, if any. */
  class EchoServer {
    var accepting: bool
    var session: EchoSession?
    ghost var sessions: nat
    ghost var aborted: bool

    ghost function State(): AcceptorState
      reads this
    {
      AcceptorState(accepting, sessions, aborted)
    }

    ghost predicate Valid()
      reads this
    {
      && sessions <= 1
      && (session == null <==> sessions == 0)
      && (accepting ==> sessions == 0 && !aborted)
      && !(aborted && sessions == 1)
    }

    /** The constructor binds the acceptor and calls `do_accept` once. */
    constructor ()
      ensures Valid() && State() == Listening && session == null
    {
      accepting, session, sessions, aborted := true, null, 0, false;
    }

    /**
     * The accept handler: when the endpoint can be read a new session is
     * created and started; when reading it throws, the exception ends the
     * run and no session is created.
     */
    method OnAccept(outcome: AcceptOutcome)
      requires Valid()
      modifies this
      ensures Valid() && State() == Accept(old(State()), outcome)
      ensures old(accepting) && outcome == Accepted ==>
        && session != null && fresh(session)
        && session.Valid() && session.State() == Started
      ensures !(old(accepting) && outcome == Accepted) ==> session == old(session)
    {
      if accepting {
        accepting := false;
        match outcome
        case Accepted =>
          var s := new EchoSession();
          s.Start();
          session := s;
          sessions := sessions + 1;
        case PeerGone =>
          aborted := true;
        case AcceptFailed =>
      }
    }
  }
}
