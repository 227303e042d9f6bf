/**
 * Newline framing over the bytes held in an `asio::streambuf`.
 *
 * The library calls the echo server and client rely on are stated here as
 * explicit assumptions about their behaviour:
 *  - `async_read_until(socket, buffer, '\n')` / `read_until` complete with
 *    length = (index of the first '\n' in the buffer) + 1, leaving every
 *    byte in the buffer (`FirstNewline`);
 *  - `std::getline` on an istream over the buffer removes the bytes up to and
 *    including the first '\n', returning them without the '\n' (`Getline`).
 */
module Framing {
  import opened Wrappers

  /** A record of the wire protocol: non-empty, ends in '\n', and that '\n' is its only one. */
  ghost predicate IsRecord(m: seq<char>) {
    |m| > 0 && m[|m| - 1] == '\n' && '\n' !in m[..|m| - 1]
  }

  ghost predicate AllRecords(ms: seq<seq<char>>) {
    forall i :: 0 <= i < |ms| ==> IsRecord(ms[i])
  }

  /** The concatenation of a sequence of messages, in order. */
  function Concat(ms: seq<seq<char>>): seq<char> {
    if ms == [] then [] else ms[0] + Concat(ms[1..])
  }

  lemma {:induction false} ConcatAppend(ms: seq<seq<char>>, m: seq<char>)
    ensures Concat(ms + [m]) == Concat(ms) + m
  {
    if ms == [] {
      assert [] + [m] == [m];
    } else {
      assert (ms + [m])[1..] == ms[1..] + [m];
      ConcatAppend(ms[1..], m);
    }
  }

  /** Where `async_read_until` finds the delimiter: the index of the first '\n', if any. */
  function FirstNewline(s: seq<char>): (r: Option<nat>)
    ensures r.None? <==> '\n' !in s
    ensures r.Some? ==> r.value < |s| && s[r.value] == '\n' && '\n' !in s[..r.value]
  {
    if s == [] then None
    else if s[0] == '\n' then Some(0)
    else match FirstNewline(s[1..])
      case None => None
      case Some(k) =>
        assert s[..k + 1] == [s[0]] + s[1..][..k];
        Some(k + 1)
  }

  /**
   * `std::getline(is, line)`: the extracted line (without the delimiter) and
   * what stays in the streambuf. Without a '\n' the whole input is taken.
   */
  function Getline(s: seq<char>): (r: (seq<char>, seq<char>))
    ensures '\n' in s ==> s == r.0 + ['\n'] + r.1 && '\n' !in r.0
    ensures '\n' !in s ==> r.0 == s && r.1 == []
  {
    match FirstNewline(s)
    case None => (s, [])
    case Some(k) =>
      assert s == s[..k] + [s[k]] + s[k + 1..];
      (s[..k], s[k + 1..])
  }

  /**
   * Putting the newline back after `getline` (the server's and the client's
   * branch on `length > 0 && line.empty()`). Both arms give `line + "\n"`,
   * so the test never changes the result.
   */
  function Reconstruct(length: nat, line: seq<char>): (r: seq<char>)
    ensures r == line + ['\n']
  {
    if length > 0 && line == [] then ['\n'] else line + ['\n']
  }

  /**
   * One completed read followed by `getline` and `Reconstruct`: the message
   * handed to the write and the bytes left in the streambuf, or None while no
   * '\n' has been buffered.
   */
  function ReadLine(buffer: seq<char>): (r: Option<(seq<char>, seq<char>)>)
    ensures r.None? <==> '\n' !in buffer
    ensures r.Some? ==> IsRecord(r.value.0) && r.value.0 + r.value.1 == buffer
  {
    match FirstNewline(buffer)
    case None => None
    case Some(k) =>
      var (line, rest) := Getline(buffer);
      var msg := Reconstruct(k + 1, line);
      assert msg[..|msg| - 1] == line;
      Some((msg, rest))
  }

  /** The message is the buffered bytes up to and including the first '\n'. */
  lemma ReadLineTakesThroughFirstNewline(buffer: seq<char>)
    requires '\n' in buffer
    ensures ReadLine(buffer).value.0 == buffer[..FirstNewline(buffer).value + 1]
    ensures ReadLine(buffer).value.1 == buffer[FirstNewline(buffer).value + 1..]
  {
    var k := FirstNewline(buffer).value;
    assert buffer[..k + 1] == buffer[..k] + [buffer[k]];
  }

  /** The first '\n' is the one with no '\n' before it. */
  lemma FirstNewlineAt(s: seq<char>, k: nat)
    requires k < |s| && s[k] == '\n' && '\n' !in s[..k]
    ensures FirstNewline(s) == Some(k)
  {
    var f := FirstNewline(s).value;
    assert forall j :: 0 <= j < k ==> s[..k][j] == s[j];
    assert forall j :: 0 <= j < f ==> s[..f][j] == s[j];
  }

  /** A record followed by anything is read back as exactly that record. */
  lemma ReadLineOfRecord(m: seq<char>, t: seq<char>)
    requires IsRecord(m)
    ensures ReadLine(m + t) == Some((m, t))
  {
    var s := m + t;
    var k := |m| - 1;
    assert s[..k] == m[..k];
    FirstNewlineAt(s, k);
    ReadLineTakesThroughFirstNewline(s);
    assert s[..k + 1] == m;
  }

  /** All complete records of a byte stream, in receipt order. */
  function Records(s: seq<char>): (rs: seq<seq<char>>)
    decreases |s|
  {
    var r := ReadLine(s);
    if r.None? then [] else [r.value.0] + Records(r.value.1)
  }

  /** The trailing fragment of a byte stream after its last '\n'. */
  function Remainder(s: seq<char>): (rest: seq<char>)
    decreases |s|
  {
    var r := ReadLine(s);
    if r.None? then s else Remainder(r.value.1)
  }

  /** A leading record is split off as the first record; the rest is framed alone. */
  lemma RecordsOfRecord(m: seq<char>, t: seq<char>)
    requires IsRecord(m)
    ensures Records(m + t) == [m] + Records(t)
    ensures Remainder(m + t) == Remainder(t)
  {
    ReadLineOfRecord(m, t);
  }

  /** Splitting a stream into records and its remainder loses and adds nothing. */
  lemma RecordsRemainderSplit(s: seq<char>)
    ensures AllRecords(Records(s))
    ensures Concat(Records(s)) + Remainder(s) == s
    ensures '\n' !in Remainder(s)
  {
    RecordsAreRecords(s);
    RecordsThenRemainder(s);
    RemainderHasNoNewline(s);
  }

  lemma {:induction false} RecordsAreRecords(s: seq<char>)
    ensures AllRecords(Records(s))
    decreases |s|
  {
    var r := ReadLine(s);
    if r.Some? {
      var rest := r.value.1;
      RecordsAreRecords(rest);
      AllRecordsCons(r.value.0, Records(rest));
    }
  }

  lemma {:induction false} RecordsThenRemainder(s: seq<char>)
    ensures Concat(Records(s)) + Remainder(s) == s
    decreases |s|
  {
    var r := ReadLine(s);
    if r.Some? {
      var m, rest := r.value.0, r.value.1;
      var rs := Records(rest);
      RecordsThenRemainder(rest);
      assert Records(s) == [m] + rs;
      assert Remainder(s) == Remainder(rest);
      ConcatCons(m, rs);
      AppendAssoc(m, Concat(rs), Remainder(rest), rest);
    }
  }

  lemma {:induction false} RemainderHasNoNewline(s: seq<char>)
    ensures '\n' !in Remainder(s)
    decreases |s|
  {
    var r := ReadLine(s);
    if r.Some? {
      RemainderHasNoNewline(r.value.1);
    }
  }

  lemma AppendAssoc(a: seq<char>, b: seq<char>, c: seq<char>, bc: seq<char>)
    requires b + c == bc
    ensures (a + b) + c == a + bc
  {
  }

  lemma AllRecordsCons(m: seq<char>, ms: seq<seq<char>>)
    requires IsRecord(m) && AllRecords(ms)
    ensures AllRecords([m] + ms)
  {
  }

  lemma ConcatCons(m: seq<char>, ms: seq<seq<char>>)
    ensures Concat([m] + ms) == m + Concat(ms)
  {
    assert ([m] + ms)[1..] == ms;
  }

  /**
   * The records of `Concat(ms) + tail`, when every message in `ms` is a record,
   * are `ms` followed by the records of `tail`: concatenated records are
   * recovered one for one, in order, however they were produced.
   */
  lemma {:induction false} RecordsOfConcat(ms: seq<seq<char>>, tail: seq<char>)
    requires AllRecords(ms)
    ensures Records(Concat(ms) + tail) == ms + Records(tail)
    decreases |ms|
  {
    if ms == [] {
      assert Concat(ms) + tail == tail;
      assert ms + Records(tail) == Records(tail);
    } else {
      var m, later := ms[0], ms[1..];
      var rest := Concat(later) + tail;
      assert Concat(ms) + tail == m + rest by {
        AppendAssoc(m, Concat(later), tail, rest);
      }
      assert ms == [m] + later;
      AllRecordsTail(ms);
      RecordsOfConcat(later, tail);
      RecordsOfConcatStep(ms, m, later, rest, tail, Concat(ms) + tail);
    }
  }

  lemma RecordsOfConcatStep(
    ms: seq<seq<char>>, m: seq<char>, later: seq<seq<char>>,
    rest: seq<char>, tail: seq<char>, whole: seq<char>)
    requires IsRecord(m) && ms == [m] + later && whole == m + rest
    requires Records(rest) == later + Records(tail)
    ensures Records(whole) == ms + Records(tail)
  {
    RecordsOfRecord(m, rest);
    ConsAssoc(m, Records(rest), later, Records(tail));
  }

  lemma ConsAssoc<T>(x: T, a: seq<T>, b: seq<T>, c: seq<T>)
    requires a == b + c
    ensures [x] + a == ([x] + b) + c
  {
  }

  /** ... and the trailing fragment after them is that of `tail`. */
  lemma {:induction false} RemainderOfConcat(ms: seq<seq<char>>, tail: seq<char>)
    requires AllRecords(ms)
    ensures Remainder(Concat(ms) + tail) == Remainder(tail)
    decreases |ms|
  {
    if ms == [] {
      assert Concat(ms) + tail == tail;
    } else {
      var m, later := ms[0], ms[1..];
      var rest := Concat(later) + tail;
      assert Concat(ms) + tail == m + rest;
      RecordsOfRecord(m, rest);
      AllRecordsTail(ms);
      RemainderOfConcat(later, tail);
    }
  }

  lemma AllRecordsTail(ms: seq<seq<char>>)
    requires AllRecords(ms) && ms != []
    ensures IsRecord(ms[0]) && AllRecords(ms[1..])
  {
    forall i | 0 <= i < |ms| - 1 ensures IsRecord(ms[1..][i]) {
      assert ms[1..][i] == ms[i + 1];
    }
  }

  /** A stream without '\n' has no records and is all remainder. */
  lemma NoNewlineNoRecords(s: seq<char>)
    requires '\n' !in s
    ensures Records(s) == [] && Remainder(s) == s
  {
  }
}
