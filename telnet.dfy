/** The minimal Telnet transport of telnet.go: refusal of every option the
    server negotiates, and a byte-by-byte "read until a stop word" scanner.

    The connection is a finite input byte stream (running off its end stands
    for a read error, a closed connection or an expired deadline) together
    with a log of the bytes written to it. */
module Telnet {
  import opened GoStrings

  // Command bytes of RFC 854, "TELNET COMMAND STRUCTURE".
  const IAC: byte := 255
  const DONT: byte := 254
  const DO: byte := 253
  const WONT: byte := 252
  const WILL: byte := 251

  /** The line terminator sendCommand appends to a command. */
  const LF: byte := 10

  /** What handleTelnetNegotiation writes after reading `IAC cmd option`:
      DO is answered with WONT, WILL with DONT, anything else with nothing. */
  function Refusal(cmd: byte, option: byte): (r: seq<byte>)
    ensures r != [] <==> cmd == DO || cmd == WILL
    ensures r != [] ==> |r| == 3 && r[0] == IAC && r[2] == option
    ensures cmd == DO ==> r[1] == WONT
    ensures cmd == WILL ==> r[1] == DONT
  {
    if cmd == DO then [IAC, WONT, option]
    else if cmd == WILL then [IAC, DONT, option]
    else []
  }

  /** The data bytes of a stretch of input: every `IAC cmd option` triple
      removed, and an IAC sequence cut short by the end of input dropped.
      A second IAC after IAC is a command byte, not an escaped data byte. */
  function Strip(s: seq<byte>): Str
  {
    if s == [] then []
    else if s[0] == IAC then (if |s| < 3 then [] else Strip(s[3..]))
    else [s[0]] + Strip(s[1..])
  }

  /** The negotiation replies requested by a stretch of input, in order. */
  function Replies(s: seq<byte>): seq<byte>
  {
    if s == [] then []
    else if s[0] == IAC then (if |s| < 3 then [] else Refusal(s[1], s[2]) + Replies(s[3..]))
    else Replies(s[1..])
  }

  /** The outcome of a readUntil scan: the text accumulated, whether it ended
      in a read error, the input position after the last byte read, and the
      negotiation replies it wrote. */
  datatype Scan = Scan(text: Str, failed: bool, end: nat, replies: seq<byte>)

  /** Position after the negotiation that follows `IAC cmd` when the option
      byte sits at `j`: one further byte, or none when the input has run out
      (the negotiation's read error is discarded). */
  function AfterOption(input: seq<byte>, j: nat): (k: nat)
    requires j <= |input|
    ensures j <= k <= |input|
  {
    if j < |input| then j + 1 else j
  }

  /** The reply of the negotiation that follows `IAC cmd`, option byte at `j`. */
  function OptionReply(input: seq<byte>, cmd: byte, j: nat): seq<byte>
  {
    if j < |input| then Refusal(cmd, input[j]) else []
  }

  /** The loop of readUntil, from input position `i` with `acc` already
      accumulated. */
  function ScanFrom(input: seq<byte>, i: nat, acc: Str, stops: seq<Str>): (r: Scan)
    requires i <= |input|
    ensures i <= r.end <= |input|
    ensures r.failed ==> r.end == |input|
    ensures |acc| <= |r.text| && r.text[..|acc|] == acc
    decreases |input| - i
  {
    if i == |input| then
      Scan(acc, true, i, [])
    else if input[i] == IAC then
      if i + 1 == |input| then
        Scan(acc, true, i + 1, [])
      else
        var r := ScanFrom(input, AfterOption(input, i + 2), acc, stops);
        r.(replies := OptionReply(input, input[i + 1], i + 2) + r.replies)
    else
      var acc' := acc + [input[i]];
      if ContainsAny(acc', stops) then
        Scan(acc', false, i + 1, [])
      else
        var r := ScanFrom(input, i + 1, acc', stops);
        assert r.text[..|acc|] == r.text[..|acc'|][..|acc|];
        r
  }

  /** The scanned text is the input read, with negotiation removed, in order. */
  lemma {:induction false} ScanText(input: seq<byte>, i: nat, acc: Str, stops: seq<Str>)
    requires i <= |input|
    ensures ScanFrom(input, i, acc, stops).text == acc + Strip(input[i..ScanFrom(input, i, acc, stops).end])
    decreases |input| - i
  {
    var r := ScanFrom(input, i, acc, stops);
    if i == |input| {
    } else if input[i] == IAC {
      if i + 1 == |input| {
        assert input[i..r.end] == [IAC];
      } else {
        var k := AfterOption(input, i + 2);
        ScanText(input, k, acc, stops);
        if k == i + 3 {
          assert input[i..r.end][3..] == input[k..r.end];
        } else {
          assert r.end == |input| == i + 2;
          assert input[i..r.end] == [IAC, input[i + 1]];
        }
      }
    } else {
      var acc' := acc + [input[i]];
      if ContainsAny(acc', stops) {
        assert input[i..r.end] == [input[i]];
      } else {
        ScanText(input, i + 1, acc', stops);
        assert input[i..r.end][1..] == input[i + 1..r.end];
      }
    }
  }

  /** The replies written are exactly those the consumed input requests. */
  lemma {:induction false} ScanReplies(input: seq<byte>, i: nat, acc: Str, stops: seq<Str>)
    requires i <= |input|
    ensures ScanFrom(input, i, acc, stops).replies == Replies(input[i..ScanFrom(input, i, acc, stops).end])
    decreases |input| - i
  {
    var r := ScanFrom(input, i, acc, stops);
    if i == |input| {
    } else if input[i] == IAC {
      if i + 1 == |input| {
        assert input[i..r.end] == [IAC];
      } else {
        var k := AfterOption(input, i + 2);
        ScanReplies(input, k, acc, stops);
        if k == i + 3 {
          assert input[i..r.end][3..] == input[k..r.end];
        } else {
          assert input[i..r.end] == [IAC, input[i + 1]];
        }
      }
    } else {
      var acc' := acc + [input[i]];
      if ContainsAny(acc', stops) {
        assert input[i..r.end] == [input[i]];
      } else {
        ScanReplies(input, i + 1, acc', stops);
        assert input[i..r.end][1..] == input[i + 1..r.end];
      }
    }
  }

  /** A scan that does not fail has found a stop word in its text. */
  lemma {:induction false} ScanFindsStop(input: seq<byte>, i: nat, acc: Str, stops: seq<Str>)
    requires i <= |input|
    ensures !ScanFrom(input, i, acc, stops).failed ==> ContainsAny(ScanFrom(input, i, acc, stops).text, stops)
    decreases |input| - i
  {
    if i < |input| {
      if input[i] == IAC {
        if i + 1 < |input| {
          ScanFindsStop(input, AfterOption(input, i + 2), acc, stops);
        }
      } else if !ContainsAny(acc + [input[i]], stops) {
        ScanFindsStop(input, i + 1, acc + [input[i]], stops);
      }
    }
  }

  /** A successful scan stops at the first byte that completes a stop word:
      no shorter text it accumulated contained one. */
  lemma {:induction false} ScanStopsAtFirst(input: seq<byte>, i: nat, acc: Str, stops: seq<Str>)
    requires i <= |input|
    ensures var r := ScanFrom(input, i, acc, stops);
      !r.failed ==> forall k :: |acc| < k < |r.text| ==> !ContainsAny(r.text[..k], stops)
    decreases |input| - i
  {
    var r := ScanFrom(input, i, acc, stops);
    if i < |input| {
      if input[i] == IAC {
        if i + 1 < |input| {
          ScanStopsAtFirst(input, AfterOption(input, i + 2), acc, stops);
        }
      } else {
        var acc' := acc + [input[i]];
        if !ContainsAny(acc', stops) {
          ScanStopsAtFirst(input, i + 1, acc', stops);
          assert r.text[..|acc'|] == acc';
        }
      }
    }
  }

  /** A successful scan ends on the data byte that completes a stop word:
      that byte is the last one read, so nothing after it is consumed or
      answered, and the text is what came before it, negotiation removed,
      followed by that byte. */
  lemma {:induction false} ScanEndsOnStopByte(input: seq<byte>, i: nat, acc: Str, stops: seq<Str>)
    requires i <= |input|
    ensures var r := ScanFrom(input, i, acc, stops);
      !r.failed ==>
        && i < r.end && input[r.end - 1] != IAC
        && r.text == acc + Strip(input[i..r.end - 1]) + [input[r.end - 1]]
    decreases |input| - i
  {
    var r := ScanFrom(input, i, acc, stops);
    if i < |input| {
      if input[i] == IAC {
        if i + 1 < |input| {
          var k := AfterOption(input, i + 2);
          ScanEndsOnStopByte(input, k, acc, stops);
          if !r.failed && k == i + 3 {
            assert input[i..r.end - 1][3..] == input[k..r.end - 1];
          }
        }
      } else {
        var acc' := acc + [input[i]];
        if ContainsAny(acc', stops) {
          assert input[i..r.end - 1] == [];
        } else {
          ScanEndsOnStopByte(input, i + 1, acc', stops);
          if !r.failed {
            assert input[i..r.end - 1][1..] == input[i + 1..r.end - 1];
          }
        }
      }
    }
  }

  /** Reading `'#' IAC DO 1` until "#" stops after the '#': the negotiation
      behind it is neither consumed nor answered. */
  lemma StopBeforeNegotiationExample()
    ensures ScanFrom([35, IAC, DO, 1], 0, [], [[35]]) == Scan([35], false, 1, [])
  {
    assert ContainsAny([35], [[35]]) by {
      assert Contains([35], [35]);
    }
  }

  /** A scan that fails never held a stop word: no text it accumulated
      beyond `acc` contained one, so reading went on to the end of input. */
  lemma {:induction false} ScanFailsWithoutStop(input: seq<byte>, i: nat, acc: Str, stops: seq<Str>)
    requires i <= |input|
    ensures var r := ScanFrom(input, i, acc, stops);
      r.failed ==> forall k :: |acc| < k <= |r.text| ==> !ContainsAny(r.text[..k], stops)
    decreases |input| - i
  {
    var r := ScanFrom(input, i, acc, stops);
    if i < |input| {
      if input[i] == IAC {
        if i + 1 < |input| {
          var rest := ScanFrom(input, AfterOption(input, i + 2), acc, stops);
          ScanFailsWithoutStop(input, AfterOption(input, i + 2), acc, stops);
          assert r.text == rest.text && r.failed == rest.failed;
        }
      } else {
        var acc' := acc + [input[i]];
        if !ContainsAny(acc', stops) {
          assert r == ScanFrom(input, i + 1, acc', stops);
          ScanFailsWithoutStop(input, i + 1, acc', stops);
          if r.failed {
            forall k | |acc| < k <= |r.text|
              ensures !ContainsAny(r.text[..k], stops)
            {
              if k == |acc'| {
                assert r.text[..k] == acc';
              }
            }
          }
        }
      }
    }
  }

  /** Every reply is a three-byte refusal: IAC followed by WONT or DONT. */
  lemma {:induction false} RepliesRefuse(s: seq<byte>)
    ensures |Replies(s)| % 3 == 0
    ensures forall k :: 0 <= k < |Replies(s)| && k % 3 == 0 ==> Replies(s)[k] == IAC
    ensures forall k :: 0 <= k < |Replies(s)| && k % 3 == 1 ==> Replies(s)[k] == WONT || Replies(s)[k] == DONT
  {
    if s == [] {
    } else if s[0] == IAC {
      if |s| >= 3 {
        RepliesRefuse(s[3..]);
        var head, tail := Refusal(s[1], s[2]), Replies(s[3..]);
        assert Replies(s) == head + tail;
        assert |head| == 0 || |head| == 3;
        forall k | 0 <= k < |Replies(s)|
          ensures k % 3 == 0 ==> Replies(s)[k] == IAC
          ensures k % 3 == 1 ==> Replies(s)[k] == WONT || Replies(s)[k] == DONT
        {
          if k >= |head| {
            assert Replies(s)[k] == tail[k - |head|];
            assert (k - |head|) % 3 == k % 3;
          }
        }
      }
    } else {
      RepliesRefuse(s[1..]);
    }
  }

  /** `IAC DO o` at the head of the input is answered with exactly `IAC WONT o`,
      and the scan carries on after the option byte. */
  lemma ScanRefusesDo(input: seq<byte>, i: nat, acc: Str, stops: seq<Str>)
    requires i + 3 <= |input| && input[i] == IAC && input[i + 1] == DO
    ensures var r := ScanFrom(input, i + 3, acc, stops);
      ScanFrom(input, i, acc, stops) == r.(replies := [IAC, WONT, input[i + 2]] + r.replies)
  {
  }

  /** `IAC WILL o` at the head of the input is answered with exactly `IAC DONT o`. */
  lemma ScanRefusesWill(input: seq<byte>, i: nat, acc: Str, stops: seq<Str>)
    requires i + 3 <= |input| && input[i] == IAC && input[i + 1] == WILL
    ensures var r := ScanFrom(input, i + 3, acc, stops);
      ScanFrom(input, i, acc, stops) == r.(replies := [IAC, DONT, input[i + 2]] + r.replies)
  {
  }

  /** Any other command byte after IAC consumes one option byte and writes nothing. */
  lemma ScanIgnoresOtherCommands(input: seq<byte>, i: nat, acc: Str, stops: seq<Str>)
    requires i + 3 <= |input| && input[i] == IAC && input[i + 1] != DO && input[i + 1] != WILL
    ensures ScanFrom(input, i, acc, stops) == ScanFrom(input, i + 3, acc, stops)
  {
  }

  /** A server's `IAC DO 10` is answered with `IAC WONT 10` and nothing else;
      the read then fails as the input has run out. */
  lemma RefuseDoExample(stops: seq<Str>)
    ensures var st := ReadUntilStep(Stream([IAC, DO, 10], 0, true, []), stops);
      st.after.written == [IAC, WONT, 10] && st.failed && st.text == []
  {
    ScanRefusesDo([IAC, DO, 10], 0, [], stops);
  }

  /** The connection as a value: the whole input, the read position, whether
      writes succeed, and the log of bytes written. */
  datatype Stream = Stream(input: seq<byte>, pos: nat, writable: bool, written: seq<byte>)
  {
    ghost predicate Valid()
    {
      pos <= |input|
    }
  }

  /** The stream after a write of `data`; a failing write logs nothing. */
  function Sent(s: Stream, data: seq<byte>): Stream
  {
    if s.writable then s.(written := s.written + data) else s
  }

  /** The outcome of one exchange on the connection: the stream afterwards,
      the text returned and whether an error was returned. */
  datatype Step = Step(after: Stream, text: Str, failed: bool)

  /** readUntil(conn, stops): the scan from the current position, its replies
      written to the connection. */
  function ReadUntilStep(s: Stream, stops: seq<Str>): (st: Step)
    requires s.Valid()
    ensures st.after.Valid() && st.after.input == s.input && st.after.writable == s.writable
    ensures s.pos <= st.after.pos && s.written <= st.after.written
  {
    var r := ScanFrom(s.input, s.pos, [], stops);
    Step(Sent(s.(pos := r.end), r.replies), r.text, r.failed)
  }

  /** sendCommand(conn, cmd, prompt): write `cmd` and a newline; with an empty
      prompt return "" without reading, otherwise read until the prompt. */
  function SendCommandStep(s: Stream, cmd: Str, prompt: Str): (st: Step)
    requires s.Valid()
    ensures st.after.Valid() && st.after.input == s.input && st.after.writable == s.writable
    ensures s.pos <= st.after.pos && s.written <= st.after.written
  {
    if !s.writable then
      Step(s, [], true)
    else
      var s' := Sent(s, cmd + [LF]);
      if prompt == [] then Step(s', [], false)
      else ReadUntilStep(s', [prompt])
  }

  /** A command is written first, exactly as `cmd` followed by a newline. */
  lemma SendCommandWritesFirst(s: Stream, cmd: Str, prompt: Str)
    requires s.Valid() && s.writable
    ensures var st := SendCommandStep(s, cmd, prompt);
      |s.written| + |cmd| + 1 <= |st.after.written| &&
      st.after.written[..|s.written| + |cmd| + 1] == s.written + cmd + [LF]
  {
    var st := SendCommandStep(s, cmd, prompt);
    assert st.after.written[..|s.written| + |cmd| + 1] == (s.written + cmd + [LF] + st.after.written[|s.written| + |cmd| + 1..])[..|s.written| + |cmd| + 1];
  }

  /** With an empty prompt nothing is read and "" is returned without error. */
  lemma SendCommandEmptyPrompt(s: Stream, cmd: Str)
    requires s.Valid() && s.writable
    ensures var st := SendCommandStep(s, cmd, []);
      st.text == [] && !st.failed && st.after.pos == s.pos
  {
  }

  /** `r` with `replies` written before its own replies. */
  function WithReplies(replies: seq<byte>, r: Scan): Scan
  {
    r.(replies := replies + r.replies)
  }

  /** One step of the scan over `IAC cmd option`. */
  lemma UnfoldNegotiation(input: seq<byte>, i: nat, acc: Str, stops: seq<Str>)
    requires i + 1 < |input| && input[i] == IAC
    ensures forall replies: seq<byte> {:trigger WithReplies(replies, ScanFrom(input, i, acc, stops))} ::
      WithReplies(replies, ScanFrom(input, i, acc, stops))
      == WithReplies(replies + OptionReply(input, input[i + 1], i + 2), ScanFrom(input, AfterOption(input, i + 2), acc, stops))
  {
  }

  /** One step of the scan over a data byte. */
  lemma UnfoldData(input: seq<byte>, i: nat, acc: Str, stops: seq<Str>)
    requires i < |input| && input[i] != IAC
    ensures ScanFrom(input, i, acc, stops)
      == if ContainsAny(acc + [input[i]], stops) then Scan(acc + [input[i]], false, i + 1, [])
         else ScanFrom(input, i + 1, acc + [input[i]], stops)
  {
  }

  /** The connection: a fixed input array read through a position, and the
      log of what was written. */
  class Conn {
    const input: array<byte>
    const writable: bool
    var pos: nat
    var written: seq<byte>

    ghost predicate Valid()
      reads this
    {
      pos <= input.Length
    }

    /** The connection's state as a Stream value. */
    ghost function State(): (s: Stream)
      reads this, input
      requires Valid()
      ensures s.Valid()
    {
      Stream(input[..], pos, writable, written)
    }

    constructor (data: seq<byte>, writable: bool)
      ensures Valid() && fresh(input)
      ensures State() == Stream(data, 0, writable, [])
    {
      input := new byte[|data|](i requires 0 <= i < |data| => data[i]);
      this.writable := writable;
      pos := 0;
      written := [];
    }

    /** bufio.Reader.ReadByte: the next byte, or an error at end of input. */
    method ReadByte() returns (b: byte, err: bool)
      requires Valid()
      modifies this
      ensures Valid() && written == old(written)
      ensures err <==> old(pos) == input.Length
      ensures err ==> pos == old(pos)
      ensures !err ==> b == input[old(pos)] && pos == old(pos) + 1
    {
      if pos == input.Length {
        return 0, true;
      }
      b, err := input[pos], false;
      pos := pos + 1;
    }

    /** conn.Write: appends `data` to the log, or fails and logs nothing. */
    method Write(data: seq<byte>) returns (err: bool)
      requires Valid()
      modifies this
      ensures Valid() && err == !writable
      ensures State() == Sent(old(State()), data)
    {
      if !writable {
        return true;
      }
      written := written + data;
      err := false;
    }

    /** handleTelnetNegotiation(conn, cmd, reader): reads the option byte and
        refuses it (telnet.go:22-39). */
    method HandleNegotiation(cmd: byte) returns (err: bool)
      requires Valid()
      modifies this
      ensures Valid()
      ensures old(pos) == input.Length ==> err && State() == old(State())
      ensures old(pos) < input.Length ==>
        var reply := Refusal(cmd, input[old(pos)]);
        && State() == Sent(old(State()).(pos := old(pos) + 1), reply)
        && err == (reply != [] && !writable)
    {
      var option;
      option, err := ReadByte();
      if err {
        return;
      }
      var response;
      if cmd == DO {
        response := [IAC, WONT, option];
      } else if cmd == WILL {
        response := [IAC, DONT, option];
      } else {
        return false;
      }
      err := Write(response);
    }

    /** readUntil(conn, stopWords, timeout) (telnet.go:42-70). */
    method ReadUntil(stops: seq<Str>) returns (text: Str, err: bool)
      requires Valid()
      modifies this
      ensures Valid()
      ensures var st := ReadUntilStep(old(State()), stops);
        State() == st.after && text == st.text && err == st.failed
    {
      ghost var data := input[..];
      ghost var start := pos;
      ghost var replies: seq<byte> := [];
      var output: Str := [];
      while true
        invariant Valid() && start <= pos && input[..] == data
        invariant ScanFrom(data, start, [], stops) == WithReplies(replies, ScanFrom(data, pos, output, stops))
        invariant written == old(written) + (if writable then replies else [])
        decreases input.Length - pos
      {
        ghost var i := pos;
        var b;
        b, err := ReadByte();
        if err {
          return output, err;
        }
        if b == IAC {
          var cmd;
          cmd, err := ReadByte();
          if err {
            return output, err;
          }
          var _ := HandleNegotiation(cmd);
          UnfoldNegotiation(data, i, output, stops);
          replies := replies + OptionReply(data, cmd, i + 2);
          continue;
        }
        UnfoldData(data, i, output, stops);
        output := output + [b];
        if ContainsAny(output, stops) {
          return output, false;
        }
      }
    }

    /** sendCommand(conn, cmd, prompt) (telnet.go:73-87). The half-second
        settle interval is not modelled. */
    method SendCommand(cmd: Str, prompt: Str) returns (text: Str, err: bool)
      requires Valid()
      modifies this
      ensures Valid()
      ensures var st := SendCommandStep(old(State()), cmd, prompt);
        State() == st.after && text == st.text && err == st.failed
    {
      err := Write(cmd + [LF]);
      if err {
        return [], err;
      }
      if prompt == [] {
        return [], false;
      }
      text, err := ReadUntil([prompt]);
    }
  }
}
