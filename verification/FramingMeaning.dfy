/** What survives the wire: frames towards the client, requests towards the
    daemon (src/backend/um_session.c). */
module FramingMeaning {
  import opened Wrappers
  import opened Framing

  const PAYLOAD_LIMIT: nat := 1024 * 1024
  const TIMEOUT_LIMIT: int := 86400 * 365 * 1000

  // ----- sending -----

  /** A socket that takes some part of what it is offered. */
  class Wire {
    var sent: string

    constructor ()
      ensures sent == ""
    {
      sent := "";
    }

    method Send(data: string) returns (n: nat)
      requires data != ""
      modifies this
      ensures 0 < n <= |data| && sent == old(sent) + data[..n]
    {
      n :| 0 < n <= |data|;
      sent := sent + data[..n];
    }

    method SendBytes(data: string)
      modifies this
      ensures sent == old(sent) + data
    {
      var cursor := 0;
      while cursor < |data|
        invariant cursor <= |data| && sent == old(sent) + data[..cursor]
      {
        var n := Send(data[cursor..]);
        assert data[..cursor] + data[cursor..][..n] == data[..cursor + n];
        cursor := cursor + n;
      }
      assert data[..|data|] == data;
    }

    /** um_session_send_frame */
    method SendFrame(kind: string, data: string)
      modifies this
      ensures sent == old(sent) + (kind + " " + Decimal(|data|) + "\n" + data)
    {
      ghost var was := sent;
      var header := kind + " " + Decimal(|data|) + "\n";
      SendBytes(header);
      if |data| == 0 {
        assert header + data == header;
        return;
      }
      SendBytes(data);
      assert (was + header) + data == was + (header + data);
    }
  }

  // ----- frames towards the client -----

  datatype Frame = Data(toOut: bool, payload: string) | Note(line: string)

  function EncodeFrame(f: Frame): string {
    match f
    case Data(toOut, payload) => (if toOut then "OUT" else "ERR") + " " + Decimal(|payload|) + "\n" + payload
    case Note(line) => line + "\n"
  }

  function EncodeFrames(frames: seq<Frame>): string {
    if |frames| == 0 then "" else EncodeFrame(frames[0]) + EncodeFrames(frames[1..])
  }

  /** Frames a daemon may send: data, and lines this client does not know. */
  predicate ValidFrame(f: Frame) {
    match f
    case Data(_, payload) => |payload| <= LONG_MAX
    case Note(line) =>
      && '\n' !in line && |line| < LINE_SIZE && !IsData(line) && !StartsWith(line, "EXIT ")
      && !StartsWith(line, "BAD") && !StartsWith(line, "BUSY")
  }

  /** The payloads of one stream, in order. */
  function Payloads(frames: seq<Frame>, toOut: bool): string {
    if |frames| == 0 then ""
    else (if frames[0].Data? && frames[0].toOut == toOut then frames[0].payload else "") + Payloads(frames[1..], toOut)
  }

  function Power10(n: nat): nat {
    if n == 0 then 1 else 10 * Power10(n - 1)
  }

  lemma {:induction false} DecimalLength(n: nat, k: nat)
    requires k > 0 && n < Power10(k)
    ensures |Decimal(n)| <= k
  {
    assert Power10(1) == 10 * Power10(0) == 10;
    if n >= 10 {
      DecimalLength(n / 10, k - 1);
    }
  }

  lemma LongIsShort(n: nat)
    requires n <= LONG_MAX
    ensures |Decimal(n)| <= 19
  {
    assert Power10(3) == 1000;
    assert Power10(6) == 1000000;
    assert Power10(9) == 1000000000;
    assert Power10(12) == 1000000000000;
    assert Power10(15) == 1000000000000000;
    assert Power10(18) == 1000000000000000000;
    DecimalLength(n, 19);
  }

  lemma DigitsAreNoNewlines(n: nat)
    ensures '\n' !in Decimal(n)
  {}

  /** A header line in front of anything else. */
  lemma HeaderLine(line: string, rest: string)
    requires '\n' !in line && |line| < LINE_SIZE
    ensures Receive(line + "\n" + rest) == Handle(line, rest)
  {
    FindFirst(line, rest);
    var s := line + "\n" + rest;
    assert s[..|line|] == line && s[|line| + 1..] == rest;
  }

  lemma DataHeader(toOut: bool, n: nat)
    requires n <= LONG_MAX
    ensures var line := (if toOut then "OUT" else "ERR") + " " + Decimal(n);
            '\n' !in line && |line| < LINE_SIZE && IsData(line) && Count(line) == n && (line[0] == 'O' <==> toOut)
  {
    LongIsShort(n);
    DigitsAreNoNewlines(n);
    StrtolDecimal(n, "");
    var line := (if toOut then "OUT" else "ERR") + " " + Decimal(n);
    assert Decimal(n) + "" == Decimal(n) && line[4..] == Decimal(n);
    assert line[..4] == if toOut then "OUT " else "ERR ";
  }

  lemma ExitLine(status: nat, trailing: string)
    requires status <= 255
    ensures Receive("EXIT " + Decimal(status) + "\n" + trailing) == Delivery("", "", status)
  {
    var line := "EXIT " + Decimal(status);
    LongIsShort(status);
    DigitsAreNoNewlines(status);
    StrtolDecimal(status, "");
    assert Decimal(status) + "" == Decimal(status);
    ExitHandled(line, Decimal(status), trailing);
    HeaderLine(line, trailing);
  }

  lemma ExitHandled(line: string, number: string, rest: string)
    requires line == "EXIT " + number
    ensures StartsWith(line, "EXIT ") && line[5..] == number && Handle(line, rest) == Delivery("", "", Status(line))
  {
    assert line[0] == 'E' && line[1] == 'X';
    assert !StartsWith(line, "OUT ") && !StartsWith(line, "ERR ");
  }

  lemma FrameReceived(f: Frame, rest: string)
    requires ValidFrame(f)
    ensures Receive(EncodeFrame(f) + rest) == if f.Data? then Prepend(f.toOut, f.payload, Receive(rest)) else Receive(rest)
  {
    match f
    case Data(toOut, payload) =>
      var line := (if toOut then "OUT" else "ERR") + " " + Decimal(|payload|);
      DataHeader(toOut, |payload|);
      assert EncodeFrame(f) + rest == line + "\n" + (payload + rest);
      HeaderLine(line, payload + rest);
      assert (payload + rest)[..|payload|] == payload && (payload + rest)[|payload|..] == rest;
    case Note(line) =>
      assert EncodeFrame(f) + rest == line + "\n" + rest;
      HeaderLine(line, rest);
  }

  /** Whatever a daemon sends, ending in EXIT, comes out whole and in order. */
  lemma {:induction false} FramesDelivered(frames: seq<Frame>, status: nat, trailing: string)
    requires (forall i :: 0 <= i < |frames| ==> ValidFrame(frames[i])) && status <= 255
    ensures Receive(EncodeFrames(frames) + ("EXIT " + Decimal(status) + "\n" + trailing)) ==
            Delivery(Payloads(frames, true), Payloads(frames, false), status)
    decreases |frames|
  {
    var last := "EXIT " + Decimal(status) + "\n" + trailing;
    if |frames| == 0 {
      assert "" + last == last;
      ExitLine(status, trailing);
    } else {
      FramesDelivered(frames[1..], status, trailing);
      var rest := EncodeFrames(frames[1..]) + last;
      assert EncodeFrames(frames) + last == EncodeFrame(frames[0]) + rest;
      FrameReceived(frames[0], rest);
    }
  }

  // ----- requests towards the daemon -----

  /** strtoul: a sign is taken, and negates modulo 2^64. */
  function Strtoul(s: string): (p: Parsed)
    ensures p.end <= |s| && p.value >= 0
  {
    var start := Spaces(s);
    var sign := if start < |s| && (s[start] == '-' || s[start] == '+') then 1 else 0;
    var run := DigitRun(s[start + sign..]);
    if run == 0 then Parsed(0, 0, true)
    else
      var n: int := Number(s[start + sign..][..run]);
      var end := start + sign + run;
      if n > ULONG_MAX then Parsed(ULONG_MAX, end, false)
      else if sign == 1 && s[start] == '-' then Parsed((ULONG_MAX + 1 - n) % (ULONG_MAX + 1), end, true)
      else Parsed(n, end, true)
  }

  const ULONG_MAX: int := 0xffff_ffff_ffff_ffff

  /** um_daemon_parse_exec */
  function ParseExec(line: string): Option<(nat, int)> {
    if StartsWith(line, "EXEC ") then ParseLength(line[5..]) else None
  }

  function ParseLength(s: string): Option<(nat, int)> {
    var length := Strtoul(s);
    if !length.inRange || length.end == 0 || length.end == |s| || s[length.end] != ' ' || length.value == 0 || length.value > PAYLOAD_LIMIT then None
    else ParseTimeout(length.value, s[length.end + 1..])
  }

  function ParseTimeout(length: nat, s: string): Option<(nat, int)> {
    var timeout := Strtol(s);
    if !timeout.inRange || timeout.end != |s| || timeout.value < 0 || timeout.value > TIMEOUT_LIMIT then None
    else Some((length, timeout.value))
  }

  datatype Request = Exec(payload: string, timeout: int) | Stop | AskStatus | Unknown | Truncated | Dropped

  /** What a connection asks for, from all the bytes it carries. */
  function RequestOf(stream: string): Request {
    var k := Find(stream);
    if k == |stream| || k >= LINE_SIZE then Dropped else RequestFrom(stream[..k], stream[k + 1..])
  }

  function RequestFrom(line: string, rest: string): Request {
    if line == "STOP" then Stop
    else if line == "STATUS" then AskStatus
    else
      match ParseExec(line)
      case None => Unknown
      case Some((length, timeout)) => if |rest| >= length then Exec(rest[..length], timeout) else Truncated
  }

  lemma FindsLine(line: string, stream: string)
    requires '\n' !in line && |line| < LINE_SIZE
    ensures line + "\n" <= stream <==> Find(stream) == |line| < |stream| && stream[..|line|] == line
  {
    var head := line + "\n";
    assert head[|line|] == '\n' && forall i :: 0 <= i < |line| ==> head[i] == line[i];
    if head <= stream {
      assert stream[|line|] == head[|line|];
      assert forall i :: 0 <= i < |line| ==> stream[i] == head[i];
    }
    if |stream| > |line| {
      assert stream[..|line| + 1] == stream[..|line|] + [stream[|line|]];
    }
  }

  /** A connection asks for the daemon to stop exactly when its first line is just
      that, and for its state when it is "STATUS". */
  lemma WordsAreAskedFor(stream: string)
    ensures RequestOf(stream) == Stop <==> "STOP" + "\n" <= stream
    ensures RequestOf(stream) == AskStatus <==> "STATUS" + "\n" <= stream
  {
    FindsLine("STOP", stream);
    FindsLine("STATUS", stream);
  }

  /** A refusal ends a client with 125, whatever comes behind it. */
  lemma RefusalLine(text: string, trailing: string)
    requires '\n' !in text && |text| < 100
    ensures Receive("BAD" + text + "\n" + trailing) == Delivery("", "", 125)
    ensures Receive("BUSY" + text + "\n" + trailing) == Delivery("", "", 125)
  {
    var bad, busy := "BAD" + text, "BUSY" + text;
    assert bad[0] == 'B' && busy[0] == 'B' && "BAD" <= bad && "BUSY" <= busy;
    HeaderLine(bad, trailing);
    HeaderLine(busy, trailing);
    assert Handle(bad, trailing) == Delivery("", "", 125) && Handle(busy, trailing) == Delivery("", "", 125);
  }

  /** So do a header that is too long, and a stream that ends before one does. */
  lemma BrokenHeader(line: string, trailing: string)
    requires '\n' !in line
    ensures Receive(line) == Delivery("", "", 125)
    ensures |line| >= 256 ==> Receive(line + "\n" + trailing) == Delivery("", "", 125)
  {
    FindFirst(line, trailing);
  }

  /** A payload that is cut short is delivered in whole chunks, and ends the client
      with 125 too. */
  lemma CutPayload(line: string, n: nat, toOut: bool, part: string)
    requires line == (if toOut then "OUT " else "ERR ") + Decimal(n) && |part| < n <= LONG_MAX
    ensures Receive(line + "\n" + part) == Prepend(toOut, part[..|part| / 4096 * 4096], Delivery("", "", 125))
  {
    HeaderFacts(line, toOut, n);
    CutData(line, toOut, part);
  }

  lemma HeaderFacts(line: string, toOut: bool, n: nat)
    requires line == (if toOut then "OUT " else "ERR ") + Decimal(n) && n <= LONG_MAX
    ensures IsData(line) && (line[0] == 'O' <==> toOut) && '\n' !in line && |line| < LINE_SIZE && Count(line) == n
  {
    LongIsShort(n);
    DigitsAreNoNewlines(n);
    StrtolDecimal(n, "");
    assert Decimal(n) + "" == Decimal(n);
    DataLine(line, toOut, Decimal(n));
  }

  lemma CutData(line: string, toOut: bool, part: string)
    requires IsData(line) && (line[0] == 'O' <==> toOut) && '\n' !in line && |line| < LINE_SIZE && |part| < Count(line)
    ensures Receive(line + "\n" + part) == Prepend(toOut, part[..|part| / 4096 * 4096], Delivery("", "", 125))
  {
    HeaderLine(line, part);
    CutHandled(line, part);
  }

  lemma DataLine(line: string, toOut: bool, number: string)
    requires line == (if toOut then "OUT " else "ERR ") + number
    ensures IsData(line) && (line[0] == 'O' <==> toOut) && |line| == 4 + |number| && line[4..] == number
    ensures '\n' !in number ==> '\n' !in line
  {
    assert line[0] == (if toOut then 'O' else 'E');
  }

  lemma CutHandled(line: string, part: string)
    requires IsData(line) && |part| < Count(line)
    ensures Handle(line, part) == Prepend(line[0] == 'O', part[..|part| / 4096 * 4096], Delivery("", "", 125))
  {
    assert |part| - |part| % 4096 == |part| / 4096 * 4096;
  }

  /** And no request comes of such a header. */
  lemma BrokenRequest(line: string, trailing: string)
    requires '\n' !in line
    ensures RequestOf(line) == Dropped
    ensures RequestOf(line + "\n" + trailing) == Dropped <==> |line| >= 256
  {
    FindFirst(line, trailing);
    var s := line + "\n" + trailing;
    assert s[..|line|] == line && s[|line| + 1..] == trailing;
  }

  /** A timeout is sent as whole milliseconds, rounded down; one that is not
      positive, or longer than a year, as none. */
  lemma MillisMeans(timeout: real)
    ensures 0.0 < timeout <= 31536000.0 ==> Millis(timeout) as real <= timeout * 1000.0 < Millis(timeout) as real + 1.0
    ensures !(0.0 < timeout <= 31536000.0) ==> Millis(timeout) == 0
  {}

  /** So does a status that is none. */
  lemma LargeExitLine(status: nat, trailing: string)
    requires 255 < status <= 0x7fff_ffff_ffff_ffff
    ensures Receive("EXIT " + Decimal(status) + "\n" + trailing) == Delivery("", "", 125)
  {
    var line := "EXIT " + Decimal(status);
    DigitsAreNoNewlines(status);
    StrtolDecimal(status, "");
    LongIsShort(status);
    assert Decimal(status) + "" == Decimal(status);
    ExitHandled(line, Decimal(status), trailing);
    HeaderLine(line, trailing);
  }

  /** um_daemon_accept_line, waiting a bounded number of times. */
  method AcceptLine(reader: LineReader, waits: nat) returns (r: Reading)
    requires |reader.buffer| <= READER_SIZE
    modifies reader, reader.socket
    ensures var pending := old(reader.Pending());
            match r
            case Line(text) => Find(pending) == |text| < |pending| && |text| < LINE_SIZE && text == pending[..|text|] && reader.Pending() == pending[|text| + 1..]
            case NotYet => true
            case Failure => Find(pending) == |pending| || Find(pending) >= LINE_SIZE
  {
    var left := waits;
    while true
      invariant |reader.buffer| <= READER_SIZE && reader.Pending() == old(reader.Pending())
      decreases left
    {
      r := reader.ReadLine(LINE_SIZE);
      if r != NotYet || left == 0 {
        return;
      }
      left := left - 1;
    }
  }

  /** um_daemon_accept_payload: the buffered bytes first, then the socket, with a
      poll before each read that may see nothing in time. */
  method AcceptPayload(reader: LineReader, length: nat) returns (r: Option<string>, late: bool)
    modifies reader, reader.socket
    ensures var pending := old(reader.Pending());
            && (r.Some? ==> |pending| >= length && r.value == pending[..length] && reader.Pending() == pending[length..])
            && (r.None? && !late ==> |pending| < length)
    ensures late ==> r.None? && |old(reader.buffer)| < length
  {
    ghost var pending := reader.Pending();
    var data := "";
    late := false;
    assert data + pending == pending;
    while |data| < length
      invariant |data| <= length && data + reader.Pending() == pending
      invariant |data| + |reader.buffer| >= |old(reader.buffer)|
      decreases length - |data|
    {
      var got: string;
      got, late := NextPiece(reader, length - |data|);
      if late || got == "" {
        return None, late;
      }
      assert data + (got + reader.Pending()) == (data + got) + reader.Pending();
      data := data + got;
    }
    assert pending[..length] == data && pending[length..] == reader.Pending();
    return Some(data), false;
  }

  /** Some of what is pending, at most max bytes; none when the peer has closed,
      or, if nothing is buffered, when the poll times out. */
  method NextPiece(reader: LineReader, max: nat) returns (got: string, late: bool)
    requires max > 0
    modifies reader, reader.socket
    ensures got + reader.Pending() == old(reader.Pending()) && |got| <= max
    ensures got == "" && !late ==> old(reader.Pending()) == ""
    ensures late ==> got == "" && old(reader.buffer) == ""
    ensures |got| + |reader.buffer| >= |old(reader.buffer)|
  {
    late := false;
    if reader.buffer != "" {
      var take := if |reader.buffer| < max then |reader.buffer| else max;
      got := reader.buffer[..take];
      Regroup("", reader.buffer, take, reader.socket.incoming);
      assert got + (reader.buffer[take..] + reader.socket.incoming) == reader.Pending();
      reader.buffer := reader.buffer[take..];
      return;
    }
    late := *;
    if late {
      got := "";
      assert got + reader.Pending() == reader.Pending();
      return;
    }
    ghost var was := reader.socket.incoming;
    got := reader.socket.Read(max);
    assert got + ("" + reader.socket.incoming) == "" + was;
  }

  /** The reading half of um_daemon_handle: unless the header or the payload is
      too long in coming, the answer is what the whole stream asks for, byte for
      byte; and no command is taken that the stream does not ask for. */
  method AcceptRequest(reader: LineReader, waits: nat) returns (request: Request, late: bool)
    requires reader.buffer == ""
    modifies reader, reader.socket
    ensures !late || request.Exec? ==> request == RequestOf(old(reader.socket.incoming))
    ensures late ==> request == Dropped || request == Truncated
  {
    assert "" + reader.socket.incoming == reader.socket.incoming;
    var r := AcceptLine(reader, waits);
    if !r.Line? {
      return Dropped, r.NotYet?;
    }
    request, late := Answer(reader, r.text, reader.Pending());
  }

  /** Only the payload of an accepted EXEC header can be late. */
  method Answer(reader: LineReader, line: string, ghost rest: string) returns (request: Request, late: bool)
    requires reader.Pending() == rest
    modifies reader, reader.socket
    ensures !late ==> request == RequestFrom(line, rest)
    ensures late ==> request == Truncated && line != "STOP" && line != "STATUS" && ParseExec(line).Some?
    ensures late ==> |old(reader.buffer)| < ParseExec(line).value.0
  {
    late := false;
    if line == "STOP" {
      return Stop, late;
    }
    if line == "STATUS" {
      return AskStatus, late;
    }
    var header := ParseExec(line);
    if header.None? {
      return Unknown, late;
    }
    var payload: Option<string>;
    payload, late := AcceptPayload(reader, header.value.0);
    if payload.None? {
      return Truncated, late;
    }
    request := Exec(payload.value, header.value.1);
  }

  // ----- what a client sends -----

  function Records(args: seq<string>): string {
    if |args| == 0 then "" else Decimal(|args[0]|) + "\n" + args[0] + "\n" + Records(args[1..])
  }

  function RequestPayload(cwd: string, args: seq<string>): string {
    cwd + "\n" + Records(args)
  }

  /** Seconds to milliseconds; what is out of range means no timeout. */
  function Millis(timeout: real): (ms: int)
    ensures 0 <= ms <= TIMEOUT_LIMIT
  {
    if timeout <= 0.0 || timeout > 31536000.0 then 0 else (timeout * 1000.0).Floor
  }

  /** um_client_send_request */
  method SendRequest(wire: Wire, cwd: string, args: seq<string>, timeout: real)
    modifies wire
    ensures wire.sent == old(wire.sent) + EncodeRequest(cwd, args, timeout)
  {
    var payload := cwd + "\n";
    for i := 0 to |args|
      invariant payload + Records(args[i..]) == RequestPayload(cwd, args)
    {
      ghost var was := payload;
      assert args[i..][0] == args[i] && args[i..][1..] == args[i + 1..];
      payload := payload + (Decimal(|args[i]|) + "\n" + args[i] + "\n");
      assert was + (Decimal(|args[i]|) + "\n" + args[i] + "\n" + Records(args[i + 1..])) == payload + Records(args[i + 1..]);
    }
    assert payload + "" == payload;
    var header := ExecLine(|payload|, Millis(timeout)) + "\n";
    ghost var was := wire.sent;
    wire.SendBytes(header);
    wire.SendBytes(payload);
    assert (was + header) + payload == was + (header + payload);
  }

  function EncodeRequest(cwd: string, args: seq<string>, timeout: real): string {
    var payload := RequestPayload(cwd, args);
    ExecLine(|payload|, Millis(timeout)) + "\n" + payload
  }

  lemma StrtoulDecimal(n: nat, rest: string)
    requires n <= LONG_MAX && (rest == "" || !IsDigit(rest[0]))
    ensures Strtoul(Decimal(n) + rest) == Parsed(n, |Decimal(n)|, true)
  {
    StrtolDecimal(n, rest);
    var s := Decimal(n) + rest;
    assert IsDigit(s[0]) by { assert s[0] == Decimal(n)[0]; }
    assert s[0..] == s;
    RunOfDigits(Decimal(n), rest);
  }

  lemma LengthField(length: nat, b: string)
    requires 0 < length <= LONG_MAX
    ensures ParseLength(Decimal(length) + (" " + b)) == if length <= PAYLOAD_LIMIT then ParseTimeout(length, b) else None
  {
    var a := Decimal(length);
    StrtoulDecimal(length, " " + b);
    CutAfter(a + (" " + b), a, b);
  }

  lemma CutAfter(s: string, a: string, b: string)
    requires s == a + (" " + b)
    ensures |a| < |s| && s[|a|] == ' ' && s[|a| + 1..] == b
  {}

  lemma TimeoutField(length: nat, timeout: nat)
    requires timeout <= TIMEOUT_LIMIT
    ensures ParseTimeout(length, Decimal(timeout)) == Some((length, timeout))
  {
    StrtolDecimal(timeout, "");
    assert Decimal(timeout) + "" == Decimal(timeout);
  }

  lemma KeywordField(s: string)
    ensures ParseExec("EXEC " + s) == ParseLength(s)
  {
    assert ("EXEC " + s)[5..] == s;
  }

  function ExecLine(length: nat, timeout: nat): string {
    "EXEC " + (Decimal(length) + (" " + Decimal(timeout)))
  }

  lemma ExecLineFits(length: nat, timeout: nat)
    requires length <= LONG_MAX && timeout <= TIMEOUT_LIMIT
    ensures var line := ExecLine(length, timeout); '\n' !in line && 4 < |line| < LINE_SIZE && line[4] == ' '
  {
    LongIsShort(length);
    LongIsShort(timeout);
    DigitsAreNoNewlines(length);
    DigitsAreNoNewlines(timeout);
  }

  /** The header is read back as it was written, if the length is one the daemon
      takes; every timeout a client computes is. */
  lemma ExecHeader(length: nat, timeout: nat)
    requires 0 < length <= LONG_MAX && timeout <= TIMEOUT_LIMIT
    ensures ParseExec(ExecLine(length, timeout)) == if length <= PAYLOAD_LIMIT then Some((length, timeout)) else None
  {
    KeywordField(Decimal(length) + (" " + Decimal(timeout)));
    LengthField(length, Decimal(timeout));
    TimeoutField(length, timeout);
  }

  /** A request arrives as it was sent, whatever follows it, exactly when its
      payload is within the daemon's limit. */
  lemma RequestArrives(cwd: string, args: seq<string>, timeout: real, trailing: string)
    requires |RequestPayload(cwd, args)| <= LONG_MAX
    ensures RequestOf(EncodeRequest(cwd, args, timeout) + trailing) ==
            if |RequestPayload(cwd, args)| <= PAYLOAD_LIMIT then Exec(RequestPayload(cwd, args), Millis(timeout)) else Unknown
  {
    var payload := RequestPayload(cwd, args);
    var line := ExecLine(|payload|, Millis(timeout));
    ExecHeader(|payload|, Millis(timeout));
    ExecLineFits(|payload|, Millis(timeout));
    assert EncodeRequest(cwd, args, timeout) + trailing == line + "\n" + (payload + trailing);
    ExecArrives(line, payload, trailing);
  }

  lemma ExecArrives(line: string, payload: string, trailing: string)
    requires '\n' !in line && |line| < LINE_SIZE && |line| > 4 && line[4] == ' '
    ensures RequestOf(line + "\n" + (payload + trailing)) ==
            match ParseExec(line)
            case None => Unknown
            case Some((length, timeout)) => if |payload + trailing| >= length then Exec((payload + trailing)[..length], timeout) else Truncated
    ensures (payload + trailing)[..|payload|] == payload
  {
    var rest := payload + trailing;
    FindFirst(line, rest);
    var s := line + "\n" + rest;
    assert s[..|line|] == line && s[|line| + 1..] == rest;
  }
}
