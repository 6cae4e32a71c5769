/** The wire between the session daemon and its clients
    (src/backend/um_session.c): frames of a header line and a payload, over a
    stream socket whose reads cut the bytes anywhere. */
module Framing {
  import opened Wrappers

  const LINE_SIZE: nat := 256        // char line[256]
  const CLIENT_BUFFER: nat := 1024   // char buffer[1024]
  const PAYLOAD_CHUNK: nat := 4096   // char payload[4096]
  const READER_SIZE: nat := 4096     // UM_LINE_READER_SIZE
  const LONG_MAX: int := 0x7fff_ffff_ffff_ffff

  // ----- numbers in decimal -----

  predicate IsDigit(c: char) {
    '0' <= c <= '9'
  }

  function DigitValue(c: char): nat
    requires IsDigit(c)
  {
    c as int - '0' as int
  }

  function Digit(n: nat): (c: char)
    requires n < 10
    ensures IsDigit(c) && DigitValue(c) == n
  {
    ('0' as int + n) as char
  }

  /** What %zu, %ld and %d print for a number that is not negative. */
  function Decimal(n: nat): (s: string)
    ensures |s| > 0 && forall i :: 0 <= i < |s| ==> IsDigit(s[i])
  {
    if n < 10 then [Digit(n)] else Decimal(n / 10) + [Digit(n % 10)]
  }

  function Number(digits: string): nat
    requires forall i :: 0 <= i < |digits| ==> IsDigit(digits[i])
  {
    if |digits| == 0 then 0
    else Number(digits[..|digits| - 1]) * 10 + DigitValue(digits[|digits| - 1])
  }

  lemma {:induction false} NumberDecimal(n: nat)
    ensures Number(Decimal(n)) == n
  {
    var s := Decimal(n);
    if n < 10 {
      assert s[..0] == [];
    } else {
      NumberDecimal(n / 10);
      assert s[..|s| - 1] == Decimal(n / 10);
    }
  }

  function DigitRun(s: string): (n: nat)
    ensures n <= |s| && (forall i :: 0 <= i < n ==> IsDigit(s[i])) && (n < |s| ==> !IsDigit(s[n]))
  {
    if s == "" || !IsDigit(s[0]) then 0 else 1 + DigitRun(s[1..])
  }

  predicate IsSpace(c: char) {
    c == ' ' || '\t' <= c <= '\r'
  }

  function Spaces(s: string): (n: nat)
    ensures n <= |s|
  {
    if s == "" || !IsSpace(s[0]) then 0 else 1 + Spaces(s[1..])
  }

  /** What strtol makes of a string: the value, where it stopped, and whether
      the value was cut off at the range of a long. */
  datatype Parsed = Parsed(value: int, end: nat, inRange: bool)

  function Strtol(s: string): (p: Parsed)
    ensures p.end <= |s|
  {
    var start := Spaces(s);
    var sign := if start < |s| && (s[start] == '-' || s[start] == '+') then 1 else 0;
    var run := DigitRun(s[start + sign..]);
    if run == 0 then Parsed(0, 0, true)
    else
      var n: int := Number(s[start + sign..][..run]);
      var v := if sign == 1 && s[start] == '-' then -n else n;
      var end := start + sign + run;
      if v > LONG_MAX then Parsed(LONG_MAX, end, false)
      else if v < -LONG_MAX - 1 then Parsed(-LONG_MAX - 1, end, false)
      else Parsed(v, end, true)
  }

  /** Reading back a printed number stops right after it. */
  lemma StrtolDecimal(n: nat, rest: string)
    requires n <= LONG_MAX && (rest == "" || !IsDigit(rest[0]))
    ensures Strtol(Decimal(n) + rest) == Parsed(n, |Decimal(n)|, true)
  {
    var d := Decimal(n);
    var s := d + rest;
    assert IsDigit(s[0]) by { assert s[0] == d[0]; }
    assert s[0..] == s;
    RunOfDigits(d, rest);
    NumberDecimal(n);
    assert s[..|d|] == d;
  }

  lemma {:induction false} RunOfDigits(d: string, rest: string)
    requires (forall i :: 0 <= i < |d| ==> IsDigit(d[i])) && (rest == "" || !IsDigit(rest[0]))
    ensures DigitRun(d + rest) == |d|
  {
    if d == "" {
      assert d + rest == rest;
    } else {
      assert (d + rest)[0] == d[0] && (d + rest)[1..] == d[1..] + rest;
      RunOfDigits(d[1..], rest);
    }
  }

  // ----- lines -----

  /** The index of the first newline; the length when there is none. */
  function Find(s: string): (n: nat)
    ensures n <= |s| && (n < |s| ==> s[n] == '\n') && forall i :: 0 <= i < n ==> s[i] != '\n'
  {
    if s == "" || s[0] == '\n' then 0 else 1 + Find(s[1..])
  }

  lemma FindFirst(line: string, rest: string)
    requires '\n' !in line
    ensures Find(line + "\n" + rest) == |line|
  {
    var s := line + "\n" + rest;
    assert s[|line|] == '\n';
    assert forall i :: 0 <= i < |line| ==> s[i] == line[i];
  }

  lemma FindInPrefix(s: string, t: string)
    ensures Find(s) < |s| ==> Find(s + t) == Find(s)
    ensures Find(s) == |s| ==> Find(s + t) >= |s|
  {
    assert forall i :: 0 <= i < |s| ==> (s + t)[i] == s[i];
  }

  predicate StartsWith(s: string, prefix: string) {
    prefix <= s
  }

  // ----- what a client makes of a stream -----

  /** What reached the client's stdout and stderr, and its exit status. */
  datatype Delivery = Delivery(out: string, err: string, status: int)

  function Prepend(toOut: bool, data: string, d: Delivery): Delivery {
    if toOut then d.(out := data + d.out) else d.(err := data + d.err)
  }

  predicate IsData(line: string) {
    StartsWith(line, "OUT ") || StartsWith(line, "ERR ")
  }

  function Count(line: string): nat
    requires IsData(line)
  {
    var value := Strtol(line[4..]).value;
    if value < 0 then 0 else value
  }

  /** A payload that is cut short is delivered in whole chunks only. */
  function Delivered(available: nat, count: nat): (n: nat)
    ensures n <= available && n <= count
  {
    if available >= count then count else available - available % PAYLOAD_CHUNK
  }

  function Status(line: string): int
    requires StartsWith(line, "EXIT ")
  {
    var value := Strtol(line[5..]).value;
    if value < 0 || value > 255 then 125 else value
  }

  /** The result of a whole stream, however it is cut up. */
  function Receive(stream: string): Delivery
    decreases 2 * |stream|
  {
    var k := Find(stream);
    if k == |stream| || k >= LINE_SIZE then Delivery("", "", 125) else Handle(stream[..k], stream[k + 1..])
  }

  /** A header line, and the stream behind it. */
  function Handle(line: string, rest: string): Delivery
    decreases 2 * |rest| + 1
  {
    if IsData(line) then
      var n := Delivered(|rest|, Count(line));
      Prepend(line[0] == 'O', rest[..n], if n < Count(line) then Delivery("", "", 125) else Receive(rest[n..]))
    else if StartsWith(line, "EXIT ") then Delivery("", "", Status(line))
    else if StartsWith(line, "BAD") || StartsWith(line, "BUSY") then Delivery("", "", 125)
    else Receive(rest)
  }

  lemma DeliveredUpTo(available: nat, total: nat, done: nat)
    requires done <= available && done % PAYLOAD_CHUNK == 0 && available < total && available < done + PAYLOAD_CHUNK
    ensures Delivered(available, total) == done
  {}

  lemma StrtolNegative(n: nat, rest: string)
    requires n <= LONG_MAX && (rest == "" || !IsDigit(rest[0]))
    ensures Strtol("-" + Decimal(n) + rest) == Parsed(-(n as int), 1 + |Decimal(n)|, true)
  {
    var d := Decimal(n);
    var s := "-" + d + rest;
    assert s[0] == '-' && s[1..] == d + rest && s[0..] == s;
    RunOfDigits(d, rest);
    NumberDecimal(n);
    assert s[1..][..|d|] == d;
  }

  /** A data header announces the number in it; a negative one announces nothing. */
  lemma CountReads(n: nat)
    requires n <= LONG_MAX
    ensures Count("OUT " + Decimal(n)) == n == Count("ERR " + Decimal(n))
    ensures Count("OUT " + ("-" + Decimal(n))) == 0 == Count("ERR " + ("-" + Decimal(n)))
  {
    StrtolDecimal(n, "");
    StrtolNegative(n, "");
    var d, m := Decimal(n), "-" + Decimal(n);
    assert d + "" == d && m + "" == m;
    assert ("OUT " + d)[4..] == d && ("ERR " + d)[4..] == d && ("OUT " + m)[4..] == m && ("ERR " + m)[4..] == m;
  }

  /** The stream a peer sends, of which every read takes some first part. */
  class Socket {
    var incoming: string

    constructor (incoming: string)
      ensures this.incoming == incoming
    {
      this.incoming := incoming;
    }

    /** At least one byte, unless the peer has closed or none is asked for. */
    method Read(max: nat) returns (got: string)
      modifies this
      ensures got + incoming == old(incoming) && |got| <= max
      ensures got == "" <==> old(incoming) == "" || max == 0
    {
      var limit := if max < |incoming| then max else |incoming|;
      var n :| (if limit == 0 then 0 else 1) <= n <= limit;
      got := incoming[..n];
      incoming := incoming[n..];
    }
  }

  /** One of the two outputs has grown by data. */
  ghost predicate Wrote(toOut: bool, out: string, err: string, data: string, out': string, err': string) {
    if toOut then out' == out + data && err' == err else err' == err + data && out' == out
  }

  lemma WroteMore(toOut: bool, out: string, err: string, a: string, out': string, err': string, b: string, out'': string, err'': string)
    requires Wrote(toOut, out, err, a, out', err') && Wrote(toOut, out', err', b, out'', err'')
    ensures Wrote(toOut, out, err, a + b, out'', err'')
  {}

  lemma Advance(s: string, done: nat, n: nat)
    requires done + n <= |s|
    ensures s[..done] + s[done..][..n] == s[..done + n] && s[done..][n..] == s[done + n..]
  {}

  /** What read_line finds. */
  datatype Reading = Line(text: string) | NotYet | Failure

  /** UmLineReader on a socket that does not block. */
  class LineReader {
    const socket: Socket
    var buffer: string

    constructor (socket: Socket)
      ensures this.socket == socket && buffer == ""
    {
      this.socket := socket;
      buffer := "";
    }

    ghost function Pending(): string
      reads this, socket
    {
      buffer + socket.incoming
    }

    /** um_session_read_line: a line, with everything behind it kept. */
    method ReadLine(size: nat) returns (r: Reading)
      requires |buffer| <= READER_SIZE
      modifies this, socket
      ensures |buffer| <= READER_SIZE
      ensures var pending := old(Pending());
              match r
              case Line(text) => Find(pending) == |text| < |pending| && |text| < size && text == pending[..|text|] && Pending() == pending[|text| + 1..]
              case NotYet => Pending() == pending && Find(buffer) == |buffer|
              case Failure => Pending() == pending && (Find(pending) == |pending| || Find(pending) >= size || Find(pending) >= READER_SIZE)
    {
      ghost var pending := Pending();
      while true
        invariant Pending() == pending && |buffer| <= READER_SIZE
        decreases |socket.incoming|
      {
        FindInPrefix(buffer, socket.incoming);
        var newline := Find(buffer);
        if newline < |buffer| {
          if newline + 1 > size {
            return Failure;
          }
          var text := buffer[..newline];
          assert text == pending[..newline] && buffer[newline + 1..] + socket.incoming == pending[newline + 1..];
          buffer := buffer[newline + 1..];
          return Line(text);
        }
        if |buffer| >= READER_SIZE {
          return Failure;
        }
        var ready := *;
        if !ready {
          return NotYet;
        }
        ghost var was := socket.incoming;
        var got := socket.Read(READER_SIZE - |buffer|);
        if got == "" {
          return Failure;
        }
        assert (buffer + got) + socket.incoming == buffer + was;
        buffer := buffer + got;
      }
    }

    /** um_session_read_exact: the buffered bytes first, then the socket. */
    method ReadExact(count: nat) returns (r: Option<string>)
      modifies this, socket
      ensures var pending := old(Pending());
              if |pending| >= count then r == Some(pending[..count]) && Pending() == pending[count..] else r == None
    {
      ghost var pending := Pending();
      var take := if |buffer| < count then |buffer| else count;
      var data := buffer[..take];
      Regroup("", buffer, take, socket.incoming);
      buffer := buffer[take..];
      assert data + Pending() == pending;
      while |data| < count
        invariant |data| <= count && data + Pending() == pending && (|data| < count ==> buffer == "")
        decreases count - |data|
      {
        ghost var was := socket.incoming;
        var got := socket.Read(count - |data|);
        if got == "" {
          return None;
        }
        assert data + (buffer + was) == (data + got) + (buffer + socket.incoming);
        data := data + got;
      }
      assert pending[..count] == data && pending[count..] == Pending();
      return Some(data);
    }
  }

  class Client {
    const socket: Socket
    var buffer: string
    var out: string
    var err: string

    constructor (socket: Socket)
      ensures this.socket == socket && buffer == "" && out == "" && err == ""
    {
      this.socket := socket;
      buffer, out, err := "", "", "";
    }

    /** What has not been looked at yet. */
    ghost function Pending(): string
      reads this, socket
    {
      buffer + socket.incoming
    }

    /** What the client will have delivered, from here on included. */
    ghost function Outcome(): Delivery
      reads this, socket
    {
      Extended(out, err, Receive(Pending()))
    }

    /** um_client_read_payload */
    method ReadPayload(count: nat) returns (r: Option<string>)
      modifies this`buffer, socket
      ensures var pending := old(Pending());
              if |pending| >= count then r == Some(pending[..count]) && Pending() == pending[count..] else r == None
      ensures |buffer| <= |old(buffer)| && |socket.incoming| <= |old(socket.incoming)|
    {
      ghost var pending := Pending();
      var data := "";
      while |data| < count
        invariant |data| <= count && data + Pending() == pending
        invariant |buffer| <= |old(buffer)| && |socket.incoming| <= |old(socket.incoming)|
        decreases count - |data|
      {
        if buffer != "" {
          var left := count - |data|;
          var take := if |buffer| < left then |buffer| else left;
          Regroup(data, buffer, take, socket.incoming);
          data, buffer := data + buffer[..take], buffer[take..];
        } else {
          ghost var was := socket.incoming;
          var got := socket.Read(count - |data|);
          if got == "" {
            return None;
          }
          assert was == got + socket.incoming;
          assert data + ("" + was) == (data + got) + ("" + socket.incoming);
          data := data + got;
        }
      }
      assert pending[..count] == data && pending[count..] == Pending();
      return Some(data);
    }

    method Write(toOut: bool, data: string)
      modifies this`out, this`err
      ensures Wrote(toOut, old(out), old(err), data, out, err)
    {
      if toOut {
        out := out + data;
      } else {
        err := err + data;
      }
    }

    /** One chunk, after done bytes of the payload. */
    method CopyChunk(toOut: bool, chunk: nat, ghost o: string, ghost e: string, ghost pending: string, ghost done: nat) returns (ok: bool)
      requires done <= |pending| && Pending() == pending[done..] && Wrote(toOut, o, e, pending[..done], out, err)
      modifies this, socket
      ensures ok == (|pending| >= done + chunk)
      ensures ok ==> Pending() == pending[done + chunk..] && Wrote(toOut, o, e, pending[..done + chunk], out, err)
      ensures !ok ==> out == old(out) && err == old(err)
      ensures |buffer| <= |old(buffer)| && |socket.incoming| <= |old(socket.incoming)|
    {
      var payload := ReadPayload(chunk);
      if payload.None? {
        return false;
      }
      Advance(pending, done, chunk);
      Write(toOut, payload.value);
      WroteMore(toOut, o, e, pending[..done], old(out), old(err), payload.value, out, err);
      return true;
    }

    /** The payload of a data frame, chunk by chunk. */
    method CopyPayload(toOut: bool, total: nat) returns (ok: bool)
      modifies this, socket
      ensures var pending := old(Pending()); var n := Delivered(|pending|, total);
              && ok == (|pending| >= total) && (ok ==> Pending() == pending[n..])
              && Wrote(toOut, old(out), old(err), pending[..n], out, err)
      ensures |buffer| <= |old(buffer)| && |socket.incoming| <= |old(socket.incoming)|
    {
      ghost var pending := Pending();
      ghost var done: nat := 0;
      var count: nat := total;
      assert pending[..0] == "" && pending[0..] == pending;
      while count > 0
        invariant done + count == total && done <= |pending| && (count > 0 ==> done % PAYLOAD_CHUNK == 0)
        invariant Pending() == pending[done..]
        invariant Wrote(toOut, old(out), old(err), pending[..done], out, err)
        invariant |buffer| <= |old(buffer)| && |socket.incoming| <= |old(socket.incoming)|
        decreases count
      {
        var chunk := if count < PAYLOAD_CHUNK then count else PAYLOAD_CHUNK;
        ok := CopyChunk(toOut, chunk, old(out), old(err), pending, done);
        if !ok {
          DeliveredUpTo(|pending|, total, done);
          return;
        }
        count, done := count - chunk, done + chunk;
      }
      return true;
    }

    /** One line out of the buffer, and what it asks for: a status ends the
        client. */
    method TakeLine() returns (status: Option<int>)
      requires Find(buffer) < |buffer|
      modifies this, socket
      ensures status.Some? ==> old(Outcome()) == Delivery(out, err, status.value)
      ensures status.None? ==> Outcome() == old(Outcome()) && |Pending()| < |old(Pending())|
      ensures |buffer| <= |old(buffer)| && |socket.incoming| <= |old(socket.incoming)|
    {
      ghost var pending := Pending();
      var length := Find(buffer);
      FindInPrefix(buffer, socket.incoming);
      if length >= LINE_SIZE {
        return Some(125);
      }
      var line := buffer[..length];
      assert line == pending[..length];
      assert buffer[length + 1..] + socket.incoming == pending[length + 1..];
      buffer := buffer[length + 1..];
      status := Dispatch(line, pending[length + 1..]);
    }

    method Dispatch(line: string, ghost rest: string) returns (status: Option<int>)
      requires Pending() == rest
      modifies this, socket
      ensures var d := Extended(old(out), old(err), Handle(line, rest));
              if status.Some? then d == Delivery(out, err, status.value) else d == Outcome() && |Pending()| <= |rest|
      ensures |buffer| <= |old(buffer)| && |socket.incoming| <= |old(socket.incoming)|
    {
      if IsData(line) {
        var toOut, total := line[0] == 'O', Count(line);
        var ok := CopyPayload(toOut, total);
        ghost var n := Delivered(|rest|, total);
        PrependExtends(toOut, old(out), old(err), rest[..n], out, err, if ok then Receive(rest[n..]) else Delivery("", "", 125));
        status := if ok then None else Some(125);
      } else if StartsWith(line, "EXIT ") {
        status := Some(Status(line));
      } else if StartsWith(line, "BAD") || StartsWith(line, "BUSY") {
        status := Some(125);
      } else {
        status := None;
      }
    }

    /** um_client_receive_result: whatever the reads were, the client delivers
        what the whole stream says. */
    method ReceiveResult() returns (status: int)
      requires buffer == ""
      modifies this, socket
      ensures Extended(old(out), old(err), Receive(old(socket.incoming))) == Delivery(out, err, status)
    {
      ghost var result := Extended(out, err, Receive(socket.incoming));
      assert "" + socket.incoming == socket.incoming;
      while true
        invariant Outcome() == result && |buffer| <= CLIENT_BUFFER && Find(buffer) == |buffer|
        decreases |socket.incoming|
      {
        var more := Fill();
        if !more {
          return 125;
        }
        ghost var left := |socket.incoming|;
        while Find(buffer) < |buffer|
          invariant Outcome() == result && |buffer| <= CLIENT_BUFFER && |socket.incoming| <= left
          decreases |Pending()|
        {
          var ended := TakeLine();
          if ended.Some? {
            return ended.value;
          }
        }
      }
    }

    /** One read behind what is buffered; nothing read means the peer is gone,
        or a line fills the buffer. */
    method Fill() returns (more: bool)
      requires |buffer| <= CLIENT_BUFFER && Find(buffer) == |buffer|
      modifies this`buffer, socket
      ensures |buffer| <= CLIENT_BUFFER && Outcome() == old(Outcome())
      ensures !more ==> Receive(Pending()) == Delivery("", "", 125)
      ensures more ==> |socket.incoming| < |old(socket.incoming)|
    {
      FindInPrefix(buffer, socket.incoming);
      ghost var was := socket.incoming;
      var got := socket.Read(CLIENT_BUFFER - |buffer|);
      assert (buffer + got) + socket.incoming == buffer + was;
      buffer := buffer + got;
      more := got != "";
    }
  }

  lemma Regroup(a: string, b: string, n: nat, c: string)
    requires n <= |b|
    ensures a + (b + c) == (a + b[..n]) + (b[n..] + c)
  {}

  lemma PrependExtends(toOut: bool, out: string, err: string, data: string, out': string, err': string, d: Delivery)
    requires Wrote(toOut, out, err, data, out', err')
    ensures Extended(out, err, Prepend(toOut, data, d)) == Extended(out', err', d)
    ensures d.out == "" && d.err == "" ==> Extended(out', err', d) == Delivery(out', err', d.status)
  {}

  function Extended(out: string, err: string, d: Delivery): Delivery {
    Delivery(out + d.out, err + d.err, d.status)
  }
}
