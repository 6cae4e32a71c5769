/** Synthetic netlink replies (src/syscall/enter.c): built into a bounded buffer,
    then handed out one datagram at a time. */
module Netlink {
  type Bytes = seq<int>

  const HEADER: nat := 16       // NLMSG_HDRLEN
  const NLMSG_DONE: nat := 3
  const WORD32: nat := 0x1_0000_0000

  /** NLMSG_ALIGN, RTA_ALIGN */
  function Align(n: nat): (r: nat)
    ensures n <= r < n + 4 && r % 4 == 0
  {
    (n + 3) / 4 * 4
  }

  /** A number in n bytes, the lowest first. */
  function Put(x: nat, n: nat): (r: Bytes)
    ensures |r| == n
    decreases n, x
  {
    if n == 0 then [] else [x % 256] + Put(x / 256, n - 1)
  }

  function Get(b: Bytes, at: nat, n: nat): int
    requires at + n <= |b|
    decreases n, |b|
  {
    if n == 0 then 0 else b[at] + 256 * Get(b, at + 1, n - 1)
  }

  function Limit(n: nat): nat {
    if n == 0 then 1 else 256 * Limit(n - 1)
  }

  function Put16(x: nat): (r: Bytes)
    ensures |r| == 2
  {
    Put(x, 2)
  }

  function Put32(x: nat): (r: Bytes)
    ensures |r| == 4
  {
    Put(x, 4)
  }

  function Get16(b: Bytes, at: nat): int
    requires at + 2 <= |b|
  {
    Get(b, at, 2)
  }

  function Get32(b: Bytes, at: nat): int
    requires at + 4 <= |b|
  {
    Get(b, at, 4)
  }

  /** A number reads back as it was put. */
  lemma {:induction false} GetPut(a: Bytes, x: nat, n: nat, b: Bytes, s: Bytes)
    requires s == a + Put(x, n) + b && x < Limit(n)
    ensures Get(s, |a|, n) == x
    decreases n
  {
    if n > 0 {
      assert s == (a + [x % 256]) + Put(x / 256, n - 1) + b;
      GetPut(a + [x % 256], x / 256, n - 1, b, s);
      assert s[|a|] == x % 256;
    }
  }

  lemma Limits()
    ensures Limit(2) == 65536 && Limit(4) == WORD32
  {
    assert Limit(1) == 256 && Limit(3) == 256 * Limit(2);
  }

  lemma Get16Put(a: Bytes, x: nat, b: Bytes, s: Bytes)
    requires x < 65536 && s == a + Put16(x) + b
    ensures Get16(s, |a|) == x
  {
    Limits();
    GetPut(a, x, 2, b, s);
  }

  lemma Get32Put(a: Bytes, x: nat, b: Bytes, s: Bytes)
    requires x < WORD32 && s == a + Put32(x) + b
    ensures Get32(s, |a|) == x
  {
    Limits();
    GetPut(a, x, 4, b, s);
  }

  /** A number read from the middle of a sequence. */
  lemma {:induction false} GetShifted(a: Bytes, c: Bytes, s: Bytes, at: nat, n: nat)
    requires s == a + c && at + n <= |c|
    ensures Get(s, |a| + at, n) == Get(c, at, n)
    decreases n
  {
    if n > 0 {
      GetShifted(a, c, s, at + 1, n - 1);
      assert s[|a| + at] == c[at];
    }
  }

  function Flatten(ds: seq<Bytes>): Bytes {
    if |ds| == 0 then [] else ds[0] + Flatten(ds[1..])
  }

  // ----- attributes -----

  datatype Attr = Attr(kind: nat, data: Bytes)

  predicate AttrFits(a: Attr) {
    a.kind < 65536 && |a.data| + 4 < 65536
  }

  function EncodeAttr(a: Attr): (r: Bytes)
    ensures |r| == Align(4 + |a.data|)
  {
    Put16(4 + |a.data|) + Put16(a.kind) + a.data + seq(Align(4 + |a.data|) - 4 - |a.data|, _ => 0)
  }

  /** The attributes there is room for: one that does not fit is left out, and
      the next one tried. */
  function Kept(attrs: seq<Attr>, room: nat): seq<Attr> {
    if |attrs| == 0 then []
    else if |EncodeAttr(attrs[0])| > room then Kept(attrs[1..], room)
    else [attrs[0]] + Kept(attrs[1..], room - |EncodeAttr(attrs[0])|)
  }

  function EncodeAttrs(attrs: seq<Attr>): (r: Bytes)
    ensures |r| % 4 == 0
  {
    if |attrs| == 0 then [] else EncodeAttr(attrs[0]) + EncodeAttrs(attrs[1..])
  }

  /** How a reader walks the attributes, by their own lengths. */
  function ReadAttrs(b: Bytes): seq<Attr>
    decreases |b|
  {
    if |b| < 4 then []
    else
      var len := Get16(b, 0);
      if len < 4 || len > |b| || Get16(b, 2) < 0 then []
      else [Attr(Get16(b, 2), b[4..len])] + (if Align(len) >= |b| then [] else ReadAttrs(b[Align(len)..]))
  }

  lemma AttrReads(a: Attr, rest: Bytes)
    requires AttrFits(a)
    ensures var b := EncodeAttr(a) + rest;
            && |b| >= 4 && Get16(b, 0) == 4 + |a.data| <= |b| && Get16(b, 2) == a.kind && b[4..4 + |a.data|] == a.data
            && b[Align(4 + |a.data|)..] == rest
  {
    var pad := seq(Align(4 + |a.data|) - 4 - |a.data|, _ => 0);
    var b := EncodeAttr(a) + rest;
    var none := rest[..0];
    var len, kind := Put16(4 + |a.data|), Put16(a.kind);
    assert b == none + len + (kind + a.data + pad + rest);
    Get16Put(none, 4 + |a.data|, kind + a.data + pad + rest, b);
    assert b == len + kind + (a.data + pad + rest);
    Get16Put(len, a.kind, a.data + pad + rest, b);
    assert b[4..4 + |a.data|] == a.data;
  }

  /** A reader gets back the attributes that were kept. */
  lemma {:induction false} AttrsRead(attrs: seq<Attr>)
    requires forall i :: 0 <= i < |attrs| ==> AttrFits(attrs[i])
    ensures ReadAttrs(EncodeAttrs(attrs)) == attrs
    decreases |attrs|
  {
    if |attrs| > 0 {
      var rest := EncodeAttrs(attrs[1..]);
      AttrReads(attrs[0], rest);
      AttrsRead(attrs[1..]);
      assert attrs == [attrs[0]] + attrs[1..];
      if |attrs| == 1 {
        assert attrs[1..] == [];
      } else {
        assert |EncodeAttr(attrs[1])| >= 4;
      }
    }
  }

  // ----- messages -----

  datatype Message = Message(kind: nat, flags: nat, seqNo: nat, pid: nat, body: Bytes)

  predicate MessageFits(m: Message) {
    m.kind < 65536 && m.flags < 65536 && m.seqNo < WORD32 && m.pid < WORD32 && HEADER + |m.body| < WORD32 && |m.body| % 4 == 0
  }

  function Header(m: Message): (r: Bytes)
    ensures |r| == HEADER
  {
    Put32(HEADER + |m.body|) + Put16(m.kind) + Put16(m.flags) + Put32(m.seqNo) + Put32(m.pid)
  }

  function Encode(m: Message): (r: Bytes)
    ensures |r| == HEADER + |m.body|
  {
    Header(m) + m.body
  }

  /** A message as a reader recognises it: as long as it says, and a DONE or not. */
  ghost predicate Block(e: Bytes, done: bool) {
    && |e| >= HEADER && |e| % 4 == 0
    && Get32(e, 0) == |e| && (Get16(e, 4) == NLMSG_DONE <==> done)
  }

  lemma MessageIsBlock(m: Message)
    requires MessageFits(m)
    ensures Block(Encode(m), m.kind == NLMSG_DONE)
  {
    var tail := HeaderSplit(Put32(HEADER + |m.body|), Put16(m.kind), Put16(m.flags), Put32(m.seqNo), Put32(m.pid), m.body, Encode(m));
    TwoFields(Encode(m), HEADER + |m.body|, m.kind, tail);
  }

  /** Every field of the header reads back where the reader looks for it, and the
      body follows. */
  lemma HeaderReads(m: Message)
    requires MessageFits(m)
    ensures var b := Encode(m);
            && Get32(b, 0) == 16 + |m.body| == |b| && Get16(b, 4) == m.kind && Get16(b, 6) == m.flags
            && Get32(b, 8) == m.seqNo && Get32(b, 12) == m.pid && b[16..] == m.body
  {
    var b := Encode(m);
    var len, kind, flags, seqNo, pid := Put32(HEADER + |m.body|), Put16(m.kind), Put16(m.flags), Put32(m.seqNo), Put32(m.pid);
    var none := m.body[..0];
    assert b == none + len + (kind + flags + seqNo + pid + m.body);
    assert b == len + kind + (flags + seqNo + pid + m.body);
    assert b == (len + kind) + flags + (seqNo + pid + m.body);
    assert b == (len + kind + flags) + seqNo + (pid + m.body);
    assert b == (len + kind + flags + seqNo) + pid + m.body;
    Get32Put(none, HEADER + |m.body|, kind + flags + seqNo + pid + m.body, b);
    Get16Put(len, m.kind, flags + seqNo + pid + m.body, b);
    Get16Put(len + kind, m.flags, seqNo + pid + m.body, b);
    Get32Put(len + kind + flags, m.seqNo, pid + m.body, b);
    Get32Put(len + kind + flags + seqNo, m.pid, m.body, b);
  }

  lemma HeaderSplit(len: Bytes, kind: Bytes, flags: Bytes, seqNo: Bytes, pid: Bytes, body: Bytes, b: Bytes) returns (tail: Bytes)
    requires b == (len + kind + flags + seqNo + pid) + body
    ensures b == len + kind + tail
  {
    tail := flags + seqNo + pid + body;
  }

  lemma TwoFields(b: Bytes, x: nat, y: nat, tail: Bytes)
    requires x < WORD32 && y < 65536 && b == Put32(x) + Put16(y) + tail
    ensures |b| >= 6 && Get32(b, 0) == x && Get16(b, 4) == y
  {
    var none := tail[..0];
    assert b == none + Put32(x) + (Put16(y) + tail);
    Get32Put(none, x, Put16(y) + tail, b);
    Get16Put(Put32(x), y, tail, b);
  }

  class Reply {
    var buf: array<int>
    var off: nat
    const max: nat

    ghost predicate Valid()
      reads this, buf
    {
      max <= buf.Length && off <= max && off % 4 == 0
    }

    ghost function Written(): Bytes
      requires Valid()
      reads this, buf
    {
      buf[..off]
    }

    constructor (max: nat)
      ensures Valid() && fresh(buf) && this.max == max && off == 0
    {
      buf, off := new int[max], 0;
      this.max := max;
    }

    method Store(at: nat, bytes: Bytes)
      requires at + |bytes| <= buf.Length
      modifies buf
      ensures buf[..] == old(buf[..])[..at] + bytes + old(buf[..])[at + |bytes|..]
    {
      forall i | 0 <= i < |bytes| {
        buf[at + i] := bytes[i];
      }
    }

    /** nl_add_attr */
    method AddAttr(a: Attr)
      requires Valid() && AttrFits(a)
      modifies this`off, buf
      ensures Valid()
      ensures Written() == if old(off) + |EncodeAttr(a)| > max then old(Written()) else old(Written()) + EncodeAttr(a)
    {
      var space := Align(4 + |a.data|);
      if off + space > max {
        return;
      }
      var pad := seq(space - (4 + |a.data|), _ => 0);
      Store(off, Put16(4 + |a.data|) + Put16(a.kind) + a.data + pad);
      off := off + space;
    }

    method AddAttrs(attrs: seq<Attr>)
      requires Valid() && forall i :: 0 <= i < |attrs| ==> AttrFits(attrs[i])
      modifies this`off, buf
      ensures Valid() && Written() == old(Written()) + EncodeAttrs(Kept(attrs, max - old(off)))
    {
      ghost var left := attrs;
      ghost var whole := Written() + EncodeAttrs(Kept(attrs, max - off));
      for i := 0 to |attrs|
        invariant Valid() && left == attrs[i..] && whole == Written() + EncodeAttrs(Kept(left, max - off))
      {
        AddNext(attrs[i], left);
        left := left[1..];
      }
      assert |Kept(left, max - off)| == 0;
    }

    method AddNext(a: Attr, ghost left: seq<Attr>)
      requires Valid() && AttrFits(a) && |left| > 0 && left[0] == a
      modifies this`off, buf
      ensures Valid()
      ensures Written() + EncodeAttrs(Kept(left[1..], max - off)) == old(Written() + EncodeAttrs(Kept(left, max - off)))
    {
      KeptNext(left, max - off, Written());
      AddAttr(a);
    }

    /** The fixed part, behind the room for a header. */
    method PutFixed(fixed: Bytes)
      requires Valid() && off + HEADER + |fixed| <= max && |fixed| % 4 == 0
      modifies this`off, buf
      ensures Valid() && off == old(off) + HEADER + |fixed|
      ensures Written()[..old(off)] == old(Written()) && Written()[old(off) + HEADER..] == fixed
    {
      ghost var was := buf[..];
      ghost var start := off;
      Store(off + HEADER, fixed);
      off := off + HEADER + |fixed|;
      assert buf[..start] == was[..start];
    }

    method PutHeader(start: nat, header: Bytes)
      requires Valid() && start + |header| <= off
      modifies buf
      ensures Valid() && Written() == old(Written())[..start] + header + old(Written())[start + |header|..]
    {
      ghost var was := buf[..];
      Store(start, header);
      assert buf[..off] == was[..start] + header + was[start + |header|..off];
      assert was[..off][..start] == was[..start] && was[..off][start + |header|..] == was[start + |header|..off];
    }

    /** nl_build_link and nl_build_addr: room for a header and the fixed part is
        taken, attributes follow as far as they fit, and the header is written
        last, over the room, with the length that came out. */
    method Build(kind: nat, flags: nat, seqNo: nat, pid: nat, fixed: Bytes, attrs: seq<Attr>)
      requires Valid() && |fixed| % 4 == 0 && forall i :: 0 <= i < |attrs| ==> AttrFits(attrs[i])
      modifies this`off, buf
      ensures Valid()
      ensures if old(off) + HEADER + |fixed| > max then Written() == old(Written())
              else Written() == old(Written()) + Encode(Message(kind, flags, seqNo, pid, fixed + EncodeAttrs(Kept(attrs, max - old(off) - HEADER - |fixed|))))
    {
      var start := off;
      if start + HEADER + |fixed| > max {
        return;
      }
      PutFixed(fixed);
      ghost var room := Written();
      AddAttrs(attrs);
      ghost var kept := EncodeAttrs(Kept(attrs, max - start - HEADER - |fixed|));
      BodyAfterRoom(room, kept, start, fixed);
      Finish(start, kind, flags, seqNo, pid, fixed + kept);
    }

    /** The header of a message whose body is in place. */
    method Finish(start: nat, kind: nat, flags: nat, seqNo: nat, pid: nat, ghost body: Bytes)
      requires Valid() && start + HEADER + |body| == off && Written()[start + HEADER..] == body
      modifies buf
      ensures Valid() && Written() == old(Written())[..start] + Encode(Message(kind, flags, seqNo, pid, body))
    {
      var len := off - start;
      ghost var m := Message(kind, flags, seqNo, pid, body);
      ghost var before := Written()[..start];
      PutHeader(start, Put32(len) + Put16(kind) + Put16(flags) + Put32(seqNo) + Put32(pid));
      Regroup(before, Header(m), body);
    }
  }

  lemma Regroup(a: Bytes, b: Bytes, c: Bytes)
    ensures (a + b) + c == a + (b + c)
  {}

  lemma BodyAfterRoom(room: Bytes, kept: Bytes, start: nat, fixed: Bytes)
    requires start + HEADER + |fixed| == |room| && room[start + HEADER..] == fixed
    ensures (room + kept)[..start] == room[..start] && (room + kept)[start + HEADER..] == fixed + kept
  {}

  lemma KeptNext(attrs: seq<Attr>, room: nat, was: Bytes)
    requires |attrs| > 0
    ensures var e := EncodeAttr(attrs[0]);
            was + EncodeAttrs(Kept(attrs, room)) ==
            if |e| > room then was + EncodeAttrs(Kept(attrs[1..], room)) else (was + e) + EncodeAttrs(Kept(attrs[1..], room - |e|))
  {
    var e := EncodeAttr(attrs[0]);
    if |e| <= room {
      var rest := Kept(attrs[1..], room - |e|);
      assert ([attrs[0]] + rest)[1..] == rest;
    }
  }

  // ----- datagrams -----

  /** fake_netlink_datagram_len: whole messages up to the first DONE, or all. */
  function DatagramFrom(b: Bytes, off: nat): (r: nat)
    requires off <= |b|
    decreases |b| - off
  {
    if off + HEADER > |b| then off
    else
      var len := Get32(b, off);
      if len < HEADER || off + len > |b| || Get16(b, off + 4) == NLMSG_DONE then off
      else if off + Align(len) > |b| then off + Align(len)
      else DatagramFrom(b, off + Align(len))
  }

  function Datagram(b: Bytes): (r: nat)
    ensures r <= |b| && (|b| > 0 ==> r > 0)
  {
    var off := DatagramFrom(b, 0);
    if off == 0 || off > |b| then |b| else off
  }

  method DatagramLength(reply: Bytes) returns (r: nat)
    ensures r == Datagram(reply)
  {
    var off: nat := 0;
    while off + HEADER <= |reply|
      invariant if off <= |reply| then DatagramFrom(reply, 0) == DatagramFrom(reply, off) else DatagramFrom(reply, 0) == off
      decreases |reply| - off
    {
      var len := Get32(reply, off);
      if len < HEADER || off + len > |reply| {
        break;
      }
      if Get16(reply, off + 4) == NLMSG_DONE {
        break;
      }
      off := off + Align(len);
    }
    r := if off == 0 || off > |reply| then |reply| else off;
  }

  /** The bytes that remain to be handed out. */
  class Socket {
    const reply: Bytes
    var replyLen: nat
    var replyOff: nat

    ghost predicate Valid()
      reads this
    {
      replyOff <= replyLen <= |reply| && (replyLen == 0 ==> replyOff == 0)
    }

    constructor (reply: Bytes)
      ensures Valid() && this.reply == reply && Rest() == reply
    {
      this.reply, replyLen, replyOff := reply, |reply|, 0;
    }

    ghost function Rest(): Bytes
      requires Valid()
      reads this
    {
      reply[replyOff..replyLen]
    }

    /** pending_fake_netlink_datagram */
    method Pending() returns (datagram: Bytes)
      requires Valid()
      ensures datagram == Rest()[..Datagram(Rest())]
    {
      if replyLen == 0 {
        return [];
      }
      var rest := reply[replyOff..replyLen];
      var n := DatagramLength(rest);
      datagram := rest[..n];
    }

    /** consume_fake_netlink_datagram */
    method Consume(n: nat)
      requires Valid() && n <= |Rest()|
      modifies this
      ensures Valid() && Rest() == old(Rest())[n..]
    {
      ghost var was := Rest();
      replyOff := replyOff + n;
      assert reply[replyOff..replyLen] == was[n..];
      if replyOff >= replyLen {
        replyLen, replyOff := 0, 0;
      }
    }

    /** Receiving until nothing is pending. */
    method Drain() returns (datagrams: seq<Bytes>)
      requires Valid()
      modifies this
      ensures Valid() && Rest() == [] && datagrams == Cut(old(Rest()))
    {
      datagrams := [];
      ghost var all := Cut(Rest());
      while replyOff < replyLen
        invariant Valid() && all == datagrams + Cut(Rest())
        decreases |Rest()|
      {
        ghost var rest := Rest();
        var d := Pending();
        Consume(|d|);
        CutNext(datagrams, rest);
        datagrams := datagrams + [d];
      }
      assert datagrams + Cut(Rest()) == datagrams;
    }
  }

  function Cut(b: Bytes): seq<Bytes>
    decreases |b|
  {
    if |b| == 0 then [] else [b[..Datagram(b)]] + Cut(b[Datagram(b)..])
  }

  lemma CutNext(before: seq<Bytes>, b: Bytes)
    requires |b| > 0
    ensures before + Cut(b) == (before + [b[..Datagram(b)]]) + Cut(b[Datagram(b)..])
  {}

  /** Nothing is lost, nothing delivered twice. */
  lemma {:induction false} CutConserves(b: Bytes)
    ensures Flatten(Cut(b)) == b && forall i :: 0 <= i < |Cut(b)| ==> |Cut(b)[i]| > 0
    decreases |b|
  {
    if |b| > 0 {
      var n := Datagram(b);
      CutConserves(b[n..]);
      assert ([b[..n]] + Cut(b[n..]))[1..] == Cut(b[n..]);
      assert b[..n] + b[n..] == b;
    }
  }

  // ----- replies made of messages -----

  lemma {:induction false} FlattenConcat(a: seq<Bytes>, b: seq<Bytes>)
    ensures Flatten(a + b) == Flatten(a) + Flatten(b)
  {
    if |a| == 0 {
      assert a + b == b;
    } else {
      assert (a + b)[1..] == a[1..] + b;
      FlattenConcat(a[1..], b);
    }
  }

  lemma FlattenOne(e: Bytes)
    ensures Flatten([e]) == e
  {
    assert |[e][1..]| == 0;
    assert Flatten([e]) == e + Flatten([e][1..]);
  }

  ghost predicate Plain(blocks: seq<Bytes>) {
    forall i :: 0 <= i < |blocks| ==> Block(blocks[i], false)
  }

  lemma {:induction false} GetPrefix(a: Bytes, c: Bytes, at: nat, n: nat)
    requires at + n <= |a|
    ensures Get(a + c, at, n) == Get(a, at, n)
    decreases n
  {
    if n > 0 {
      GetPrefix(a, c, at + 1, n - 1);
    }
  }

  /** The walk over whole messages stops where they do. */
  lemma {:induction false} WalkStops(b: Bytes, pos: nat, blocks: seq<Bytes>, end: nat)
    requires Plain(blocks) && pos <= end <= |b| && b[pos..end] == Flatten(blocks)
    requires DatagramFrom(b, end) == end
    ensures DatagramFrom(b, pos) == end
    decreases |blocks|
  {
    if |blocks| > 0 {
      var next := pos + |blocks[0]|;
      BlockAhead(b, pos, blocks[0], Flatten(blocks[1..]), end);
      WalkStops(b, next, blocks[1..], end);
      WalkOne(b, pos, blocks[0]);
    } else {
      assert pos == end;
    }
  }

  lemma BlockAhead(b: Bytes, pos: nat, e: Bytes, tail: Bytes, end: nat)
    requires pos <= end <= |b| && b[pos..end] == e + tail
    ensures pos + |e| <= end && b[pos..pos + |e|] == e && b[pos + |e|..end] == tail
  {
    assert b[pos..end][..|e|] == b[pos..pos + |e|];
    assert b[pos..end][|e|..] == b[pos + |e|..end];
  }

  lemma WalkOne(b: Bytes, pos: nat, e: Bytes)
    requires Block(e, false) && pos + |e| <= |b| && b[pos..pos + |e|] == e
    ensures DatagramFrom(b, pos) == DatagramFrom(b, pos + |e|)
  {
    assert b == b[..pos] + (e + b[pos + |e|..]);
    HeadReads(b, b[..pos], e, b[pos + |e|..]);
  }

  /** A message's length and kind, wherever it stands. */
  lemma HeadReads(b: Bytes, before: Bytes, e: Bytes, rest: Bytes)
    requires |e| >= 6 && b == before + (e + rest)
    ensures Get32(b, |before|) == Get32(e, 0) && Get16(b, |before| + 4) == Get16(e, 4)
  {
    GetPrefix(e, rest, 0, 4);
    GetPrefix(e, rest, 4, 2);
    GetShifted(before, e + rest, b, 0, 4);
    GetShifted(before, e + rest, b, 4, 2);
  }

  /** Plain messages in front of a DONE, or of nothing, are one datagram. */
  lemma FirstDatagram(blocks: seq<Bytes>, plain: Bytes, last: Bytes, b: Bytes)
    requires Plain(blocks) && |blocks| > 0 && plain == Flatten(blocks) && b == plain + last && DatagramFrom(b, |plain|) == |plain|
    ensures Datagram(b) == |plain| && Cut(b) == [plain] + Cut(last)
  {
    assert b[0..|plain|] == plain;
    WalkStops(b, 0, blocks, |plain|);
    assert |plain| >= HEADER by { assert plain == blocks[0] + Flatten(blocks[1..]); }
    assert b[..|plain|] == plain && b[|plain|..] == last;
  }

  lemma DoneStops(before: Bytes, done: Bytes, b: Bytes)
    requires Block(done, true) && b == before + done
    ensures DatagramFrom(b, |before|) == |before|
  {
    var none := done[..0];
    assert done + none == done;
    HeadReads(b, before, done, none);
  }

  lemma DoneAlone(done: Bytes)
    requires Block(done, true)
    ensures Cut(done) == [done]
  {
    var none := done[..0];
    DoneStops(none, done, done);
    assert done[..|done|] == done && |done[|done|..]| == 0;
  }

  /** A reply without a DONE is one datagram. */
  lemma ReplyWhole(blocks: seq<Bytes>)
    requires Plain(blocks) && |blocks| > 0
    ensures Cut(Flatten(blocks)) == [Flatten(blocks)]
  {
    var plain := Flatten(blocks);
    var none := plain[|plain|..];
    assert plain + none == plain && |Cut(none)| == 0;
    FirstDatagram(blocks, plain, none, plain);
  }

  /** With a closing DONE behind other messages it is two, and the DONE comes
      alone; a DONE by itself is one, by DoneAlone. */
  lemma ReplyWithDone(blocks: seq<Bytes>, done: Bytes)
    requires Plain(blocks) && |blocks| > 0 && Block(done, true)
    ensures Cut(Flatten(blocks + [done])) == [Flatten(blocks), done]
  {
    var plain := Flatten(blocks);
    FlattenConcat(blocks, [done]);
    FlattenOne(done);
    DoneAlone(done);
    DoneStops(plain, done, plain + done);
    FirstDatagram(blocks, plain, done, plain + done);
  }

  // ----- a whole reply, from its parts to its datagrams -----

  /** One message as it is asked for. */
  datatype Item = Item(kind: nat, flags: nat, seqNo: nat, pid: nat, fixed: Bytes, attrs: seq<Attr>)

  predicate ItemFits(i: Item) {
    && i.kind < 65536 && i.flags < 65536 && i.seqNo < WORD32 && i.pid < WORD32 && |i.fixed| % 4 == 0
    && forall k :: 0 <= k < |i.attrs| ==> AttrFits(i.attrs[k])
  }

  /** The message that comes out where there is this much room. */
  function MessageOf(i: Item, room: nat): Message
    requires HEADER + |i.fixed| <= room
  {
    Message(i.kind, i.flags, i.seqNo, i.pid, i.fixed + EncodeAttrs(Kept(i.attrs, room - HEADER - |i.fixed|)))
  }

  lemma {:induction false} KeptWithin(attrs: seq<Attr>, room: nat)
    ensures |EncodeAttrs(Kept(attrs, room))| <= room
  {
    if |attrs| > 0 {
      var e := EncodeAttr(attrs[0]);
      if |e| > room {
        KeptWithin(attrs[1..], room);
      } else {
        var rest := Kept(attrs[1..], room - |e|);
        KeptWithin(attrs[1..], room - |e|);
        assert ([attrs[0]] + rest)[1..] == rest;
      }
    }
  }

  lemma MessageOfFits(i: Item, room: nat)
    requires ItemFits(i) && HEADER + |i.fixed| <= room < WORD32
    ensures MessageFits(MessageOf(i, room)) && |Encode(MessageOf(i, room))| <= room
  {
    KeptWithin(i.attrs, room - HEADER - |i.fixed|);
    FourthsAdd(|i.fixed|, |EncodeAttrs(Kept(i.attrs, room - HEADER - |i.fixed|))|);
  }

  lemma FourthsAdd(a: nat, b: nat)
    requires a % 4 == 0 && b % 4 == 0
    ensures (a + b) % 4 == 0
  {}

  /** The messages there is room for, one after the other. */
  function Taken(items: seq<Item>, room: nat): seq<Bytes>
    requires room < WORD32 && forall k :: 0 <= k < |items| ==> ItemFits(items[k])
    decreases |items|
  {
    if |items| == 0 then []
    else if HEADER + |items[0].fixed| > room then Taken(items[1..], room)
    else
      MessageOfFits(items[0], room);
      var e := Encode(MessageOf(items[0], room));
      [e] + Taken(items[1..], room - |e|)
  }

  lemma {:induction false} TakenIsPlain(items: seq<Item>, room: nat)
    requires room < WORD32 && forall k :: 0 <= k < |items| ==> ItemFits(items[k]) && items[k].kind != NLMSG_DONE
    ensures Plain(Taken(items, room))
    decreases |items|
  {
    if |items| > 0 {
      if HEADER + |items[0].fixed| > room {
        TakenIsPlain(items[1..], room);
      } else {
        MessageOfFits(items[0], room);
        MessageIsBlock(MessageOf(items[0], room));
        TakenIsPlain(items[1..], room - |Encode(MessageOf(items[0], room))|);
      }
    }
  }

  lemma TakenNext(was: Bytes, items: seq<Item>, room: nat)
    requires room < WORD32 && |items| > 0 && forall k :: 0 <= k < |items| ==> ItemFits(items[k])
    ensures HEADER + |items[0].fixed| > room ==> was + Flatten(Taken(items, room)) == was + Flatten(Taken(items[1..], room))
    ensures HEADER + |items[0].fixed| <= room ==>
              var e := Encode(MessageOf(items[0], room));
              && |e| <= room
              && was + Flatten(Taken(items, room)) == (was + e) + Flatten(Taken(items[1..], room - |e|))
  {
    if HEADER + |items[0].fixed| <= room {
      MessageOfFits(items[0], room);
      var e := Encode(MessageOf(items[0], room));
      var rest := Taken(items[1..], room - |e|);
      assert ([e] + rest)[1..] == rest;
    }
  }

  method BuildItem(reply: Reply, it: Item)
    requires reply.Valid() && ItemFits(it)
    modifies reply`off, reply.buf
    ensures reply.Valid()
    ensures var room := reply.max - old(reply.off);
            reply.Written() ==
            if HEADER + |it.fixed| > room then old(reply.Written()) else old(reply.Written()) + Encode(MessageOf(it, room))
  {
    reply.Build(it.kind, it.flags, it.seqNo, it.pid, it.fixed, it.attrs);
  }

  method BuildNext(reply: Reply, it: Item, ghost left: seq<Item>)
    requires reply.Valid() && reply.max < WORD32 && forall k :: 0 <= k < |left| ==> ItemFits(left[k])
    requires left != [] && left[0] == it
    modifies reply`off, reply.buf
    ensures reply.Valid()
    ensures reply.Written() + Flatten(Taken(left[1..], reply.max - reply.off)) ==
            old(reply.Written()) + Flatten(Taken(left, reply.max - old(reply.off)))
  {
    TakenNext(reply.Written(), left, reply.max - reply.off);
    BuildItem(reply, it);
  }

  /** Message after message into the buffer. */
  method BuildAll(reply: Reply, items: seq<Item>)
    requires reply.Valid() && reply.max < WORD32 && forall k :: 0 <= k < |items| ==> ItemFits(items[k])
    modifies reply`off, reply.buf
    ensures reply.Valid()
    ensures reply.Written() == old(reply.Written()) + Flatten(Taken(items, reply.max - old(reply.off)))
  {
    ghost var left := items;
    ghost var whole := reply.Written() + Flatten(Taken(items, reply.max - reply.off));
    for i := 0 to |items|
      invariant reply.Valid() && left == items[i..]
      invariant whole == reply.Written() + Flatten(Taken(left, reply.max - reply.off))
    {
      BuildNext(reply, items[i], left);
      left := left[1..];
    }
    NothingLeft(reply.Written(), left, reply.max - reply.off);
  }

  lemma NothingLeft(was: Bytes, items: seq<Item>, room: nat)
    requires room < WORD32 && |items| == 0
    ensures was + Flatten(Taken(items, room)) == was
  {}

  /** A dump: messages into a fresh buffer, and a DONE behind them if there still
      is room.  A receiver gets the messages that fit as one datagram, and the
      DONE as another. */
  method Dump(reply: Reply, items: seq<Item>, done: Item)
    requires reply.Valid() && reply.off == 0 && reply.max < WORD32
    requires ItemFits(done) && done.kind == NLMSG_DONE
    requires forall k :: 0 <= k < |items| ==> ItemFits(items[k]) && items[k].kind != NLMSG_DONE
    modifies reply`off, reply.buf
    ensures reply.Valid()
    ensures var blocks := Taken(items, reply.max); var room := reply.max - |Flatten(blocks)|;
            && |Flatten(blocks)| <= reply.max
            && Cut(reply.Written()) ==
               (if |blocks| > 0 then [Flatten(blocks)] else [])
               + (if HEADER + |done.fixed| <= room then [Encode(MessageOf(done, room))] else [])
  {
    ghost var blocks := Taken(items, reply.max);
    ghost var none := reply.Written();
    TakenIsPlain(items, reply.max);
    BuildAll(reply, items);
    ghost var plain := Flatten(blocks);
    assert none + plain == plain;
    ghost var room := reply.max - |plain|;
    BuildItem(reply, done);
    DumpCut(blocks, done, room, reply.Written());
  }

  lemma DumpCut(blocks: seq<Bytes>, done: Item, room: nat, written: Bytes)
    requires Plain(blocks) && ItemFits(done) && done.kind == NLMSG_DONE && room < WORD32
    requires written == if HEADER + |done.fixed| <= room then Flatten(blocks) + Encode(MessageOf(done, room)) else Flatten(blocks)
    ensures Cut(written) ==
            (if |blocks| > 0 then [Flatten(blocks)] else [])
            + (if HEADER + |done.fixed| <= room then [Encode(MessageOf(done, room))] else [])
  {
    if HEADER + |done.fixed| <= room {
      MessageOfFits(done, room);
      var e := Encode(MessageOf(done, room));
      MessageIsBlock(MessageOf(done, room));
      if |blocks| > 0 {
        ReplyWithDone(blocks, e);
        FlattenConcat(blocks, [e]);
        FlattenOne(e);
      } else {
        DoneAlone(e);
        assert Flatten(blocks) + e == e;
      }
    } else if |blocks| > 0 {
      ReplyWhole(blocks);
    }
  }
}
