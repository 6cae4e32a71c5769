/** The second implementation of the lookup: the tracer writes its binding list
    into the environment (src/cli/cli.c), and the preloaded shim parses it and
    translates paths on its own (stat-shim/shim.c). */
module Shim {
  import opened Paths
  import opened Bindings

  const MAX_BINDS: nat := 512

  datatype Bind = Bind(guest: string, host: string)

  function EntryOf(b: Binding): Bind {
    Bind(Render(b.guest), Render(b.host))
  }

  function Entries(bs: seq<Binding>): (r: seq<Bind>)
    ensures |r| == |bs| && forall i :: 0 <= i < |r| ==> r[i] == EntryOf(bs[i])
  {
    seq(|bs|, i requires 0 <= i < |bs| => EntryOf(bs[i]))
  }

  function LineOf(b: Bind): string {
    b.guest + "\t" + b.host + "\n"
  }

  function Serialised(bs: seq<Bind>): string {
    if |bs| == 0 then "" else Serialised(bs[..|bs| - 1]) + LineOf(bs[|bs| - 1])
  }

  function Sizes(bs: seq<Bind>): nat {
    if |bs| == 0 then 0 else Sizes(bs[..|bs| - 1]) + |bs[|bs| - 1].guest| + |bs[|bs| - 1].host| + 3
  }

  lemma {:induction false} SerialisedFits(bs: seq<Bind>, n: nat)
    requires n <= |bs|
    ensures |Serialised(bs[..n])| == Sizes(bs[..n]) - n
    ensures Sizes(bs[..n]) <= Sizes(bs)
    ensures n < |bs| ==> Sizes(bs[..n]) + |bs[n].guest| + |bs[n].host| + 3 <= Sizes(bs)
    decreases |bs| - n, n
  {
    if n == |bs| {
      assert bs[..n] == bs;
      SerialisedLength(bs);
    } else {
      SerialisedFits(bs, n + 1);
      assert bs[..n + 1][..n] == bs[..n];
      SerialisedLength(bs[..n]);
    }
  }

  lemma {:induction false} SerialisedLength(bs: seq<Bind>)
    ensures |Serialised(bs)| == Sizes(bs) - |bs|
  {
    if |bs| > 0 {
      SerialisedLength(bs[..|bs| - 1]);
    }
  }

  /** The serialiser of proot_main: the space it reserves is always enough, so
      nothing is cut off. */
  method Serialise(bs: seq<Bind>) returns (text: string)
    ensures text == Serialised(bs)
  {
    var total := 1;
    for i := 0 to |bs|
      invariant total == 1 + Sizes(bs[..i])
    {
      assert bs[..i + 1][..i] == bs[..i];
      total := total + |bs[i].guest| + |bs[i].host| + 3;
    }
    assert bs[..|bs|] == bs;
    text := "";
    for i := 0 to |bs|
      invariant text == Serialised(bs[..i])
    {
      SerialisedFits(bs, i);
      var line := bs[i].guest + "\t" + bs[i].host + "\n";
      if |line| >= total - |text| {
        break;
      }
      assert bs[..i + 1][..i] == bs[..i];
      text := text + line;
    }
  }

  // ----- parsing -----

  function FindChar(s: string, c: char): (n: nat)
    ensures n <= |s| && (n < |s| ==> s[n] == c) && forall i :: 0 <= i < n ==> s[i] != c
  {
    if |s| == 0 || s[0] == c then 0 else 1 + FindChar(s[1..], c)
  }

  /** One entry, if it is one. */
  function EntryIn(line: string): (r: seq<Bind>)
    ensures |r| <= 1
  {
    var tab := FindChar(line, '\t');
    if tab < |line| && 0 < tab < PATH_MAX && 0 < |line| - tab - 1 < PATH_MAX then [Bind(line[..tab], line[tab + 1..])] else []
  }

  /** A line is an entry exactly when a tab stands between two halves that are
      neither empty nor too long; the first tab counts. */
  lemma EntryMeans(line: string, b: Bind)
    ensures b in EntryIn(line) <==>
            line == b.guest + ['\t'] + b.host && '\t' !in b.guest && 0 < |b.guest| < 4096 && 0 < |b.host| < 4096
  {
    if line == b.guest + ['\t'] + b.host && '\t' !in b.guest {
      FindFirst(b.guest, '\t', b.host);
      assert line[..|b.guest|] == b.guest && line[|b.guest| + 1..] == b.host;
    }
    var tab := FindChar(line, '\t');
    if tab < |line| {
      assert line == line[..tab] + ['\t'] + line[tab + 1..];
      assert '\t' !in line[..tab];
    }
  }

  function Lines(s: string): seq<string>
    decreases |s|
  {
    if |s| == 0 then []
    else
      var nl := FindChar(s, '\n');
      if nl == |s| then [s] else [s[..nl]] + Lines(s[nl + 1..])
  }

  /** The entries among some lines, at most room of them. */
  function Collect(lines: seq<string>, room: nat): seq<Bind>
    decreases |lines|, room
  {
    if |lines| == 0 || room == 0 then []
    else
      var found := EntryIn(lines[0]);
      found + Collect(lines[1..], room - |found|)
  }

  function Parsed(s: string, room: nat): seq<Bind> {
    Collect(Lines(s), room)
  }

  /** parse_binds, with MAX_BINDS for max. */
  method ParseBinds(s: string, max: nat) returns (binds: seq<Bind>)
    ensures binds == Parsed(s, max) && |binds| <= max
  {
    binds := [];
    var p := 0;
    ghost var rest := Parsed(s, max);
    ghost var whole := rest;
    assert s[0..] == s;
    while p < |s| && |binds| < max
      invariant p <= |s| && |binds| <= max && StillIn(s, p, max - |binds|, rest)
      invariant whole == binds + rest
    {
      var found;
      ghost var before := binds;
      found, p, rest := NextEntry(s, p, max - |binds|, rest);
      Regroup(binds, found, rest);
      binds := binds + found;
    }
    AtEnd(s, p, max - |binds|, rest);
  }

  /** What is still to come from p on. */
  ghost predicate StillIn(s: string, p: nat, room: nat, rest: seq<Bind>) {
    p <= |s| && rest == Parsed(s[p..], room)
  }

  lemma AtEnd(s: string, p: nat, room: nat, rest: seq<Bind>)
    requires StillIn(s, p, room, rest) && (p == |s| || room == 0)
    ensures |rest| == 0
  {
    if room > 0 {
      assert |s[p..]| == 0;
    }
  }

  method NextEntry(s: string, p: nat, ghost room: nat, ghost rest: seq<Bind>) returns (found: seq<Bind>, next: nat, ghost left: seq<Bind>)
    requires p < |s| && StillIn(s, p, room, rest) && room > 0
    ensures p < next <= |s| && |found| <= 1
    ensures rest == found + left && StillIn(s, next, room - |found|, left)
  {
    var nl := FindChar(s[p..], '\n');
    found := EntryIn(s[p..][..nl]);
    next := if nl == |s| - p then |s| else p + nl + 1;
    ParsedNext(s[p..], nl, room);
    assert s[next..] == if nl == |s| - p then "" else s[p..][nl + 1..];
    left := Parsed(s[next..], room - |found|);
  }

  /** The first line, and the rest. */
  lemma ParsedNext(tail: string, nl: nat, room: nat)
    requires tail != "" && nl == FindChar(tail, '\n') && room > 0
    ensures var found := EntryIn(tail[..nl]);
            Parsed(tail, room) == found + Parsed(if nl == |tail| then "" else tail[nl + 1..], room - |found|)
  {
    var lines := Lines(tail);
    assert lines[0] == tail[..nl] && lines[1..] == Lines(if nl == |tail| then "" else tail[nl + 1..]);
    CollectNext(lines, room);
  }

  lemma CollectNext(lines: seq<string>, room: nat)
    requires |lines| > 0 && room > 0
    ensures Collect(lines, room) == EntryIn(lines[0]) + Collect(lines[1..], room - |EntryIn(lines[0])|)
  {}

  lemma Regroup(a: seq<Bind>, b: seq<Bind>, c: seq<Bind>)
    ensures a + (b + c) == (a + b) + c && (a + b) + [] == a + b
  {}

  /** No tab in the guest path, no newline at all, and short enough. */
  predicate Clean(b: Bind) {
    && '\t' !in b.guest && '\n' !in b.guest && '\n' !in b.host
    && 0 < |b.guest| < PATH_MAX && 0 < |b.host| < PATH_MAX
  }

  lemma FindFirst(a: string, c: char, rest: string)
    requires c !in a
    ensures FindChar(a + [c] + rest, c) == |a|
  {
    var s := a + [c] + rest;
    assert s[|a|] == c && forall i :: 0 <= i < |a| ==> s[i] == a[i];
  }

  lemma EntryParsed(b: Bind)
    requires Clean(b)
    ensures EntryIn(b.guest + ['\t'] + b.host) == [b]
  {
    var line := b.guest + ['\t'] + b.host;
    FindFirst(b.guest, '\t', b.host);
    assert line[..|b.guest|] == b.guest && line[|b.guest| + 1..] == b.host;
  }

  lemma LineCut(line: string, rest: string, s: string)
    requires '\n' !in line && s == line + ['\n'] + rest
    ensures FindChar(s, '\n') == |line| < |s| && s[..|line|] == line && s[|line| + 1..] == rest
  {
    FindFirst(line, '\n', rest);
  }

  lemma FirstLine(b: Bind, rest: string)
    requires Clean(b)
    ensures Lines(LineOf(b) + rest) == [b.guest + ['\t'] + b.host] + Lines(rest)
  {
    var line := b.guest + ['\t'] + b.host;
    var s := LineOf(b) + rest;
    assert s == line + ['\n'] + rest;
    LineCut(line, rest, s);
  }

  lemma {:induction false} SerialisedFront(bs: seq<Bind>)
    requires bs != []
    ensures Serialised(bs) == LineOf(bs[0]) + Serialised(bs[1..])
  {
    if |bs| == 1 {
      assert bs[..0] == [] && bs[1..] == [];
    } else {
      var init := bs[..|bs| - 1];
      SerialisedFront(init);
      assert init[1..] == bs[1..][..|bs| - 2];
      assert bs[1..][|bs| - 2] == bs[|bs| - 1];
    }
  }

  function LinesOf(bs: seq<Bind>): (r: seq<string>)
    ensures |r| == |bs| && forall i :: 0 <= i < |r| ==> r[i] == bs[i].guest + ['\t'] + bs[i].host
  {
    seq(|bs|, i requires 0 <= i < |bs| => bs[i].guest + ['\t'] + bs[i].host)
  }

  lemma {:induction false} LinesSurvive(bs: seq<Bind>)
    requires forall i :: 0 <= i < |bs| ==> Clean(bs[i])
    ensures Lines(Serialised(bs)) == LinesOf(bs)
    decreases |bs|
  {
    if |bs| > 0 {
      LinesSurvive(bs[1..]);
      SerialisedFront(bs);
      FirstLine(bs[0], Serialised(bs[1..]));
      LinesOfFront(bs);
    }
  }

  lemma LinesOfFront(bs: seq<Bind>)
    requires |bs| > 0
    ensures LinesOf(bs) == [bs[0].guest + ['\t'] + bs[0].host] + LinesOf(bs[1..])
  {}

  lemma {:induction false} EntriesSurvive(bs: seq<Bind>, room: nat)
    requires forall i :: 0 <= i < |bs| ==> Clean(bs[i])
    ensures Collect(LinesOf(bs), room) == if |bs| <= room then bs else bs[..room]
    decreases |bs|
  {
    if |bs| > 0 && room > 0 {
      EntriesSurvive(bs[1..], room - 1);
      EntryParsed(bs[0]);
      LinesOfFront(bs);
      CollectFront(bs[0].guest + ['\t'] + bs[0].host, LinesOf(bs[1..]), room, bs[0]);
      FrontOf(bs, room);
    }
  }

  lemma FrontOf(bs: seq<Bind>, room: nat)
    requires |bs| > 0 && room > 0
    ensures [bs[0]] + (if |bs[1..]| <= room - 1 then bs[1..] else bs[1..][..room - 1]) == if |bs| <= room then bs else bs[..room]
  {}

  lemma CollectFront(line: string, rest: seq<string>, room: nat, b: Bind)
    requires room > 0 && EntryIn(line) == [b]
    ensures Collect([line] + rest, room) == [b] + Collect(rest, room - 1)
  {
    assert ([line] + rest)[1..] == rest;
  }

  /** The shim gets back the tracer's bindings, as many as it has room for. */
  lemma BindingsSurvive(bs: seq<Bind>, room: nat)
    requires forall i :: 0 <= i < |bs| ==> Clean(bs[i])
    ensures Parsed(Serialised(bs), room) == if |bs| <= room then bs else bs[..room]
  {
    LinesSurvive(bs);
    EntriesSurvive(bs, room);
  }
}
