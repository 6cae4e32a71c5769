/** How the guest's loop (src/backend/um_session_loop.sh) reads the request that the
    client wrote and the daemon queued: line by line, in a shell. */
module GuestLoop {
  import opened Wrappers
  import opened Framing
  import opened FramingMeaning

  const MARKER: string := "neoproot-exec-v1"

  /** Command substitution loses the newlines at the end. */
  function WithoutEnd(s: string): string {
    if s != "" && s[|s| - 1] == '\n' then WithoutEnd(s[..|s| - 1]) else s
  }

  /** The lines of a here-document, whose last one is ended for it. */
  function LinesOf(s: string): (lines: seq<string>)
    ensures |lines| > 0
    decreases |s|
  {
    var k := Find(s);
    if k == |s| then [s] else [s[..k]] + LinesOf(s[k + 1..])
  }

  predicate IsSize(s: string) {
    s != "" && forall i :: 0 <= i < |s| ==> '0' <= s[i] <= '9'
  }

  /** Pairs of a size and an argument, up to a line that is no size. */
  function ReadArgs(lines: seq<string>): seq<string> {
    if |lines| == 0 || !IsSize(lines[0]) then []
    else if |lines| == 1 then [""]
    else [lines[1]] + ReadArgs(lines[2..])
  }

  datatype Command = Command(cwd: string, args: seq<string>)

  /** What the loop runs; None: it answers 125. */
  function CommandIn(text: string): Option<Command> {
    var lines := LinesOf(WithoutEnd(text));
    var args := if |lines| > 2 then ReadArgs(lines[2..]) else [];
    if lines[0] != MARKER || args == [] then None
    else Some(Command(lines[1], args))
  }

  /** The loop over the lines: first the marker, then the directory, then sizes
      with the argument behind each. */
  method ReadRequest(text: string) returns (r: Option<Command>)
    ensures r == CommandIn(text)
  {
    var lines := LinesOf(WithoutEnd(text));
    var marker, cwd, args := lines[0], "", [];
    var at := 1;
    if |lines| > 1 {
      cwd, at := lines[1], 2;
    }
    ghost var all := ReadArgs(lines[at..]);
    while at < |lines|
      invariant 1 <= at <= |lines| + 1 && (at <= |lines| ==> args + ReadArgs(lines[at..]) == all) && (at > |lines| ==> args == all)
    {
      if !IsSize(lines[at]) {
        assert args + [] == args;
        break;
      }
      var argument := "";
      if at + 1 < |lines| {
        argument := lines[at + 1];
        assert lines[at..][2..] == lines[at + 2..];
        assert args + ([argument] + ReadArgs(lines[at + 2..])) == (args + [argument]) + ReadArgs(lines[at + 2..]);
      }
      args, at := args + [argument], at + 2;
    }
    if at == |lines| { assert args + [] == args; }
    assert |lines| > 2 ==> all == ReadArgs(lines[2..]);
    if marker != MARKER || |args| == 0 {
      return None;
    }
    return Some(Command(cwd, args));
  }

  // ----- lines -----

  predicate OneLine(s: string) {
    '\n' !in s
  }

  predicate AllOneLine(args: seq<string>) {
    forall i :: 0 <= i < |args| ==> OneLine(args[i])
  }

  lemma LinesOfLine(line: string, s: string)
    requires OneLine(line)
    ensures LinesOf(line + "\n" + s) == [line] + LinesOf(s)
  {
    FindFirst(line, s);
    var t := line + "\n" + s;
    assert t[..|line|] == line && t[|line| + 1..] == s;
  }

  lemma {:induction false} LinesAreLines(s: string)
    ensures forall i :: 0 <= i < |LinesOf(s)| ==> OneLine(LinesOf(s)[i])
    decreases |s|
  {
    var k := Find(s);
    if k < |s| { LinesAreLines(s[k + 1..]); }
  }

  /** Lines with a newline behind each. */
  function Ended(lines: seq<string>): string {
    if |lines| == 0 then "" else (lines[0] + "\n") + Ended(lines[1..])
  }

  lemma Regroup(a: string, b: string, c: string)
    ensures a + (b + c) == (a + b) + c
  {}

  lemma {:induction false} EndedConcat(a: seq<string>, b: seq<string>)
    ensures Ended(a + b) == Ended(a) + Ended(b)
  {
    if |a| == 0 {
      assert a + b == b && "" + Ended(b) == Ended(b);
    } else {
      assert (a + b)[0] == a[0] && (a + b)[1..] == a[1..] + b;
      EndedConcat(a[1..], b);
      Regroup(a[0] + "\n", Ended(a[1..]), Ended(b));
    }
  }

  lemma EndedOne(line: string)
    ensures Ended([line]) == line + "\n"
  {
    assert [line][1..] == [] && line + "\n" + "" == line + "\n";
  }

  lemma {:induction false} LinesOfEnded(lines: seq<string>, last: string)
    requires AllOneLine(lines) && OneLine(last)
    ensures LinesOf(Ended(lines) + last) == lines + [last]
  {
    if |lines| == 0 {
      assert Ended(lines) + last == last;
    } else {
      assert AllOneLine(lines[1..]);
      LinesOfEnded(lines[1..], last);
      Regroup(lines[0] + "\n", Ended(lines[1..]), last);
      LinesOfLine(lines[0], Ended(lines[1..]) + last);
      assert [lines[0]] + (lines[1..] + [last]) == lines + [last];
    }
  }

  lemma StripOne(s: string)
    ensures WithoutEnd(s + "\n") == WithoutEnd(s)
  {
    assert (s + "\n")[..|s|] == s;
  }

  /** The last line loses its end, and an empty one behind it goes. */
  lemma Stripped(init: seq<string>, last: string)
    requires last != "" && OneLine(last)
    ensures WithoutEnd(Ended(init + [last])) == Ended(init) + last
    ensures WithoutEnd(Ended(init + [last, ""])) == Ended(init) + last
  {
    var text := Ended(init) + last;
    EndedConcat(init, [last]);
    EndedOne(last);
    Regroup(Ended(init), last, "\n");
    StripOne(text);
    assert text[|text| - 1] == last[|last| - 1];
    EndedConcat(init + [last], [""]);
    EndedOne("");
    assert init + [last] + [""] == init + [last, ""] && "" + "\n" == "\n";
    StripOne(text + "\n");
  }

  // ----- the request as it was written -----

  function Flat(args: seq<string>): seq<string> {
    if |args| == 0 then [] else [Decimal(|args[0]|), args[0]] + Flat(args[1..])
  }

  lemma {:induction false} RecordsAreLines(args: seq<string>)
    ensures Records(args) == Ended(Flat(args))
  {
    if |args| > 0 {
      var size, a, rest := Decimal(|args[0]|), args[0], Flat(args[1..]);
      RecordsAreLines(args[1..]);
      assert Flat(args)[0] == size && Flat(args)[1..] == [a] + rest;
      assert ([a] + rest)[0] == a && ([a] + rest)[1..] == rest;
      Regroup(size + "\n", a + "\n", Ended(rest));
      Regroup(size + "\n", a, "\n");
    }
  }

  /** The request as the guest finds it. */
  lemma RequestIsLines(cwd: string, args: seq<string>)
    ensures MARKER + "\n" + RequestPayload(cwd, args) == Ended([MARKER, cwd] + Flat(args))
  {
    RecordsAreLines(args);
    var lines := [MARKER, cwd] + Flat(args);
    assert lines[0] == MARKER && lines[1..][0] == cwd && lines[1..][1..] == Flat(args);
    assert lines[1..] == [cwd] + Flat(args);
  }

  lemma {:induction false} FlatIsLines(args: seq<string>)
    requires AllOneLine(args)
    ensures AllOneLine(Flat(args))
  {
    if |args| > 0 {
      FlatIsLines(args[1..]);
      DigitsAreNoNewlines(|args[0]|);
    }
  }

  lemma {:induction false} FlatReads(args: seq<string>, tail: seq<string>)
    ensures ReadArgs(Flat(args) + tail) == args + ReadArgs(tail)
  {
    if |args| == 0 {
      assert Flat(args) + tail == tail && args + ReadArgs(tail) == ReadArgs(tail);
    } else {
      var lines := Flat(args) + tail;
      assert lines[0] == Decimal(|args[0]|) && lines[1] == args[0] && lines[2..] == Flat(args[1..]) + tail;
      DecimalIsSize(|args[0]|);
      FlatReads(args[1..], tail);
      assert args == [args[0]] + args[1..];
    }
  }

  lemma DecimalIsSize(n: nat)
    ensures IsSize(Decimal(n))
  {
    assert forall i :: 0 <= i < |Decimal(n)| ==> IsDigit(Decimal(n)[i]);
  }

  lemma {:induction false} FlatConcat(a: seq<string>, b: string)
    ensures Flat(a + [b]) == Flat(a) + [Decimal(|b|), b]
  {
    if |a| == 0 {
      assert a + [b] == [b] && Flat([b][1..]) == [];
    } else {
      assert (a + [b])[0] == a[0] && (a + [b])[1..] == a[1..] + [b];
      FlatConcat(a[1..], b);
    }
  }

  lemma Visible(init: seq<string>, last: string)
    requires AllOneLine(init) && OneLine(last) && last != ""
    ensures LinesOf(WithoutEnd(Ended(init + [last]))) == init + [last]
    ensures LinesOf(WithoutEnd(Ended(init + [last, ""]))) == init + [last]
  {
    Stripped(init, last);
    LinesOfEnded(init, last);
  }

  /** The lines the guest sees: all, or all but an empty one at the end. */
  lemma SeenLines(head: seq<string>, args: seq<string>) returns (rest: seq<string>)
    requires AllOneLine(head) && AllOneLine(args) && args != []
    ensures LinesOf(WithoutEnd(Ended(head + Flat(args)))) == head + rest && rest != [] && ReadArgs(rest) == args
  {
    var init, last := args[..|args| - 1], args[|args| - 1];
    assert args == init + [last];
    FlatConcat(init, last);
    FlatIsLines(init);
    if last != "" {
      rest := Flat(args);
      DigitsAreNoNewlines(|last|);
      var front := head + Flat(init) + [Decimal(|last|)];
      assert head + rest == front + [last];
      Visible(front, last);
      ArgsOfFlat(args);
    } else {
      rest := Flat(init) + [Decimal(0)];
      DigitsAreNoNewlines(0);
      var front := head + Flat(init);
      assert head + Flat(args) == front + [Decimal(0), ""] && head + rest == front + [Decimal(0)];
      Visible(front, Decimal(0));
      FlatReads(init, [Decimal(0)]);
      DecimalIsSize(0);
    }
  }

  lemma ArgsOfFlat(args: seq<string>)
    ensures ReadArgs(Flat(args)) == args
  {
    FlatReads(args, []);
    assert Flat(args) + [] == Flat(args) && args + [] == args;
  }

  lemma RequestReads(cwd: string, args: seq<string>)
    requires args != [] && OneLine(cwd) && AllOneLine(args)
    ensures CommandIn(MARKER + "\n" + RequestPayload(cwd, args)) == Some(Command(cwd, args))
  {
    RequestIsLines(cwd, args);
    var rest := SeenLines([MARKER, cwd], args);
    var lines := [MARKER, cwd] + rest;
    assert lines[0] == MARKER && lines[1] == cwd && lines[2..] == rest;
  }

  /** The guest runs the command the client asked for exactly when there is one and
      neither the directory nor any argument has a newline in it: the sizes are
      written, but nothing reads by them. */
  lemma RequestReadsBack(cwd: string, args: seq<string>)
    ensures CommandIn(MARKER + "\n" + RequestPayload(cwd, args)) == Some(Command(cwd, args)) <==>
            args != [] && OneLine(cwd) && AllOneLine(args)
  {
    var text := MARKER + "\n" + RequestPayload(cwd, args);
    if args != [] && OneLine(cwd) && AllOneLine(args) {
      RequestReads(cwd, args);
    } else if CommandIn(text) == Some(Command(cwd, args)) {
      LinesAreLines(WithoutEnd(text));
      ArgsAreLines(LinesOf(WithoutEnd(text))[2..]);
    }
  }

  lemma {:induction false} ArgsAreLines(lines: seq<string>)
    requires forall i :: 0 <= i < |lines| ==> OneLine(lines[i])
    ensures AllOneLine(ReadArgs(lines))
  {
    if |lines| > 1 && IsSize(lines[0]) { ArgsAreLines(lines[2..]); }
  }

  /** An argument of two lines is cut after the first one, and what is behind it
      taken for a size. */
  lemma NewlineCutsAnArgument(cwd: string, a: string, b: string)
    requires OneLine(cwd) && OneLine(a) && OneLine(b) && b != "" && !IsSize(b)
    ensures CommandIn(MARKER + "\n" + RequestPayload(cwd, [a + "\n" + b])) == Some(Command(cwd, [a]))
  {
    var size := SplitArgument(cwd, a, b);
    ReadsOne(size, a, b);
    assert [MARKER, cwd, size, a, b][2..] == [size, a, b];
  }

  lemma SplitArgument(cwd: string, a: string, b: string) returns (size: string)
    requires OneLine(cwd) && OneLine(a) && OneLine(b) && b != ""
    ensures IsSize(size)
    ensures LinesOf(WithoutEnd(MARKER + "\n" + RequestPayload(cwd, [a + "\n" + b]))) == [MARKER, cwd, size, a, b]
  {
    var argument := a + "\n" + b;
    size := Decimal(|argument|);
    DecimalIsSize(|argument|);
    DigitsAreNoNewlines(|argument|);
    RequestIsLines(cwd, [argument]);
    FlatOne(argument);
    assert [MARKER, cwd] + [size, argument] == [MARKER, cwd, size] + [argument];
    SplitLine([MARKER, cwd, size], a, b);
    assert [MARKER, cwd, size] + [a] == [MARKER, cwd, size, a];
    Visible([MARKER, cwd, size, a], b);
  }

  lemma FlatOne(argument: string)
    ensures Flat([argument]) == [Decimal(|argument|), argument]
  {
    assert [argument][1..] == [];
  }

  lemma ReadsOne(size: string, a: string, b: string)
    requires IsSize(size) && !IsSize(b)
    ensures ReadArgs([size, a, b]) == [a]
  {
    assert [size, a, b][2..] == [b];
  }

  lemma SplitLine(head: seq<string>, a: string, b: string)
    ensures Ended(head + [a + "\n" + b]) == Ended(head + [a] + [b])
  {
    EndedConcat(head, [a + "\n" + b]);
    EndedConcat(head + [a], [b]);
    EndedConcat(head, [a]);
    EndedOne(a + "\n" + b);
    EndedOne(a);
    EndedOne(b);
    Regroup(Ended(head), a + "\n", b + "\n");
    Regroup(a + "\n", b, "\n");
  }
}
