/** Script interpreters (src/execve/shebang.c): the first line of a file, and the
    loop that follows it and rewrites the argument vector. */
module Shebang {
  import opened Wrappers
  import opened Aoxp

  predicate IsBlank(c: char) {
    c == ' ' || c == '\t'
  }

  predicate IsNewline(c: char) {
    c == '\n' || c == '\r'
  }

  function SkipBlank(s: string): (t: string)
    ensures |t| <= |s|
  {
    if |s| == 0 || !IsBlank(s[0]) then s else SkipBlank(s[1..])
  }

  /** The word a string begins with. */
  function FirstWord(s: string): (t: string)
    ensures |t| <= |s| && t == s[..|t|]
  {
    if |s| == 0 || IsBlank(s[0]) || IsNewline(s[0]) then "" else [s[0]] + FirstWord(s[1..])
  }

  /** The line a string begins with. */
  function FirstLine(s: string): (t: string)
    ensures |t| <= |s| && t == s[..|t|]
  {
    if |s| == 0 || IsNewline(s[0]) then "" else [s[0]] + FirstLine(s[1..])
  }

  function TrimRight(s: string): string {
    if |s| == 0 || !IsBlank(s[|s| - 1]) then s else TrimRight(s[..|s| - 1])
  }

  datatype Line = Line(interpreter: string, argument: string)

  /** What the head of a file asks for: an interpreter, and the rest of the line
      as one argument. */
  function ShebangOf(head: string): Option<Line> {
    if |head| < 2 || head[0] != '#' || head[1] != '!' then None
    else
      var from := SkipBlank(head[2..]);
      var interpreter := FirstWord(from);
      Some(Line(interpreter, TrimRight(FirstLine(SkipBlank(from[|interpreter|..])))))
  }

  predicate Blanks(s: string) {
    forall i :: 0 <= i < |s| ==> s[i] == ' ' || s[i] == '\t'
  }

  predicate NoNewline(s: string) {
    '\n' !in s && '\r' !in s
  }

  /** Text with no blank at either end. */
  predicate Trimmed(s: string) {
    s != "" ==> !Blanks(s[..1]) && !Blanks(s[|s| - 1..])
  }

  lemma {:induction false} SkippedBlanks(s: string) returns (blanks: string)
    ensures s == blanks + SkipBlank(s) && Blanks(blanks) && (SkipBlank(s) != "" ==> !Blanks(SkipBlank(s)[..1]))
  {
    blanks := "";
    if s != "" && IsBlank(s[0]) {
      var more := SkippedBlanks(s[1..]);
      blanks := [s[0]] + more;
    }
  }

  lemma {:induction false} TrimmedBlanks(s: string) returns (blanks: string)
    ensures s == TrimRight(s) + blanks && Blanks(blanks) && (TrimRight(s) != "" ==> !Blanks(TrimRight(s)[|TrimRight(s)| - 1..]))
  {
    blanks := "";
    if s != "" && IsBlank(s[|s| - 1]) {
      var more := TrimmedBlanks(s[..|s| - 1]);
      blanks := more + [s[|s| - 1]];
    }
  }

  lemma {:induction false} WordIs(s: string)
    ensures var w := FirstWord(s); w == s[..|w|] && NoNewline(w) && ' ' !in w && '\t' !in w
    ensures var w := FirstWord(s); |w| < |s| ==> s[|w|] in " \t\n\r"
  {
    if s != "" && !IsBlank(s[0]) && !IsNewline(s[0]) { WordIs(s[1..]); }
  }

  lemma {:induction false} LineIs(s: string)
    ensures var l := FirstLine(s); l == s[..|l|] && NoNewline(l) && (|l| < |s| ==> s[|l|] in "\n\r")
  {
    if s != "" && !IsNewline(s[0]) { LineIs(s[1..]); }
  }

  /** A head asks for an interpreter exactly when it begins with "#!".  Then its
      first line is, but for blanks: the interpreter, which has none in it, and
      apart from it the argument, trimmed at both ends. */
  lemma ShebangMeans(head: string) returns (b1: string, b2: string, b3: string, rest: string)
    ensures ShebangOf(head).Some? <==> "#!" <= head
    ensures ShebangOf(head).Some? ==>
              var line := ShebangOf(head).value;
              && head == "#!" + b1 + line.interpreter + b2 + line.argument + b3 + rest
              && Blanks(b1) && Blanks(b2) && Blanks(b3) && (line.argument != "" ==> b2 != "")
              && NoNewline(line.interpreter) && ' ' !in line.interpreter && '\t' !in line.interpreter
              && NoNewline(line.argument) && Trimmed(line.argument)
              && (rest != "" ==> rest[0] == '\n' || rest[0] == '\r')
  {
    b1, b2, b3, rest := "", "", "", "";
    if |head| >= 2 && head[0] == '#' && head[1] == '!' {
      assert head == "#!" + head[2..];
      b1 := SkippedBlanks(head[2..]);
      var from := SkipBlank(head[2..]);
      b2 := WordPart(from);
      var word := FirstWord(from);
      var behind := SkipBlank(from[|word|..]);
      b3, rest := ArgumentPart(behind);
      Assembled(head, b1, from, word, b2, behind, FirstLine(behind), TrimRight(FirstLine(behind)), b3, rest);
    }
  }

  lemma WordPart(from: string) returns (b2: string)
    ensures var word := FirstWord(from); var behind := SkipBlank(from[|word|..]);
            && from == word + (b2 + behind) && Blanks(b2) && NoNewline(word) && ' ' !in word && '\t' !in word
            && (behind != "" ==> !Blanks(behind[..1])) && (TrimRight(FirstLine(behind)) != "" ==> b2 != "")
  {
    var word := FirstWord(from);
    WordIs(from);
    b2 := SkippedBlanks(from[|word|..]);
    var behind := SkipBlank(from[|word|..]);
    LineIs(behind);
    assert from == word + from[|word|..];
    if b2 == "" && FirstLine(behind) != "" {
      assert b2 + behind == behind;
      NoBlankNoLine(from, word, behind, FirstLine(behind));
    }
  }

  lemma ArgumentPart(behind: string) returns (b3: string, rest: string)
    requires behind != "" ==> !Blanks(behind[..1])
    ensures var line := FirstLine(behind);
            && behind == line + rest && line == TrimRight(line) + b3 && Blanks(b3)
            && NoNewline(TrimRight(line)) && Trimmed(TrimRight(line)) && (rest != "" ==> rest[0] == '\n' || rest[0] == '\r')
  {
    var line := FirstLine(behind);
    LineIs(behind);
    b3 := TrimmedBlanks(line);
    rest := behind[|line|..];
    TrimmedLine(behind, line, b3);
  }

  lemma Assembled(head: string, b1: string, from: string, word: string, b2: string, behind: string, line: string, argument: string, b3: string,
                  rest: string)
    requires head == "#!" + (b1 + from) && from == word + (b2 + behind) && behind == line + rest && line == argument + b3
    ensures head == "#!" + b1 + word + b2 + argument + b3 + rest
  {}

  /** The argument begins where the line does, which is no blank. */
  lemma TrimmedLine(behind: string, line: string, b3: string)
    requires line <= behind && NoNewline(line) && line == TrimRight(line) + b3 && Blanks(b3)
    requires behind != "" ==> !Blanks(behind[..1])
    requires TrimRight(line) != "" ==> !Blanks(TrimRight(line)[|TrimRight(line)| - 1..])
    ensures NoNewline(TrimRight(line)) && Trimmed(TrimRight(line))
  {
    var t := TrimRight(line);
    assert forall i :: 0 <= i < |t| ==> line[i] == t[i];
    if t != "" { assert t[..1] == behind[..1]; }
  }

  /** Right behind the word there is a blank, or the end of the line. */
  lemma NoBlankNoLine(from: string, word: string, behind: string, line: string)
    requires from == word + behind && line <= behind && line != "" && NoNewline(line)
    requires |word| < |from| ==> from[|word|] in " \t\n\r"
    ensures Blanks(behind[..1])
  {
    assert behind[0] == from[|word|] == line[0];
  }

  /** extract_shebang: scans by position. */
  method ExtractShebang(head: string) returns (r: Option<Line>)
    ensures r == ShebangOf(head)
  {
    var len := |head|;
    if len < 2 || head[0] != '#' || head[1] != '!' {
      return None;
    }
    var start := SkipFrom(head, 2);
    var pos := WordEnd(head, start);
    var interpreter := head[start..pos];
    if pos >= len || IsNewline(head[pos]) {
      NothingThere(head[pos..]);
      return Some(Line(interpreter, ""));
    }
    var argument := Argument(head, pos);
    r := Some(Line(interpreter, argument));
  }

  method WordEnd(head: string, start: nat) returns (pos: nat)
    requires start <= |head|
    ensures start <= pos <= |head| && head[start..pos] == FirstWord(head[start..])
    ensures head[start..][|FirstWord(head[start..])|..] == head[pos..]
  {
    pos := start;
    while pos < |head| && !IsBlank(head[pos]) && !IsNewline(head[pos])
      invariant start <= pos <= |head|
      invariant |FirstWord(head[start..])| == pos - start + |FirstWord(head[pos..])|
    {
      assert head[pos..][1..] == head[pos + 1..];
      pos := pos + 1;
    }
    assert head[start..][..pos - start] == head[start..pos];
  }

  lemma Regroup(a: string, b: string, c: string)
    ensures a + (b + c) == (a + b) + c
  {}

  lemma NothingThere(s: string)
    requires s == "" || IsNewline(s[0])
    ensures TrimRight(FirstLine(SkipBlank(s))) == ""
  {}

  method SkipFrom(s: string, start: nat) returns (pos: nat)
    requires start <= |s|
    ensures start <= pos <= |s| && s[pos..] == SkipBlank(s[start..])
  {
    pos := start;
    while pos < |s| && IsBlank(s[pos])
      invariant start <= pos <= |s| && SkipBlank(s[pos..]) == SkipBlank(s[start..])
    {
      assert s[pos..][1..] == s[pos + 1..];
      pos := pos + 1;
    }
  }

  method Argument(head: string, from: nat) returns (argument: string)
    requires from <= |head|
    ensures argument == TrimRight(FirstLine(SkipBlank(head[from..])))
  {
    var pos := SkipFrom(head, from);
    argument := "";
    ghost var line := FirstLine(head[pos..]);
    while pos < |head| && !IsNewline(head[pos])
      invariant pos <= |head| && argument + FirstLine(head[pos..]) == line
    {
      assert head[pos..][1..] == head[pos + 1..];
      Regroup(argument, [head[pos]], FirstLine(head[pos + 1..]));
      argument := argument + [head[pos]];
      pos := pos + 1;
    }
    assert argument + "" == argument;
    while argument != "" && IsBlank(argument[|argument| - 1])
      invariant TrimRight(argument) == TrimRight(line)
      decreases |argument|
    {
      argument := argument[..|argument| - 1];
    }
  }

  // ----- following interpreters -----

  datatype Error = NotExecutable(code: int) | CannotOpen | TooManyInterpreters | BadAddress | NoSpace

  /** What the system says of a path: where it is on the host, if it may be
      executed, and the head of a host file. */
  datatype System = System(check: string -> Result<string, int>, head: string -> Option<string>)

  /** The interpreters from a path on, and the program at the end. */
  datatype Chain = Chain(hops: seq<Line>, program: string)

  /** One look at a path: an error, no interpreter, or one that may be executed. */
  function LookAt(sys: System, path: string): Result<Option<Line>, Error> {
    match sys.check(path)
    case Err(e) => Err(NotExecutable(e))
    case Ok(host) =>
      match sys.head(host)
      case None => Err(CannotOpen)
      case Some(head) =>
        match ShebangOf(head)
        case None => Ok(None)
        case Some(line) =>
          match sys.check(line.interpreter)
          case Err(e) => Err(NotExecutable(e))
          case Ok(_) => Ok(Some(line))
  }

  /** How paths are looked at. */
  type Looking = string -> Result<Option<Line>, Error>

  function Looks(sys: System): Looking {
    (path: string) => LookAt(sys, path)
  }

  function ChainFrom(look: Looking, path: string, rounds: nat): Result<Chain, Error>
    decreases rounds
  {
    if rounds == 0 then Err(TooManyInterpreters)
    else
      match look(path)
      case Err(e) => Err(e)
      case Ok(None) => Ok(Chain([], path))
      case Ok(Some(line)) =>
        match ChainFrom(look, line.interpreter, rounds - 1)
        case Err(e) => Err(e)
        case Ok(chain) => Ok(Chain([line] + chain.hops, chain.program))
  }

  type Strings = seq<Option<string>>

  /** An interpreter and its argument, if it has one. */
  function Words(line: Line): Strings {
    if line.argument == "" then [Some(line.interpreter)] else [Some(line.interpreter), Some(line.argument)]
  }

  /** The last interpreter first. */
  function Front(hops: seq<Line>): Strings {
    if |hops| == 0 then [] else Front(hops[1..]) + Words(hops[0])
  }

  /** What the arguments become: the interpreters' words, innermost first, then
      the script, then what followed the first argument. */
  function Rewritten(hops: seq<Line>, script: string, argv: Strings): Strings
    requires |argv| > 0
  {
    if |hops| == 0 then argv else Front(hops) + [Some(script)] + argv[1..]
  }

  /** One round of the loop. */
  function Prepended(line: Line, path: string, argv: Strings): Strings
    requires |argv| > 0
  {
    Words(line) + [Some(path)] + argv[1..]
  }

  lemma {:induction false} FrontLast(hops: seq<Line>, line: Line)
    ensures Front(hops + [line]) == Words(line) + Front(hops)
  {
    if |hops| == 0 {
      assert hops + [line] == [line] && [line][1..] == [];
      assert Front([line]) == Front([line][1..]) + Words(line);
    } else {
      assert (hops + [line])[1..] == hops[1..] + [line];
      FrontLast(hops[1..], line);
    }
  }

  lemma {:induction false} FrontHead(hops: seq<Line>)
    requires |hops| > 0
    ensures |Front(hops)| > 0 && Front(hops)[0] == Some(hops[|hops| - 1].interpreter)
  {
    if |hops| > 1 {
      FrontHead(hops[1..]);
    } else {
      assert hops[1..] == [];
    }
  }

  function LastPath(hops: seq<Line>, script: string): string {
    if |hops| == 0 then script else hops[|hops| - 1].interpreter
  }

  /** A round more is a hop more. */
  lemma RoundIsHop(hops: seq<Line>, line: Line, script: string, argv: Strings)
    requires |argv| > 0
    ensures Prepended(line, LastPath(hops, script), Rewritten(hops, script, argv)) == Rewritten(hops + [line], script, argv)
  {
    FrontLast(hops, line);
    if |hops| > 0 {
      FrontHead(hops);
      Reseat(Words(line), Front(hops), Some(script), argv[1..]);
    } else {
      assert |Front(hops)| == 0;
    }
  }

  lemma Reseat(words: Strings, front: Strings, script: Option<string>, rest: Strings)
    requires |front| > 0
    ensures words + [front[0]] + (front + [script] + rest)[1..] == words + front + [script] + rest
  {
    assert [front[0]] + (front + [script] + rest)[1..] == front + [script] + rest;
  }

  /** The vector still ends in its null exactly when there was a first argument
      to replace, or nothing was replaced. */
  lemma NullSurvives(hops: seq<Line>, script: string, argv: Strings)
    requires |argv| > 0 && argv[|argv| - 1] == None
    ensures var r := Rewritten(hops, script, argv); |r| > 0 && (r[|r| - 1] == None <==> |argv| > 1 || hops == [])
  {}

  // ----- the code -----

  /** Heads of files hold no terminator. */
  ghost predicate CleanHeads(sys: System) {
    forall host :: sys.head(host).Some? ==> NUL !in sys.head(host).value
  }

  lemma {:induction false} PartsAreClean(s: string)
    requires NUL !in s
    ensures NUL !in SkipBlank(s) && NUL !in FirstWord(s) && NUL !in FirstLine(s) && NUL !in TrimRight(s)
    decreases |s|
  {
    if |s| > 0 {
      PartsAreClean(s[1..]);
      PartsAreClean(s[..|s| - 1]);
    }
  }

  lemma ShebangIsClean(head: string)
    requires NUL !in head && ShebangOf(head).Some?
    ensures NUL !in ShebangOf(head).value.interpreter && NUL !in ShebangOf(head).value.argument
  {
    PartsAreClean(head[2..]);
    var from := SkipBlank(head[2..]);
    PartsAreClean(from);
    var rest := from[|FirstWord(from)|..];
    PartsAreClean(rest);
    PartsAreClean(SkipBlank(rest));
    PartsAreClean(FirstLine(SkipBlank(rest)));
  }

  /** alloc_mem, as a function of the size; it stays clear of a string that is kept. */
  ghost predicate StaysClear(alloc: nat -> Option<nat>, s: Option<string>, addr: nat) {
    forall size: nat :: alloc(size).Some? ==> Apart(s, addr, alloc(size).value, size)
  }

  ghost predicate Allocates(alloc: nat -> Option<nat>) {
    forall size: nat :: alloc(size).Some? ==> 0 < alloc(size).value <= TOP - size
  }

  /** The entries stand for the strings, and what is kept stays clear. */
  ghost predicate Ready(mem: Memory, alloc: nat -> Option<nat>, xs: seq<XPointer>, strings: Strings) {
    && AllMean(mem, xs, strings)
    && forall i :: 0 <= i < |xs| && xs[i].remote != 0 ==> StaysClear(alloc, strings[i], xs[i].remote)
  }

  /** The caller's vector: strings, then the null. */
  ghost predicate OriginalVector(mem: Memory, alloc: nat -> Option<nat>, addr: nat, strings: Strings) {
    && |strings| > 0 && VectorAt(mem, addr, strings)
    && (forall i :: 0 <= i < |strings| ==> (strings[i].None? <==> i == |strings| - 1))
    && (forall i :: 0 <= i < |strings| - 1 ==> StaysClear(alloc, strings[i], Word(mem, addr + 8 * i).GetOr(0)))
  }

  /** What Fetch leaves, and whether it got to the null. */
  ghost predicate Fetched(mem: Memory, addr: nat, xs: seq<XPointer>, ok: bool) {
    && (forall i :: 0 <= i < |xs| ==> Word(mem, addr + 8 * i) == Some(xs[i].remote) && xs[i].local == None)
    && (if ok then |xs| > 0 && forall i :: 0 <= i < |xs| ==> (xs[i].remote == 0 <==> i == |xs| - 1)
        else Word(mem, addr + 8 * |xs|) == None && forall i :: 0 <= i < |xs| ==> xs[i].remote != 0)
  }

  lemma FetchedIsReady(mem: Memory, alloc: nat -> Option<nat>, addr: nat, xs: seq<XPointer>, ok: bool, strings: Strings)
    requires OriginalVector(mem, alloc, addr, strings) && Fetched(mem, addr, xs, ok)
    ensures ok && Ready(mem, alloc, xs, strings)
  {
    var last := |strings| - 1;
    assert strings[last].None?;
    assert Word(mem, addr + 8 * last) == Some(0);
    if |xs| > last {
      assert xs[last].remote == 0;
    } else {
      assert strings[|xs|].None? <==> |xs| == last;
      if ok {
        assert strings[|xs| - 1].Some?;
      }
    }
    forall i | 0 <= i < |xs| ensures Means(mem, xs[i], strings[i]) {
      assert strings[i].None? <==> i == last;
    }
  }

  /** What a round writes over the first entry. */
  function Items(line: Line, path: string): seq<string> {
    if line.argument != "" then [line.interpreter, line.argument, path] else [line.interpreter, path]
  }

  /** One round on the vector. */
  method Prepend(argv: Array, line: Line, path: string)
    requires |argv.xs| > 0
    modifies argv
    ensures argv.xs == Replacements(Items(line, path)) + old(argv.xs)[1..]
  {
    ghost var was := argv.xs;
    if line.argument != "" {
      argv.Insert(0, 2);
      assert argv.xs[3..] == was[1..];
      var ok := argv.WriteStrings([line.interpreter, line.argument, path]);
    } else {
      argv.Insert(0, 1);
      assert argv.xs[2..] == was[1..];
      var ok := argv.WriteStrings([line.interpreter, path]);
    }
  }

  /** All the rounds. */
  function Grown(xs: seq<XPointer>, hops: seq<Line>, script: string): (r: seq<XPointer>)
    requires |xs| > 0
    ensures |r| > 0 && (|hops| > 0 ==> IsFresh(r[0]))
  {
    if |hops| == 0 then xs
    else
      var init := hops[..|hops| - 1];
      Replacements(Items(hops[|hops| - 1], LastPath(init, script))) + Grown(xs, init, script)[1..]
  }

  lemma GrownOne(xs: seq<XPointer>, hops: seq<Line>, script: string, line: Line)
    requires |xs| > 0
    ensures Grown(xs, hops + [line], script) == Replacements(Items(line, LastPath(hops, script))) + Grown(xs, hops, script)[1..]
  {
    assert (hops + [line])[..|hops|] == hops;
  }

  ghost predicate CleanLines(hops: seq<Line>) {
    forall i :: 0 <= i < |hops| ==> NUL !in hops[i].interpreter && NUL !in hops[i].argument
  }

  /** What the entries stand for, after all the rounds. */
  lemma {:induction false} GrownReady(mem: Memory, alloc: nat -> Option<nat>, xs: seq<XPointer>, strings: Strings, hops: seq<Line>, script: string)
    requires |xs| > 0 && |strings| > 0 && Ready(mem, alloc, xs, strings) && CleanLines(hops) && NUL !in script
    ensures Ready(mem, alloc, Grown(xs, hops, script), Rewritten(hops, script, strings))
    decreases |hops|
  {
    if |hops| > 0 {
      var init, line := hops[..|hops| - 1], hops[|hops| - 1];
      GrownReady(mem, alloc, xs, strings, init, script);
      assert hops == init + [line];
      GrownByOne(mem, alloc, xs, strings, init, script, line);
    }
  }

  lemma GrownByOne(mem: Memory, alloc: nat -> Option<nat>, xs: seq<XPointer>, strings: Strings, init: seq<Line>, script: string, line: Line)
    requires |xs| > 0 && |strings| > 0 && Ready(mem, alloc, Grown(xs, init, script), Rewritten(init, script, strings))
    requires CleanLines(init) && NUL !in script && NUL !in line.interpreter && NUL !in line.argument
    ensures Ready(mem, alloc, Grown(xs, init + [line], script), Rewritten(init + [line], script, strings))
  {
    GrownOne(xs, init, script, line);
    GrownStep(mem, alloc, Grown(xs, init, script), strings, init, script, line);
  }

  lemma GrownStep(mem: Memory, alloc: nat -> Option<nat>, grown: seq<XPointer>, strings: Strings, init: seq<Line>, script: string, line: Line)
    requires |strings| > 0 && Ready(mem, alloc, grown, Rewritten(init, script, strings))
    requires CleanLines(init) && NUL !in script && NUL !in line.interpreter && NUL !in line.argument
    ensures Ready(mem, alloc, Replacements(Items(line, LastPath(init, script))) + grown[1..], Rewritten(init + [line], script, strings))
  {
    var path := LastPath(init, script);
    HeadReplaced(mem, alloc, grown, Rewritten(init, script, strings), Items(line, path));
    SomeWords(line, path);
    RoundIsHop(init, line, script, strings);
  }

  function AllSome(items: seq<string>): (r: Strings)
    ensures |r| == |items| && forall i :: 0 <= i < |r| ==> r[i] == Some(items[i])
  {
    seq(|items|, i requires 0 <= i < |items| => Some(items[i]))
  }

  lemma SomeWords(line: Line, path: string)
    ensures AllSome(Items(line, path)) == Words(line) + [Some(path)]
  {}

  lemma HeadReplaced(mem: Memory, alloc: nat -> Option<nat>, was: seq<XPointer>, strings: Strings, items: seq<string>)
    requires |strings| > 0 && Ready(mem, alloc, was, strings)
    requires forall i :: 0 <= i < |items| ==> NUL !in items[i]
    ensures Ready(mem, alloc, Replacements(items) + was[1..], AllSome(items) + strings[1..])
  {
    var xs, now := Replacements(items) + was[1..], AllSome(items) + strings[1..];
    forall i | 0 <= i < |xs| ensures Means(mem, xs[i], now[i]) && (xs[i].remote != 0 ==> StaysClear(alloc, now[i], xs[i].remote)) {
      if i >= |items| {
        assert xs[i] == was[i - |items| + 1] && now[i] == strings[i - |items| + 1];
      }
    }
  }

  /** There is a vector as soon as there is a hop: the fetched one, grown. */
  ghost predicate GrownBy(argv: Array?, mem: Memory, addr: nat, fetched: seq<XPointer>, hops: seq<Line>, script: string)
    reads argv
  {
    && (argv == null <==> |hops| == 0)
    && (argv != null ==> Fetched(mem, addr, fetched, true) && argv.xs == Grown(fetched, hops, script))
  }

  /** What one round does to the vector, which the first one fetches. */
  method Round(argv: Array?, line: Line, path: string, mem: Memory, addr: nat, script: string,
               ghost hops: seq<Line>, ghost fetched: seq<XPointer>)
    returns (next: Array?, ok: bool, ghost fetched': seq<XPointer>)
    requires GrownBy(argv, mem, addr, fetched, hops, script) && path == LastPath(hops, script)
    modifies argv
    ensures ok ==> GrownBy(next, mem, addr, fetched', hops + [line], script) && (next == argv || fresh(next))
    ensures !ok ==> |hops| == 0 && Fetched(mem, addr, fetched', false)
  {
    next, fetched' := argv, fetched;
    if next == null {
      next := new Array();
      ok := next.Fetch(mem, addr);
      fetched' := next.xs;
      if !ok {
        return;
      }
    }
    GrownOne(fetched', hops, script, line);
    Prepend(next, line, path);
    ok := true;
  }

  /** The loop of expand_shebang: the program, and the vector grown by the hops
      taken, if any was. */
  method FollowChain(sys: System, ghost look: Looking, script: string, limit: nat, mem: Memory, addr: nat)
    returns (r: Result<string, Error>, argv: Array?, ghost hops: seq<Line>, ghost fetched: seq<XPointer>)
    requires CleanHeads(sys) && SameLook(sys, look)
    ensures r.Err? ==> ChainFrom(look, script, limit) == Err(r.error) || (r.error == BadAddress && Fetched(mem, addr, fetched, false) && ChainGoesOn(look, script, limit))
    ensures r.Ok? ==> ChainFrom(look, script, limit) == Ok(Chain(hops, r.value)) && CleanLines(hops) && (argv == null <==> |hops| == 0)
    ensures r.Ok? && argv != null ==> fresh(argv) && Fetched(mem, addr, fetched, true) && argv.xs == Grown(fetched, hops, script)
  {
    argv, hops, fetched := null, [], [];
    var path := script;
    var i := 0;
    ghost var rest := ChainFrom(look, script, limit);
    ghost var whole, left: nat := rest, limit;
    OnwardsNone(whole);
    while i < limit
      invariant i <= limit && path == LastPath(hops, script) && CleanLines(hops)
      invariant GrownBy(argv, mem, addr, fetched, hops, script) && (argv != null ==> fresh(argv))
      invariant |hops| == 0 ==> path == script && left == limit
      invariant left == limit - i && rest == ChainFrom(look, path, left) && whole == Onwards(hops, rest)
      decreases limit - i
    {
      var found := Look(sys, look, path);
      if found.Err? {
        return Err(found.error), argv, hops, fetched;
      }
      if found.value.None? {
        NoHop(hops, look, path, left);
        return Ok(path), argv, hops, fetched;
      }
      var line := found.value.value;
      var ok;
      argv, ok, fetched := Round(argv, line, path, mem, addr, script, hops, fetched);
      if !ok {
        FirstHop(look, script, limit, line);
        return Err(BadAddress), argv, hops, fetched;
      }
      rest := HopFound(hops, look, path, left, line);
      hops, path, i, left := hops + [line], line.interpreter, i + 1, left - 1;
    }
    return Err(TooManyInterpreters), argv, hops, fetched;
  }

  /** look is how the system looks at paths. */
  ghost predicate SameLook(sys: System, look: Looking) {
    forall path {:trigger LookAt(sys, path)} :: look(path) == LookAt(sys, path)
  }

  /** There is a first interpreter. */
  predicate ChainGoesOn(look: Looking, path: string, rounds: nat) {
    rounds > 0 && look(path).Ok? && look(path).value.Some?
  }

  lemma FirstHop(look: Looking, path: string, rounds: nat, line: Line)
    requires rounds > 0 && look(path) == Ok(Some(line))
    ensures ChainGoesOn(look, path, rounds)
  {}

  lemma NoHop(hops: seq<Line>, look: Looking, path: string, rounds: nat)
    requires rounds > 0 && look(path) == Ok(None)
    ensures Onwards(hops, ChainFrom(look, path, rounds)) == Ok(Chain(hops, path))
  {
    assert hops + [] == hops;
  }

  /** expand_shebang: the path becomes the program at the end of the chain, and
      the argument register points at a vector that reads as the chain demands,
      if the caller's was a proper one. */
  method ExpandShebang(sys: System, script: string, limit: nat, mem: Memory, addr: nat, alloc: nat -> Option<nat>, ghost strings: Strings)
    returns (r: Result<string, Error>, mem': Memory, addr': nat)
    requires CleanHeads(sys) && NUL !in script && Allocates(alloc) && |strings| > 0
    ensures var chain := ChainFrom(Looks(sys), script, limit);
            && (r.Ok? ==> chain.Ok? && r.value == chain.value.program)
            && (r.Err? ==> chain == Err(r.error) || r.error == NoSpace || (r.error == BadAddress && !OriginalVector(mem, alloc, addr, strings)))
            && (r.Ok? && OriginalVector(mem, alloc, addr, strings) ==> VectorAt(mem', addr', Rewritten(chain.value.hops, script, strings)))
            && (chain.Ok? && chain.value.hops == [] ==> r.Ok? && mem' == mem && addr' == addr)
  {
    mem', addr' := mem, addr;
    var argv;
    ghost var hops, fetched;
    r, argv, hops, fetched := FollowChain(sys, Looks(sys), script, limit, mem, addr);
    if r.Err? {
      if ChainGoesOn(Looks(sys), script, limit) {
        GoingOnHops(Looks(sys), script, limit);
      }
      if OriginalVector(mem, alloc, addr, strings) && Fetched(mem, addr, fetched, false) {
        FetchedIsReady(mem, alloc, addr, fetched, false, strings);
      }
      return;
    }
    if argv != null {
      if OriginalVector(mem, alloc, addr, strings) {
        FetchedIsReady(mem, alloc, addr, fetched, true, strings);
        GrownReady(mem, alloc, fetched, strings, hops, script);
      }
      assert IsFresh(argv.xs[0]);
      var pushed;
      mem', addr', pushed := PushVector(argv, mem, alloc, Rewritten(hops, script, strings));
      if !pushed {
        r := Err(NoSpace);
      }
    }
  }

  lemma GoingOnHops(look: Looking, path: string, rounds: nat)
    requires ChainGoesOn(look, path, rounds)
    ensures var chain := ChainFrom(look, path, rounds); chain.Ok? ==> |chain.value.hops| > 0
  {}

  method Look(sys: System, ghost look: Looking, path: string) returns (r: Result<Option<Line>, Error>)
    requires CleanHeads(sys) && SameLook(sys, look)
    ensures r == look(path)
    ensures r.Ok? && r.value.Some? ==> NUL !in r.value.value.interpreter && NUL !in r.value.value.argument
  {
    assert look(path) == LookAt(sys, path);
    var host := sys.check(path);
    if host.Err? {
      return Err(NotExecutable(host.error));
    }
    var head := sys.head(host.value);
    if head.None? {
      return Err(CannotOpen);
    }
    var line := ExtractShebang(head.value);
    if line.None? {
      return Ok(None);
    }
    ShebangIsClean(head.value);
    var checked := sys.check(line.value.interpreter);
    if checked.Err? {
      return Err(NotExecutable(checked.error));
    }
    return Ok(line);
  }

  method PushVector(argv: Array, mem: Memory, alloc: nat -> Option<nat>, ghost strings: Strings) returns (mem': Memory, base: nat, pushed: bool)
    requires Allocates(alloc) && exists i :: 0 <= i < |argv.xs| && IsFresh(argv.xs[i])
    modifies argv
    ensures pushed && Ready(mem, alloc, old(argv.xs), strings) ==> VectorAt(mem', base, strings)
  {
    var found := alloc(BlockSize(argv.xs));
    if found.None? {
      return mem, 0, false;
    }
    base := found.value;
    assert Ready(mem, alloc, argv.xs, strings) ==> KeptApart(argv.xs, strings, base, BlockSize(argv.xs));
    mem', pushed := argv.Push(mem, base, strings);
  }

  lemma HopFound(hops: seq<Line>, look: Looking, path: string, rounds: nat, line: Line) returns (rest: Result<Chain, Error>)
    requires rounds > 0 && look(path) == Ok(Some(line))
    ensures rest == ChainFrom(look, line.interpreter, rounds - 1)
    ensures Onwards(hops, ChainFrom(look, path, rounds)) == Onwards(hops + [line], rest)
  {
    rest := ChainFrom(look, line.interpreter, rounds - 1);
    if rest.Ok? {
      assert hops + ([line] + rest.value.hops) == (hops + [line]) + rest.value.hops;
    }
  }

  lemma OnwardsNone(r: Result<Chain, Error>)
    ensures Onwards([], r) == r
  {
    if r.Ok? {
      assert [] + r.value.hops == r.value.hops;
    }
  }

  /** A chain found from some hops on. */
  function Onwards(hops: seq<Line>, r: Result<Chain, Error>): Result<Chain, Error> {
    match r
    case Err(e) => Err(e)
    case Ok(chain) => Ok(Chain(hops + chain.hops, chain.program))
  }
}
