/** The load script of src/execve/exit.c: statements packed into words at the
    top of the new stack, followed by the strings they point at. */
module LoadScript {
  import opened Wrappers
  import opened ElfMap

  const OPEN_NEXT := 0
  const OPEN := 1
  const MMAP_FILE := 2
  const MMAP_ANON := 3
  const MAKE_STACK_EXEC := 4
  const START_TRACED := 5
  const START := 6

  datatype StartInfo = StartInfo(stackPointer: nat, entryPoint: nat, atPhdr: nat, atPhent: nat, atPhnum: nat, atEntry: nat, atExecfn: nat)

  datatype Statement =
    | Open(path: nat)
    | OpenNext(path: nat)
    | Mmap(mapping: Mapping)
    | MakeStackExec(start: nat)
    | Begin(info: StartInfo, traced: bool)

  /** The words of a statement: its action, then its fields in order. */
  function Encode(s: Statement): (words: seq<nat>)
    ensures |words| >= 2
  {
    match s
    case Open(path) => [OPEN, path]
    case OpenNext(path) => [OPEN_NEXT, path]
    case Mmap(m) => [if m.anonymous then MMAP_ANON else MMAP_FILE, m.addr, m.length, m.prot, m.offset, m.clearLength]
    case MakeStackExec(start) => [MAKE_STACK_EXEC, start]
    case Begin(i, traced) =>
      [if traced then START_TRACED else START, i.stackPointer, i.entryPoint, i.atPhdr, i.atPhent, i.atPhnum, i.atEntry, i.atExecfn]
  }

  function EncodeAll(script: seq<Statement>): seq<nat> {
    if |script| == 0 then [] else Encode(script[0]) + EncodeAll(script[1..])
  }

  lemma {:induction false} EncodeAllConcat(a: seq<Statement>, b: seq<Statement>)
    ensures EncodeAll(a + b) == EncodeAll(a) + EncodeAll(b)
  {
    if |a| == 0 {
      assert a + b == b;
    } else {
      assert (a + b)[1..] == a[1..] + b;
      EncodeAllConcat(a[1..], b);
      ConcatAssociative(Encode(a[0]), EncodeAll(a[1..]), EncodeAll(b));
    }
  }

  lemma EncodeLast(init: seq<Statement>, last: Statement)
    ensures EncodeAll(init + [last]) == EncodeAll(init) + Encode(last)
  {
    EncodeAllConcat(init, [last]);
    EncodeOne(last);
  }

  lemma EncodeOne(s: Statement)
    ensures EncodeAll([s]) == Encode(s)
  {
    assert [s][1..] == [];
  }

  /** Reading one statement back; None: the loader gives up on the action. */
  function Decode(words: seq<nat>): (r: Option<(Statement, nat)>)
    ensures r.Some? ==> 0 < r.value.1 <= |words|
  {
    if |words| < 2 then None
    else if words[0] == OPEN then Some((Open(words[1]), 2))
    else if words[0] == OPEN_NEXT then Some((OpenNext(words[1]), 2))
    else if words[0] == MAKE_STACK_EXEC then Some((MakeStackExec(words[1]), 2))
    else if (words[0] == MMAP_FILE || words[0] == MMAP_ANON) && |words| >= 6 then
      Some((Mmap(Mapping(words[1], words[2], words[3], words[0] == MMAP_ANON, words[4], words[5])), 6))
    else if (words[0] == START || words[0] == START_TRACED) && |words| >= 8 then
      Some((Begin(StartInfo(words[1], words[2], words[3], words[4], words[5], words[6], words[7]), words[0] == START_TRACED), 8))
    else None
  }

  lemma DecodeEncode(s: Statement, rest: seq<nat>)
    ensures Decode(Encode(s) + rest) == Some((s, |Encode(s)|))
  {}

  // ----- what the tracer puts into the script -----

  /** One object of the program: the executable or its interpreter. */
  datatype Object = Object(mappings: seq<Mapping>, entry: nat, phoff: nat, phentsize: nat, phnum: nat, userPath: string, execStack: bool)

  function MmapStatements(mappings: seq<Mapping>): (r: seq<Statement>)
    ensures |r| == |mappings| && forall i :: 0 <= i < |r| ==> r[i] == Mmap(mappings[i])
  {
    seq(|mappings|, i requires 0 <= i < |mappings| => Mmap(mappings[i]))
  }

  /** The three strings, each with its terminator; the third is left out when
      the raw path is the user path. */
  function Strings(main: Object, interp: Option<Object>, rawPath: Option<string>): string {
    main.userPath + "\0"
    + (if interp.Some? then interp.value.userPath + "\0" else "")
    + (if rawPath.Some? then rawPath.value + "\0" else "")
  }

  /** The padding below the strings. */
  function Pad(sp: nat, length: nat): nat {
    (16 - Minus(sp, length) % 16) % 16
  }

  /** Where the strings begin: total_str below the old stack pointer. */
  function StringsAt(sp: nat, main: Object, interp: Option<Object>, rawPath: Option<string>): int {
    var n := |Strings(main, interp, rawPath)|;
    sp - (n + Pad(sp, n))
  }

  function ScriptInfo(sp: nat, main: Object, interp: Option<Object>, rawPath: Option<string>): StartInfo
    requires |main.mappings| > 0 && StringsAt(sp, main, interp, rawPath) >= 0
  {
    var addr1 := StringsAt(sp, main, interp, rawPath);
    var str1, str2 := |main.userPath| + 1, if interp.Some? then |interp.value.userPath| + 1 else 0;
    StartInfo(sp, if interp.Some? then interp.value.entry else main.entry,
              Plus(main.phoff, main.mappings[0].addr), main.phentsize, main.phnum, main.entry,
              if rawPath.None? then addr1 else addr1 + str1 + str2)
  }

  function InterpPart(addr2: nat, interp: Option<Object>): seq<Statement> {
    if interp.Some? then [OpenNext(addr2)] + MmapStatements(interp.value.mappings) else []
  }

  predicate NeedsExecStack(main: Object, interp: Option<Object>) {
    main.execStack || (interp.Some? && interp.value.execStack)
  }

  function StackPart(sp: nat, page: nat, execStack: bool): seq<Statement>
    requires page > 0
  {
    if execStack then [MakeStackExec(Floor(sp, page))] else []
  }

  /** The padding is meant to put the strings at a multiple of 16; being counted from
      the wrong side it does so exactly when they would end up at a multiple of 8
      without it. */
  lemma PaddingAligns(sp: nat, main: Object, interp: Option<Object>, rawPath: Option<string>)
    requires |Strings(main, interp, rawPath)| <= sp
    ensures StringsAt(sp, main, interp, rawPath) % 16 == 0 <==> (sp - |Strings(main, interp, rawPath)|) % 8 == 0
    ensures 0 <= sp - |Strings(main, interp, rawPath)| - StringsAt(sp, main, interp, rawPath) < 16
  {
    var x := sp - |Strings(main, interp, rawPath)|;
    assert sp < WORD ==> Minus(sp, |Strings(main, interp, rawPath)|) == x;
    MinusAligned(sp, |Strings(main, interp, rawPath)|);
    PadTwice(x);
  }

  lemma MinusAligned(a: nat, b: nat)
    requires b <= a
    ensures Minus(a, b) % 16 == (a - b) % 16
  {
    var x := a - b;
    assert x == x / WORD * WORD + x % WORD;
    assert WORD == 16 * (WORD / 16);
    assert x % 16 == (x % WORD + 16 * (x / WORD * (WORD / 16))) % 16;
  }

  lemma PadTwice(x: nat)
    ensures (x - (16 - x % 16) % 16) % 16 == 0 <==> x % 8 == 0
  {}

  /** The statements in the order they are written. */
  function ScriptOf(sp: nat, page: nat, addr1: nat, addr2: nat, main: Object, interp: Option<Object>, info: StartInfo): seq<Statement>
    requires page > 0
  {
    [Open(addr1)] + MmapStatements(main.mappings) + InterpPart(addr2, interp)
    + StackPart(sp, page, NeedsExecStack(main, interp)) + [Begin(info, false)]
  }

  /** The stack's own page is made executable exactly when one of the objects asks
      for an executable stack. */
  lemma StackMadeExecutable(sp: nat, page: nat, addr1: nat, addr2: nat, main: Object, interp: Option<Object>, info: StartInfo, a: nat)
    requires page > 0
    ensures MakeStackExec(a) in ScriptOf(sp, page, addr1, addr2, main, interp, info) <==>
            (main.execStack || (interp.Some? && interp.value.execStack)) && a == sp - sp % page
  {
    var stack := StackPart(sp, page, NeedsExecStack(main, interp));
    var before := [Open(addr1)] + MmapStatements(main.mappings) + InterpPart(addr2, interp);
    assert ScriptOf(sp, page, addr1, addr2, main, interp, info) == before + stack + [Begin(info, false)];
    assert forall x :: x in before ==> !x.MakeStackExec?;
    assert MakeStackExec(a) in stack <==> NeedsExecStack(main, interp) && a == Floor(sp, page);
  }

  function InterpWords(interp: Option<Object>): nat {
    if interp.Some? then 2 + 6 * |interp.value.mappings| else 0
  }

  /** script_sz in words. */
  function ScriptWords(main: Object, interp: Option<Object>): nat {
    2 + 6 * |main.mappings|
    + InterpWords(interp)
    + (if NeedsExecStack(main, interp) then 2 else 0)
    + 8
  }

  /** The block of memory written below the old stack pointer. */
  datatype Block = Block(base: nat, words: seq<nat>, tail: string)

  /** The C string s stands at addr in the string area. */
  ghost predicate StringAt(b: Block, addr: nat, s: string) {
    var start := b.base + 8 * |b.words|;
    start <= addr && StringIn(b.tail, addr - start, s)
  }

  ghost predicate StringIn(tail: string, at: nat, s: string) {
    at + |s| + 1 <= |tail| && tail[at..at + |s| + 1] == s + "\0"
  }

  /** The buffer and the cursor that walks through it, in words. */
  class ScriptWriter {
    var buffer: array<nat>
    var cursor: nat

    ghost predicate Room(n: nat)
      reads this
    {
      cursor + n <= buffer.Length
    }

    /** What has been written so far. */
    ghost function Written(): (r: seq<nat>)
      requires Room(0)
      reads this, buffer
      ensures |r| == cursor
    {
      buffer[..cursor]
    }

    constructor (n: nat)
      ensures fresh(buffer) && buffer.Length == n && cursor == 0
    {
      buffer := new nat[n];
      cursor := 0;
    }

    /** Stores the words of one statement. */
    method Put(s: Statement)
      requires Room(|Encode(s)|)
      modifies this`cursor, buffer
      ensures cursor == old(cursor) + |Encode(s)| && Written() == old(Written()) + Encode(s)
    {
      ghost var before := buffer[..cursor];
      var words := Encode(s);
      for i := 0 to |words|
        invariant cursor == old(cursor) && buffer[..cursor + i] == before + words[..i]
      {
        buffer[cursor + i] := words[i];
      }
      cursor := cursor + |words|;
    }

    method TranscriptMappings(mappings: seq<Mapping>)
      requires Room(6 * |mappings|)
      modifies this`cursor, buffer
      ensures cursor == old(cursor) + 6 * |mappings| && Written() == old(Written()) + EncodeAll(MmapStatements(mappings))
    {
      ghost var before := Written();
      for i := 0 to |mappings|
        invariant cursor == old(cursor) + 6 * i <= buffer.Length
        invariant Written() == before + EncodeAll(MmapStatements(mappings)[..i])
      {
        EncodeNext(MmapStatements(mappings), i);
        ConcatAssociative(before, EncodeAll(MmapStatements(mappings)[..i]), Encode(Mmap(mappings[i])));
        Put(Mmap(mappings[i]));
      }
      assert MmapStatements(mappings)[..|mappings|] == MmapStatements(mappings);
    }

    method PutInterp(addr2: nat, interp: Option<Object>)
      requires Room(InterpWords(interp))
      modifies this`cursor, buffer
      ensures cursor == old(cursor) + InterpWords(interp) && Written() == old(Written()) + EncodeAll(InterpPart(addr2, interp))
    {
      if interp.Some? {
        ghost var before := Written();
        Put(OpenNext(addr2));
        ghost var middle := Written();
        TranscriptMappings(interp.value.mappings);
        OpenThenMap(before, middle, Written(), OpenNext(addr2), MmapStatements(interp.value.mappings));
      }
    }

    method PutStack(sp: nat, page: nat, execStack: bool)
      requires page > 0 && Room(if execStack then 2 else 0)
      modifies this`cursor, buffer
      ensures cursor == old(cursor) + (if execStack then 2 else 0)
      ensures Written() == old(Written()) + EncodeAll(StackPart(sp, page, execStack))
    {
      if execStack {
        Put(MakeStackExec(Floor(sp, page)));
        EncodeOne(MakeStackExec(Floor(sp, page)));
      }
    }

    /** The statements one after the other, as transfer_load_script has them. */
    method PutScript(sp: nat, page: nat, addr1: nat, addr2: nat, main: Object, interp: Option<Object>, info: StartInfo)
      requires page > 0 && cursor == 0 && buffer.Length == ScriptWords(main, interp)
      modifies this`cursor, buffer
      ensures cursor == buffer.Length
      ensures buffer[..] == EncodeAll(ScriptOf(sp, page, addr1, addr2, main, interp, info))
    {
      ghost var w0 := Written();
      Put(Open(addr1));
      ghost var w1 := Written();
      TranscriptMappings(main.mappings);
      ghost var w2 := Written();
      PutInterp(addr2, interp);
      ghost var w3 := Written();
      PutStack(sp, page, NeedsExecStack(main, interp));
      ghost var w4 := Written();
      Put(Begin(info, false));
      ghost var w5 := Written();
      FiveParts(w0, w1, w2, w3, w4, w5, Open(addr1), MmapStatements(main.mappings), InterpPart(addr2, interp),
                StackPart(sp, page, NeedsExecStack(main, interp)), Begin(info, false));
      assert buffer[..] == buffer[..cursor];
    }
  }

  lemma OpenThenMap(w0: seq<nat>, w1: seq<nat>, w2: seq<nat>, first: Statement, rest: seq<Statement>)
    requires w1 == w0 + Encode(first) && w2 == w1 + EncodeAll(rest)
    ensures w2 == w0 + EncodeAll([first] + rest)
  {
    EncodeAllConcat([first], rest);
    EncodeOne(first);
    ConcatAssociative(w0, Encode(first), EncodeAll(rest));
  }

  lemma FiveParts(w0: seq<nat>, w1: seq<nat>, w2: seq<nat>, w3: seq<nat>, w4: seq<nat>, w5: seq<nat>,
      first: Statement, b: seq<Statement>, c: seq<Statement>, d: seq<Statement>, last: Statement)
    requires w0 == [] && w1 == w0 + Encode(first) && w2 == w1 + EncodeAll(b) && w3 == w2 + EncodeAll(c)
    requires w4 == w3 + EncodeAll(d) && w5 == w4 + Encode(last)
    ensures w5 == EncodeAll([first] + b + c + d + [last])
  {
    EncodeOne(first);
    EncodeOne(last);
    Extend(w1, w2, [first], b);
    Extend(w2, w3, [first] + b, c);
    Extend(w3, w4, [first] + b + c, d);
    Extend(w4, w5, [first] + b + c + d, [last]);
  }

  lemma Extend(before: seq<nat>, after: seq<nat>, a: seq<Statement>, b: seq<Statement>)
    requires before == EncodeAll(a) && after == before + EncodeAll(b)
    ensures after == EncodeAll(a + b)
  {
    EncodeAllConcat(a, b);
  }

  lemma EncodeNext(script: seq<Statement>, i: nat)
    requires i < |script|
    ensures EncodeAll(script[..i + 1]) == EncodeAll(script[..i]) + Encode(script[i])
  {
    assert script[..i + 1] == script[..i] + [script[i]];
    EncodeLast(script[..i], script[i]);
  }

  lemma ConcatAssociative(a: seq<nat>, b: seq<nat>, c: seq<nat>)
    ensures (a + b) + c == a + (b + c)
  {}

  /** The addresses, computed from the lengths before anything is written. */
  method Layout(sp: nat, main: Object, interp: Option<Object>, rawPath: Option<string>) returns (addr1: nat, addr2: nat, info: StartInfo)
    requires |main.mappings| > 0 && StringsAt(sp, main, interp, rawPath) >= 0
    ensures addr1 == StringsAt(sp, main, interp, rawPath) && addr1 + |Strings(main, interp, rawPath)| <= sp
    ensures addr2 == addr1 + |main.userPath| + 1
    ensures info == ScriptInfo(sp, main, interp, rawPath)
  {
    var str1 := |main.userPath| + 1;
    var str2 := if interp.Some? then |interp.value.userPath| + 1 else 0;
    var str3 := if rawPath.Some? then |rawPath.value| + 1 else 0;
    StringsLength(main, interp, rawPath);
    var pad := (16 - Minus(sp, str1 + str2 + str3) % 16) % 16;
    addr1 := sp - (str1 + str2 + str3 + pad);
    addr2 := addr1 + str1;
    var addr3 := if str3 == 0 then addr1 else addr2 + str2;
    var entry := if interp.Some? then interp.value.entry else main.entry;
    info := StartInfo(sp, entry, Plus(main.phoff, main.mappings[0].addr), main.phentsize, main.phnum, main.entry, addr3);
  }

  /** transfer_load_script: the block it leaves on the stack is exactly as long
      as was allocated, holds the script, and ends at the old stack pointer. */
  method TransferLoadScript(sp: nat, page: nat, main: Object, interp: Option<Object>, rawPath: Option<string>) returns (block: Block)
    requires page > 0 && |main.mappings| > 0
    requires 8 * ScriptWords(main, interp) <= StringsAt(sp, main, interp, rawPath)
    ensures var addr1 := StringsAt(sp, main, interp, rawPath);
            && block.words == EncodeAll(ScriptOf(sp, page, addr1, addr1 + |main.userPath| + 1, main, interp, ScriptInfo(sp, main, interp, rawPath)))
            && block.base + 8 * |block.words| == addr1
            && addr1 + |block.tail| == sp
    ensures Strings(main, interp, rawPath) <= block.tail
  {
    var addr1, addr2, info := Layout(sp, main, interp, rawPath);
    var n := ScriptWords(main, interp);
    var w := new ScriptWriter(n);
    w.PutScript(sp, page, addr1, addr2, main, interp, info);
    var strings := WriteStrings(main, interp, rawPath);
    block := Block(addr1 - 8 * n, w.buffer[..], strings + seq(sp - addr1 - |strings|, _ => '\0'));
  }

  method WriteStrings(main: Object, interp: Option<Object>, rawPath: Option<string>) returns (strings: string)
    ensures strings == Strings(main, interp, rawPath)
  {
    strings := main.userPath + "\0";
    if interp.Some? {
      strings := strings + (interp.value.userPath + "\0");
    }
    if rawPath.Some? {
      strings := strings + (rawPath.value + "\0");
    }
  }

  lemma StringsLength(main: Object, interp: Option<Object>, rawPath: Option<string>)
    ensures |Strings(main, interp, rawPath)| ==
            |main.userPath| + 1 + (if interp.Some? then |interp.value.userPath| + 1 else 0)
            + (if rawPath.Some? then |rawPath.value| + 1 else 0)
  {}

  lemma StringInTail(before: string, s: string, after: string)
    ensures StringIn(before + (s + "\0") + after, |before|, s)
  {}

  /** The three strings stand one after the other from the first address on. */
  lemma StringsInPlace(block: Block, main: Object, interp: Option<Object>, rawPath: Option<string>)
    requires Strings(main, interp, rawPath) <= block.tail
    ensures var addr1 := block.base + 8 * |block.words|;
            && StringAt(block, addr1, main.userPath)
            && (interp.Some? ==> StringAt(block, addr1 + |main.userPath| + 1, interp.value.userPath))
            && (rawPath.Some? ==>
                  StringAt(block, addr1 + |main.userPath| + 1 + (if interp.Some? then |interp.value.userPath| + 1 else 0), rawPath.value))
  {
    var rest := block.tail[|Strings(main, interp, rawPath)|..];
    TailStrings(block.tail, main.userPath, if interp.Some? then interp.value.userPath + "\0" else "",
                if rawPath.Some? then rawPath.value + "\0" else "", rest);
  }

  lemma TailStrings(tail: string, first: string, s2: string, s3: string, rest: string)
    requires first + "\0" + s2 + s3 + rest == tail
    ensures StringIn(tail, 0, first)
    ensures forall s :: s2 == s + "\0" ==> StringIn(tail, |first| + 1, s)
    ensures forall s :: s3 == s + "\0" ==> StringIn(tail, |first| + 1 + |s2|, s)
  {
    var s1 := first + "\0";
    assert tail == "" + s1 + (s2 + s3 + rest) == s1 + s2 + (s3 + rest) == (s1 + s2) + s3 + rest;
    StringInTail("", first, s2 + s3 + rest);
    forall s | s2 == s + "\0" ensures StringIn(tail, |first| + 1, s) { StringInTail(s1, s, s3 + rest); }
    forall s | s3 == s + "\0" ensures StringIn(tail, |first| + 1 + |s2|, s) { StringInTail(s1 + s2, s, rest); }
  }

  /** Where the statements with addresses stand. */
  lemma ScriptShape(sp: nat, page: nat, addr1: nat, addr2: nat, main: Object, interp: Option<Object>, info: StartInfo)
    requires page > 0
    ensures var script := ScriptOf(sp, page, addr1, addr2, main, interp, info);
            && |script| >= 2 + |main.mappings| + |InterpPart(addr2, interp)|
            && script[0] == Open(addr1)
            && (interp.Some? ==> script[1 + |main.mappings|] == OpenNext(addr2))
            && script[|script| - 1] == Begin(info, false)
  {}

  /** What the three addresses in a script point at. */
  ghost predicate PointsAtStrings(block: Block, script: seq<Statement>, main: Object, interp: Option<Object>, rawPath: Option<string>) {
    var result :=
      && |script| > 1 + |main.mappings|
      && script[0].Open? && StringAt(block, script[0].path, main.userPath)
      && (interp.Some? ==>
            var next := script[1 + |main.mappings|];
            next.OpenNext? && StringAt(block, next.path, interp.value.userPath))
      && var last := script[|script| - 1];
         last.Begin? && StringAt(block, last.info.atExecfn, rawPath.GetOr(main.userPath));
    result
  }

  /** Every address in the script points at its string. */
  lemma ScriptStrings(block: Block, sp: nat, page: nat, main: Object, interp: Option<Object>, rawPath: Option<string>)
    requires page > 0 && |main.mappings| > 0 && StringsAt(sp, main, interp, rawPath) >= 0
    requires block.base + 8 * |block.words| == StringsAt(sp, main, interp, rawPath)
    requires Strings(main, interp, rawPath) <= block.tail
    ensures var addr1 := StringsAt(sp, main, interp, rawPath);
            PointsAtStrings(block, ScriptOf(sp, page, addr1, addr1 + |main.userPath| + 1, main, interp, ScriptInfo(sp, main, interp, rawPath)),
                            main, interp, rawPath)
  {
    var addr1 := StringsAt(sp, main, interp, rawPath);
    var info := ScriptInfo(sp, main, interp, rawPath);
    StringsInPlace(block, main, interp, rawPath);
    ShapePoints(block, sp, page, addr1, addr1 + |main.userPath| + 1, main, interp, rawPath, info);
  }

  lemma ShapePoints(block: Block, sp: nat, page: nat, addr1: nat, addr2: nat, main: Object, interp: Option<Object>, rawPath: Option<string>, info: StartInfo)
    requires page > 0
    requires StringAt(block, addr1, main.userPath) && StringAt(block, info.atExecfn, rawPath.GetOr(main.userPath))
    requires interp.Some? ==> StringAt(block, addr2, interp.value.userPath)
    ensures PointsAtStrings(block, ScriptOf(sp, page, addr1, addr2, main, interp, info), main, interp, rawPath)
  {
    ScriptShape(sp, page, addr1, addr2, main, interp, info);
  }
}
