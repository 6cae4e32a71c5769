/** What a compiled filter does, against what the list of system calls asks for. */
module FilterMeaning {
  import opened Wrappers
  import opened Bpf
  import opened Seccomp

  // ----- running code placed anywhere in a program -----

  function InsnAt(code: seq<Insn>, i: nat): Insn
    requires i < |code|
  {
    code[i]
  }

  ghost predicate HasAt(prog: seq<Insn>, pc: nat, code: seq<Insn>) {
    pc + |code| <= |prog| && forall i {:trigger InsnAt(code, i)} :: 0 <= i < |code| ==> prog[pc + i] == InsnAt(code, i)
  }

  lemma FetchAt(prog: seq<Insn>, pc: nat, code: seq<Insn>, i: nat)
    requires HasAt(prog, pc, code) && i < |code|
    ensures prog[pc + i] == code[i]
  {
    var _ := InsnAt(code, i);
  }

  lemma HasAtConcat(prog: seq<Insn>, pc: nat, a: seq<Insn>, b: seq<Insn>)
    requires HasAt(prog, pc, a + b)
    ensures HasAt(prog, pc, a) && HasAt(prog, pc + |a|, b)
  {
    forall i | 0 <= i < |a| ensures prog[pc + i] == InsnAt(a, i) {
      assert InsnAt(a + b, i) == a[i];
    }
    forall i | 0 <= i < |b| ensures prog[pc + |a| + i] == InsnAt(b, i) {
      assert InsnAt(a + b, |a| + i) == b[i];
    }
  }

  datatype Outcome = Return(value: nat) | Fall(key: nat)

  /** What is left in the accumulator matters: after an argument test that
      failed it is the argument, not the system call number. */
  function BlockOutcome(b: Block, key: nat, d: Data): Outcome
    requires d.Valid()
  {
    match b
    case Plain(sc, ret) => if key == sc then Return(ret) else Fall(key)
    case ByArg(sc, ret, cmds) =>
      if key != sc then Fall(key)
      else if d.argLow[1] in cmds then Return(ret)
      else Fall(d.argLow[1])
    case Tagged(sc, argIndex) =>
      if d.nr != sc then Fall(d.nr)
      else if argIndex < 6 && d.argHigh[argIndex] == RAW_TAG then Return(RET_ALLOW)
      else Return(RET_USER_NOTIF)
  }

  /** The machine's answer when the code up to pc has this outcome. */
  function Resume(prog: seq<Insn>, pc: nat, outcome: Outcome, d: Data): Option<nat>
    requires d.Valid()
  {
    match outcome
    case Return(v) => Some(v)
    case Fall(key) => Run(prog, pc, key, d)
  }

  function Scan(blocks: seq<Block>, key: nat, d: Data): Outcome
    requires d.Valid()
  {
    if |blocks| == 0 then Fall(key)
    else match BlockOutcome(blocks[0], key, d)
      case Return(v) => Return(v)
      case Fall(k) => Scan(blocks[1..], k, d)
  }

  /** Blocks whose jump distances fit their byte and whose loads are in range. */
  predicate Encodable(b: Block) {
    match b
    case Plain(sc, ret) => sc <= UINT32_MAX && ret <= UINT32_MAX
    case ByArg(sc, ret, cmds) =>
      sc <= UINT32_MAX && ret <= UINT32_MAX && |cmds| <= 127 && forall i :: 0 <= i < |cmds| ==> cmds[i] <= UINT32_MAX
    case Tagged(sc, argIndex) => sc <= UINT32_MAX && argIndex < 6
  }

  ghost predicate AllEncodable(blocks: seq<Block>) {
    forall i :: 0 <= i < |blocks| ==> Encodable(blocks[i])
  }

  lemma {:induction false} RunCmdTests(prog: seq<Insn>, pc: nat, acc: nat, d: Data, cmds: seq<nat>, ret: nat)
    requires d.Valid() && HasAt(prog, pc, CmdTests(cmds, ret))
    ensures Run(prog, pc, acc, d) == if acc in cmds then Some(ret) else Run(prog, pc + 2 * |cmds|, acc, d)
  {
    if |cmds| > 0 {
      var init, last := cmds[..|cmds| - 1], cmds[|cmds| - 1];
      var test := [Jeq(last, 0, 1), Ret(ret)];
      HasAtConcat(prog, pc, CmdTests(init, ret), test);
      RunCmdTests(prog, pc, acc, d, init, ret);
      FetchAt(prog, pc + 2 * |init|, test, 0);
      FetchAt(prog, pc + 2 * |init|, test, 1);
      assert acc in cmds <==> acc in init || acc == last by {
        assert cmds == init + [last];
      }
    }
  }

  lemma RunPlain(prog: seq<Insn>, pc: nat, acc: nat, d: Data, b: Block)
    requires d.Valid() && b.Plain? && HasAt(prog, pc, Code(b))
    ensures Run(prog, pc, acc, d) == if acc == b.sc then Some(b.ret) else Run(prog, pc + 2, acc, d)
  {
    FetchAt(prog, pc, Code(b), 0);
    FetchAt(prog, pc, Code(b), 1);
  }

  lemma RunByArg(prog: seq<Insn>, pc: nat, acc: nat, d: Data, b: Block)
    requires d.Valid() && b.ByArg? && Encodable(b) && HasAt(prog, pc, Code(b))
    ensures Run(prog, pc, acc, d) ==
            if acc != b.sc then Run(prog, pc + |Code(b)|, acc, d)
            else if d.argLow[1] in b.cmds then Some(b.ret)
            else Run(prog, pc + |Code(b)|, d.argLow[1], d)
  {
    var head := [Jeq(b.sc, 0, 1 + 2 * |b.cmds|), LdAbs(ArgLow(1))];
    HasAtConcat(prog, pc, head, CmdTests(b.cmds, b.ret));
    FetchAt(prog, pc, head, 0);
    FetchAt(prog, pc, head, 1);
    assert Load(d, ArgLow(1)) == Some(d.argLow[1]);
    if acc == b.sc {
      RunCmdTests(prog, pc + 2, d.argLow[1], d, b.cmds, b.ret);
    }
  }

  lemma RunTagged(prog: seq<Insn>, pc: nat, acc: nat, d: Data, b: Block)
    requires d.Valid() && b.Tagged? && Encodable(b) && HasAt(prog, pc, Code(b))
    ensures Run(prog, pc, acc, d) ==
            if d.nr != b.sc then Run(prog, pc + 6, d.nr, d)
            else Some(if d.argHigh[b.argIndex] == RAW_TAG then RET_ALLOW else RET_USER_NOTIF)
  {
    FetchAt(prog, pc, Code(b), 0);
    FetchAt(prog, pc, Code(b), 1);
    assert prog[pc] == LdAbs(Nr) && prog[pc + 1] == Jeq(b.sc, 0, 4);
    assert Run(prog, pc, acc, d) == Run(prog, pc + 1, d.nr, d);
    if d.nr == b.sc {
      assert Step(prog[pc + 1], pc + 1, d.nr, d) == Running(pc + 2, d.nr);
      assert Run(prog, pc + 1, d.nr, d) == Run(prog, pc + 2, d.nr, d);
      RunTagTest(prog, pc, d, b);
    } else {
      assert Step(prog[pc + 1], pc + 1, d.nr, d) == Running(pc + 6, d.nr);
      assert Run(prog, pc + 1, d.nr, d) == Run(prog, pc + 6, d.nr, d);
    }
  }

  lemma RunTagTest(prog: seq<Insn>, pc: nat, d: Data, b: Block)
    requires d.Valid() && b.Tagged? && Encodable(b) && HasAt(prog, pc, Code(b))
    ensures Run(prog, pc + 2, d.nr, d) == Some(if d.argHigh[b.argIndex] == RAW_TAG then RET_ALLOW else RET_USER_NOTIF)
  {
    FetchAt(prog, pc, Code(b), 2);
    FetchAt(prog, pc, Code(b), 3);
    FetchAt(prog, pc, Code(b), 4);
    FetchAt(prog, pc, Code(b), 5);
    assert Load(d, ArgHigh(b.argIndex)) == Some(d.argHigh[b.argIndex]);
    var tag := d.argHigh[b.argIndex];
    assert Run(prog, pc + 2, d.nr, d) == Run(prog, pc + 3, tag, d);
    assert prog[pc + 3] == Jeq(RAW_TAG, 0, 1);
    if tag == RAW_TAG {
      assert Run(prog, pc + 3, tag, d) == Run(prog, pc + 4, tag, d);
    } else {
      assert Run(prog, pc + 3, tag, d) == Run(prog, pc + 5, tag, d);
    }
  }

  lemma RunBlock(prog: seq<Insn>, pc: nat, acc: nat, d: Data, b: Block)
    requires d.Valid() && Encodable(b) && HasAt(prog, pc, Code(b))
    ensures Run(prog, pc, acc, d) == Resume(prog, pc + |Code(b)|, BlockOutcome(b, acc, d), d)
  {
    match b
    case Plain(_, _) => RunPlain(prog, pc, acc, d, b);
    case ByArg(_, _, _) => RunByArg(prog, pc, acc, d, b);
    case Tagged(_, _) => RunTagged(prog, pc, acc, d, b);
  }

  lemma CodesCons(blocks: seq<Block>)
    requires blocks != []
    ensures Codes(blocks) == Code(blocks[0]) + Codes(blocks[1..])
  {
    assert blocks == [blocks[0]] + blocks[1..];
    CodesConcat([blocks[0]], blocks[1..]);
    SingleCode([blocks[0]]);
  }

  /** Wherever the code stands in a program it does what scanning the blocks
      from the same accumulator says. */
  ghost predicate ScansAs(code: seq<Insn>, blocks: seq<Block>, d: Data)
    requires d.Valid()
  {
    forall prog: seq<Insn>, pc: nat, acc: nat {:trigger HasAt(prog, pc, code), Run(prog, pc, acc, d)} ::
      HasAt(prog, pc, code) ==> Run(prog, pc, acc, d) == Resume(prog, pc + |code|, Scan(blocks, acc, d), d)
  }

  lemma CodeScans(b: Block, d: Data)
    requires d.Valid() && Encodable(b)
    ensures ScansAs(Code(b), [b], d)
  {
    forall prog: seq<Insn>, pc: nat, acc: nat | HasAt(prog, pc, Code(b))
      ensures Run(prog, pc, acc, d) == Resume(prog, pc + |Code(b)|, Scan([b], acc, d), d)
    {
      RunBlock(prog, pc, acc, d, b);
      ScanSingle(b, acc, d);
    }
  }

  lemma ScanSingle(b: Block, key: nat, d: Data)
    requires d.Valid()
    ensures Scan([b], key, d) == BlockOutcome(b, key, d)
  {}

  lemma ScanConcat(first: seq<Insn>, b: Block, second: seq<Insn>, rest: seq<Block>, d: Data)
    requires d.Valid() && ScansAs(first, [b], d) && ScansAs(second, rest, d)
    ensures ScansAs(first + second, [b] + rest, d)
  {
    forall prog: seq<Insn>, pc: nat, acc: nat | HasAt(prog, pc, first + second)
      ensures Run(prog, pc, acc, d) == Resume(prog, pc + |first + second|, Scan([b] + rest, acc, d), d)
    {
      HasAtConcat(prog, pc, first, second);
      ScanSingle(b, acc, d);
      assert ([b] + rest)[0] == b && ([b] + rest)[1..] == rest;
      assert Run(prog, pc, acc, d) == Resume(prog, pc + |first|, BlockOutcome(b, acc, d), d);
      if BlockOutcome(b, acc, d).Fall? {
        var key := BlockOutcome(b, acc, d).key;
        assert Run(prog, pc + |first|, key, d) == Resume(prog, pc + |first| + |second|, Scan(rest, key, d), d);
      }
      assert pc + |first + second| == pc + |first| + |second|;
    }
  }

  lemma {:induction false} CodesScan(blocks: seq<Block>, d: Data)
    requires d.Valid() && AllEncodable(blocks)
    ensures ScansAs(Codes(blocks), blocks, d)
    decreases |blocks|
  {
    if |blocks| > 0 {
      var b, rest := blocks[0], blocks[1..];
      assert AllEncodable(rest) && Encodable(b);
      CodeScans(b, d);
      CodesScan(rest, d);
      CodesCons(blocks);
      ScanConcat(Code(b), b, Codes(rest), rest, d);
      assert blocks == [b] + rest;
    }
  }

  // ----- sections -----

  function SectionMeaning(a: Arch, list: seq<FilteredSysnum>, o: Options, d: Data): nat
    requires d.Valid()
  {
    match Scan(ArchBlocks(a.abis, list, o), d.nr, d)
    case Return(v) => v
    case Fall(_) => RET_ALLOW
  }

  lemma RunHeader(prog: seq<Insn>, pc: nat, acc: nat, d: Data, arch: Word, length: nat)
    requires d.Valid() && HasAt(prog, pc, Header(arch, length))
    ensures Run(prog, pc, acc, d) ==
            if d.arch == arch then Run(prog, pc + 4, d.nr, d) else Run(prog, pc + 4 + length, d.arch, d)
  {
    FetchAt(prog, pc, Header(arch, length), 0);
    FetchAt(prog, pc, Header(arch, length), 1);
    FetchAt(prog, pc, Header(arch, length), 2);
    FetchAt(prog, pc, Header(arch, length), 3);
    assert Load(d, ArchField) == Some(d.arch) && Load(d, Nr) == Some(d.nr);
    assert Run(prog, pc, acc, d) == Run(prog, pc + 1, d.arch, d);
    if d.arch == arch {
      assert Run(prog, pc + 1, d.arch, d) == Run(prog, pc + 3, d.arch, d);
    } else {
      assert Run(prog, pc + 1, d.arch, d) == Run(prog, pc + 2, d.arch, d);
    }
  }

  lemma RunSection(prog: seq<Insn>, pc: nat, acc: nat, d: Data, a: Arch, list: seq<FilteredSysnum>, o: Options)
    requires d.Valid() && AllEncodable(ArchBlocks(a.abis, list, o)) && HasAt(prog, pc, Section(a, list, o))
    ensures Run(prog, pc, acc, d) ==
            if d.arch == a.value then Some(SectionMeaning(a, list, o, d))
            else Run(prog, pc + |Section(a, list, o)|, d.arch, d)
  {
    var blocks := ArchBlocks(a.abis, list, o);
    var codes := Codes(blocks);
    var body := codes + [Ret(RET_ALLOW)];
    HasAtConcat(prog, pc, Header(a.value, |body|), body);
    RunHeader(prog, pc, acc, d, a.value, |body|);
    if d.arch == a.value {
      HasAtConcat(prog, pc + 4, codes, [Ret(RET_ALLOW)]);
      CodesScan(blocks, d);
      RunBody(prog, pc + 4, d, blocks, codes);
    }
  }

  lemma RunBody(prog: seq<Insn>, pc: nat, d: Data, blocks: seq<Block>, code: seq<Insn>)
    requires d.Valid() && ScansAs(code, blocks, d)
    requires HasAt(prog, pc, code) && HasAt(prog, pc + |code|, [Ret(RET_ALLOW)])
    ensures Run(prog, pc, d.nr, d) ==
            Some(match Scan(blocks, d.nr, d) case Return(v) => v case Fall(_) => RET_ALLOW)
  {
    assert Run(prog, pc, d.nr, d) == Resume(prog, pc + |code|, Scan(blocks, d.nr, d), d);
    FetchAt(prog, pc + |code|, [Ret(RET_ALLOW)], 0);
  }

  /** The section that serves an architecture: the first one written for it. */
  function ArchFor(archs: seq<Arch>, value: Word): (r: Option<Arch>)
    ensures r.Some? ==> r.value in archs && r.value.value == value
    ensures r.None? ==> forall a :: a in archs ==> a.value != value
  {
    if |archs| == 0 then None
    else if archs[0].value == value then Some(archs[0])
    else ArchFor(archs[1..], value)
  }

  function FilterResult(archs: seq<Arch>, list: seq<FilteredSysnum>, o: Options, d: Data): nat
    requires d.Valid()
  {
    match ArchFor(archs, d.arch)
    case None => RET_KILL
    case Some(a) => SectionMeaning(a, list, o, d)
  }

  ghost predicate SectionsEncodable(archs: seq<Arch>, list: seq<FilteredSysnum>, o: Options) {
    forall a :: a in archs ==> AllEncodable(ArchBlocks(a.abis, list, o))
  }

  lemma {:induction false} SectionsCons(archs: seq<Arch>, list: seq<FilteredSysnum>, o: Options)
    requires archs != []
    ensures Sections(archs, list, o) == Section(archs[0], list, o) + Sections(archs[1..], list, o)
  {
    var init, last := archs[..|archs| - 1], archs[|archs| - 1];
    if |init| == 0 {
      assert archs[1..] == [];
    } else {
      SectionsCons(init, list, o);
      assert archs[1..][..|archs[1..]| - 1] == init[1..];
      ConcatAssociative(Section(archs[0], list, o), Sections(init[1..], list, o), Section(last, list, o));
    }
  }

  /** Wherever the code stands in a program it answers with o, or, for None,
      falls out of its end with the architecture in the accumulator. */
  ghost predicate Answers(code: seq<Insn>, d: Data, o: Option<nat>)
    requires d.Valid()
  {
    forall prog: seq<Insn>, pc: nat, acc: nat {:trigger HasAt(prog, pc, code), Run(prog, pc, acc, d)} ::
      HasAt(prog, pc, code) ==> Run(prog, pc, acc, d) == Else(o, prog, pc + |code|, d)
  }

  function Else(o: Option<nat>, prog: seq<Insn>, pc: nat, d: Data): Option<nat>
    requires d.Valid()
  {
    if o.Some? then o else Run(prog, pc, d.arch, d)
  }

  lemma AnswersConcat(a: seq<Insn>, b: seq<Insn>, d: Data, first: Option<nat>, second: Option<nat>)
    requires d.Valid() && Answers(a, d, first) && Answers(b, d, second)
    ensures Answers(a + b, d, if first.Some? then first else second)
  {
    var o := if first.Some? then first else second;
    forall prog: seq<Insn>, pc: nat, acc: nat | HasAt(prog, pc, a + b)
      ensures Run(prog, pc, acc, d) == Else(o, prog, pc + |a + b|, d)
    {
      HasAtConcat(prog, pc, a, b);
      assert Run(prog, pc, acc, d) == Else(first, prog, pc + |a|, d);
      assert Run(prog, pc + |a|, d.arch, d) == Else(second, prog, pc + |a| + |b|, d);
      assert pc + |a + b| == pc + |a| + |b|;
    }
  }

  function SectionAnswer(a: Arch, list: seq<FilteredSysnum>, o: Options, d: Data): Option<nat>
    requires d.Valid()
  {
    if d.arch == a.value then Some(SectionMeaning(a, list, o, d)) else None
  }

  lemma SectionAnswers(a: Arch, list: seq<FilteredSysnum>, o: Options, d: Data)
    requires d.Valid() && AllEncodable(ArchBlocks(a.abis, list, o))
    ensures Answers(Section(a, list, o), d, SectionAnswer(a, list, o, d))
  {
    forall prog: seq<Insn>, pc: nat, acc: nat | HasAt(prog, pc, Section(a, list, o))
      ensures Run(prog, pc, acc, d) == Else(SectionAnswer(a, list, o, d), prog, pc + |Section(a, list, o)|, d)
    {
      RunSection(prog, pc, acc, d, a, list, o);
    }
  }

  lemma KillAnswers(d: Data)
    requires d.Valid()
    ensures Answers([Ret(RET_KILL)], d, Some(RET_KILL))
  {
    forall prog: seq<Insn>, pc: nat, acc: nat | HasAt(prog, pc, [Ret(RET_KILL)])
      ensures Run(prog, pc, acc, d) == Some(RET_KILL)
    {
      FetchAt(prog, pc, [Ret(RET_KILL)], 0);
    }
  }

  lemma {:induction false} ProgramAnswers(archs: seq<Arch>, list: seq<FilteredSysnum>, o: Options, d: Data)
    requires d.Valid() && SectionsEncodable(archs, list, o)
    ensures Answers(Program(archs, list, o), d, Some(FilterResult(archs, list, o, d)))
    decreases |archs|
  {
    if |archs| == 0 {
      KillAnswers(d);
      assert Program(archs, list, o) == [Ret(RET_KILL)];
    } else {
      var first, rest := archs[0], archs[1..];
      assert first in archs && forall a :: a in rest ==> a in archs;
      SectionAnswers(first, list, o, d);
      ProgramAnswers(rest, list, o, d);
      ProgramCons(archs, list, o);
      AnswersConcat(Section(first, list, o), Program(rest, list, o), d, SectionAnswer(first, list, o, d),
                    Some(FilterResult(rest, list, o, d)));
    }
  }

  lemma ProgramCons(archs: seq<Arch>, list: seq<FilteredSysnum>, o: Options)
    requires |archs| > 0
    ensures Program(archs, list, o) == Section(archs[0], list, o) + Program(archs[1..], list, o)
  {
    SectionsCons(archs, list, o);
    ConcatAssociative(Section(archs[0], list, o), Sections(archs[1..], list, o), [Ret(RET_KILL)]);
  }

  lemma {:induction false} BlocksEncodable(abis: seq<Table>, list: seq<FilteredSysnum>, o: Options)
    requires NumbersFit(ArchBlocks(abis, list, o))
    ensures AllEncodable(ArchBlocks(abis, list, o))
  {
    if |abis| > 0 {
      var init, last := abis[..|abis| - 1], abis[|abis| - 1];
      NumbersFitConcat(ArchBlocks(init, list, o), TableBlocks(last, list, o));
      BlocksEncodable(init, list, o);
      TableEncodable(last, list, o);
    }
  }

  lemma {:induction false} TableEncodable(table: Table, list: seq<FilteredSysnum>, o: Options)
    requires NumbersFit(TableBlocks(table, list, o))
    ensures AllEncodable(TableBlocks(table, list, o))
  {
    if |list| > 0 {
      var init, last := list[..|list| - 1], list[|list| - 1];
      NumbersFitConcat(TableBlocks(table, init, o), EntryBlocks(table, last, o));
      TableEncodable(table, init, o);
    }
  }

  /** The exact behaviour of the filter on every input: a foreign architecture
      is killed, the others get what their section says. */
  lemma FilterBehaviour(archs: seq<Arch>, list: seq<FilteredSysnum>, o: Options, d: Data)
    requires d.Valid() && ArchsFit(archs, list, o)
    ensures Run(Program(archs, list, o), 0, 0, d) == Some(FilterResult(archs, list, o, d))
  {
    forall a | a in archs ensures AllEncodable(ArchBlocks(a.abis, list, o)) {
      BlocksEncodable(a.abis, list, o);
    }
    ProgramAnswers(archs, list, o, d);
    assert HasAt(Program(archs, list, o), 0, Program(archs, list, o));
  }

  // ----- the kernel's static check -----

  /** Code that jumps nowhere but into itself or right behind itself. */
  ghost predicate Contained(code: seq<Insn>) {
    forall i :: 0 <= i < |code| ==> ValidInsn(code[i], i, |code| + 1)
  }

  lemma ContainedConcat(a: seq<Insn>, b: seq<Insn>)
    requires Contained(a) && Contained(b)
    ensures Contained(a + b)
  {
    var c := a + b;
    forall i | 0 <= i < |c| ensures ValidInsn(c[i], i, |c| + 1) {
      if i < |a| {
        assert ValidInsn(a[i], i, |a| + 1);
      } else {
        assert ValidInsn(b[i - |a|], i - |a|, |b| + 1);
      }
    }
  }

  lemma {:induction false} CmdTestsContained(cmds: seq<nat>, ret: nat)
    requires ret <= UINT32_MAX && forall i :: 0 <= i < |cmds| ==> cmds[i] <= UINT32_MAX
    ensures Contained(CmdTests(cmds, ret))
  {
    if |cmds| > 0 {
      CmdTestsContained(cmds[..|cmds| - 1], ret);
      ContainedConcat(CmdTests(cmds[..|cmds| - 1], ret), [Jeq(cmds[|cmds| - 1], 0, 1), Ret(ret)]);
    }
  }

  lemma CodeContained(b: Block)
    requires Encodable(b)
    ensures Contained(Code(b))
  {
    if b.ByArg? {
      var head := [Jeq(b.sc, 0, (1 + 2 * |b.cmds|) % 256), LdAbs(ArgLow(1))];
      var tests := CmdTests(b.cmds, b.ret);
      CmdTestsContained(b.cmds, b.ret);
      var code := head + tests;
      forall i | 0 <= i < |code| ensures ValidInsn(code[i], i, |code| + 1) {
        if i >= 2 { assert ValidInsn(tests[i - 2], i - 2, |tests| + 1); }
      }
    }
  }

  lemma {:induction false} CodesContained(blocks: seq<Block>)
    requires AllEncodable(blocks)
    ensures Contained(Codes(blocks))
  {
    if |blocks| > 0 {
      CodesContained(blocks[..|blocks| - 1]);
      CodeContained(blocks[|blocks| - 1]);
      ContainedConcat(Codes(blocks[..|blocks| - 1]), Code(blocks[|blocks| - 1]));
    }
  }

  lemma SectionContained(a: Arch, list: seq<FilteredSysnum>, o: Options)
    requires ArchFits(a, list, o)
    ensures Contained(Section(a, list, o))
  {
    BlocksEncodable(a.abis, list, o);
    var codes := Codes(ArchBlocks(a.abis, list, o));
    CodesContained(ArchBlocks(a.abis, list, o));
    ContainedConcat(codes, [Ret(RET_ALLOW)]);
    var body := codes + [Ret(RET_ALLOW)];
    var section := Header(a.value, |body|) + body;
    forall i | 0 <= i < |section| ensures ValidInsn(section[i], i, |section| + 1) {
      if i >= 4 { assert ValidInsn(body[i - 4], i - 4, |body| + 1); }
    }
  }

  lemma {:induction false} SectionsContained(archs: seq<Arch>, list: seq<FilteredSysnum>, o: Options)
    requires ArchsFit(archs, list, o)
    ensures Contained(Sections(archs, list, o))
  {
    if |archs| > 0 {
      SectionsContained(archs[..|archs| - 1], list, o);
      SectionContained(archs[|archs| - 1], list, o);
      ContainedConcat(Sections(archs[..|archs| - 1], list, o), Section(archs[|archs| - 1], list, o));
    }
  }

  /** Whatever the compiler emits, the kernel's static check takes unless it is too
      long: every jump is forward and in range, every load inside the data, and the
      end is a return.  A bound on the list keeps it short enough. */
  lemma KernelAcceptsFilter(archs: seq<Arch>, list: seq<FilteredSysnum>, o: Options)
    requires ArchsFit(archs, list, o)
    ensures KernelAccepts(Program(archs, list, o)) <==> |Program(archs, list, o)| <= BPF_MAXINSNS
    ensures DistinctValues(list) && LengthBound(archs, |list|) <= BPF_MAXINSNS ==>
              KernelAccepts(Program(archs, list, o)) && StartsFit(archs, list, o)
  {
    SectionsContained(archs, list, o);
    var sections := Sections(archs, list, o);
    var prog := Program(archs, list, o);
    forall pc | 0 <= pc < |prog| ensures ValidInsn(prog[pc], pc, |prog|) {
      if pc < |sections| { assert ValidInsn(sections[pc], pc, |sections| + 1); }
    }
    if DistinctValues(list) && LengthBound(archs, |list|) <= BPF_MAXINSNS {
      ProgramLength(archs, list, o);
      ShortStartsFit(archs, list, o);
    }
  }

  // ----- what the list asks for -----

  /** Whether a call is one of those traced on some of its commands only, and if
      so, whether this is one of the commands. */
  predicate AskedFor(s: Sysnum, command: nat) {
    match s
    case Ioctl => command in {0x5404, 0x802c542a, 0x402c542b, 0x402c542c, 0x402c542d, 0x40049409, 0x8933}
    case Fcntl => command in {0, 1030}
    case Fcntl64 => command in {0, 1030}
    case _ => true
  }

  /** Calls whose answer the notification listener gives, and where they keep
      their flags. */
  function FlagsArgument(s: Sysnum): Option<nat> {
    match s
    case Newfstatat => Some(3)
    case Fstatat64 => Some(3)
    case Statx => Some(2)
    case _ => None
  }

  /** The shim in the tracee answers it. */
  predicate Shimmed(s: Sysnum, o: Options) {
    o.statShim && (FlagsArgument(s).Some? || (!o.link2symlink && (s == Fstat || s == Fstat64)))
  }

  /** The tracer is to see the call. */
  predicate Traced(s: Sysnum, o: Options, d: Data)
    requires d.Valid()
  {
    !Shimmed(s, o) && AskedFor(s, d.argLow[1]) && !(o.userNotif && FlagsArgument(s).Some?)
  }

  /** The action intended for a listed call: the given answer if it is to be
      traced; else hand it to the listener, unless a tag says that the call is the
      listener's own, or let it through. */
  function IntentOf(s: Sysnum, trace: nat, o: Options, d: Data): nat
    requires d.Valid()
  {
    if Traced(s, o, d) then trace
    else if o.userNotif && FlagsArgument(s).Some? && (Shimmed(s, o) ==> d.argHigh[FlagsArgument(s).value] != 0x4e50_524f) then 0x7fc0_0000
    else 0x7fff_0000
  }

  /** The action the merged list intends for a call. */
  function Intended(table: Table, list: seq<FilteredSysnum>, o: Options, d: Data): nat
    requires d.Valid()
  {
    var s := TranslateSysnum(table, d.nr);
    match FlagsOf(list, s)
    case None => 0x7fff_0000
    case Some(flags) => IntentOf(s, 0x7ff0_0000 + (flags as nat), o, d)
  }

  /** Would a block before the next reload of the number answer to key? */
  predicate TestedBeforeReload(blocks: seq<Block>, key: nat) {
    if |blocks| == 0 then false
    else match blocks[0]
      case Plain(sc, _) => sc == key || TestedBeforeReload(blocks[1..], key)
      case ByArg(sc, _, cmds) => (sc == key && key in cmds) || TestedBeforeReload(blocks[1..], key)
      case Tagged(_, _) => false
  }

  /** The call's argument is about to be taken for a system call number: it was
      loaded for a command test that failed, and a later test answers to it. */
  ghost predicate Misread(blocks: seq<Block>, d: Data)
    requires d.Valid()
  {
    exists i :: 0 <= i < |blocks| && blocks[i].ByArg? && blocks[i].sc == d.nr && d.argLow[1] !in blocks[i].cmds
                && TestedBeforeReload(blocks[i + 1..], d.argLow[1])
  }

  ghost predicate UniqueNumbers(blocks: seq<Block>) {
    forall i, j :: 0 <= i < j < |blocks| ==> blocks[i].sc != blocks[j].sc
  }

  ghost predicate NumberAbsent(blocks: seq<Block>, nr: nat) {
    forall i :: 0 <= i < |blocks| ==> blocks[i].sc != nr
  }

  ghost predicate NeverAllow(blocks: seq<Block>) {
    forall i :: 0 <= i < |blocks| ==> !blocks[i].Tagged? ==> blocks[i].ret != RET_ALLOW
  }

  lemma {:induction false} ScanAbsent(blocks: seq<Block>, d: Data)
    requires d.Valid() && NumberAbsent(blocks, d.nr)
    ensures Scan(blocks, d.nr, d) == Fall(d.nr)
  {
    if |blocks| > 0 {
      assert blocks[0].sc != d.nr;
      assert forall i :: 0 <= i < |blocks[1..]| ==> blocks[1..][i] == blocks[i + 1];
      ScanAbsent(blocks[1..], d);
    }
  }

  /** Up to the call's own block the scan goes by the number. */
  lemma {:induction false} ScanReaches(blocks: seq<Block>, d: Data, i: nat)
    requires d.Valid() && i < |blocks| && NumberAbsent(blocks[..i], d.nr)
    ensures Scan(blocks, d.nr, d) == Scan(blocks[i..], d.nr, d)
  {
    if i == 0 {
      assert blocks[0..] == blocks;
    } else {
      assert blocks[..i][0].sc != d.nr;
      assert blocks[1..][..i - 1] == blocks[..i][1..];
      ScanReaches(blocks[1..], d, i - 1);
      assert blocks[1..][i - 1..] == blocks[i..];
    }
  }

  /** With an argument in the accumulator, the rest of the section lets the call
      through unless a test before the next reload answers to the argument. */
  lemma {:induction false} ScanWithArgument(blocks: seq<Block>, key: nat, d: Data)
    requires d.Valid() && NumberAbsent(blocks, d.nr) && NeverAllow(blocks) && key == d.argLow[1]
    ensures TestedBeforeReload(blocks, key) ==> Scan(blocks, key, d).Return? && Scan(blocks, key, d).value != RET_ALLOW
    ensures !TestedBeforeReload(blocks, key) ==> Scan(blocks, key, d).Fall?
  {
    if |blocks| > 0 {
      var rest := blocks[1..];
      assert blocks[0].sc != d.nr;
      assert forall i :: 0 <= i < |rest| ==> rest[i] == blocks[i + 1];
      if blocks[0].Tagged? {
        ScanAbsent(rest, d);
      } else {
        ScanWithArgument(rest, key, d);
      }
    }
  }

  // ----- list entries and blocks -----

  lemma {:induction false} TableBlockFrom(table: Table, list: seq<FilteredSysnum>, o: Options, b: Block) returns (e: FilteredSysnum)
    requires b in TableBlocks(table, list, o)
    ensures e in list && DetranslateSysnum(table, e.value) == Some(b.sc) && BlockOf(e, b.sc, o) == Some(b)
  {
    var init, last := list[..|list| - 1], list[|list| - 1];
    if b in EntryBlocks(table, last, o) {
      e := last;
    } else {
      e := TableBlockFrom(table, init, o, b);
    }
  }

  lemma {:induction false} TableBlockOf(table: Table, list: seq<FilteredSysnum>, o: Options, e: FilteredSysnum)
    requires e in list
    ensures forall b :: b in EntryBlocks(table, e, o) ==> b in TableBlocks(table, list, o)
  {
    var init, last := list[..|list| - 1], list[|list| - 1];
    if e != last { TableBlockOf(table, init, o, e); }
  }

  lemma {:induction false} TableNumbersUnique(table: Table, list: seq<FilteredSysnum>, o: Options)
    requires DistinctValues(list)
    ensures UniqueNumbers(TableBlocks(table, list, o)) && NeverAllow(TableBlocks(table, list, o))
  {
    if |list| > 0 {
      var init, last := list[..|list| - 1], list[|list| - 1];
      var blocks := TableBlocks(table, init, o);
      TableNumbersUnique(table, init, o);
      forall i | 0 <= i < |blocks| && EntryBlocks(table, last, o) != []
        ensures blocks[i].sc != EntryBlocks(table, last, o)[0].sc
      {
        var e := TableBlockFrom(table, init, o, blocks[i]);
        DetranslateInjective(table, e.value, last.value);
      }
    }
  }

  lemma {:induction false} FlagsOfMember(list: seq<FilteredSysnum>, e: FilteredSysnum)
    requires DistinctValues(list) && e in list
    ensures FlagsOf(list, e.value) == Some(e.flags)
  {
    var rest := list[1..];
    assert forall i :: 0 <= i < |rest| ==> rest[i] == list[i + 1];
    if list[0] == e {
      FlagsOfAbsent(rest, e.value);
    } else {
      assert e in rest;
      FlagsOfMember(rest, e);
      var i :| 0 <= i < |rest| && rest[i] == e;
      assert list[0].value != list[i + 1].value;
    }
  }

  lemma {:induction false} FlagsOfAbsent(list: seq<FilteredSysnum>, s: Sysnum)
    requires forall i :: 0 <= i < |list| ==> list[i].value != s
    ensures FlagsOf(list, s) == None
  {
    if |list| > 0 { FlagsOfAbsent(list[1..], s); }
  }

  lemma {:induction false} ListedEntry(list: seq<FilteredSysnum>, s: Sysnum) returns (e: FilteredSysnum)
    requires FlagsOf(list, s).Some?
    ensures e in list && e.value == s
  {
    if list[0].value == s { e := list[0]; } else { e := ListedEntry(list[1..], s); }
  }

  /** A number that reads as s is the number of s. */
  lemma NumberReadsBack(table: Table, nr: nat, s: Sysnum)
    requires Unambiguous(table) && TranslateSysnum(table, nr) == s && s != Void
    ensures DetranslateSysnum(table, s) == Some(nr)
  {
    var r := DetranslateSysnum(table, s);
    assert table[nr] in table;
    assert table[r.value] == table[nr];
  }

  lemma EntryBlockListed(table: Table, e: FilteredSysnum, o: Options, sc: nat)
    requires DetranslateSysnum(table, e.value) == Some(sc) && BlockOf(e, sc, o).Some?
    ensures BlockOf(e, sc, o).value in EntryBlocks(table, e, o) && BlockOf(e, sc, o).value.sc == sc
  {}

  /** When the call has no block, nothing is intended for it either. */
  lemma UnlistedIsAllowed(table: Table, list: seq<FilteredSysnum>, o: Options, d: Data)
    requires d.Valid() && DistinctValues(list) && Unambiguous(table)
    requires NumberAbsent(TableBlocks(table, list, o), d.nr)
    ensures Intended(table, list, o, d) == RET_ALLOW
  {
    var s := TranslateSysnum(table, d.nr);
    if FlagsOf(list, s).Some? {
      var e := ListedEntry(list, s);
      NumberReadsBack(table, d.nr, s);
      TableBlockOf(table, list, o, e);
      assert forall b :: b in TableBlocks(table, list, o) ==> b.sc != d.nr;
      assert BlockOf(e, d.nr, o).None? by {
        if BlockOf(e, d.nr, o).Some? { EntryBlockListed(table, e, o, d.nr); }
      }
    }
  }

  lemma CommandsAgree(c: nat)
    ensures c in IOCTL_CMDS <==> AskedFor(Ioctl, c)
    ensures c in FCNTL_CMDS <==> AskedFor(Fcntl, c)
  {
    assert IOCTL_CMDS[0] == 0x5404 && IOCTL_CMDS[1] == 0x802c542a && IOCTL_CMDS[2] == 0x402c542b && IOCTL_CMDS[3] == 0x402c542c;
    assert IOCTL_CMDS[4] == 0x402c542d && IOCTL_CMDS[5] == 0x40049409 && IOCTL_CMDS[6] == 0x8933;
    assert FCNTL_CMDS[0] == 0 && FCNTL_CMDS[1] == 1030;
  }

  lemma EntryMeetsIntent(e: FilteredSysnum, o: Options, d: Data, b: Block)
    requires d.Valid() && BlockOf(e, d.nr, o) == Some(b)
    requires AskedFor(e.value, d.argLow[1]) <==> TakesCommands(e.value) ==> d.argLow[1] in CommandsOf(e.value)
    ensures IntentOf(e.value, TraceRet(e.flags), o, d) == match BlockOutcome(b, d.nr, d) case Return(v) => v case Fall(_) => RET_ALLOW
    ensures BlockOutcome(b, d.nr, d).Fall? <==> b.ByArg? && d.argLow[1] !in b.cmds
  {
    if b.ByArg? {
      assert TakesCommands(e.value) && b.cmds == CommandsOf(e.value);
    }
  }

  lemma AskedIsListed(s: Sysnum, c: nat)
    ensures AskedFor(s, c) <==> TakesCommands(s) ==> c in CommandsOf(s)
  {
    CommandsAgree(c);
  }

  /** The call's own block does what is intended for it. */
  lemma BlockMeetsIntent(table: Table, list: seq<FilteredSysnum>, o: Options, d: Data, b: Block)
    requires d.Valid() && DistinctValues(list)
    requires b in TableBlocks(table, list, o) && b.sc == d.nr
    ensures Intended(table, list, o, d) == match BlockOutcome(b, d.nr, d) case Return(v) => v case Fall(_) => RET_ALLOW
    ensures BlockOutcome(b, d.nr, d).Fall? <==> b.ByArg? && d.argLow[1] !in b.cmds
  {
    var e := TableBlockFrom(table, list, o, b);
    DetranslateInjective(table, e.value, e.value);
    FlagsOfMember(list, e);
    AskedIsListed(e.value, d.argLow[1]);
    EntryMeetsIntent(e, o, d, b);
  }

  lemma SectionMeetsIntent(table: Table, list: seq<FilteredSysnum>, o: Options, d: Data)
    requires d.Valid() && DistinctValues(list) && Unambiguous(table)
    ensures SectionMeaning(Arch(d.arch, [table]), list, o, d) == Intended(table, list, o, d)
            <==> !Misread(TableBlocks(table, list, o), d)
  {
    var blocks := TableBlocks(table, list, o);
    OneTable(table, list, o);
    TableNumbersUnique(table, list, o);
    if NumberAbsent(blocks, d.nr) {
      ScanAbsent(blocks, d);
      UnlistedIsAllowed(table, list, o, d);
    } else {
      var i :| 0 <= i < |blocks| && blocks[i].sc == d.nr;
      ScanFrom(blocks, d, i);
      BlockMeetsIntent(table, list, o, d, blocks[i]);
      MisreadAt(blocks, d, i);
    }
  }

  lemma MisreadAt(blocks: seq<Block>, d: Data, i: nat)
    requires d.Valid() && UniqueNumbers(blocks) && i < |blocks| && blocks[i].sc == d.nr
    ensures Misread(blocks, d) <==> blocks[i].ByArg? && d.argLow[1] !in blocks[i].cmds
                                    && TestedBeforeReload(blocks[i + 1..], d.argLow[1])
  {
    assert forall k :: 0 <= k < |blocks| && blocks[k].sc == d.nr ==> k == i;
  }

  /** The compiled filter does what the list intends for a call, exactly when
      the call's argument is not about to be misread as a number. */
  lemma FilterMeetsIntent(archs: seq<Arch>, table: Table, list: seq<FilteredSysnum>, o: Options, d: Data)
    requires d.Valid() && ArchsFit(archs, list, o)
    requires ArchFor(archs, d.arch) == Some(Arch(d.arch, [table]))
    requires DistinctValues(list) && Unambiguous(table)
    ensures Run(Program(archs, list, o), 0, 0, d) == Some(Intended(table, list, o, d))
            <==> !Misread(TableBlocks(table, list, o), d)
  {
    FilterBehaviour(archs, list, o, d);
    SectionMeetsIntent(table, list, o, d);
  }

  lemma ScanFrom(blocks: seq<Block>, d: Data, i: nat)
    requires d.Valid() && UniqueNumbers(blocks) && NeverAllow(blocks) && i < |blocks| && blocks[i].sc == d.nr
    ensures BlockOutcome(blocks[i], d.nr, d).Return? ==> Scan(blocks, d.nr, d) == BlockOutcome(blocks[i], d.nr, d)
    ensures BlockOutcome(blocks[i], d.nr, d).Fall? ==>
              if TestedBeforeReload(blocks[i + 1..], d.argLow[1])
              then Scan(blocks, d.nr, d).Return? && Scan(blocks, d.nr, d).value != RET_ALLOW
              else Scan(blocks, d.nr, d).Fall?
  {
    ScanReaches(blocks, d, i);
    var rest := blocks[i + 1..];
    assert blocks[i..][0] == blocks[i] && blocks[i..][1..] == rest;
    if BlockOutcome(blocks[i], d.nr, d).Fall? {
      assert forall k :: 0 <= k < |rest| ==> rest[k] == blocks[i + 1 + k];
      ScanWithArgument(rest, d.argLow[1], d);
    }
  }

  lemma OneTable(table: Table, list: seq<FilteredSysnum>, o: Options)
    ensures ArchBlocks([table], list, o) == TableBlocks(table, list, o)
  {
    assert [table][..0] == [];
    assert ArchBlocks([table][..0], list, o) == [];
  }

  // ----- it does happen -----

  lemma {:induction false} TableBlocksConcat(table: Table, a: seq<FilteredSysnum>, b: seq<FilteredSysnum>, o: Options)
    ensures TableBlocks(table, a + b, o) == TableBlocks(table, a, o) + TableBlocks(table, b, o)
  {
    if |b| == 0 {
      assert a + b == a;
    } else {
      var init, last := b[..|b| - 1], b[|b| - 1];
      assert (a + b)[..|a + b| - 1] == a + init && (a + b)[|a + b| - 1] == last;
      TableBlocksConcat(table, a, init, o);
      ConcatAssociative(TableBlocks(table, a, o), TableBlocks(table, init, o), EntryBlocks(table, last, o));
    }
  }

  /** The blocks from a list position on begin with that entry's own. */
  lemma TableBlocksAt(table: Table, list: seq<FilteredSysnum>, o: Options, i: nat, b: Block)
    requires i < |list| && EntryBlocks(table, list[i], o) == [b]
    ensures TableBlocks(table, list, o) == TableBlocks(table, list[..i], o) + ([b] + TableBlocks(table, list[i + 1..], o))
  {
    var before, rest := list[..i], list[i + 1..];
    assert list == before + ([list[i]] + rest);
    TableBlocksConcat(table, before, [list[i]] + rest, o);
    TableBlocksConcat(table, [list[i]], rest, o);
    TableBlocksOne(table, list[i], o);
  }

  lemma TableBlocksOne(table: Table, e: FilteredSysnum, o: Options)
    ensures TableBlocks(table, [e], o) == EntryBlocks(table, e, o)
  {
    assert TableBlocks(table, [e][..0], o) == [];
  }

  /** Without the shim nothing reloads the number. */
  lemma {:induction false} NothingTagged(table: Table, list: seq<FilteredSysnum>, o: Options)
    requires !o.statShim
    ensures forall b :: b in TableBlocks(table, list, o) ==> !b.Tagged?
  {
    forall b | b in TableBlocks(table, list, o) ensures !b.Tagged? {
      var _ := TableBlockFrom(table, list, o, b);
    }
  }

  lemma {:induction false} PlainAnswersToKey(blocks: seq<Block>, key: nat, j: nat)
    requires j < |blocks| && blocks[j].Plain? && blocks[j].sc == key && forall b :: b in blocks ==> !b.Tagged?
    ensures TestedBeforeReload(blocks, key)
  {
    if j > 0 {
      assert forall b :: b in blocks[1..] ==> b in blocks;
      assert blocks[0] in blocks;
      PlainAnswersToKey(blocks[1..], key, j - 1);
    }
  }

  predicate TakesCommands(s: Sysnum) {
    s == Ioctl || s == Fcntl || s == Fcntl64
  }

  function CommandsOf(s: Sysnum): seq<nat> {
    if s == Ioctl then IOCTL_CMDS else FCNTL_CMDS
  }

  /** Whatever else is listed: with an ioctl or fcntl listed before some other
      call, one whose command is that call's number does not pass, although the
      command is not one to be traced. */
  lemma CommandTakenForNumber(archs: seq<Arch>, table: Table, list: seq<FilteredSysnum>, o: Options, d: Data, i: nat, j: nat)
    requires d.Valid() && ArchsFit(archs, list, o) && ArchFor(archs, d.arch) == Some(Arch(d.arch, [table]))
    requires DistinctValues(list) && Unambiguous(table) && !o.statShim
    requires i < j < |list| && TakesCommands(list[i].value) && !TakesCommands(list[j].value)
    requires DetranslateSysnum(table, list[i].value) == Some(d.nr)
    requires DetranslateSysnum(table, list[j].value) == Some(d.argLow[1]) && d.argLow[1] !in CommandsOf(list[i].value)
    ensures Intended(table, list, o, d) == RET_ALLOW
    ensures var r := Run(Program(archs, list, o), 0, 0, d); r.Some? && r.value != RET_ALLOW
  {
    CommandMisread(table, list, o, d, i, j);
    CommandLetThrough(table, list, o, d, list[i]);
    FilterMeetsIntent(archs, table, list, o, d);
    FilterBehaviour(archs, list, o, d);
  }

  lemma CommandMisread(table: Table, list: seq<FilteredSysnum>, o: Options, d: Data, i: nat, j: nat)
    requires d.Valid() && !o.statShim
    requires i < j < |list| && TakesCommands(list[i].value) && !TakesCommands(list[j].value)
    requires DetranslateSysnum(table, list[i].value) == Some(d.nr)
    requires DetranslateSysnum(table, list[j].value) == Some(d.argLow[1]) && d.argLow[1] !in CommandsOf(list[i].value)
    ensures Misread(TableBlocks(table, list, o), d)
  {
    var blocks, before := TableBlocks(table, list, o), TableBlocks(table, list[..i], o);
    var own := ByArg(d.nr, TraceRet(list[i].flags), CommandsOf(list[i].value));
    var rest := TableBlocks(table, list[i + 1..], o);
    assert EntryBlocks(table, list[i], o) == [own];
    TableBlocksAt(table, list, o, i, own);
    SplitAt(before, own, rest);
    assert list[i + 1..][j - i - 1] == list[j];
    LaterTested(table, list[i + 1..], o, d.argLow[1], j - i - 1);
  }

  lemma SplitAt<T>(before: seq<T>, x: T, rest: seq<T>)
    ensures var s := before + ([x] + rest); s[|before|] == x && s[|before| + 1..] == rest
  {}

  lemma CommandLetThrough(table: Table, list: seq<FilteredSysnum>, o: Options, d: Data, e: FilteredSysnum)
    requires d.Valid() && DistinctValues(list) && e in list && TakesCommands(e.value)
    requires DetranslateSysnum(table, e.value) == Some(d.nr) && d.argLow[1] !in CommandsOf(e.value)
    ensures Intended(table, list, o, d) == RET_ALLOW
  {
    DetranslateInjective(table, e.value, e.value);
    FlagsOfMember(list, e);
  }

  lemma LaterTested(table: Table, list: seq<FilteredSysnum>, o: Options, key: nat, j: nat)
    requires !o.statShim && j < |list| && !TakesCommands(list[j].value)
    requires DetranslateSysnum(table, list[j].value) == Some(key)
    ensures TestedBeforeReload(TableBlocks(table, list, o), key)
  {
    var b := BlockOf(list[j], key, o).value;
    TableBlocksAt(table, list, o, j, b);
    NothingTagged(table, list, o);
    PlainAnswersToKey(TableBlocks(table, list, o), key, |TableBlocks(table, list[..j], o)|);
  }

  const AUDIT_ARCH_AARCH64: Word := 0xc000_00b7
  const NR_FCNTL: nat := 25
  const NR_INOTIFY_INIT1: nat := 26
  const NR_IOCTL: nat := 29
  const NR_OPENAT: nat := 56

  /** The calls of interest have their arm64 numbers, openat and inotify_init1
      being any two other calls. */
  ghost predicate Arm64(table: Table, inotifyInit1: Sysnum, openat: Sysnum) {
    && |table| > NR_OPENAT && Unambiguous(table)
    && table[NR_FCNTL] == Fcntl && table[NR_INOTIFY_INIT1] == inotifyInit1
    && table[NR_IOCTL] == Ioctl && table[NR_OPENAT] == openat
    && inotifyInit1.Other? && openat.Other?
  }

  lemma NumberOf(table: Table, nr: nat)
    requires Unambiguous(table) && nr < |table| && table[nr] != Void
    ensures DetranslateSysnum(table, table[nr]) == Some(nr)
  {
    NumberReadsBack(table, nr, table[nr]);
  }

  /** On Android the tracer's own list has ioctl before openat: ioctl(fd, 56) is
      not let through. */
  lemma IoctlCommandTakenForOpenat(table: Table, inotifyInit1: Sysnum, openat: Sysnum, list: seq<FilteredSysnum>,
                                   o: Options, d: Data, i: nat, j: nat)
    requires Arm64(table, inotifyInit1, openat) && DistinctValues(list) && !o.statShim
    requires i < j < |list| && list[i].value == Ioctl && list[j].value == openat
    requires ArchFits(Arch(AUDIT_ARCH_AARCH64, [table]), list, o)
    requires d.Valid() && d.arch == AUDIT_ARCH_AARCH64 && d.nr == NR_IOCTL && d.argLow[1] == NR_OPENAT
    ensures Intended(table, list, o, d) == RET_ALLOW
    ensures var r := Run(Program([Arch(AUDIT_ARCH_AARCH64, [table])], list, o), 0, 0, d); r.Some? && r.value != RET_ALLOW
  {
    NumberOf(table, NR_IOCTL);
    NumberOf(table, NR_OPENAT);
    CommandTakenForNumber([Arch(AUDIT_ARCH_AARCH64, [table])], table, list, o, d, i, j);
  }

  /** The kompat extension's list adds fcntl before inotify_init1: fcntl(fd, 26)
      is not let through. */
  lemma FcntlCommandTakenForInotify(table: Table, inotifyInit1: Sysnum, openat: Sysnum, list: seq<FilteredSysnum>,
                                    o: Options, d: Data, i: nat, j: nat)
    requires Arm64(table, inotifyInit1, openat) && DistinctValues(list) && !o.statShim
    requires i < j < |list| && list[i].value == Fcntl && list[j].value == inotifyInit1
    requires ArchFits(Arch(AUDIT_ARCH_AARCH64, [table]), list, o)
    requires d.Valid() && d.arch == AUDIT_ARCH_AARCH64 && d.nr == NR_FCNTL && d.argLow[1] == NR_INOTIFY_INIT1
    ensures Intended(table, list, o, d) == RET_ALLOW
    ensures var r := Run(Program([Arch(AUDIT_ARCH_AARCH64, [table])], list, o), 0, 0, d); r.Some? && r.value != RET_ALLOW
  {
    NumberOf(table, NR_FCNTL);
    NumberOf(table, NR_INOTIFY_INIT1);
    CommandTakenForNumber([Arch(AUDIT_ARCH_AARCH64, [table])], table, list, o, d, i, j);
  }

  /** The flags any of the lists asks for. */
  function AllFlags(lists: seq<seq<FilteredSysnum>>, s: Sysnum): Option<bv16>
  {
    if |lists| == 0 then None else OrFlags(AllFlags(lists[..|lists| - 1], s), FlagsOf(lists[|lists| - 1], s))
  }

  /** A call that is listed and to be traced is traced, whatever else is listed, and
      the tracer is told the flags: the upper half of the answer says trace, the
      lower half is the flags. */
  lemma TracedWithItsFlags(archs: seq<Arch>, table: Table, list: seq<FilteredSysnum>, o: Options, d: Data, flags: bv16)
    requires d.Valid() && ArchsFit(archs, list, o)
    requires ArchFor(archs, d.arch) == Some(Arch(d.arch, [table]))
    requires DistinctValues(list) && Unambiguous(table)
    requires FlagsOf(list, TranslateSysnum(table, d.nr)) == Some(flags) && Traced(TranslateSysnum(table, d.nr), o, d)
    ensures var r := Run(Program(archs, list, o), 0, 0, d);
            r.Some? && r.value / 0x1_0000 == 0x7ff0 && r.value % 0x1_0000 == (flags as nat)
  {
    TracedIsNotMisread(table, list, o, d);
    FilterMeetsIntent(archs, table, list, o, d);
    Halves(flags as nat);
  }

  lemma Halves(flags: nat)
    requires flags < 0x1_0000
    ensures (0x7ff0_0000 + flags) / 0x1_0000 == 0x7ff0 && (0x7ff0_0000 + flags) % 0x1_0000 == flags
  {}

  lemma TracedIsNotMisread(table: Table, list: seq<FilteredSysnum>, o: Options, d: Data)
    requires d.Valid() && Traced(TranslateSysnum(table, d.nr), o, d)
    ensures !Misread(TableBlocks(table, list, o), d)
  {
    var blocks := TableBlocks(table, list, o);
    AskedIsListed(TranslateSysnum(table, d.nr), d.argLow[1]);
    forall i | 0 <= i < |blocks| && blocks[i].ByArg? && blocks[i].sc == d.nr ensures d.argLow[1] in blocks[i].cmds {
      var e := TableBlockFrom(table, list, o, blocks[i]);
      DetranslateInjective(table, e.value, e.value);
    }
  }

  /** The lists together give this call the flags, and it is to be traced. */
  predicate IsAsked(archs: seq<Arch>, lists: seq<seq<FilteredSysnum>>, o: Options, table: Table, d: Data, flags: bv16)
    requires d.Valid()
  {
    && ArchFor(archs, d.arch) == Some(Arch(d.arch, [table]))
    && AllFlags(lists, TranslateSysnum(table, d.nr)) == Some(flags)
    && Traced(TranslateSysnum(table, d.nr), o, d)
  }

  ghost predicate IsTrace(r: Option<nat>, flags: bv16) {
    r.Some? && r.value / 0x1_0000 == 0x7ff0 && r.value % 0x1_0000 == (flags as nat)
  }

  /** What the lists ask for together is what the program answers to a traced call. */
  ghost predicate TracesAsAsked(program: seq<Insn>, archs: seq<Arch>, lists: seq<seq<FilteredSysnum>>, o: Options) {
    forall d: Data, table, flags :: d.Valid() && Unambiguous(table) && IsAsked(archs, lists, o, table, d, flags) ==>
      IsTrace(Run(program, 0, 0, d), flags)
  }

  lemma ProgramTraces(archs: seq<Arch>, lists: seq<seq<FilteredSysnum>>, merged: seq<FilteredSysnum>, o: Options)
    requires ArchsFit(archs, merged, o) && DistinctValues(merged) && forall s :: FlagsOf(merged, s) == AllFlags(lists, s)
    ensures TracesAsAsked(Program(archs, merged, o), archs, lists, o)
  {
    forall d: Data, table, flags | d.Valid() && Unambiguous(table) && IsAsked(archs, lists, o, table, d, flags)
      ensures IsTrace(Run(Program(archs, merged, o), 0, 0, d), flags)
    {
      TracedWithItsFlags(archs, table, merged, o, d, flags);
    }
  }

  /** enable_syscall_filtering: the lists are merged and compiled; what comes out
      answers every call as the merged table says, and the kernel takes it unless
      it is too long. */
  method EnableSyscallFiltering(archs: seq<Arch>, lists: seq<seq<FilteredSysnum>>, o: Options)
    returns (r: Result<seq<Insn>, CompileError>, merged: seq<FilteredSysnum>)
    requires forall i, j :: 0 <= i < |lists| && 0 <= j < |lists[i]| ==> lists[i][j].value != Void
    ensures DistinctValues(merged) && forall s :: FlagsOf(merged, s) == AllFlags(lists, s)
    ensures r.Ok? <==> ArchsFit(archs, merged, o) && StartsFit(archs, merged, o)
    ensures r.Ok? ==> forall d: Data :: d.Valid() ==> Run(r.value, 0, 0, d) == Some(FilterResult(archs, merged, o, d))
    ensures r.Ok? ==> TracesAsAsked(r.value, archs, lists, o)
    ensures r.Ok? ==> forall d: Data :: d.Valid() && ArchFor(archs, d.arch).None? ==> Run(r.value, 0, 0, d) == Some(0)
    ensures r.Ok? ==> (KernelAccepts(r.value) <==> |r.value| <= 4096)
    ensures ArchsFit(archs, merged, o) && LengthBound(archs, |merged|) <= BPF_MAXINSNS ==> r.Ok? && KernelAccepts(r.value)
  {
    merged := [];
    assert |lists[..0]| == 0;
    for i := 0 to |lists|
      invariant DistinctValues(merged) && forall s :: FlagsOf(merged, s) == AllFlags(lists[..i], s)
    {
      assert lists[..i + 1][..i] == lists[..i];
      merged := MergeFilteredSysnums(merged, lists[i]);
    }
    assert lists[..|lists|] == lists;
    r := SetSeccompFilters(archs, merged, o);
    if ArchsFit(archs, merged, o) { KernelAcceptsFilter(archs, merged, o); }
    if r.Ok? {
      ProgramTraces(archs, lists, merged, o);
      forall d: Data | d.Valid() ensures Run(r.value, 0, 0, d) == Some(FilterResult(archs, merged, o, d)) {
        FilterBehaviour(archs, merged, o, d);
      }
    }
  }
}
