/** The filter compiler of src/syscall/seccomp.c: a merged list of system calls
    becomes one BPF section per architecture. */
module Seccomp {
  import opened Wrappers
  import opened Bpf

  /** The system calls the compiler tells apart; PR_void ends lists and marks
      unused numbers. */
  datatype Sysnum =
    | Void | Ioctl | Fcntl | Fcntl64 | Newfstatat | Fstatat64 | Statx | Fstat | Fstat64
    | Other(id: nat)

  datatype FilteredSysnum = FilteredSysnum(value: Sysnum, flags: bv16)

  datatype Options = Options(userNotif: bool, statShim: bool, link2symlink: bool)

  const RET_KILL: nat := 0
  const RET_TRACE: nat := 0x7ff0_0000
  const RET_USER_NOTIF: nat := 0x7fc0_0000
  const RET_ALLOW: nat := 0x7fff_0000
  const UINT32_MAX: nat := 0xffff_ffff
  const RAW_TAG: nat := 0x4e50_524f

  const IOCTL_CMDS: seq<nat> :=
    [0x5404, 0x802c542a, 0x402c542b, 0x402c542c, 0x402c542d, 0x40049409, 0x8933]
  const FCNTL_CMDS: seq<nat> := [0, 1030]
  const IOCTL_ARGS1_STMTS: nat := 16
  const FCNTL_ARGS1_STMTS: nat := 2 + 2 * |FCNTL_CMDS|

  // ----- system call numbers (src/syscall/sysnum.c) -----

  /** Which call each number of an ABI is. */
  type Table = seq<Sysnum>

  function TranslateSysnum(table: Table, nr: nat): Sysnum {
    if nr < |table| then table[nr] else Void
  }

  /** The number detranslate_sysnum reports; None is SYSCALL_AVOIDER. */
  ghost predicate IsNumberOf(table: Table, s: Sysnum, r: Option<nat>) {
    match r
    case None => s == Void || s !in table
    case Some(i) => s != Void && i < |table| && table[i] == s && s !in table[..i]
  }

  function IndexOf(table: Table, s: Sysnum, from: nat): (r: Option<nat>)
    requires from <= |table| && s !in table[..from]
    ensures s != Void ==> IsNumberOf(table, s, r)
    decreases |table| - from
  {
    if from == |table| then assert table[..from] == table; None
    else if table[from] == s then Some(from)
    else assert table[..from + 1] == table[..from] + [table[from]]; IndexOf(table, s, from + 1)
  }

  function DetranslateSysnum(table: Table, s: Sysnum): (r: Option<nat>)
    ensures IsNumberOf(table, s, r)
  {
    if s == Void then None else IndexOf(table, s, 0)
  }

  /** Different calls have different numbers, and numbers read back. */
  lemma DetranslateInjective(table: Table, a: Sysnum, b: Sysnum)
    requires DetranslateSysnum(table, a).Some?
    ensures TranslateSysnum(table, DetranslateSysnum(table, a).value) == a
    ensures DetranslateSysnum(table, a) == DetranslateSysnum(table, b) ==> a == b
  {}

  /** No call but PR_void has two numbers. */
  ghost predicate Unambiguous(table: Table) {
    forall i, j :: 0 <= i < j < |table| && table[i] == table[j] ==> table[i] == Void
  }

  // ----- merge_filtered_sysnums -----

  ghost predicate DistinctValues(list: seq<FilteredSysnum>) {
    && (forall i, j :: 0 <= i < j < |list| ==> list[i].value != list[j].value)
    && (forall i :: 0 <= i < |list| ==> list[i].value != Void)
  }

  function OrFlags(a: Option<bv16>, b: Option<bv16>): Option<bv16> {
    if a.None? then b else if b.None? then a else Some(a.value | b.value)
  }

  function EntryFlags(e: FilteredSysnum, s: Sysnum): Option<bv16> {
    if e.value == s then Some(e.flags) else None
  }

  /** All the flags a list gives a call; None: not listed. */
  function FlagsOf(list: seq<FilteredSysnum>, s: Sysnum): Option<bv16> {
    if |list| == 0 then None else OrFlags(EntryFlags(list[0], s), FlagsOf(list[1..], s))
  }

  lemma OrAssociative(a: Option<bv16>, b: Option<bv16>, c: Option<bv16>)
    ensures OrFlags(OrFlags(a, b), c) == OrFlags(a, OrFlags(b, c))
  {
    if a.Some? && b.Some? && c.Some? {
      assert (a.value | b.value) | c.value == a.value | (b.value | c.value);
    }
  }

  lemma OrCommutative(a: Option<bv16>, b: Option<bv16>)
    ensures OrFlags(a, b) == OrFlags(b, a)
  {
    if a.Some? && b.Some? { assert a.value | b.value == b.value | a.value; }
  }

  /** The merged list holds each call once, with the flags of both lists. */
  method MergeFilteredSysnums(list: seq<FilteredSysnum>, newList: seq<FilteredSysnum>) returns (merged: seq<FilteredSysnum>)
    requires DistinctValues(list) && forall i :: 0 <= i < |newList| ==> newList[i].value != Void
    ensures DistinctValues(merged)
    ensures forall s :: FlagsOf(merged, s) == OrFlags(FlagsOf(list, s), FlagsOf(newList, s))
    ensures |list| <= |merged| && forall i :: 0 <= i < |list| ==> merged[i].value == list[i].value
  {
    merged := list;
    assert newList[..0] == [];
    for i := 0 to |newList|
      invariant DistinctValues(merged)
      invariant forall s :: FlagsOf(merged, s) == OrFlags(FlagsOf(list, s), FlagsOf(newList[..i], s))
      invariant |list| <= |merged| && forall k :: 0 <= k < |list| ==> merged[k].value == list[k].value
    {
      var e := newList[i];
      var j := 0;
      while j < |merged| && merged[j].value != e.value
        invariant 0 <= j <= |merged|
        invariant forall k :: 0 <= k < j ==> merged[k].value != e.value
      {
        j := j + 1;
      }
      ghost var before := merged;
      if j == |merged| {
        merged := merged + [e];
      } else {
        merged := Flagged(merged, j, merged[j].flags | e.flags);
      }
      assert newList[..i + 1] == newList[..i] + [e];
      forall s ensures FlagsOf(merged, s) == OrFlags(FlagsOf(list, s), FlagsOf(newList[..i + 1], s)) {
        FlagsOfAppend(newList[..i], e, s);
        OrAssociative(FlagsOf(list, s), FlagsOf(newList[..i], s), EntryFlags(e, s));
        if j == |before| { FlagsOfAppend(before, e, s); } else { FlagsOfUpdate(before, j, e, before[j].flags | e.flags, s); }
      }
    }
    assert newList[..|newList|] == newList;
  }

  lemma {:induction false} FlagsOfAppend(list: seq<FilteredSysnum>, e: FilteredSysnum, s: Sysnum)
    ensures FlagsOf(list + [e], s) == OrFlags(FlagsOf(list, s), EntryFlags(e, s))
  {
    if |list| == 0 {
      assert list + [e] == [e] && [e][1..] == [];
      OrCommutative(None, EntryFlags(e, s));
    } else {
      assert (list + [e])[1..] == list[1..] + [e];
      FlagsOfAppend(list[1..], e, s);
      OrAssociative(EntryFlags(list[0], s), FlagsOf(list[1..], s), EntryFlags(e, s));
    }
  }

  /** list with the flags of entry j replaced. */
  function Flagged(list: seq<FilteredSysnum>, j: nat, flags: bv16): seq<FilteredSysnum>
    requires j < |list|
  {
    list[j := list[j].(flags := flags)]
  }

  lemma FlaggedEntry(a: FilteredSysnum, e: FilteredSysnum, s: Sysnum)
    requires a.value == e.value
    ensures EntryFlags(a.(flags := a.flags | e.flags), s) == OrFlags(EntryFlags(a, s), EntryFlags(e, s))
  {}

  lemma {:induction false} FlagsOfUpdate(list: seq<FilteredSysnum>, j: nat, e: FilteredSysnum, flags: bv16, s: Sysnum)
    requires j < |list| && list[j].value == e.value && flags == list[j].flags | e.flags
    ensures FlagsOf(Flagged(list, j, flags), s) == OrFlags(FlagsOf(list, s), EntryFlags(e, s))
  {
    if j == 0 {
      assert Flagged(list, 0, flags)[1..] == list[1..];
      FlaggedEntry(list[0], e, s);
      OrRotate(EntryFlags(list[0], s), EntryFlags(e, s), FlagsOf(list[1..], s));
    } else {
      FlagsOfUpdate(list[1..], j - 1, e, flags, s);
      FlaggedTail(list, j, flags, s);
      OrAssociative(EntryFlags(list[0], s), FlagsOf(list[1..], s), EntryFlags(e, s));
    }
  }

  lemma FlaggedTail(list: seq<FilteredSysnum>, j: nat, flags: bv16, s: Sysnum)
    requires 0 < j < |list|
    ensures FlagsOf(Flagged(list, j, flags), s) ==
            OrFlags(EntryFlags(list[0], s), FlagsOf(Flagged(list[1..], j - 1, flags), s))
  {
    assert Flagged(list, j, flags)[1..] == Flagged(list[1..], j - 1, flags);
  }

  lemma OrRotate(a: Option<bv16>, b: Option<bv16>, c: Option<bv16>)
    ensures OrFlags(OrFlags(a, b), c) == OrFlags(OrFlags(a, c), b)
  {
    OrAssociative(a, b, c);
    OrCommutative(b, c);
    OrAssociative(a, c, b);
  }

  // ----- blocks -----

  predicate IsUserNotifSysnum(s: Sysnum) {
    s == Newfstatat || s == Fstatat64 || s == Statx
  }

  predicate IsStatShimSysnum(s: Sysnum, link2symlink: bool) {
    || s == Newfstatat || s == Fstatat64 || s == Statx
    || (!link2symlink && (s == Fstat || s == Fstat64))
  }

  /** SECCOMP_RET_TRACE + flags. */
  function TraceRet(flags: bv16): (r: nat)
    ensures RET_TRACE <= r < RET_ALLOW
  {
    RET_TRACE + (flags as nat)
  }

  /** One listed system call, compiled. */
  datatype Block =
    | Plain(sc: nat, ret: nat)
    | ByArg(sc: nat, ret: nat, cmds: seq<nat>)
    | Tagged(sc: nat, argIndex: nat)

  /** No number is cut off by the 32-bit constants of the program. */
  predicate NumbersFit(blocks: seq<Block>) {
    forall i :: 0 <= i < |blocks| ==> blocks[i].sc <= UINT32_MAX
  }

  lemma NumbersFitConcat(a: seq<Block>, b: seq<Block>)
    ensures NumbersFit(a + b) <==> NumbersFit(a) && NumbersFit(b)
  {
    if NumbersFit(a + b) {
      assert forall i :: 0 <= i < |a| ==> (a + b)[i] == a[i];
      assert forall i :: 0 <= i < |b| ==> (a + b)[|a| + i] == b[i];
    }
  }

  /** The block of a list entry whose number is sc; None: left untraced. */
  function BlockOf(e: FilteredSysnum, sc: nat, o: Options): Option<Block> {
    if o.statShim && IsStatShimSysnum(e.value, o.link2symlink) then
      if o.userNotif && IsUserNotifSysnum(e.value) then Some(Tagged(sc, if e.value == Statx then 2 else 3)) else None
    else if e.value == Ioctl then Some(ByArg(sc, TraceRet(e.flags), IOCTL_CMDS))
    else if e.value == Fcntl || e.value == Fcntl64 then Some(ByArg(sc, TraceRet(e.flags), FCNTL_CMDS))
    else if o.userNotif && IsUserNotifSysnum(e.value) then Some(Plain(sc, RET_USER_NOTIF))
    else Some(Plain(sc, TraceRet(e.flags)))
  }

  function EntryBlocks(table: Table, e: FilteredSysnum, o: Options): seq<Block> {
    match DetranslateSysnum(table, e.value)
    case None => []
    case Some(sc) => (match BlockOf(e, sc, o) case None => [] case Some(b) => [b])
  }

  function TableBlocks(table: Table, list: seq<FilteredSysnum>, o: Options): seq<Block> {
    if |list| == 0 then [] else TableBlocks(table, list[..|list| - 1], o) + EntryBlocks(table, list[|list| - 1], o)
  }

  function ArchBlocks(abis: seq<Table>, list: seq<FilteredSysnum>, o: Options): seq<Block> {
    if |abis| == 0 then [] else ArchBlocks(abis[..|abis| - 1], list, o) + TableBlocks(abis[|abis| - 1], list, o)
  }

  // ----- code -----

  function CmdTests(cmds: seq<nat>, ret: nat): (code: seq<Insn>)
    ensures |code| == 2 * |cmds|
  {
    if |cmds| == 0 then [] else CmdTests(cmds[..|cmds| - 1], ret) + [Jeq(cmds[|cmds| - 1], 0, 1), Ret(ret)]
  }

  function Code(b: Block): (code: seq<Insn>)
    ensures |code| >= 2
  {
    match b
    case Plain(sc, ret) => [Jeq(sc, 0, 1), Ret(ret)]
    case ByArg(sc, ret, cmds) =>
      [Jeq(sc, 0, (1 + 2 * |cmds|) % 256), LdAbs(ArgLow(1))] + CmdTests(cmds, ret)
    case Tagged(sc, argIndex) =>
      [LdAbs(Nr), Jeq(sc, 0, 4), LdAbs(ArgHigh(argIndex)), Jeq(RAW_TAG, 0, 1),
       Ret(RET_ALLOW), Ret(RET_USER_NOTIF)]
  }

  function Codes(blocks: seq<Block>): seq<Insn> {
    if |blocks| == 0 then [] else Codes(blocks[..|blocks| - 1]) + Code(blocks[|blocks| - 1])
  }

  datatype Arch = Arch(value: Word, abis: seq<Table>)

  function Header(arch: Word, sectionLength: nat): seq<Insn> {
    [LdAbs(ArchField), Jeq(arch, 1, 0), Ja(sectionLength + 1), LdAbs(Nr)]
  }

  function Section(a: Arch, list: seq<FilteredSysnum>, o: Options): seq<Insn> {
    var body := Codes(ArchBlocks(a.abis, list, o)) + [Ret(RET_ALLOW)];
    Header(a.value, |body|) + body
  }

  function Sections(archs: seq<Arch>, list: seq<FilteredSysnum>, o: Options): seq<Insn> {
    if |archs| == 0 then [] else Sections(archs[..|archs| - 1], list, o) + Section(archs[|archs| - 1], list, o)
  }

  /** The whole filter: anything from an architecture without a section is killed. */
  function Program(archs: seq<Arch>, list: seq<FilteredSysnum>, o: Options): seq<Insn> {
    Sections(archs, list, o) + [Ret(RET_KILL)]
  }

  // ----- the compiler -----

  datatype CompileError = RangeError

  const USHORT_RANGE: nat := 0x1_0000

  /** A length as the 16 bits of sock_fprog keep it. */
  function Ushort(n: nat): (r: nat)
    ensures r < USHORT_RANGE && (r == n <==> n < USHORT_RANGE) && r <= n
  {
    if n < USHORT_RANGE then n else Ushort(n - USHORT_RANGE)
  }

  class FilterProgram {
    var filter: seq<Insn>
    var len: nat  // where the section being written begins, in 16 bits

    constructor ()
      ensures filter == [] && len == 0
    {
      filter, len := [], 0;
    }

    method AddStatements(statements: seq<Insn>)
      modifies this`filter
      ensures filter == old(filter) + statements
    {
      for i := 0 to |statements|
        invariant filter == old(filter) + statements[..i]
      {
        filter := filter + [statements[i]];
      }
      assert statements[..|statements|] == statements;
    }

    method AddSyscallRet(syscall: nat, ret: nat) returns (ok: bool)
      modifies this`filter
      ensures ok <==> syscall <= UINT32_MAX
      ensures filter == if ok then old(filter) + Code(Plain(syscall, ret)) else old(filter)
    {
      if syscall > UINT32_MAX {
        return false;
      }
      AddStatements([Jeq(syscall, 0, 1), Ret(ret)]);
      return true;
    }

    method AddTraceSyscall(syscall: nat, flags: bv16) returns (ok: bool)
      modifies this`filter
      ensures ok <==> syscall <= UINT32_MAX
      ensures filter == if ok then old(filter) + Code(Plain(syscall, TraceRet(flags))) else old(filter)
    {
      ok := AddSyscallRet(syscall, RET_TRACE + (flags as nat));
    }

    method AddTraceSyscallArgs1(syscall: nat, flags: bv16, args1: seq<nat>) returns (ok: bool)
      modifies this`filter
      ensures ok <==> syscall <= UINT32_MAX
      ensures filter == if ok then old(filter) + Code(ByArg(syscall, TraceRet(flags), args1)) else old(filter)
    {
      if syscall > UINT32_MAX {
        return false;
      }
      var skip := 1 + 2 * |args1|;
      var head := [Jeq(syscall, 0, skip % 256), LdAbs(ArgLow(1))];
      var tests := BuildCmdTests(args1, RET_TRACE + (flags as nat));
      AddStatements(head + tests);
      return true;
    }

    static method BuildCmdTests(args1: seq<nat>, ret: nat) returns (statements: seq<Insn>)
      ensures statements == CmdTests(args1, ret)
    {
      statements := [];
      for i := 0 to |args1|
        invariant statements == CmdTests(args1[..i], ret)
      {
        assert args1[..i + 1][..|args1[..i + 1]| - 1] == args1[..i];
        statements := statements + [Jeq(args1[i], 0, 1), Ret(ret)];
      }
      assert args1[..|args1|] == args1;
    }

    method AddNotifSyscallFlag(syscall: nat, argIndex: nat, tag: nat) returns (ok: bool)
      requires tag == RAW_TAG
      modifies this`filter
      ensures ok <==> syscall <= UINT32_MAX && argIndex <= 5
      ensures filter == if ok then old(filter) + Code(Tagged(syscall, argIndex)) else old(filter)
    {
      if syscall > UINT32_MAX || argIndex > 5 {
        return false;
      }
      AddStatements([LdAbs(Nr), Jeq(syscall, 0, 4), LdAbs(ArgHigh(argIndex)), Jeq(tag, 0, 1),
                     Ret(RET_ALLOW), Ret(RET_USER_NOTIF)]);
      return true;
    }

    method StartArchSection(arch: Word, traced: nat, extra: nat) returns (ok: bool)
      modifies this
      ensures ok <==> 1 + traced * 2 + extra <= UINT32_MAX - 1
      ensures ok ==> filter == old(filter) + Header(arch, 1 + traced * 2 + extra) && len == Ushort(|filter|)
      ensures !ok ==> filter == old(filter)
    {
      var sectionLength := 1 + traced * 2 + extra;
      if sectionLength > UINT32_MAX - 1 {
        return false;
      }
      AddStatements([LdAbs(ArchField), Jeq(arch, 1, 0), Ja(sectionLength + 1), LdAbs(Nr)]);
      len := Ushort(|filter|);
      return true;
    }

    /** Fails when the section is not as long as was announced to the header, as
        it also seems when it began where 16 bits could not say. */
    method EndArchSection(traced: nat, extra: nat) returns (ok: bool)
      requires len <= |filter|
      modifies this`filter
      ensures filter == old(filter) + [Ret(RET_ALLOW)]
      ensures ok <==> |filter| - len == 1 + traced * 2 + extra
    {
      AddStatements([Ret(RET_ALLOW)]);
      var used := |filter| - len;
      var expected := 1 + traced * 2 + extra;
      return used == expected;
    }

    /** The emission of one list entry for one ABI. */
    method AddEntry(table: Table, e: FilteredSysnum, o: Options) returns (ok: bool)
      modifies this`filter
      ensures ok <==> NumbersFit(EntryBlocks(table, e, o))
      ensures ok ==> filter == old(filter) + Codes(EntryBlocks(table, e, o))
    {
      var sc := DetranslateSysnum(table, e.value);
      if sc.None? {
        return true;
      }
      SingleCode(EntryBlocks(table, e, o));
      if o.statShim && IsStatShimSysnum(e.value, o.link2symlink) {
        if o.userNotif && (e.value == Newfstatat || e.value == Fstatat64 || e.value == Statx) {
          var argIndex := if e.value == Statx then 2 else 3;
          ok := AddNotifSyscallFlag(sc.value, argIndex, RAW_TAG);
          return;
        }
        return true;
      }
      if e.value == Ioctl {
        ok := AddTraceSyscallArgs1(sc.value, e.flags, IOCTL_CMDS);
      } else if e.value == Fcntl || e.value == Fcntl64 {
        ok := AddTraceSyscallArgs1(sc.value, e.flags, FCNTL_CMDS);
      } else if o.userNotif && IsUserNotifSysnum(e.value) {
        ok := AddSyscallRet(sc.value, RET_USER_NOTIF);
      } else {
        ok := AddTraceSyscall(sc.value, e.flags);
      }
    }

    method AddTableBlocks(table: Table, list: seq<FilteredSysnum>, o: Options) returns (ok: bool)
      modifies this`filter
      ensures ok <==> NumbersFit(TableBlocks(table, list, o))
      ensures ok ==> filter == old(filter) + Codes(TableBlocks(table, list, o))
    {
      ghost var done: seq<Block> := [];
      assert TableBlocks(table, list[..0], o) == [];
      for k := 0 to |list|
        invariant done == TableBlocks(table, list[..k], o)
        invariant filter == old(filter) + Codes(done)
        invariant NumbersFit(done)
      {
        ghost var blocks := EntryBlocks(table, list[k], o);
        assert list[..k + 1][..|list[..k + 1]| - 1] == list[..k];
        CodesConcat(done, blocks);
        NumbersFitConcat(done, blocks);
        ConcatAssociative(old(filter), Codes(done), Codes(blocks));
        done := done + blocks;
        ok := AddEntry(table, list[k], o);
        if !ok {
          TableBlocksGrow(table, list, k + 1, o);
          return;
        }
      }
      assert list[..|list|] == list;
      return true;
    }

    method AddArchBlocks(abis: seq<Table>, list: seq<FilteredSysnum>, o: Options) returns (ok: bool)
      modifies this`filter
      ensures ok <==> NumbersFit(ArchBlocks(abis, list, o))
      ensures ok ==> filter == old(filter) + Codes(ArchBlocks(abis, list, o))
    {
      ghost var done: seq<Block> := [];
      assert ArchBlocks(abis[..0], list, o) == [];
      for j := 0 to |abis|
        invariant done == ArchBlocks(abis[..j], list, o)
        invariant filter == old(filter) + Codes(done)
        invariant NumbersFit(done)
      {
        ghost var blocks := TableBlocks(abis[j], list, o);
        assert abis[..j + 1][..|abis[..j + 1]| - 1] == abis[..j];
        CodesConcat(done, blocks);
        NumbersFitConcat(done, blocks);
        ConcatAssociative(old(filter), Codes(done), Codes(blocks));
        done := done + blocks;
        ok := AddTableBlocks(abis[j], list, o);
        if !ok {
          ArchBlocksGrow(abis, j + 1, list, o);
          return;
        }
      }
      assert abis[..|abis|] == abis;
      return true;
    }
  }

  // ----- sizing: the announced section length is the emitted one -----

  method CountEntry(table: Table, e: FilteredSysnum, o: Options)
    returns (traced: nat, ioctlExtra: nat, statExtra: nat)
    ensures traced * 2 + ioctlExtra + statExtra == |Codes(EntryBlocks(table, e, o))|
  {
    traced, ioctlExtra, statExtra := 0, 0, 0;
    SingleCode(EntryBlocks(table, e, o));
    var sc := DetranslateSysnum(table, e.value);
    if sc.None? {
      return;
    }
    if o.statShim && IsStatShimSysnum(e.value, o.link2symlink) {
      if o.userNotif && (e.value == Newfstatat || e.value == Fstatat64 || e.value == Statx) {
        traced := 1;
        statExtra := 6 - 2;
      }
      return;
    }
    traced := 1;
    if e.value == Ioctl {
      ioctlExtra := IOCTL_ARGS1_STMTS - 2;
    } else if e.value == Fcntl || e.value == Fcntl64 {
      ioctlExtra := FCNTL_ARGS1_STMTS - 2;
    }
  }

  /** The first pass of set_seccomp_filters over one ABI. */
  method CountTable(table: Table, list: seq<FilteredSysnum>, o: Options) returns (traced: nat, extra: nat)
    ensures traced * 2 + extra == |Codes(TableBlocks(table, list, o))|
  {
    traced, extra := 0, 0;
    assert TableBlocks(table, list[..0], o) == [];
    for k := 0 to |list|
      invariant traced * 2 + extra == |Codes(TableBlocks(table, list[..k], o))|
    {
      assert list[..k + 1][..|list[..k + 1]| - 1] == list[..k];
      CodesConcat(TableBlocks(table, list[..k], o), EntryBlocks(table, list[k], o));
      var n, ioctlExtra, statExtra := CountEntry(table, list[k], o);
      traced := traced + n;
      extra := extra + ioctlExtra + statExtra;
    }
    assert list[..|list|] == list;
  }

  method CountArch(abis: seq<Table>, list: seq<FilteredSysnum>, o: Options) returns (traced: nat, extra: nat)
    ensures traced * 2 + extra == |Codes(ArchBlocks(abis, list, o))|
  {
    traced, extra := 0, 0;
    assert ArchBlocks(abis[..0], list, o) == [];
    for j := 0 to |abis|
      invariant traced * 2 + extra == |Codes(ArchBlocks(abis[..j], list, o))|
    {
      assert abis[..j + 1][..|abis[..j + 1]| - 1] == abis[..j];
      CodesConcat(ArchBlocks(abis[..j], list, o), TableBlocks(abis[j], list, o));
      var n, x := CountTable(abis[j], list, o);
      traced := traced + n;
      extra := extra + x;
    }
    assert abis[..|abis|] == abis;
  }

  /** What the range checks of the compiler let through. */
  predicate ArchFits(a: Arch, list: seq<FilteredSysnum>, o: Options) {
    && NumbersFit(ArchBlocks(a.abis, list, o))
    && 1 + |Codes(ArchBlocks(a.abis, list, o))| <= UINT32_MAX - 1
  }

  predicate ArchsFit(archs: seq<Arch>, list: seq<FilteredSysnum>, o: Options) {
    forall i :: 0 <= i < |archs| ==> ArchFits(archs[i], list, o)
  }

  lemma ArchsFitStep(archs: seq<Arch>, i: nat, list: seq<FilteredSysnum>, o: Options)
    requires i < |archs|
    ensures ArchsFit(archs[..i + 1], list, o) <==> ArchsFit(archs[..i], list, o) && ArchFits(archs[i], list, o)
    ensures ArchsFit(archs, list, o) ==> ArchFits(archs[i], list, o)
    ensures Sections(archs[..i + 1], list, o) == Sections(archs[..i], list, o) + Section(archs[i], list, o)
  {
    assert archs[..i + 1][..|archs[..i + 1]| - 1] == archs[..i];
    assert archs[..i + 1] == archs[..i] + [archs[i]];
  }

  /** Every section begins where 16 bits can say. */
  predicate StartsFit(archs: seq<Arch>, list: seq<FilteredSysnum>, o: Options) {
    |archs| == 0
    || (StartsFit(archs[..|archs| - 1], list, o) && StartFits(|Sections(archs[..|archs| - 1], list, o)|))
  }

  predicate StartFits(before: nat) {
    before + 4 < USHORT_RANGE
  }

  /** What has to fit: the numbers of a section's calls and its length, plus two, in
      32 bits. */
  lemma SectionFitsMeans(a: Arch, list: seq<FilteredSysnum>, o: Options)
    ensures ArchFits(a, list, o) <==>
            && (forall b :: b in ArchBlocks(a.abis, list, o) ==> b.sc < 0x1_0000_0000)
            && |Codes(ArchBlocks(a.abis, list, o))| + 2 < 0x1_0000_0000
  {
    var blocks := ArchBlocks(a.abis, list, o);
    assert NumbersFit(blocks) <==> forall b :: b in blocks ==> b.sc < 0x1_0000_0000;
  }

  lemma {:induction false} StartsFitPrefix(archs: seq<Arch>, i: nat, list: seq<FilteredSysnum>, o: Options)
    requires i <= |archs|
    ensures StartsFit(archs, list, o) ==> StartsFit(archs[..i], list, o)
    decreases |archs|
  {
    if i == |archs| {
      assert archs[..i] == archs;
    } else {
      var init := archs[..|archs| - 1];
      assert init[..i] == archs[..i];
      StartsFitPrefix(init, i, list, o);
    }
  }

  /** And where a section begins in 16. */
  lemma StartsFitMeans(archs: seq<Arch>, list: seq<FilteredSysnum>, o: Options)
    ensures StartsFit(archs, list, o) <==> forall i :: 0 <= i < |archs| ==> |Sections(archs[..i], list, o)| + 4 < 0x1_0000
  {
    assert archs[..|archs|] == archs;
    if StartsFit(archs, list, o) {
      forall i | 0 <= i < |archs| ensures |Sections(archs[..i], list, o)| + 4 < 0x1_0000 {
        StartsFitAt(archs, i, list, o);
      }
    } else if forall i :: 0 <= i < |archs| ==> |Sections(archs[..i], list, o)| + 4 < 0x1_0000 {
      StartsFitAll(archs, |archs|, list, o);
    }
  }

  lemma StartsFitAt(archs: seq<Arch>, i: nat, list: seq<FilteredSysnum>, o: Options)
    requires i < |archs| && StartsFit(archs, list, o)
    ensures |Sections(archs[..i], list, o)| + 4 < 0x1_0000
  {
    StartsFitPrefix(archs, i + 1, list, o);
    assert archs[..i + 1][..i] == archs[..i];
  }

  lemma {:induction false} StartsFitAll(archs: seq<Arch>, n: nat, list: seq<FilteredSysnum>, o: Options)
    requires n <= |archs| && forall i :: 0 <= i < n ==> |Sections(archs[..i], list, o)| + 4 < 0x1_0000
    ensures StartsFit(archs[..n], list, o)
    decreases n
  {
    if n > 0 {
      StartsFitAll(archs, n - 1, list, o);
      assert archs[..n][..n - 1] == archs[..n - 1];
    }
  }

  lemma StartsFitStep(archs: seq<Arch>, i: nat, list: seq<FilteredSysnum>, o: Options)
    requires i < |archs|
    ensures StartsFit(archs[..i + 1], list, o) <==> StartsFit(archs[..i], list, o) && StartFits(|Sections(archs[..i], list, o)|)
    ensures StartsFit(archs, list, o) ==> StartsFit(archs[..i + 1], list, o)
  {
    assert archs[..i + 1][..|archs[..i + 1]| - 1] == archs[..i];
    StartsFitPrefix(archs, i + 1, list, o);
  }

  /** set_seccomp_filters up to the system call that installs the filter.  The
      only failures are numbers or sections that do not fit 32 bits, and a section
      that begins beyond 16: the length check at the end of a section has no other
      reason to fail. */
  method SetSeccompFilters(archs: seq<Arch>, list: seq<FilteredSysnum>, o: Options)
    returns (r: Result<seq<Insn>, CompileError>)
    ensures r.Ok? <==> ArchsFit(archs, list, o) && StartsFit(archs, list, o)
    ensures r.Ok? ==> r.value == Program(archs, list, o)
  {
    var program := new FilterProgram();
    assert Sections(archs[..0], list, o) == [];
    for i := 0 to |archs|
      invariant fresh(program) && program.filter == Sections(archs[..i], list, o)
      invariant ArchsFit(archs[..i], list, o)
      invariant StartsFit(archs[..i], list, o)
    {
      ArchsFitStep(archs, i, list, o);
      StartsFitStep(archs, i, list, o);
      var ok := WriteSection(program, archs[i], list, o);
      if !ok {
        return Err(RangeError);
      }
    }
    assert archs[..|archs|] == archs;
    program.AddStatements([Ret(RET_KILL)]);
    return Ok(program.filter);
  }

  method WriteSection(program: FilterProgram, a: Arch, list: seq<FilteredSysnum>, o: Options) returns (ok: bool)
    modifies program
    ensures ok <==> ArchFits(a, list, o) && StartFits(|old(program.filter)|)
    ensures ok ==> program.filter == old(program.filter) + Section(a, list, o)
  {
    var traced, extra := CountArch(a.abis, list, o);
    SectionAssembled(program.filter, a, list, o, 1 + traced * 2 + extra);
    ok := program.StartArchSection(a.value, traced, extra);
    if !ok {
      return;
    }
    ok := program.AddArchBlocks(a.abis, list, o);
    if !ok {
      return;
    }
    ok := program.EndArchSection(traced, extra);
  }

  // ----- how long a program gets -----

  /** The statements an entry takes beyond a test and a return. */
  function ExtraCode(s: Sysnum): nat {
    match s
    case Ioctl => 14
    case Fcntl => 4
    case Fcntl64 => 4
    case Newfstatat => 4
    case Fstatat64 => 4
    case Statx => 4
    case _ => 0
  }

  function ExtraCodes(list: seq<FilteredSysnum>): nat {
    if |list| == 0 then 0 else ExtraCodes(list[..|list| - 1]) + ExtraCode(list[|list| - 1].value)
  }

  /** The share of one call in that. */
  function ExtraOf(list: seq<FilteredSysnum>, s: Sysnum): nat {
    if |list| == 0 then 0
    else ExtraOf(list[..|list| - 1], s) + if list[|list| - 1].value == s then ExtraCode(s) else 0
  }

  lemma {:induction false} ExtraByCall(list: seq<FilteredSysnum>)
    ensures ExtraCodes(list) == ExtraOf(list, Ioctl) + ExtraOf(list, Fcntl) + ExtraOf(list, Fcntl64)
                                + ExtraOf(list, Newfstatat) + ExtraOf(list, Fstatat64) + ExtraOf(list, Statx)
  {
    if |list| > 0 { ExtraByCall(list[..|list| - 1]); }
  }

  /** A list that names each call once has each kind of long code once. */
  lemma {:induction false} ExtraOnce(list: seq<FilteredSysnum>, s: Sysnum)
    requires DistinctValues(list)
    ensures ExtraOf(list, s) <= ExtraCode(s)
    ensures (forall i :: 0 <= i < |list| ==> list[i].value != s) ==> ExtraOf(list, s) == 0
  {
    if |list| > 0 { ExtraOnce(list[..|list| - 1], s); }
  }

  lemma {:induction false} TableLength(table: Table, list: seq<FilteredSysnum>, o: Options)
    ensures |Codes(TableBlocks(table, list, o))| <= 2 * |list| + ExtraCodes(list)
  {
    if |list| > 0 {
      var init, last := list[..|list| - 1], list[|list| - 1];
      TableLength(table, init, o);
      CodesConcat(TableBlocks(table, init, o), EntryBlocks(table, last, o));
      EntryLength(table, last, o);
    }
  }

  lemma EntryLength(table: Table, e: FilteredSysnum, o: Options)
    ensures |Codes(EntryBlocks(table, e, o))| <= 2 + ExtraCode(e.value)
  {
    SingleCode(EntryBlocks(table, e, o));
  }

  /** Room enough for a program over these architectures from a list of n calls. */
  function LengthBound(archs: seq<Arch>, n: nat): nat {
    if |archs| == 0 then 1
    else LengthBound(archs[..|archs| - 1], n) + 5 + ArchBound(archs[|archs| - 1].abis, n)
  }

  function ArchBound(abis: seq<Table>, n: nat): nat {
    if |abis| == 0 then 0 else ArchBound(abis[..|abis| - 1], n) + 2 * n + 34
  }

  lemma {:induction false} ArchLength(abis: seq<Table>, list: seq<FilteredSysnum>, o: Options)
    requires DistinctValues(list)
    ensures |Codes(ArchBlocks(abis, list, o))| <= ArchBound(abis, |list|)
  {
    if |abis| > 0 {
      var init, last := abis[..|abis| - 1], abis[|abis| - 1];
      ArchLength(init, list, o);
      TableBound(last, list, o);
      CodesConcat(ArchBlocks(init, list, o), TableBlocks(last, list, o));
    }
  }

  lemma TableBound(table: Table, list: seq<FilteredSysnum>, o: Options)
    requires DistinctValues(list)
    ensures |Codes(TableBlocks(table, list, o))| <= 2 * |list| + 34
  {
    TableLength(table, list, o);
    ExtraBound(list);
  }

  lemma ExtraBound(list: seq<FilteredSysnum>)
    requires DistinctValues(list)
    ensures ExtraCodes(list) <= 34
  {
    ExtraByCall(list);
    ExtraOnce(list, Ioctl);
    ExtraOnce(list, Fcntl);
    ExtraOnce(list, Fcntl64);
    ExtraOnce(list, Newfstatat);
    ExtraOnce(list, Fstatat64);
    ExtraOnce(list, Statx);
  }

  lemma {:induction false} ProgramLength(archs: seq<Arch>, list: seq<FilteredSysnum>, o: Options)
    requires DistinctValues(list)
    ensures |Program(archs, list, o)| <= LengthBound(archs, |list|)
  {
    if |archs| > 0 {
      ProgramLength(archs[..|archs| - 1], list, o);
      ArchLength(archs[|archs| - 1].abis, list, o);
    }
  }

  /** A list short enough for the kernel is short enough for the compiler. */
  lemma {:induction false} ShortStartsFit(archs: seq<Arch>, list: seq<FilteredSysnum>, o: Options)
    requires |Sections(archs, list, o)| <= BPF_MAXINSNS
    ensures StartsFit(archs, list, o)
  {
    if |archs| > 0 { ShortStartsFit(archs[..|archs| - 1], list, o); }
  }

  lemma SectionAssembled(start: seq<Insn>, a: Arch, list: seq<FilteredSysnum>, o: Options, length: nat)
    requires length == 1 + |Codes(ArchBlocks(a.abis, list, o))|
    ensures start + Header(a.value, length) + Codes(ArchBlocks(a.abis, list, o)) + [Ret(RET_ALLOW)]
            == start + Section(a, list, o)
  {
    Reassociate(start, Header(a.value, length), Codes(ArchBlocks(a.abis, list, o)), [Ret(RET_ALLOW)]);
  }

  lemma Reassociate<T>(a: seq<T>, b: seq<T>, c: seq<T>, d: seq<T>)
    ensures a + b + c + d == a + (b + (c + d))
  {}

  lemma SingleCode(blocks: seq<Block>)
    requires |blocks| <= 1
    ensures Codes(blocks) == if |blocks| == 0 then [] else Code(blocks[0])
  {
    if |blocks| == 1 {
      assert blocks[..0] == [];
    }
  }

  lemma {:induction false} CodesConcat(a: seq<Block>, b: seq<Block>)
    ensures Codes(a + b) == Codes(a) + Codes(b)
  {
    if |b| == 0 {
      assert a + b == a;
    } else {
      var init, last := b[..|b| - 1], b[|b| - 1];
      assert (a + b)[..|a + b| - 1] == a + init && (a + b)[|a + b| - 1] == last;
      CodesConcat(a, init);
      ConcatAssociative(Codes(a), Codes(init), Code(last));
    }
  }

  lemma ConcatAssociative<T>(a: seq<T>, b: seq<T>, c: seq<T>)
    ensures (a + b) + c == a + (b + c)
  {}

  lemma {:induction false} TableBlocksGrow(table: Table, list: seq<FilteredSysnum>, k: nat, o: Options)
    requires k <= |list|
    ensures TableBlocks(table, list[..k], o) <= TableBlocks(table, list, o)
    decreases |list| - k
  {
    if k == |list| {
      assert list[..k] == list;
    } else {
      assert list[..k + 1][..|list[..k + 1]| - 1] == list[..k];
      TableBlocksGrow(table, list, k + 1, o);
    }
  }

  lemma {:induction false} ArchBlocksGrow(abis: seq<Table>, j: nat, list: seq<FilteredSysnum>, o: Options)
    requires j <= |abis|
    ensures ArchBlocks(abis[..j], list, o) <= ArchBlocks(abis, list, o)
    decreases |abis| - j
  {
    if j == |abis| {
      assert abis[..j] == abis;
    } else {
      assert abis[..j + 1][..|abis[..j + 1]| - 1] == abis[..j];
      ArchBlocksGrow(abis, j + 1, list, o);
    }
  }
}
