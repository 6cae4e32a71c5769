/** The loader of src/loader/loader.cpp: a machine that replays a load script
    which stands in the very address space it maps over, then patches the
    auxiliary vector. */
module Loader {
  import opened Wrappers
  import opened ElfMap
  import opened LoadScript

  const FATAL_EXIT_CODE := 182

  const AT_NULL := 0
  const AT_PHDR := 3
  const AT_PHENT := 4
  const AT_PHNUM := 5
  const AT_BASE := 7
  const AT_ENTRY := 9
  const AT_EXECFN := 31

  /** The kernel's answers: the files, by name, and which fixed mappings it
      grants. */
  datatype Kernel = Kernel(files: string -> Option<File>, grants: Mapping -> bool)

  /** Fatal: the loader gives up.  Crashed: it has nothing to read or to run any
      more. */
  datatype Machine =
    | Running(mem: Memory, fd: Option<File>, atBase: nat, reset: bool)
    | Started(mem: Memory, atBase: nat, info: StartInfo, traced: bool)
    | Fatal
    | Crashed

  // ----- reading memory -----

  /** Addresses from lo up to but not hi. */
  datatype Range = Range(lo: nat, hi: nat)

  predicate Apart(p: Mapping, r: Range) {
    p.addr + p.length <= r.lo || r.hi <= p.addr
  }

  ghost predicate SameOn(mem: Memory, mem': Memory, r: Range) {
    forall a: nat :: r.lo <= a < r.hi ==> mem'(a) == mem(a)
  }

  /** The number the bytes from a to end spell, the lowest first. */
  function ReadBytes(mem: Memory, a: nat, end: nat): Option<nat>
    requires a <= end
    decreases end - a
  {
    if a == end then Some(0)
    else if mem(a).None? || ReadBytes(mem, a + 1, end).None? then None
    else Some(mem(a).value + 256 * ReadBytes(mem, a + 1, end).value)
  }

  /** The words of a memory, by address. */
  type Words = nat -> Option<nat>

  function WordsOf(mem: Memory): Words {
    (a: nat) => ReadBytes(mem, a, a + 8)
  }

  /** The first n words from a on, as far as they can be read. */
  function WordsFrom(read: Words, a: nat, n: nat): (words: seq<nat>)
    ensures |words| <= n
    decreases n
  {
    if n == 0 || read(a).None? then [] else [read(a).value] + WordsFrom(read, a + 8, n - 1)
  }

  ghost predicate HoldsWords(read: Words, at: nat, words: seq<nat>) {
    forall i :: 0 <= i < |words| ==> read(at + 8 * i) == Some(words[i])
  }

  lemma HeldParts(read: Words, at: nat, a: seq<nat>, b: seq<nat>)
    requires HoldsWords(read, at, a + b)
    ensures HoldsWords(read, at, a) && HoldsWords(read, at + 8 * |a|, b)
  {
    forall i | 0 <= i < |a| ensures read(at + 8 * i) == Some(a[i]) {
      assert (a + b)[i] == a[i];
    }
    forall i | 0 <= i < |b| ensures read(at + 8 * |a| + 8 * i) == Some(b[i]) {
      assert (a + b)[|a| + i] == b[i];
      assert at + 8 * (|a| + i) == at + 8 * |a| + 8 * i;
    }
  }

  lemma {:induction false} HeldWords(read: Words, at: nat, words: seq<nat>, n: nat)
    requires HoldsWords(read, at, words) && |words| <= n
    ensures words <= WordsFrom(read, at, n)
    decreases |words|
  {
    if |words| > 0 {
      var first, rest := words[..1], words[1..];
      assert words == first + rest;
      HeldParts(read, at, first, rest);
      assert read(at + 8 * 0) == Some(words[0]);
      HeldWords(read, at + 8, rest, n - 1);
    }
  }

  lemma {:induction false} BytesKept(mem: Memory, mem': Memory, a: nat, end: nat, r: Range)
    requires SameOn(mem, mem', r) && r.lo <= a <= end <= r.hi
    ensures ReadBytes(mem', a, end) == ReadBytes(mem, a, end)
    decreases end - a
  {
    if a < end { BytesKept(mem, mem', a + 1, end, r); }
  }

  lemma WordsKept(mem: Memory, mem': Memory, at: nat, words: seq<nat>, r: Range)
    requires HoldsWords(WordsOf(mem), at, words) && SameOn(mem, mem', r) && r.lo <= at && at + 8 * |words| <= r.hi
    ensures HoldsWords(WordsOf(mem'), at, words)
  {
    forall i | 0 <= i < |words| ensures WordsOf(mem')(at + 8 * i) == Some(words[i]) {
      assert WordsOf(mem)(at + 8 * i) == Some(words[i]);
      BytesKept(mem, mem', at + 8 * i, at + 8 * i + 8, r);
    }
  }

  /** The C string at an address, as the kernel reads it: None is EFAULT. */
  function CString(mem: Memory, a: nat): Option<string>
    decreases WORD - a
  {
    if a >= WORD || mem(a).None? || mem(a).value >= 256 then None
    else if mem(a).value == 0 then Some("")
    else
      match CString(mem, a + 1)
      case None => None
      case Some(rest) => Some([mem(a).value as char] + rest)
  }

  predicate IsByteString(s: string) {
    forall i :: 0 <= i < |s| ==> 0 < s[i] as int < 256
  }

  ghost predicate HoldsString(mem: Memory, a: nat, s: string) {
    && IsByteString(s) && a + |s| < WORD
    && (forall i :: 0 <= i < |s| ==> mem(a + i) == Some(s[i] as int))
    && mem(a + |s|) == Some(0)
  }

  lemma {:induction false} HeldString(mem: Memory, a: nat, s: string)
    requires HoldsString(mem, a, s)
    ensures CString(mem, a) == Some(s)
    decreases |s|
  {
    if |s| > 0 {
      var rest := s[1..];
      assert mem(a + 0) == Some(s[0] as int);
      forall i | 0 <= i < |rest| ensures mem(a + 1 + i) == Some(rest[i] as int) {
        assert rest[i] == s[i + 1] && mem(a + (i + 1)) == Some(s[i + 1] as int);
      }
      HeldString(mem, a + 1, rest);
      assert s == [s[0]] + rest;
    }
  }

  lemma StringKept(mem: Memory, mem': Memory, a: nat, s: string, r: Range)
    requires HoldsString(mem, a, s) && SameOn(mem, mem', r) && r.lo <= a && a + |s| < r.hi
    ensures HoldsString(mem', a, s)
  {
    forall i | 0 <= i < |s| ensures mem'(a + i) == Some(s[i] as int) {
      assert mem(a + i) == Some(s[i] as int);
    }
  }

  // ----- replaying -----

  function OpenFile(k: Kernel, m: Machine, path: nat): Machine
    requires m.Running?
  {
    match CString(m.mem, path)
    case None => Fatal
    case Some(name) =>
      match k.files(name)
      case None => Fatal
      case Some(file) => Running(m.mem, Some(file), m.atBase, true)
  }

  /** One statement. */
  function Step(k: Kernel, m: Machine, s: Statement): Machine
    requires m.Running?
  {
    match s
    case Open(path) => OpenFile(k, m, path)
    case OpenNext(path) => if m.fd.None? then Fatal else OpenFile(k, m, path)
    case Mmap(p) =>
      if !k.grants(p) then Fatal
      else if p.anonymous then Running(Zeroed(m.mem, p.addr, p.addr + p.length), m.fd, m.atBase, m.reset)
      else if m.fd.None? then Fatal
      else Running(Mapped(m.mem, p, m.fd.value), m.fd, if m.reset then p.addr else m.atBase, false)
    case MakeStackExec(_) => m
    case Begin(info, traced) => if m.fd.None? then Fatal else Started(m.mem, m.atBase, info, traced)
  }

  function RunScript(k: Kernel, m: Machine, script: seq<Statement>): Machine
    decreases |script|
  {
    if |script| == 0 || !m.Running? then m else RunScript(k, Step(k, m, script[0]), script[1..])
  }

  /** What the loader finds where it reads. */
  datatype Fetched = Fault | Unknown | Got(s: Statement, n: nat)

  function Fetch(read: Words, at: nat): (f: Fetched) {
    var words := WordsFrom(read, at, 8);
    match Decode(words)
    case Some((s, n)) => Got(s, n)
    case None => if |words| > 0 && words[0] > START then Unknown else Fault
  }

  /** A mapping over the loader's own pages leaves it nothing to run. */
  predicate Destroys(s: Statement, own: Range) {
    s.Mmap? && !Apart(s.mapping, own)
  }

  /** What the statement fetched does to a running machine. */
  function Advanced(k: Kernel, own: Range, m: Machine, f: Fetched): Machine
    requires m.Running?
  {
    match f
    case Fault => Crashed
    case Unknown => Fatal
    case Got(s, _) => if Step(k, m, s).Running? && Destroys(s, own) then Crashed else Step(k, m, s)
  }

  function Size(f: Fetched): nat {
    if f.Got? && f.n > 0 then 8 * f.n else 8
  }

  /** The replay as it is: every statement is read from memory as the statements
      before it have left it.  own is where the loader itself stands. */
  function RunFrom(k: Kernel, own: Range, m: Machine, at: nat): Machine
    decreases WORD - at
  {
    if !m.Running? then m
    else if at >= WORD then Crashed
    else
      var f := Fetch(WordsOf(m.mem), at);
      RunFrom(k, own, Advanced(k, own, m, f), at + Size(f))
  }

  /** A mapping that reaches no further than it says. */
  predicate Tame(p: Mapping) {
    p.clearLength <= p.length && p.addr + p.length < WORD
  }

  /** The script maps over neither the words from lo to hi nor the loader. */
  ghost predicate KeepsClear(script: seq<Statement>, block: Range, own: Range) {
    forall i :: 0 <= i < |script| && script[i].Mmap? ==>
      Tame(script[i].mapping) && Apart(script[i].mapping, block) && Apart(script[i].mapping, own)
  }

  lemma StepKeeps(k: Kernel, m: Machine, s: Statement, r: Range)
    requires m.Running? && (s.Mmap? ==> Tame(s.mapping) && Apart(s.mapping, r))
    ensures Step(k, m, s).Running? ==> SameOn(m.mem, Step(k, m, s).mem, r)
    ensures Step(k, m, s).Started? ==> SameOn(m.mem, Step(k, m, s).mem, r)
  {}

  lemma FetchHeld(read: Words, at: nat, s: Statement)
    requires HoldsWords(read, at, Encode(s))
    ensures Fetch(read, at) == Got(s, |Encode(s)|)
  {
    HeldWords(read, at, Encode(s), 8);
    var words := WordsFrom(read, at, 8);
    DecodeEncode(s, words[|Encode(s)|..]);
    assert words == Encode(s) + words[|Encode(s)|..];
  }

  /** The equations of RunFrom. */
  ghost predicate IsReplay(k: Kernel, own: Range, run: (Machine, nat) -> Machine) {
    forall m, at {:trigger RunFrom(k, own, m, at)} :: run(m, at) == RunFrom(k, own, m, at)
  }

  lemma ReplayStep(k: Kernel, own: Range, run: (Machine, nat) -> Machine, m: Machine, at: nat)
    requires IsReplay(k, own, run) && m.Running?
    ensures at >= WORD ==> run(m, at) == Crashed
    ensures at < WORD ==>
              var f := Fetch(WordsOf(m.mem), at); var next := Advanced(k, own, m, f);
              && run(m, at) == run(next, at + Size(f))
              && (!next.Running? ==> run(m, at) == next)
  {
    assert run(m, at) == RunFrom(k, own, m, at);
    if at < WORD {
      var f := Fetch(WordsOf(m.mem), at);
      var next := Advanced(k, own, m, f);
      assert run(next, at + Size(f)) == RunFrom(k, own, next, at + Size(f));
    }
  }

  /** One statement of the replay. */
  lemma RunFromStep(k: Kernel, own: Range, run: (Machine, nat) -> Machine, m: Machine, at: nat, s: Statement)
    requires IsReplay(k, own, run) && m.Running? && at < WORD
    requires HoldsWords(WordsOf(m.mem), at, Encode(s)) && !Destroys(s, own)
    ensures run(m, at) == run(Step(k, m, s), at + 8 * |Encode(s)|)
    ensures !Step(k, m, s).Running? ==> run(m, at) == Step(k, m, s)
  {
    FetchHeld(WordsOf(m.mem), at, s);
    ReplayStep(k, own, run, m, at);
  }

  /** A segment over the loader's own pages is the end of the replay. */
  lemma MappingOverLoaderCrashes(k: Kernel, own: Range, m: Machine, at: nat, p: Mapping)
    requires m.Running? && at < WORD && HoldsWords(WordsOf(m.mem), at, Encode(Mmap(p)))
    requires k.grants(p) && (p.anonymous || m.fd.Some?) && !Apart(p, own)
    ensures RunFrom(k, own, m, at) == Crashed
  {
    FetchHeld(WordsOf(m.mem), at, Mmap(p));
  }

  lemma KeepsClearTail(script: seq<Statement>, block: Range, own: Range)
    requires script != [] && KeepsClear(script, block, own)
    ensures KeepsClear(script[1..], block, own)
    ensures script[0].Mmap? ==> Tame(script[0].mapping) && Apart(script[0].mapping, block) && Apart(script[0].mapping, own)
  {
    assert forall i :: 0 <= i < |script[1..]| ==> script[1..][i] == script[i + 1];
  }

  /** Replaying a script that stands in memory is running it, as long as it maps
      over neither itself nor the loader. */
  lemma RunHeld(k: Kernel, own: Range, m: Machine, at: nat, script: seq<Statement>, block: Range)
    requires m.Running? && HoldsWords(WordsOf(m.mem), at, EncodeAll(script))
    requires block.lo <= at && at + 8 * |EncodeAll(script)| <= block.hi <= WORD
    requires KeepsClear(script, block, own) && !RunScript(k, m, script).Running?
    ensures RunFrom(k, own, m, at) == RunScript(k, m, script)
  {
    var run := (m: Machine, at: nat) => RunFrom(k, own, m, at);
    ReplayHeld(k, own, run, m, at, script, EncodeAll(script), block);
    assert run(m, at) == RunFrom(k, own, m, at);
  }

  lemma {:induction false} ReplayHeld(k: Kernel, own: Range, run: (Machine, nat) -> Machine, m: Machine, at: nat,
                                      script: seq<Statement>, words: seq<nat>, block: Range)
    requires IsReplay(k, own, run) && m.Running? && words == EncodeAll(script) && HoldsWords(WordsOf(m.mem), at, words)
    requires block.lo <= at && at + 8 * |words| <= block.hi <= WORD
    requires KeepsClear(script, block, own) && !RunScript(k, m, script).Running?
    ensures run(m, at) == RunScript(k, m, script)
    decreases |script|
  {
    var s, tail, rest := script[0], script[1..], EncodeAll(script[1..]);
    assert script == [s] + tail;
    var next := StepHeld(k, own, run, m, at, s, tail, rest, block);
    if next.Running? {
      ReplayHeld(k, own, run, next, at + 8 * |Encode(s)|, tail, rest, block);
    }
  }

  lemma StepHeld(k: Kernel, own: Range, run: (Machine, nat) -> Machine, m: Machine, at: nat, s: Statement,
                 tail: seq<Statement>, rest: seq<nat>, block: Range)
    returns (next: Machine)
    requires IsReplay(k, own, run) && m.Running? && HoldsWords(WordsOf(m.mem), at, Encode(s) + rest)
    requires block.lo <= at && at + 8 * |Encode(s) + rest| <= block.hi <= WORD
    requires KeepsClear([s] + tail, block, own)
    ensures KeepsClear(tail, block, own)
    ensures RunScript(k, m, [s] + tail) == RunScript(k, next, tail)
    ensures if next.Running? then run(m, at) == run(next, at + 8 * |Encode(s)|) else run(m, at) == next == RunScript(k, next, tail)
    ensures next.Running? ==> HoldsWords(WordsOf(next.mem), at + 8 * |Encode(s)|, rest)
  {
    next := Step(k, m, s);
    assert ([s] + tail)[1..] == tail;
    KeepsClearTail([s] + tail, block, own);
    HeldParts(WordsOf(m.mem), at, Encode(s), rest);
    RunFromStep(k, own, run, m, at, s);
    if next.Running? {
      WordsOutliveStep(k, m, s, at + 8 * |Encode(s)|, rest, block);
    }
  }

  lemma WordsOutliveStep(k: Kernel, m: Machine, s: Statement, at: nat, words: seq<nat>, block: Range)
    requires m.Running? && Step(k, m, s).Running? && (s.Mmap? ==> Tame(s.mapping) && Apart(s.mapping, block))
    requires HoldsWords(WordsOf(m.mem), at, words) && block.lo <= at && at + 8 * |words| <= block.hi
    ensures HoldsWords(WordsOf(Step(k, m, s).mem), at, words)
  {
    StepKeeps(k, m, s, block);
    WordsKept(m.mem, Step(k, m, s).mem, at, words, block);
  }

  // ----- the auxiliary vector -----

  /** Where the auxiliary vector begins, in words above the stack pointer: past
      argc, argv and its end, the environment and its end. */
  function AuxvAt(stack: seq<nat>, envs: nat): nat
    requires |stack| > 0
  {
    stack[0] + 3 + envs
  }

  /** The words the kernel leaves above the stack pointer. */
  ghost predicate InitialStack(stack: seq<nat>, envs: nat, pairs: nat) {
    |stack| > 1
    && var auxv := AuxvAt(stack, envs);
    && pairs > 0 && auxv + 2 * pairs < |stack|
    && (forall i :: stack[0] + 2 <= i < auxv - 1 ==> stack[i] != 0)
    && stack[auxv - 1] == 0
    && (forall i :: 0 <= i < pairs ==> stack[auxv + 2 * i] != AT_NULL)
    && stack[auxv + 2 * pairs] == AT_NULL
  }

  /** The value an entry of a given tag ends up with. */
  function AuxValue(tag: nat, value: nat, info: StartInfo, atBase: nat, argv0: nat): nat {
    if tag == AT_PHDR then info.atPhdr
    else if tag == AT_PHENT then info.atPhent
    else if tag == AT_PHNUM then info.atPhnum
    else if tag == AT_ENTRY then info.atEntry
    else if tag == AT_BASE then atBase
    else if tag == AT_EXECFN then argv0
    else value
  }

  /** Every value of the vector replaced, nothing else touched. */
  function Patched(stack: seq<nat>, envs: nat, pairs: nat, info: StartInfo, atBase: nat): (r: seq<nat>)
    requires |stack| > 1
    ensures |r| == |stack|
  {
    var auxv := AuxvAt(stack, envs);
    seq(|stack|, i requires 0 <= i < |stack| =>
      if auxv < i < auxv + 2 * pairs && (i - auxv) % 2 == 1 then AuxValue(stack[i - 1], stack[i], info, atBase, stack[1]) else stack[i])
  }

  /** One more entry patched. */
  lemma PatchedNext(stack: seq<nat>, envs: nat, done: nat, info: StartInfo, atBase: nat)
    requires |stack| > 1 && AuxvAt(stack, envs) + 2 * done + 1 < |stack|
    ensures var at := AuxvAt(stack, envs) + 2 * done; var before := Patched(stack, envs, done, info, atBase);
            && before[at] == stack[at] && before[at + 1] == stack[at + 1]
            && Patched(stack, envs, done + 1, info, atBase) == before[at + 1 := AuxValue(stack[at], stack[at + 1], info, atBase, stack[1])]
  {}

  /** Past argv, then past the environment. */
  method FindAuxv(stack: array<nat>, ghost envs: nat, ghost pairs: nat) returns (sp: nat)
    requires InitialStack(stack[..], envs, pairs)
    ensures sp == AuxvAt(stack[..], envs)
  {
    sp := stack[0] + 1;
    ghost var auxv := AuxvAt(stack[..], envs);
    sp := sp + 1;
    while stack[sp] != 0
      invariant stack[0] + 2 <= sp <= auxv - 1
      decreases auxv - sp
    {
      sp := sp + 1;
    }
    sp := sp + 1;
  }

  /** How a program reads the vector: the first entry of a tag. */
  function AuxLookup(stack: seq<nat>, auxv: nat, tag: nat): Option<nat>
    decreases |stack| - auxv
  {
    if auxv + 1 >= |stack| || stack[auxv] == AT_NULL then None
    else if stack[auxv] == tag then Some(stack[auxv + 1])
    else AuxLookup(stack, auxv + 2, tag)
  }

  /** One entry of the patched vector, or its end. */
  lemma PatchedEntry(stack: seq<nat>, envs: nat, pairs: nat, info: StartInfo, atBase: nat, i: nat, at: nat)
    requires InitialStack(stack, envs, pairs) && i <= pairs && at == AuxvAt(stack, envs) + 2 * i
    ensures var now := Patched(stack, envs, pairs, info, atBase);
            now[at] == stack[at] && (i < pairs ==> now[at + 1] == AuxValue(stack[at], stack[at + 1], info, atBase, stack[1]))
  {}

  /** What the started program reads: the same entries, with the new values. */
  lemma {:induction false} PatchedLookup(stack: seq<nat>, envs: nat, pairs: nat, info: StartInfo, atBase: nat, tag: nat, i: nat)
    requires InitialStack(stack, envs, pairs) && i <= pairs
    ensures var at := AuxvAt(stack, envs) + 2 * i; var was := AuxLookup(stack, at, tag);
            AuxLookup(Patched(stack, envs, pairs, info, atBase), at, tag) ==
            if was.None? then None else Some(AuxValue(tag, was.value, info, atBase, stack[1]))
    decreases pairs - i
  {
    var at := AuxvAt(stack, envs) + 2 * i;
    PatchedEntry(stack, envs, pairs, info, atBase, i, at);
    if i < pairs && stack[at] != tag {
      PatchedLookup(stack, envs, pairs, info, atBase, tag, i + 1);
    }
  }

  /** What a reader finds under each tag after the patch, where it found an entry
      before: 3 is the address of the program headers, 4 the size of one and 5
      their number, 7 the base of the interpreter, 9 the entry point, 31 the name;
      everything else is as it was. */
  ghost predicate AuxReads(before: seq<nat>, after: seq<nat>, auxv: nat, phdr: nat, phent: nat, phnum: nat, base: nat, entry: nat,
                           name: nat)
  {
    forall tag: nat ::
      AuxLookup(after, auxv, tag) ==
      match AuxLookup(before, auxv, tag)
      case None => None
      case Some(was) =>
        Some(if tag == 3 then phdr else if tag == 4 then phent else if tag == 5 then phnum
             else if tag == 7 then base else if tag == 9 then entry else if tag == 31 then name else was)
  }

  /** Nothing but the values of the vector is touched. */
  predicate OnlyValues(before: seq<nat>, after: seq<nat>, auxv: nat, pairs: nat) {
    && |after| == |before|
    && forall i :: 0 <= i < |before| && (i < auxv || i >= auxv + 2 * pairs || (i - auxv) % 2 == 0) ==> after[i] == before[i]
  }

  lemma PatchedReads(stack: seq<nat>, envs: nat, pairs: nat, info: StartInfo, atBase: nat)
    requires InitialStack(stack, envs, pairs)
    ensures AuxReads(stack, Patched(stack, envs, pairs, info, atBase), AuxvAt(stack, envs),
                     info.atPhdr, info.atPhent, info.atPhnum, atBase, info.atEntry, stack[1])
    ensures OnlyValues(stack, Patched(stack, envs, pairs, info, atBase), AuxvAt(stack, envs), pairs)
  {
    forall tag: nat ensures AuxLookup(Patched(stack, envs, pairs, info, atBase), AuxvAt(stack, envs), tag) ==
      match AuxLookup(stack, AuxvAt(stack, envs), tag)
      case None => None
      case Some(was) => Some(AuxValue(tag, was, info, atBase, stack[1]))
    {
      PatchedLookup(stack, envs, pairs, info, atBase, tag, 0);
    }
  }

  /** The walk over the vector. */
  method PatchEntries(stack: array<nat>, info: StartInfo, atBase: nat, ghost envs: nat, ghost pairs: nat)
    requires InitialStack(stack[..], envs, pairs)
    modifies stack
    ensures stack[..] == Patched(old(stack[..]), envs, pairs, info, atBase)
  {
    ghost var was := stack[..];
    var execfn := stack[1];
    var sp := FindAuxv(stack, envs, pairs);
    ghost var done := 0;
    assert Patched(was, envs, 0, info, atBase) == was;
    PatchNext(stack, sp, info, atBase, execfn, was, envs, 0);
    sp, done := sp + 2, 1;
    while stack[sp] != AT_NULL
      invariant 1 <= done <= pairs && sp == AuxvAt(was, envs) + 2 * done
      invariant stack[..] == Patched(was, envs, done, info, atBase)
      decreases pairs - done
    {
      PatchNext(stack, sp, info, atBase, execfn, was, envs, done);
      sp, done := sp + 2, done + 1;
    }
  }

  /** The part of _start that walks the stack. */
  method PatchAuxv(stack: array<nat>, info: StartInfo, atBase: nat, ghost envs: nat, ghost pairs: nat)
    requires InitialStack(stack[..], envs, pairs)
    modifies stack
    ensures stack[..] == Patched(old(stack[..]), envs, pairs, info, atBase)
    ensures var auxv := AuxvAt(old(stack[..]), envs);
            && AuxReads(old(stack[..]), stack[..], auxv, info.atPhdr, info.atPhent, info.atPhnum, atBase, info.atEntry, old(stack[1]))
            && OnlyValues(old(stack[..]), stack[..], auxv, pairs)
  {
    PatchedReads(stack[..], envs, pairs, info, atBase);
    PatchEntries(stack, info, atBase, envs, pairs);
  }

  method PatchNext(stack: array<nat>, sp: nat, info: StartInfo, atBase: nat, execfn: nat, ghost was: seq<nat>, ghost envs: nat, ghost done: nat)
    requires |was| > 1 && sp == AuxvAt(was, envs) + 2 * done && sp + 1 < |was| && execfn == was[1]
    requires stack[..] == Patched(was, envs, done, info, atBase)
    modifies stack
    ensures stack[..] == Patched(was, envs, done + 1, info, atBase)
  {
    PatchedNext(was, envs, done, info, atBase);
    PatchEntry(stack, sp, info, atBase, execfn);
  }

  method PatchEntry(stack: array<nat>, sp: nat, info: StartInfo, atBase: nat, execfn: nat)
    requires sp + 1 < stack.Length
    modifies stack
    ensures stack[..] == old(stack[..])[sp + 1 := AuxValue(old(stack[sp]), old(stack[sp + 1]), info, atBase, execfn)]
  {
    match stack[sp] {
      case 3 => stack[sp + 1] := info.atPhdr;
      case 4 => stack[sp + 1] := info.atPhent;
      case 5 => stack[sp + 1] := info.atPhnum;
      case 9 => stack[sp + 1] := info.atEntry;
      case 7 => stack[sp + 1] := atBase;
      case 31 => stack[sp + 1] := execfn;
      case _ =>
    }
  }

  // ----- the machine itself -----

  ghost predicate Same(a: Memory, b: Memory) {
    forall p: nat :: a(p) == b(p)
  }

  lemma {:induction false} SameBytes(a: Memory, b: Memory, at: nat, end: nat)
    requires Same(a, b) && at <= end
    ensures ReadBytes(a, at, end) == ReadBytes(b, at, end)
    decreases end - at
  {
    if at < end { SameBytes(a, b, at + 1, end); }
  }

  /** What the fetch sees depends on the bytes alone. */
  lemma {:induction false} SameWords(a: Memory, b: Memory, at: nat, n: nat)
    requires Same(a, b)
    ensures WordsFrom(WordsOf(a), at, n) == WordsFrom(WordsOf(b), at, n)
    decreases n
  {
    if n > 0 {
      SameBytes(a, b, at, at + 8);
      SameWords(a, b, at + 8, n - 1);
    }
  }

  lemma {:induction false} SameString(a: Memory, b: Memory, at: nat)
    requires Same(a, b)
    ensures CString(a, at) == CString(b, at)
    decreases WORD - at
  {
    if at < WORD { SameString(a, b, at + 1); }
  }

  datatype Outcome = Branch(info: StartInfo, traced: bool) | Exit(code: nat) | Crash

  /** How a replay that starts no program ends. */
  function EndOf(end: Machine): Option<Outcome> {
    match end
    case Fatal => Some(Exit(FATAL_EXIT_CODE))
    case Crashed => Some(Crash)
    case _ => None
  }

  class Process {
    const kernel: Kernel
    const own: Range
    var mem: Memory
    var fd: Option<File>
    var atBase: nat
    var reset: bool

    constructor (kernel: Kernel, own: Range, mem: Memory)
      ensures this.kernel == kernel && this.own == own && this.mem == mem && fd == None && atBase == 0 && reset
    {
      this.kernel, this.own, this.mem := kernel, own, mem;
      fd, atBase, reset := None, 0, true;
    }

    /** The fields stand for a running machine. */
    ghost predicate Is(m: Machine)
      reads this
    {
      m.Running? && Same(mem, m.mem) && fd == m.fd && atBase == m.atBase && reset == m.reset
    }

    /** Bytes up to a word boundary, then words, then the rest. */
    method Clear(start: nat, end: nat)
      modifies this`mem
      ensures Same(mem, Cleared(old(mem), start, end))
    {
      if end <= start || end - start > CLEAR_LIMIT {
        return;
      }
      var p := start;
      while p % 8 != 0 && p < end
        invariant start <= p <= end && Same(mem, Zeroed(old(mem), start, p))
        decreases end - p
      {
        mem := Zeroed(mem, p, p + 1);
        p := p + 1;
      }
      while p + 8 <= end
        invariant start <= p <= end && Same(mem, Zeroed(old(mem), start, p))
        decreases end - p
      {
        mem := Zeroed(mem, p, p + 8);
        p := p + 8;
      }
      while p < end
        invariant start <= p <= end && Same(mem, Zeroed(old(mem), start, p))
        decreases end - p
      {
        mem := Zeroed(mem, p, p + 1);
        p := p + 1;
      }
    }

    method MapFilePages(m: Mapping)
      requires !m.anonymous && fd.Some?
      modifies this`mem, this`atBase, this`reset
      ensures Same(mem, Mapped(old(mem), m, fd.value))
      ensures atBase == (if old(reset) then m.addr else old(atBase)) && !reset
    {
      mem := MapFile(mem, m.addr, m.length, fd.value, m.offset);
      if m.clearLength != 0 {
        Clear(Minus(m.addr + m.length, m.clearLength), m.addr + m.length);
      }
      if reset {
        atBase, reset := m.addr, false;
      }
    }

    method OpenPath(path: nat) returns (ok: bool)
      modifies this`fd, this`reset
      ensures var name := CString(mem, path);
              && ok == (name.Some? && kernel.files(name.value).Some?)
              && (ok ==> fd == kernel.files(name.value) && reset)
    {
      var name := CString(mem, path);
      if name.None? {
        return false;
      }
      var r := kernel.files(name.value);
      if r.None? {
        return false;
      }
      fd, reset := r, true;
      return true;
    }

    /** One turn of the loop: false when the loader gives up. */
    method Execute(s: Statement, ghost m: Machine) returns (ok: bool)
      requires Is(m) && !s.Begin?
      modifies this
      ensures ok == Step(kernel, m, s).Running?
      ensures ok ==> Is(Step(kernel, m, s))
      ensures !ok ==> Step(kernel, m, s) == Fatal
    {
      match s {
        case OpenNext(path) =>
          if fd.None? {
            return false;
          }
          SameString(mem, m.mem, path);
          ok := OpenPath(path);
        case Open(path) =>
          SameString(mem, m.mem, path);
          ok := OpenPath(path);
        case Mmap(p) =>
          if !kernel.grants(p) || (!p.anonymous && fd.None?) {
            return false;
          }
          if p.anonymous {
            mem := Zeroed(mem, p.addr, p.addr + p.length);
          } else {
            MapFilePages(p);
          }
          ok := true;
        case MakeStackExec(_) =>
          ok := true;
      }
    }

    /** What stands where the loader reads next. */
    method ReadStatement(cursor: nat, ghost m: Machine) returns (f: Fetched)
      requires Is(m)
      ensures f == Fetch(WordsOf(m.mem), cursor)
    {
      SameWords(mem, m.mem, cursor, 8);
      var words := WordsFrom(WordsOf(mem), cursor, 8);
      var next := Decode(words);
      if next.Some? {
        var (s, n) := next.value;
        return Got(s, n);
      }
      return if |words| > 0 && words[0] > START then Unknown else Fault;
    }

    /** Carries out a statement that does not start the program; an outcome, if the
        replay ends here. */
    method Advance(f: Fetched, ghost m: Machine) returns (ended: Option<Outcome>)
      requires Is(m) && !(f.Got? && f.s.Begin?)
      modifies this
      ensures ended == EndOf(Advanced(kernel, own, m, f)) && !Advanced(kernel, own, m, f).Started?
      ensures ended.None? ==> Is(Advanced(kernel, own, m, f))
    {
      if f.Fault? {
        return Some(Crash);
      }
      if f.Unknown? {
        return Some(Exit(FATAL_EXIT_CODE));
      }
      var ok := Execute(f.s, m);
      if !ok {
        return Some(Exit(FATAL_EXIT_CODE));
      }
      if Destroys(f.s, own) {
        return Some(Crash);
      }
      return None;
    }

    /** One turn of the loop, the last one included. */
    method Turn(f: Fetched, ghost m: Machine, stack: array<nat>, ghost envs: nat, ghost pairs: nat) returns (ended: Option<Outcome>)
      requires Is(m) && InitialStack(stack[..], envs, pairs)
      modifies this, stack
      ensures var next := Advanced(kernel, own, m, f);
              if next.Started? then
                && ended == Some(Branch(next.info, next.traced)) && Same(mem, next.mem) && atBase == next.atBase
                && stack[..] == Patched(old(stack[..]), envs, pairs, next.info, next.atBase)
              else
                ended == EndOf(next) && (ended.None? ==> Is(next)) && stack[..] == old(stack[..])
    {
      if f.Got? && f.s.Begin? {
        if fd.None? {
          return Some(Exit(FATAL_EXIT_CODE));
        }
        PatchAuxv(stack, f.s.info, atBase, envs, pairs);
        return Some(Branch(f.s.info, f.s.traced));
      }
      ended := Advance(f, m);
    }

    /** _start: the script at an address is replayed up to its start statement,
        whose fields go into the auxiliary vector.  The stack holds envs environment
        strings and pairs auxiliary entries. */
    method Start(script: nat, stack: array<nat>, ghost envs: nat, ghost pairs: nat) returns (outcome: Outcome)
      requires fd == None && atBase == 0 && reset && InitialStack(stack[..], envs, pairs)
      modifies this, stack
      ensures var end := RunFrom(kernel, own, Running(old(mem), None, 0, true), script);
              if end.Started? then
                && outcome == Branch(end.info, end.traced) && Same(mem, end.mem) && atBase == end.atBase
                && stack[..] == Patched(old(stack[..]), envs, pairs, end.info, end.atBase)
              else
                Some(outcome) == EndOf(end) && stack[..] == old(stack[..])
    {
      var k, o := kernel, own;
      outcome := Replay(script, stack, (m: Machine, at: nat) => RunFrom(k, o, m, at), Running(mem, None, 0, true), envs, pairs);
    }

    /** The loop, for any function that satisfies the equations of the replay. */
    method Replay(script: nat, stack: array<nat>, ghost run: (Machine, nat) -> Machine, ghost start: Machine,
                  ghost envs: nat, ghost pairs: nat)
      returns (outcome: Outcome)
      requires IsReplay(kernel, own, run) && Is(start) && InitialStack(stack[..], envs, pairs)
      modifies this, stack
      ensures var end := run(start, script);
              if end.Started? then
                && outcome == Branch(end.info, end.traced) && Same(mem, end.mem) && atBase == end.atBase
                && stack[..] == Patched(old(stack[..]), envs, pairs, end.info, end.atBase)
              else
                Some(outcome) == EndOf(end) && stack[..] == old(stack[..])
    {
      var cursor := script;
      ghost var m := start;
      while cursor < WORD
        invariant Is(m) && stack[..] == old(stack[..])
        invariant run(m, cursor) == run(start, script)
        decreases WORD - cursor
      {
        var f := ReadStatement(cursor, m);
        ReplayStep(kernel, own, run, m, cursor);
        ghost var next := Advanced(kernel, own, m, f);
        var ended := Turn(f, m, stack, envs, pairs);
        if ended.Some? {
          return ended.value;
        }
        m, cursor := next, cursor + Size(f);
      }
      ReplayStep(kernel, own, run, m, cursor);
      return Crash;
    }
  }

  // ----- what a script does to memory -----

  lemma {:induction false} RunConcat(k: Kernel, m: Machine, a: seq<Statement>, b: seq<Statement>)
    ensures RunScript(k, m, a + b) == RunScript(k, RunScript(k, m, a), b)
    decreases |a|
  {
    if |a| == 0 {
      assert a + b == b;
    } else if m.Running? {
      assert (a + b)[1..] == a[1..] + b;
      RunConcat(k, Step(k, m, a[0]), a[1..], b);
    }
  }

  ghost predicate Granted(k: Kernel, mappings: seq<Mapping>) {
    forall i :: 0 <= i < |mappings| ==> k.grants(mappings[i])
  }

  /** A run of mappings, the first of them of the open file. */
  lemma {:induction false} RunMappings(k: Kernel, m: Machine, mappings: seq<Mapping>)
    requires m.Running? && m.fd.Some? && Granted(k, mappings)
    requires |mappings| > 0 && !mappings[0].anonymous
    ensures RunScript(k, m, MmapStatements(mappings)) ==
            Running(AllMapped(m.mem, mappings, m.fd.value), m.fd, if m.reset then mappings[0].addr else m.atBase, false)
    decreases |mappings|
  {
    var init, last := mappings[..|mappings| - 1], mappings[|mappings| - 1];
    assert MmapStatements(mappings) == MmapStatements(init) + [Mmap(last)];
    RunConcat(k, m, MmapStatements(init), [Mmap(last)]);
    RunOne(k, RunScript(k, m, MmapStatements(init)), Mmap(last));
    if |init| > 0 {
      RunMappings(k, m, init);
    } else {
      assert AllMapped(m.mem, init, m.fd.value) == m.mem;
    }
  }

  lemma RunOne(k: Kernel, m: Machine, s: Statement)
    ensures RunScript(k, m, [s]) == if m.Running? then Step(k, m, s) else m
  {
    assert [s][1..] == [];
  }

  // ----- the program the loader starts -----

  /** An object as the tracer reads it: its headers, where they are to go, and
      the file they describe. */
  datatype Image = Image(segments: seq<Segment>, base: nat, file: File)

  /** The mappings of an object are those of its headers, at its base. */
  ghost predicate Describes(elf: Object, image: Image, page: nat) {
    && page > 0 && |image.segments| > 0
    && elf.mappings == AllShifted(AllMappings(image.segments, page), image.base)
  }

  function InterpImage(interp: Option<Image>): seq<Placed> {
    if interp.Some? then PlaceAll(interp.value.segments, interp.value.base, interp.value.file) else []
  }

  /** Everything that is to be in memory when the program starts. */
  function WholeImage(main: Image, interp: Option<Image>): seq<Placed> {
    PlaceAll(main.segments, main.base, main.file) + InterpImage(interp)
  }

  /** The first mapping of an object is of its file, at the page of its first header. */
  lemma {:induction false} FirstMapping(segments: seq<Segment>, page: nat)
    requires page > 0 && |segments| > 0
    ensures var ms := AllMappings(segments, page);
            |ms| > 0 && !ms[0].anonymous && ms[0].addr == Floor(segments[0].vaddr, page)
  {
    if |segments| > 1 {
      FirstMapping(segments[..|segments| - 1], page);
    } else {
      assert AllMappings(segments[..0], page) == [];
    }
  }

  /** The name at the address is that of the object's file. */
  ghost predicate Opens(k: Kernel, mem: Memory, path: nat, file: File) {
    CString(mem, path).Some? && k.files(CString(mem, path).value) == Some(file)
  }

  /** Opening a file and carrying out mappings that begin with one of it. */
  lemma LoadObject(k: Kernel, m: Machine, first: Statement, mappings: seq<Mapping>, file: File)
    requires m.Running? && Granted(k, mappings) && |mappings| > 0 && !mappings[0].anonymous
    requires first.Open? || (first.OpenNext? && m.fd.Some?)
    requires Opens(k, m.mem, first.path, file)
    ensures RunScript(k, m, [first] + MmapStatements(mappings)) ==
            Running(AllMapped(m.mem, mappings, file), Some(file), mappings[0].addr, false)
  {
    RunConcat(k, m, [first], MmapStatements(mappings));
    RunOne(k, m, first);
    RunMappings(k, Step(k, m, first), mappings);
  }

  ghost predicate MatchingImages(interp: Option<Object>, image: Option<Image>, page: nat) {
    interp.Some? == image.Some? && (interp.Some? ==> Describes(interp.value, image.value, page))
  }

  /** The kernel grants what the script asks for. */
  ghost predicate AllGranted(k: Kernel, main: Object, interp: Option<Object>) {
    Granted(k, main.mappings) && (interp.Some? ==> Granted(k, interp.value.mappings))
  }

  lemma RunScriptParts(k: Kernel, m: Machine, first: seq<Statement>, second: seq<Statement>, stack: seq<Statement>, last: Statement)
    requires m.Running? && RunScript(k, m, first).Running? && RunScript(k, RunScript(k, m, first), second).Running?
    requires RunScript(k, RunScript(k, m, first), second).fd.Some?
    requires last.Begin? && (stack == [] || exists start :: stack == [MakeStackExec(start)])
    ensures var end := RunScript(k, RunScript(k, m, first), second);
            RunScript(k, m, first + second + stack + [last]) == Started(end.mem, end.atBase, last.info, last.traced)
  {
    RunConcat(k, m, first + second + stack, [last]);
    RunConcat(k, m, first + second, stack);
    RunConcat(k, m, first, second);
    var end := RunScript(k, RunScript(k, m, first), second);
    if stack != [] {
      RunOne(k, end, stack[0]);
    }
    RunOne(k, end, last);
  }

  /** What the mappings of both objects leave of memory, one after the other. */
  function BothMapped(mem: Memory, main: Object, interp: Option<Object>, file: File, interpFile: File): Memory {
    var mapped := AllMapped(mem, main.mappings, file);
    if interp.Some? then AllMapped(mapped, interp.value.mappings, interpFile) else mapped
  }

  /** The object's mappings begin with one of its file. */
  predicate StartsWithFile(elf: Object) {
    |elf.mappings| > 0 && !elf.mappings[0].anonymous
  }

  /** Running the whole script, as two lists of mappings. */
  lemma RunWholeScript(k: Kernel, mem: Memory, sp: nat, page: nat, addr1: nat, addr2: nat,
      main: Object, interp: Option<Object>, info: StartInfo, file: File, interpFile: File)
    requires page > 0 && StartsWithFile(main) && (interp.Some? ==> StartsWithFile(interp.value)) && AllGranted(k, main, interp)
    requires Opens(k, mem, addr1, file) && (interp.Some? ==> Opens(k, AllMapped(mem, main.mappings, file), addr2, interpFile))
    ensures RunScript(k, Running(mem, None, 0, true), ScriptOf(sp, page, addr1, addr2, main, interp, info)) ==
            Started(BothMapped(mem, main, interp, file, interpFile),
                    if interp.Some? then interp.value.mappings[0].addr else main.mappings[0].addr, info, false)
  {
    var m := Running(mem, None, 0, true);
    LoadObject(k, m, Open(addr1), main.mappings, file);
    var loaded := RunScript(k, m, [Open(addr1)] + MmapStatements(main.mappings));
    if interp.Some? {
      LoadObject(k, loaded, OpenNext(addr2), interp.value.mappings, interpFile);
    }
    RunScriptParts(k, m, [Open(addr1)] + MmapStatements(main.mappings), InterpPart(addr2, interp),
                   StackPart(sp, page, NeedsExecStack(main, interp)), Begin(info, false));
  }

  // ----- as segments -----

  /** Memory once the executable itself is in place. */
  function MainPlaced(mem: Memory, image: Image, page: nat): Memory
    requires page > 0
  {
    AllPlaced(mem, PlaceAll(image.segments, image.base, image.file), page)
  }

  /** The mappings of both objects, as one list of segments put down in order. */
  lemma BothPlaced(place: (Memory, Placed) -> Memory, mem: Memory, main: Object, interp: Option<Object>, image: Image,
                   interpImage: Option<Image>, interpFile: File, page: nat)
    requires Describes(main, image, page) && MatchingImages(interp, interpImage, page) && Places(place, page)
    requires interpImage.Some? ==> interpFile == interpImage.value.file
    ensures StartsWithFile(main) && (interp.Some? ==> StartsWithFile(interp.value))
    ensures AllMapped(mem, main.mappings, image.file) == MainPlaced(mem, image, page)
    ensures BothMapped(mem, main, interp, image.file, interpFile) == AllPlaced(mem, WholeImage(image, interpImage), page)
  {
    var ours, theirs := PlaceAll(image.segments, image.base, image.file), InterpImage(interpImage);
    FirstMapping(image.segments, page);
    ObjectMappings(place, mem, image.segments, image.base, image.file, page);
    PlacedIsFolded(place, mem, ours, page);
    if interp.Some? {
      var i := interpImage.value;
      FirstMapping(i.segments, page);
      ObjectMappings(place, Folded(place, mem, ours), i.segments, i.base, i.file, page);
      FoldedConcat(place, mem, ours, theirs);
      PlacedIsFolded(place, mem, ours + theirs, page);
    } else {
      assert WholeImage(image, interpImage) == ours;
    }
  }
}
