/** The classic BPF machine the kernel runs a seccomp filter on. */
module Bpf {
  import opened Wrappers

  /** A 32-bit word. */
  type Word = w: int | 0 <= w < 0x1_0000_0000

  /** struct seccomp_data, its 64-bit arguments split into little-endian halves. */
  datatype Data = Data(nr: Word, arch: Word, argLow: seq<Word>, argHigh: seq<Word>) {
    predicate Valid() {
      |argLow| == 6 && |argHigh| == 6
    }
  }

  /** The words of the data the compiler loads. */
  datatype Field = Nr | ArchField | ArgLow(index: nat) | ArgHigh(index: nat)

  /** Where a field lies, as offsetof and sizeof give it. */
  function Offset(f: Field): nat {
    match f
    case Nr => 0
    case ArchField => 4
    case ArgLow(i) => 16 + 8 * i
    case ArgHigh(i) => 16 + 8 * i + 4
  }

  /** A word load; past the end of the data there is nothing to load. */
  function Load(d: Data, f: Field): Option<Word>
    requires d.Valid()
  {
    match f
    case Nr => Some(d.nr)
    case ArchField => Some(d.arch)
    case ArgLow(i) => if i < 6 then Some(d.argLow[i]) else None
    case ArgHigh(i) => if i < 6 then Some(d.argHigh[i]) else None
  }

  /** The four instruction kinds the compiler emits. */
  datatype Insn =
    | LdAbs(field: Field)
    | Jeq(k: nat, jt: nat, jf: nat)
    | Ja(distance: nat)
    | Ret(value: nat)

  datatype State = Running(pc: nat, acc: nat) | Halted(result: Option<nat>)

  /** One instruction.  Halted(None): the machine is stuck. */
  function Step(i: Insn, pc: nat, acc: nat, d: Data): (s: State)
    requires d.Valid()
    ensures s.Running? ==> s.pc > pc
  {
    match i
    case LdAbs(f) => (match Load(d, f) case None => Halted(None) case Some(w) => Running(pc + 1, w))
    case Jeq(k, jt, jf) => Running(pc + 1 + (if acc == k then jt else jf), acc)
    case Ja(distance) => Running(pc + 1 + distance, acc)
    case Ret(value) => Halted(Some(value))
  }

  /** What the program returns from pc with accumulator acc. */
  function Run(prog: seq<Insn>, pc: nat, acc: nat, d: Data): Option<nat>
    requires d.Valid()
    decreases |prog| - pc
  {
    if pc >= |prog| then None
    else match Step(prog[pc], pc, acc, d)
      case Halted(result) => result
      case Running(pc', acc') => Run(prog, pc', acc', d)
  }

  predicate ValidOffset(offset: nat) {
    offset % 4 == 0 && offset < 64
  }

  /** The kernel's static check of one instruction: loads are aligned and inside
      the data, conditional jumps fit a byte and stay inside the program. */
  predicate ValidInsn(i: Insn, pc: nat, length: nat) {
    match i
    case LdAbs(f) => ValidOffset(Offset(f))
    case Jeq(k, jt, jf) => k < 0x1_0000_0000 && jt < 256 && jf < 256 && pc + 1 + jt < length && pc + 1 + jf < length
    case Ja(distance) => distance < 0x1_0000_0000 && pc + 1 + distance < length
    case Ret(value) => value < 0x1_0000_0000
  }

  /** The longest program the kernel takes. */
  const BPF_MAXINSNS: nat := 4096

  predicate KernelAccepts(prog: seq<Insn>) {
    && 0 < |prog| <= BPF_MAXINSNS
    && prog[|prog| - 1].Ret?
    && forall pc :: 0 <= pc < |prog| ==> ValidInsn(prog[pc], pc, |prog|)
  }

  /** An accepted program always returns something. */
  lemma {:induction false} AcceptedProgramsReturn(prog: seq<Insn>, pc: nat, acc: nat, d: Data)
    requires d.Valid() && KernelAccepts(prog) && pc < |prog|
    ensures Run(prog, pc, acc, d).Some?
    decreases |prog| - pc
  {
    var i := prog[pc];
    assert ValidInsn(i, pc, |prog|);
    match i
    case LdAbs(f) => AcceptedProgramsReturn(prog, pc + 1, Load(d, f).value, d);
    case Jeq(k, jt, jf) => AcceptedProgramsReturn(prog, pc + 1 + (if acc == k then jt else jf), acc, d);
    case Ja(distance) => AcceptedProgramsReturn(prog, pc + 1 + distance, acc, d);
    case Ret(value) =>
  }
}
