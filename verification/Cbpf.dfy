/**
 The part of the classic BPF machine that seccomp filters of this library use: `sock_filter`
 instructions, an interpreter over `seccomp_data`, and the kernel's static check of a program.
 The instruction semantics follow the Linux kernel's Documentation/networking/filter.rst,
 section "BPF engine and instruction set".
 */
module Cbpf {
  import opened MachineInts

  /** `struct sock_filter`. */
  datatype Insn = Insn(code: U16, jt: U8, jf: U8, k: U32)

  // The encodings the compiler emits. The machine below reads instruction words by value, not through these names.
  const LD_W_ABS: U16 := 0x20  // BPF_LD | BPF_W | BPF_ABS
  const JMP_JA: U16 := 0x05    // BPF_JMP | BPF_JA
  const JMP_JEQ_K: U16 := 0x15 // BPF_JMP | BPF_JEQ | BPF_K
  const RET_K: U16 := 0x06     // BPF_RET | BPF_K
  const MAX_INSNS := 4096      // BPF_MAXINSNS

  const NR_OFFSET: U32 := 0
  const ARCH_OFFSET: U32 := 4

  /** `BPF_STMT`: a statement has no jump offsets. */
  function Stmt(code: U16, k: U32): Insn {
    Insn(code, 0, 0, k)
  }

  /** `BPF_JUMP`. */
  function Jump(code: U16, k: U32, jt: U8, jf: U8): Insn {
    Insn(code, jt, jf, k)
  }

  /** The fields of `seccomp_data` that a filter can test here. */
  datatype SeccompData = SeccompData(nr: I32, arch: U32)

  /** What a program run comes to: a filter return word, or a run off the end or onto an unknown instruction. */
  datatype Outcome = Returned(word: U32) | Fault

  /** The fields by their offsets in `struct seccomp_data`. */
  function Load(data: SeccompData, offset: U32): U32
    requires offset == 0 || offset == 4
  {
    if offset == 0 then I32AsU32(data.nr) else data.arch
  }

  /** Runs `prog` from `pc` with accumulator `acc`. All jumps are forward, so the run ends within `|prog|` steps. */
  function Run(prog: seq<Insn>, pc: nat, acc: U32, data: SeccompData): Outcome
    decreases |prog| - pc
  {
    if pc >= |prog| then Fault else
    var insn := prog[pc];
    if insn.code == 0x06 then // return a constant
      Returned(insn.k)
    else if insn.code == 0x20 && (insn.k == 0 || insn.k == 4) then // load a word
      Run(prog, pc + 1, Load(data, insn.k), data)
    else if insn.code == 0x05 then // jump always
      Run(prog, pc + 1 + insn.k, acc, data)
    else if insn.code == 0x15 then // jump on equality with a constant
      Run(prog, pc + 1 + (if acc == insn.k then insn.jt else insn.jf), acc, data)
    else
      Fault
  }

  /** A program run from its first instruction; the accumulator starts at zero. */
  function Execute(prog: seq<Insn>, data: SeccompData): Outcome {
    Run(prog, 0, 0, data)
  }

  /** The instruction at `pc` is known and every jump it can take lands inside the program. */
  predicate InsnChecked(prog: seq<Insn>, pc: nat)
    requires pc < |prog|
  {
    var insn := prog[pc];
    || insn.code == 0x06
    || (insn.code == 0x20 && (insn.k == 0 || insn.k == 4) && pc + 1 < |prog|)
    || (insn.code == 0x05 && pc + 1 + insn.k < |prog|)
    || (insn.code == 0x15 && pc + 1 + insn.jt < |prog| && pc + 1 + insn.jf < |prog|)
  }

  /** The kernel's load-time check: a length between 1 and 4096, in-range jumps, and no fall off the end. */
  ghost predicate AcceptedByKernel(prog: seq<Insn>) {
    && 0 < |prog| <= 4096
    && forall pc :: 0 <= pc < |prog| ==> InsnChecked(prog, pc)
  }

  /** An accepted program returns a word on every input, from every instruction and accumulator. */
  lemma {:induction false} AcceptedNeverFaults(prog: seq<Insn>, pc: nat, acc: U32, data: SeccompData)
    requires AcceptedByKernel(prog) && pc < |prog|
    ensures Run(prog, pc, acc, data).Returned?
    decreases |prog| - pc
  {
    assert InsnChecked(prog, pc);
    var insn := prog[pc];
    if insn.code == 0x20 {
      AcceptedNeverFaults(prog, pc + 1, Load(data, insn.k), data);
    } else if insn.code == 0x05 {
      AcceptedNeverFaults(prog, pc + 1 + insn.k, acc, data);
    } else if insn.code == 0x15 {
      AcceptedNeverFaults(prog, pc + 1 + (if acc == insn.k then insn.jt else insn.jf), acc, data);
    }
  }
}
