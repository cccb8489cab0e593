/**
  The processor's register file and status word: eight 16-bit general
  registers (R6 the stack pointer, R7 the program counter) and a 16-bit
  status word whose bits 0-4 are the Carry, Overflow, Zero, Negative and Trap
  flags and whose bits 5-7 hold the priority level 0-7.
 */
module ProcessorState {
  import opened Defs

  /** Number of general registers. */
  const RegCount: nat := 8

  /** A register code R0..R7. */
  type RegCode = r: nat | r < RegCount

  /** Stack pointer and program counter aliases. */
  const SP: RegCode := 6
  const PC: RegCode := 7

  /** Status-word flag masks. */
  const SC: Word := 1
  const SV: Word := 1 << 1
  const SZ: Word := 1 << 2
  const SN: Word := 1 << 3
  const ST: Word := 1 << 4

  /** The priority field, bits 5-7 of the status word. */
  const PriorityMask: Word := 0xe0

  datatype Processor = Processor(regs: seq<Word>, ps: Word)
  {
    ghost predicate Valid() {
      |regs| == RegCount
    }
  }

  /** Bit `k` of a word, read by shifting it down to position 0. */
  function Bit(w: Word, k: nat): bool
    requires k < 16
  {
    (w >> k) & 1 == 1
  }

  // ---------------------------------------------------------------------
  // Construction and copying
  // ---------------------------------------------------------------------

  /** A new processor: every register cleared, then the status word. */
  method NewProcessor() returns (p: Processor)
    ensures p.Valid()
    ensures forall r: RegCode :: p.regs[r] == 0
    ensures p.ps == 0
  {
    var regs: seq<Word> := [];
    var i := 0;
    while i < RegCount
      invariant 0 <= i <= RegCount
      invariant |regs| == i
      invariant forall k :: 0 <= k < i ==> regs[k] == 0
    {
      regs := regs + [0];
      i := i + 1;
    }
    p := Processor(regs, 0);
  }

  /** Copy construction: each register of the source in turn, then its
      status word. */
  method CopyProcessor(cpu: Processor) returns (p: Processor)
    requires cpu.Valid()
    ensures p.Valid()
    ensures p == cpu
  {
    var regs: seq<Word> := [];
    var i := 0;
    while i < RegCount
      invariant 0 <= i <= RegCount
      invariant regs == cpu.regs[..i]
    {
      regs := regs + [cpu.regs[i]];
      i := i + 1;
    }
    p := Processor(regs, cpu.ps);
  }

  /** Assignment: each register of the target is overwritten in turn with the
      source's, then the status word. */
  method AssignProcessor(dst: Processor, cpu: Processor) returns (p: Processor)
    requires dst.Valid() && cpu.Valid()
    ensures p.Valid()
    ensures forall r: RegCode :: p.regs[r] == cpu.regs[r]
    ensures p.ps == cpu.ps
  {
    var regs := dst.regs;
    var i := 0;
    while i < RegCount
      invariant 0 <= i <= RegCount
      invariant |regs| == RegCount
      invariant forall k :: 0 <= k < i ==> regs[k] == cpu.regs[k]
    {
      regs := regs[i := cpu.regs[i]];
      i := i + 1;
    }
    p := Processor(regs, cpu.ps);
  }

  // ---------------------------------------------------------------------
  // Registers
  // ---------------------------------------------------------------------

  /** Contents of register `r`: the one value that, stored back into `r`,
      leaves the processor as it was. */
  function Reg(p: Processor, r: RegCode): (w: Word)
    requires p.Valid()
    ensures SetReg(p, r, w) == p
  {
    p.regs[r]
  }

  /** Sets register `r` to `v`. */
  function SetReg(p: Processor, r: RegCode, v: Word): (q: Processor)
    requires p.Valid()
    ensures q.Valid()
    ensures q.regs[r] == v
    ensures forall s: RegCode :: s != r ==> q.regs[s] == p.regs[s]
    ensures q.ps == p.ps
  {
    p.(regs := p.regs[r := v])
  }

  // ---------------------------------------------------------------------
  // Status word
  // ---------------------------------------------------------------------

  /** The raw status word: it carries each flag at its bit and the priority
      in bits 5-7. */
  function Pstat(p: Processor): (w: Word)
    ensures Bit(w, 0) == Carry(p) && Bit(w, 1) == Overflow(p) && Bit(w, 2) == Zero(p)
    ensures Bit(w, 3) == Negative(p) && Bit(w, 4) == Trap(p)
    ensures (w >> 5) & 7 == Priority(p)
  {
    p.ps
  }

  /** Whether the last operation carried out of the most significant bit. */
  predicate Carry(p: Processor)
    ensures Carry(p) <==> Bit(p.ps, 0)
  {
    p.ps & SC != 0
  }

  /** Whether the last operation overflowed. */
  predicate Overflow(p: Processor)
    ensures Overflow(p) <==> Bit(p.ps, 1)
  {
    p.ps & SV != 0
  }

  /** Whether the last result was zero. */
  predicate Zero(p: Processor)
    ensures Zero(p) <==> Bit(p.ps, 2)
  {
    p.ps & SZ != 0
  }

  /** Whether the last result was negative. */
  predicate Negative(p: Processor)
    ensures Negative(p) <==> Bit(p.ps, 3)
  {
    p.ps & SN != 0
  }

  /** Whether the trace-trap flag is set. */
  predicate Trap(p: Processor)
    ensures Trap(p) <==> Bit(p.ps, 4)
  {
    p.ps & ST != 0
  }

  /** The priority level held in bits 5-7 of the status word. */
  function Priority(p: Processor): (r: Word)
    ensures r <= 7
    ensures r << 5 == p.ps & PriorityMask
  {
    (p.ps & PriorityMask) >> 5
  }

  /** Sets the priority level; a level above 7 is ignored. */
  function SetPriority(p: Processor, level: Word): (q: Processor)
    ensures q.regs == p.regs
    ensures level > 7 ==> q == p
    ensures level <= 7 ==> Priority(q) == level
    ensures level <= 7 ==> q.ps & !PriorityMask == p.ps & !PriorityMask
  {
    if level > 7 then p
    else p.(ps := (p.ps & !PriorityMask) | (level << 5))
  }
}
