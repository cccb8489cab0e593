/**
  Properties of the register file and status word: each flag predicate reads
  its own bit and nothing else, the priority setter is a masked update that
  never disturbs the flags, and the scenario the processor's own test runs.
 */
module ProcessorLemmas {
  import opened Defs
  import opened ProcessorState

  /** The five flag predicates in bit order: Carry, Overflow, Zero, Negative,
      Trap. */
  function Flags(p: Processor): seq<bool> {
    [Carry(p), Overflow(p), Zero(p), Negative(p), Trap(p)]
  }

  /** Flipping status bit `k` (0-4) flips the `k`-th flag and no other one. */
  lemma FlagsReadDistinctBits(p: Processor, k: nat)
    requires k < 5
    ensures var q := p.(ps := p.ps ^ (1 << k));
            forall j :: 0 <= j < 5 ==> (Flags(q)[j] != Flags(p)[j] <==> j == k)
  {
  }

  /** Only bits 0-4 of the status word influence the flags. */
  lemma FlagsIgnoreUpperBits(p: Processor, q: Processor)
    requires p.ps & 0x1f == q.ps & 0x1f
    ensures Flags(p) == Flags(q)
  {
  }

  /** Setting the priority, in range or not, leaves every flag as it was. */
  lemma SetPriorityKeepsFlags(p: Processor, level: Word)
    ensures Flags(SetPriority(p, level)) == Flags(p)
    ensures SetPriority(p, level).ps & 0x1f == p.ps & 0x1f
  {
  }

  /** The last in-range priority set wins, whatever came before; in
      particular setting the same level twice equals setting it once. */
  lemma LastPriorityWins(p: Processor, a: Word, b: Word)
    requires b <= 7
    ensures SetPriority(SetPriority(p, a), b) == SetPriority(p, b)
  {
  }

  /** Setting a priority is idempotent, in range or not. */
  lemma SetPriorityIdempotent(p: Processor, level: Word)
    ensures SetPriority(SetPriority(p, level), level) == SetPriority(p, level)
  {
  }

  /** Writing back the current priority changes nothing. */
  lemma SetPriorityOfPriority(p: Processor)
    ensures SetPriority(p, Priority(p)) == p
  {
  }

  /** Setting priority 0 after any level restores the flag bits, and restores
      the whole processor when its priority was 0 to begin with. */
  lemma PriorityZeroRestores(p: Processor, level: Word)
    ensures SetPriority(SetPriority(p, level), 0).ps & 0x1f == p.ps & 0x1f
    ensures Priority(p) == 0 ==> SetPriority(SetPriority(p, level), 0) == p
  {
  }

  /** The processor test: R0 and R1 are set on a new processor and read back
      with the other registers still 0; a copy keeps those values after the
      original's R0 and R1 are cleared; then each level 1-7 is set, read back
      with bits 0-4 of the status word clear, and reset to 0. */
  lemma ProcessorTestScenario(p: Processor, copy: Processor)
    requires p.Valid() && p.ps == 0
    requires forall r: RegCode :: Reg(p, r) == 0
    requires copy == SetReg(SetReg(p, 0, 0xF00F), 1, 0xC7C8)
    ensures var q := SetReg(SetReg(p, 0, 0xF00F), 1, 0xC7C8);
            Reg(q, 0) == 0xF00F && Reg(q, 1) == 0xC7C8
            && (forall r: RegCode :: 2 <= r ==> Reg(q, r) == 0)
    ensures var q := SetReg(SetReg(SetReg(SetReg(p, 0, 0xF00F), 1, 0xC7C8), 0, 0), 1, 0);
            Reg(copy, 0) == 0xF00F && Reg(copy, 1) == 0xC7C8
            && (forall r: RegCode :: 2 <= r ==> Reg(copy, r) == 0)
            && q == p
    ensures forall i: Word :: 1 <= i < 8 ==>
              && Priority(SetPriority(p, i)) == i
              && (forall j: nat :: j < 5 ==> !Bit(Pstat(SetPriority(p, i)), j))
              && SetPriority(SetPriority(p, i), 0) == p
  {
    var q1 := SetReg(SetReg(p, 0, 0xF00F), 1, 0xC7C8);
    forall r: RegCode | 2 <= r
      ensures Reg(q1, r) == 0
    {
      assert Reg(p, r) == 0;
    }
    var q := SetReg(SetReg(SetReg(SetReg(p, 0, 0xF00F), 1, 0xC7C8), 0, 0), 1, 0);
    forall r: RegCode
      ensures q.regs[r] == p.regs[r]
    {
      assert Reg(q, r) == Reg(p, r);
    }
    assert q.regs == p.regs;
    forall i: Word | 1 <= i < 8
      ensures SetPriority(SetPriority(p, i), 0) == p
    {
      PriorityZeroRestores(p, i);
    }
  }
}
