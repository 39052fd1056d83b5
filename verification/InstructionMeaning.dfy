/** What whole instructions of the network processor do, said without the functions that compute it:
    branches, memory transfers, the ALU, immediates, field loads and control registers. */
module InstructionMeaning {
  import opened Words
  import opened Isa
  import opened Microengine
  import opened AluMeaning

  // ------------------------------------------------------------------ transfers

  /** Registers from `reg` on have been stored in memory `m` from `at` on; nothing else has changed. */
  ghost predicate Stored(core: Core, core': Core, m: nat, at: nat, reg: nat, n: nat) {
    && m < |core.mems| == |core'.mems| && |core'.mems[m]| == |core.mems[m]| && reg + n <= |core.regs|
    && core' == core.(mems := core.mems[m := core'.mems[m]])
    && forall i :: 0 <= i < |core.mems[m]| ==>
         core'.mems[m][i] == if at <= i < at + n then core.regs[reg + (i - at)] else core.mems[m][i]
  }

  /** Words of memory `m` from `at` on are in the registers from `reg` on; nothing else has changed. */
  ghost predicate Fetched(core: Core, core': Core, m: nat, at: nat, reg: nat, n: nat) {
    && m < |core.mems| && at + n <= |core.mems[m]| && |core'.regs| == |core.regs|
    && core' == core.(regs := core'.regs)
    && forall i :: 0 <= i < |core.regs| ==>
         core'.regs[i] == if reg <= i < reg + n then core.mems[m][at + (i - reg)] else core.regs[i]
  }

  lemma {:induction false} StoreMoves(core: Core, q: nat, job: Job)
    requires JobFits(core, q, job) && job.write
    ensures Stored(core, Perform(core, q, job), q, job.offset, job.reg, job.count)
    decreases job.count
  {
    if job.count == 0 {
      assert core.mems[q := core.mems[q]] == core.mems;
    } else {
      var core1 := CopyWord(core, q, job);
      var core' := Perform(core, q, job);
      StoreMoves(core1, q, Rest(job, 1));
      assert core1.mems[q := core'.mems[q]] == core.mems[q := core'.mems[q]];
    }
  }

  lemma {:induction false} FetchMoves(core: Core, q: nat, job: Job)
    requires JobFits(core, q, job) && !job.write
    ensures Fetched(core, Perform(core, q, job), q, job.offset, job.reg, job.count)
    decreases job.count
  {
    if job.count > 0 {
      FetchMoves(CopyWord(core, q, job), q, Rest(job, 1));
    }
  }

  /** The memory that an instruction works on, and how many words it moves. */
  function MemoryOf(opcode: int): nat {
    if opcode == SCRATCH then 0 else 1
  }

  function WordsMoved(core: Core, inst: Inst<nat>): nat
    requires inst.Memory? && FieldsFit(inst)
  {
    if inst.count != 0 then inst.count else core.lastAlu % 256
  }

  /** A SCRATCH or RAM instruction posts a transfer exactly if its register is in the bank of its
      direction: registers 192 to 255 for reads, 128 to 191 for writes. */
  lemma TransferPostedIff(core: Core, ctx: nat, inst: Inst<nat>)
    requires core.Valid() && ctx < CONTEXTS && FieldsFit(inst) && inst.Memory?
    requires inst.opcode == SCRATCH || inst.opcode == RAM
    ensures var bank := AbsoluteRegister(ctx, inst.xfer) / 64;
            JobOf(core, ctx, inst).Some? <==> bank == if inst.direction == READ then 3 else 2
    ensures Exec(core, ctx, inst) == core
  {
    hide AbsoluteRegister;
  }

  /** What the worker does with it, on whatever state it meets. The address is the 32-bit sum of the two
      address registers at the time of issue. A write moves consecutive registers into consecutive words
      of the memory that the opcode names, a read the other way; nothing else changes. The issuing context
      is woken exactly if it asked to be swapped out. */
  lemma TransferMeaning(core: Core, ctx: nat, inst: Inst<nat>, later: Core)
    requires core.Valid() && ctx < CONTEXTS && FieldsFit(inst) && inst.Memory? && JobOf(core, ctx, inst).Some?
    requires JobFits(later, QueueOf(inst.opcode), JobOf(core, ctx, inst).value)
    ensures JobOf(core, ctx, inst).value.wake == if inst.token == CTX_SWAP then Some(ctx) else None
    ensures var later' := Perform(later, QueueOf(inst.opcode), JobOf(core, ctx, inst).value);
            var reg, n, m := AbsoluteRegister(ctx, inst.xfer), WordsMoved(core, inst), MemoryOf(inst.opcode);
            var sum := Operand(core, ctx, inst.addr1) + Operand(core, ctx, inst.addr2);
            var at := if sum < WORD then sum else sum - WORD;
            if inst.direction == WRITE then Stored(later, later', m, at, reg, n)
            else Fetched(later, later', m, at, reg, n)
  {
    hide Perform, AbsoluteRegister, Stored, Fetched;
    var job := JobOf(core, ctx, inst).value;
    var q := QueueOf(inst.opcode);
    if job.write {
      StoreMoves(later, q, job);
    } else {
      FetchMoves(later, q, job);
    }
  }

  /** A FIFO instruction posts its size register and the 32-bit sum of its address registers to the queue of
      its opcode; the registers and flags stay. */
  lemma FifoMeaning(core: Core, ctx: nat, inst: Inst<nat>)
    requires core.Valid() && ctx < CONTEXTS && FieldsFit(inst) && inst.Fifo?
    requires inst.opcode == T_FIFO_WR || inst.opcode == R_FIFO_RD || inst.opcode == RX_PKT
    ensures var sum := Operand(core, ctx, inst.addr1) + Operand(core, ctx, inst.addr2);
            && JobOf(core, ctx, inst) == Some(FifoJob(AbsoluteRegister(ctx, inst.size),
                                                      if sum < WORD then sum else sum - WORD,
                                                      if inst.token == CTX_SWAP then Some(ctx) else None))
            && Exec(core, ctx, inst) == core
            && (QueueOf(inst.opcode) == TX_QUEUE <==> inst.opcode == T_FIFO_WR)
            && (QueueOf(inst.opcode) == RX_QUEUE <==> inst.opcode == R_FIFO_RD)
  {
    hide AbsoluteRegister;
  }

  // ------------------------------------------------------------------- branches

  predicate SameBits(a: Word, b: Word) {
    forall k :: 0 <= k < 32 ==> Bit(a, k) == Bit(b, k)
  }

  lemma {:induction false} BitsDetermine(a: nat, b: nat, n: nat)
    requires a < Pow2(n) && b < Pow2(n) && forall k :: 0 <= k < n ==> Bit(a, k) == Bit(b, k)
    ensures a == b
  {
    if n > 0 {
      forall k | 0 <= k < n - 1
        ensures Bit(a / 2, k) == Bit(b / 2, k)
      {
        assert Bit(a, k + 1) == Bit(b, k + 1);
      }
      BitsDetermine(a / 2, b / 2, n - 1);
      assert Bit(a, 0) == Bit(b, 0);
    }
  }

  lemma EqualIffSameBits(a: Word, b: Word)
    ensures a == b <==> SameBits(a, b)
  {
    hide Bit;
    Pow2Bits();
    if SameBits(a, b) {
      BitsDetermine(a, b, 32);
    }
  }

  /** The number a word stands for in two's complement. */
  function Value(a: Word): int {
    a % 0x8000_0000 - if Bit(a, 31) then 0x8000_0000 else 0
  }

  lemma TopBit(a: Word)
    ensures Bit(a, 31) <==> a >= 0x8000_0000
  {
    hide Bit;
    Pow2Bits();
    assert Pow2(31) == 0x8000_0000 by {
      assert Pow2(32) == 2 * Pow2(31);
    }
    hide Pow2;
    BitOfQuotient(a, 31, 0);
    BitZero(Quotient(a, Pow2(31)));
  }

  lemma BitZero(a: nat)
    ensures Bit(a, 0) <==> a % 2 == 1
  {
  }

  lemma SignedIsValue(a: Word)
    ensures Signed(a) == Value(a)
  {
    hide Bit;
    TopBit(a);
  }

  /** The instruction goes to its target exactly under the condition; in either case nothing else changes,
      no other context's program counter either. */
  predicate GoesIff(core: Core, ctx: nat, inst: Inst<nat>, condition: bool)
    requires core.Valid() && ctx < CONTEXTS && FieldsFit(inst) && inst.Branch?
  {
    Exec(core, ctx, inst) == if condition then core.(pc := core.pc[ctx := inst.target]) else core
  }

  /** When each branch is taken: the comparisons are of two's complement numbers, by the sign of their
      difference in unbounded arithmetic. The opcodes that the interpreter does not implement never
      branch. */
  lemma BranchMeaning(core: Core, ctx: nat, inst: Inst<nat>)
    requires core.Valid() && ctx < CONTEXTS && FieldsFit(inst) && inst.Branch?
    ensures var a, b := Operand(core, ctx, inst.src1), Operand(core, ctx, inst.src2);
            var difference := Value(a) - Value(b);
            && (inst.opcode == BR ==> GoesIff(core, ctx, inst, true))
            && (inst.opcode == BR_EQ ==> GoesIff(core, ctx, inst, SameBits(a, b)))
            && (inst.opcode == BR_NEQ ==> GoesIff(core, ctx, inst, !SameBits(a, b)))
            && (inst.opcode == BR_LESS ==> GoesIff(core, ctx, inst, difference < 0))
            && (inst.opcode == BR_LESS_EQ ==> GoesIff(core, ctx, inst, difference <= 0))
            && (inst.opcode == BR_GREATER ==> GoesIff(core, ctx, inst, difference > 0))
            && (inst.opcode == BR_GREATER_EQ ==> GoesIff(core, ctx, inst, difference >= 0))
            && (inst.opcode == BR_EQ_CTX ==> GoesIff(core, ctx, inst, Value(a) == ctx))
            && (inst.opcode == BR_NEQ_CTX ==> GoesIff(core, ctx, inst, Value(a) != ctx))
            && (BR_GREATER_EQ < inst.opcode < BR_EQ_CTX || BR_NEQ_CTX < inst.opcode ==>
                  GoesIff(core, ctx, inst, false))
  {
    hide Value, SameBits, AbsoluteRegister;
    var a, b := Operand(core, ctx, inst.src1), Operand(core, ctx, inst.src2);
    EqualIffSameBits(a, b);
    SignedIsValue(a);
    SignedIsValue(b);
  }

  /** The opcode that branches exactly when the given one does not. */
  function Opposite(opcode: int): int {
    if opcode == BR_EQ then BR_NEQ
    else if opcode == BR_LESS then BR_GREATER_EQ
    else if opcode == BR_LESS_EQ then BR_GREATER
    else BR_NEQ_CTX
  }

  function Opposed(inst: Inst<nat>): Inst<nat>
    requires inst.Branch?
  {
    Branch(Opposite(inst.opcode), inst.src1, inst.src2, inst.target)
  }

  lemma OppositeBranches(core: Core, ctx: nat, inst: Inst<nat>)
    requires core.Valid() && ctx < CONTEXTS && FieldsFit(inst) && inst.Branch?
    requires inst.opcode in {BR_EQ, BR_LESS, BR_LESS_EQ, BR_EQ_CTX}
    ensures var went, stayed := core.(pc := core.pc[ctx := inst.target]), core;
            var one, other := Exec(core, ctx, inst), Exec(core, ctx, Opposed(inst));
            (one == went && other == stayed) || (one == stayed && other == went)
  {
    hide Value, SameBits, AbsoluteRegister, Exec;
    BranchMeaning(core, ctx, inst);
    BranchMeaning(core, ctx, Opposed(inst));
  }

  // ------------------------------------------------------------------------ ALU

  /** Apart from the flags and the last result, an ALU instruction changes its destination alone, which
      gets the last result. */
  predicate SetsAlu(core: Core, core': Core, dst: nat)
    requires core.Valid() && dst < REGISTERS
  {
    core' == core.(regs := core.regs[dst := core'.lastAlu], carry := core'.carry, sign := core'.sign,
                   lastAlu := core'.lastAlu)
  }

  /** The additions: with the carry as bit 32 the sum is exact. */
  lemma AluSums(core: Core, ctx: nat, inst: Inst<nat>)
    requires core.Valid() && ctx < CONTEXTS && FieldsFit(inst) && inst.Alu? && inst.opcode == ALU
    ensures var a, b := Operand(core, ctx, inst.src1), Operand(core, ctx, inst.src2);
            var core' := Exec(core, ctx, inst);
            var sum := core'.lastAlu + WORD * core'.carry;
            && SetsAlu(core, core', AbsoluteRegister(ctx, inst.dst))
            && (inst.op == PLUS ==> sum == a + b)
            && (inst.op == PLUS_CARRY ==> sum == a + b + core.carry)
            && (inst.op == PLUS_IF_SIGN ==> sum == (if core.sign == 1 then a else 0) + b)
            && (inst.op !in {PLUS, PLUS_CARRY, PLUS_IF_SIGN} ==> core'.carry == 0)
            && (core'.sign == 1 <==> Bit(core'.lastAlu, 31))
  {
    hide AbsoluteRegister, Bit, And, Or, Xor, Not, ShiftLeft, ShiftRight;
    var core' := Exec(core, ctx, inst);
    TopBit(core'.lastAlu);
    var a, b := Operand(core, ctx, inst.src1), Operand(core, ctx, inst.src2);
    CarryAndSign(AluResult(inst.op, a, b, core.carry, core.sign));
  }

  lemma CarryAndSign(result: nat)
    requires result < 0x2_0000_0000
    ensures var carry, sign := result / 0x1_0000_0000 % 2, result / 0x8000_0000 % 2;
            && result == Wrap(result) + WORD * carry
            && (sign == 1 <==> Wrap(result) >= 0x8000_0000)
  {
  }

  /** The result `v` of each operation that is not an addition, by its bit k, by the operation that undoes
      it, or as a sum cut to its low bits. */
  predicate IsResult(op: int, a: Word, b: Word, v: Word, k: nat) {
    && (op == MINUS ==> Wrap(v + b) == a)
    && (op == BACKWARDS_MINUS ==> Wrap(v + a) == b)
    && (op == SECOND ==> v == b)
    && (op == BIT_NOT_SECOND ==> Bit(v, k) == !Bit(b, k))
    && (op == AND ==> Bit(v, k) == (Bit(a, k) && Bit(b, k)))
    && (op == OR ==> Bit(v, k) == (Bit(a, k) || Bit(b, k)))
    && (op == XOR ==> Bit(v, k) == (Bit(a, k) != Bit(b, k)))
    && (op == ALU_SHIFT_LEFT ==> Bit(v, k) == (k >= b % 32 && Bit(a, k - b % 32)))
    && (op == ALU_SHIFT_RIGHT ==> Bit(v, k) == Bit(a, k + b % 32))
    && (op == PLUS_FOUR ==> v == (a + b) % 0x10)
    && (op == PLUS_EIGHT ==> v == (a + b) % 0x100)
    && (op == PLUS_SIXTEEN ==> v == (a + b) % 0x1_0000)
  }

  lemma ResultMeaning(op: nat, a: Word, b: Word, carry: nat, sign: nat, k: nat)
    requires op < 16 && carry < 2 && k < 32
    ensures IsResult(op, a, b, Wrap(AluResult(op, a, b, carry, sign)), k)
  {
    hide Bit, And, Or, Xor, Not, ShiftLeft, ShiftRight;
    match op
    case 1 => WrappedDifference(a, b);
    case 2 => WrappedDifference(b, a);
    case 4 => LogicalBits(op, a, b, carry, sign, k);
    case 5 => LogicalBits(op, a, b, carry, sign, k);
    case 6 => LogicalBits(op, a, b, carry, sign, k);
    case 7 => LogicalBits(op, a, b, carry, sign, k);
    case 9 => ShiftReduced(a, b); ShiftBits(a, b % 32, k);
    case 10 => ShiftReduced(a, b); ShiftBits(a, b % 32, k);
    case 12 => LowBitsOfSum(a as int + b as int);
    case 13 => LowBitsOfSum(a as int + b as int);
    case 14 => LowBitsOfSum(a as int + b as int);
    case _ =>
  }

  /** The other operations, on the whole instruction. */
  lemma AluOthers(core: Core, ctx: nat, inst: Inst<nat>, k: nat)
    requires core.Valid() && ctx < CONTEXTS && FieldsFit(inst) && inst.Alu? && inst.opcode == ALU && k < 32
    ensures IsResult(inst.op, Operand(core, ctx, inst.src1), Operand(core, ctx, inst.src2),
                     Exec(core, ctx, inst).lastAlu, k)
  {
    hide AbsoluteRegister, AluResult, IsResult;
    var a, b := Operand(core, ctx, inst.src1), Operand(core, ctx, inst.src2);
    ResultMeaning(inst.op, a, b, core.carry, core.sign, k);
  }

  lemma ShiftReduced(a: Word, n: nat)
    ensures ShiftLeft(a, n) == ShiftLeft(a, n % 32) && ShiftRight(a, n) == ShiftRight(a, n % 32)
  {
    assert n % 32 % 32 == n % 32;
  }

  lemma LowBitsOfSum(x: nat)
    ensures Wrap(x) % 0x10 == x % 0x10 && Wrap(x) % 0x100 == x % 0x100 && Wrap(x) % 0x1_0000 == x % 0x1_0000
  {
  }

  /** The same operation without the shift. */
  function Plain(inst: Inst<nat>): Inst<nat>
    requires inst.Alu?
  {
    Alu(ALU, inst.dst, inst.src1, inst.op, inst.src2, inst.shift, inst.numShift)
  }

  /** ALU_SHF leaves the flags of the plain instruction, and its result moved by the shift amount. */
  lemma ShiftedAlu(core: Core, ctx: nat, inst: Inst<nat>, k: nat)
    requires core.Valid() && ctx < CONTEXTS && FieldsFit(inst) && inst.Alu? && inst.opcode == ALU_SHF && k < 32
    ensures var plain, core' := Exec(core, ctx, Plain(inst)), Exec(core, ctx, inst);
            && SetsAlu(core, core', AbsoluteRegister(ctx, inst.dst))
            && core'.carry == plain.carry && core'.sign == plain.sign
            && Bit(core'.lastAlu, k) ==
               if inst.shift == SHIFT_LEFT then k >= inst.numShift && Bit(plain.lastAlu, k - inst.numShift)
               else Bit(plain.lastAlu, k + inst.numShift)
  {
    hide AbsoluteRegister, Bit, ShiftLeft, ShiftRight, AluResult;
    ShiftBits(Exec(core, ctx, Plain(inst)).lastAlu, inst.numShift, k);
  }

  // ----------------------------------------------- immediates, loads and registers

  predicate SetsRegister(core: Core, core': Core, dst: nat)
    requires core.Valid() && dst < REGISTERS
  {
    |core'.regs| == REGISTERS && core' == core.(regs := core.regs[dst := core'.regs[dst]])
  }

  /** IMMED loads its value, moved up by no, one or two bytes; the others replace the bytes they name. */
  lemma ImmediateMeaning(core: Core, ctx: nat, inst: Inst<nat>, k: nat)
    requires core.Valid() && ctx < CONTEXTS && FieldsFit(inst) && inst.Immediate? && k < 4
    requires IMMED <= inst.opcode <= IMMED_W1
    ensures var dst := AbsoluteRegister(ctx, inst.dst);
            var core' := Exec(core, ctx, inst);
            && SetsRegister(core, core', dst)
            && (inst.opcode == IMMED ==>
                  core'.regs[dst] == inst.ival * (if inst.rot == LEFT_EIGHT then 0x100
                                                  else if inst.rot == LEFT_SIXTEEN then 0x1_0000 else 1))
            && (inst.opcode != IMMED ==>
                  var from := Replaces(inst.opcode, k);
                  ByteOf(core'.regs[dst], k) ==
                  if from.None? then ByteOf(core.regs[dst], k) else ByteOf(inst.ival, from.value))
  {
    hide AbsoluteRegister, ByteOf, ShiftLeft;
    ShiftedBytes(inst.ival);
    if inst.opcode != IMMED {
      ImmediateBytes(inst.opcode, Operand(core, ctx, inst.dst), inst.ival, inst.rot, k);
    }
  }

  lemma ShiftedBytes(v: nat)
    requires v < 0x1_0000
    ensures ShiftLeft(v, 8) == v * 0x100 && ShiftLeft(v, 16) == v * 0x1_0000
  {
    Pow2Bits();
    Pow2Add(8, 8);
    hide Pow2;
    assert 8 % 32 == 8 && 16 % 32 == 16;
    assert v * Pow2(8) == v * 0x100 && v * Pow2(16) == v * 0x1_0000;
  }

  lemma BitInByte(x: Word, j: nat)
    requires j < 32
    ensures Bit(x, j) == Bit(ByteOf(x, j / 8), j % 8)
  {
    hide Bit, Pow2;
    var i := j / 8;
    Pow2Bits();
    BytePowers();
    BitOfQuotient(x, 8 * i, j % 8);
    BitOfRemainder(Quotient(x, Pow2(8 * i)), 8, j % 8);
    assert i == 0 || i == 1 || i == 2 || i == 3;
    Quotients(x);
  }

  lemma BytePowers()
    ensures Pow2(0) == 1 && Pow2(8) == 0x100 && Pow2(16) == 0x1_0000 && Pow2(24) == 0x100_0000
  {
    Pow2Bits();
    Pow2Add(8, 8);
    Pow2Add(16, 8);
  }

  lemma MaskDigits(mask: nat)
    requires mask < 16
    ensures Bit(mask, 0) == (mask % 2 == 1) && Bit(mask, 1) == (mask / 2 % 2 == 1)
    ensures Bit(mask, 2) == (mask / 4 % 2 == 1) && Bit(mask, 3) == (mask / 8 == 1)
  {
    assert Pow2(0) == 1 && Pow2(1) == 2 && Pow2(2) == 4 && Pow2(3) == 8;
    hide Bit, Pow2;
    forall n | 0 <= n < 4
      ensures Bit(mask, n) == (Quotient(mask, Pow2(n)) % 2 == 1)
    {
      BitOfQuotient(mask, n, 0);
      BitZero(Quotient(mask, Pow2(n)));
    }
    assert Quotient(mask, Pow2(0)) == mask && Quotient(mask, Pow2(1)) == mask / 2;
    assert Quotient(mask, Pow2(2)) == mask / 4 && Quotient(mask, Pow2(3)) == mask / 8;
  }

  lemma FullBytes(b0: nat, b1: nat, b2: nat, b3: nat)
    requires b0 < 2 && b1 < 2 && b2 < 2 && b3 < 2
    ensures var x := b0 * 0xFF + b1 * 0xFF00 + b2 * 0xFF_0000 + b3 * 0xFF00_0000;
            && x < WORD && ByteOf(x, 0) == b0 * 0xFF && ByteOf(x, 1) == b1 * 0xFF
            && ByteOf(x, 2) == b2 * 0xFF && ByteOf(x, 3) == b3 * 0xFF
  {
    hide ByteOf;
    BytesUnique(b0 * 0xFF, b1 * 0xFF, b2 * 0xFF, b3 * 0xFF);
  }

  lemma MaskBytes(mask: nat, i: nat)
    requires mask < 16 && i < 4
    ensures ByteOf(Bitmask(mask), i) == if Bit(mask, i) then 0xFF else 0
  {
    hide Bit, ByteOf;
    MaskDigits(mask);
    FullBytes(mask % 2, mask / 2 % 2, mask / 4 % 2, mask / 8);
  }

  lemma BitmaskBits(mask: nat, j: nat)
    requires mask < 16 && j < 32
    ensures Bit(Bitmask(mask), j) == Bit(mask, j / 8)
  {
    hide Bit, ByteOf, Bitmask;
    MaskBytes(mask, j / 8);
    FullByte(j % 8);
    BitInByte(Bitmask(mask), j);
  }

  lemma {:induction false} ZeroBits(j: nat)
    ensures !Bit(0, j)
  {
    if j > 0 {
      ZeroBits(j - 1);
    }
  }

  /** All of the lowest n bits of 2^n - 1 are set. */
  lemma {:induction false} OnesBits(n: nat, k: nat)
    requires k < n
    ensures Bit(Pow2(n) - 1, k)
  {
    assert (Pow2(n) - 1) % 2 == 1 && (Pow2(n) - 1) / 2 == Pow2(n - 1) - 1;
    if k > 0 {
      OnesBits(n - 1, k - 1);
    }
  }

  lemma FullByte(k: nat)
    requires k < 8
    ensures Bit(0xFF, k) && !Bit(0, k)
  {
    Pow2Bits();
    OnesBits(8, k);
    ZeroBits(k);
  }

  /** The bytes by which a rotation moves a register up. */
  function BytesUp(rot: int): nat {
    if rot == LEFT_EIGHT then 1 else if rot == LEFT_SIXTEEN then 2 else 0
  }

  lemma FieldBits(orig: Word, from: Word, mask: nat, rot: int, j: nat)
    requires mask < 16 && j < 32
    ensures var up := 8 * BytesUp(rot);
            Bit(LoadField(orig, PerformRot(from, rot), Bitmask(mask)), j) ==
            if Bit(mask, j / 8) then j >= up && Bit(from, j - up) else Bit(orig, j)
  {
    hide Bit, Bitmask, LoadField, ShiftLeft;
    LoadFieldSelects(orig, PerformRot(from, rot), Bitmask(mask), j);
    BitmaskBits(mask, j);
    ShiftBits(from, 8, j);
    ShiftBits(from, 16, j);
  }

  /** LD_FIELD, bit by bit: the bytes that the mask selects come from the source, moved up; the others
      stay, or are cleared by LD_FIELD_W_CLR, which clears its destination before it reads the source. */
  lemma LoadMeaning(core: Core, ctx: nat, inst: Inst<nat>, j: nat)
    requires core.Valid() && ctx < CONTEXTS && FieldsFit(inst) && inst.Load? && j < 32
    requires inst.opcode == LD_FIELD || inst.opcode == LD_FIELD_W_CLR
    ensures var dst, src := AbsoluteRegister(ctx, inst.dst), AbsoluteRegister(ctx, inst.src);
            var core' := Exec(core, ctx, inst);
            var clears := inst.opcode == LD_FIELD_W_CLR;
            var up := 8 * BytesUp(inst.rot);
            && SetsRegister(core, core', dst)
            && Bit(core'.regs[dst], j) ==
               if Bit(inst.mask, j / 8)
               then j >= up && !(clears && src == dst) && Bit(core.regs[src], j - up)
               else !clears && Bit(core.regs[dst], j)
  {
    hide AbsoluteRegister, Bit, Bitmask, LoadField, PerformRot;
    var dst, src := AbsoluteRegister(ctx, inst.dst), AbsoluteRegister(ctx, inst.src);
    var core0 := if inst.opcode == LD_FIELD_W_CLR then SetOperand(core, ctx, inst.dst, 0) else core;
    FieldBits(core0.regs[dst], core0.regs[src], inst.mask, inst.rot, j);
    ZeroBits(j);
    if j >= 8 * BytesUp(inst.rot) {
      ZeroBits(j - 8 * BytesUp(inst.rot));
    }
  }

  /** CSR copies one of the three control registers; other numbers do nothing. */
  lemma CsrMeaning(core: Core, ctx: nat, inst: Inst<nat>)
    requires core.Valid() && ctx < CONTEXTS && FieldsFit(inst) && inst.Csr?
    ensures var dst := AbsoluteRegister(ctx, inst.dst);
            var core' := Exec(core, ctx, inst);
            && SetsRegister(core, core', dst)
            && (inst.csrNum == 0 ==> core'.regs[dst] == core.csrs[0])
            && (inst.csrNum == 1 ==> core'.regs[dst] == core.csrs[1])
            && (inst.csrNum == 2 ==> core'.regs[dst] == core.csrs[2])
            && (inst.csrNum > 2 ==> core' == core)
  {
    hide AbsoluteRegister;
  }
}
