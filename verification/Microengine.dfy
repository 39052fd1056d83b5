/** The instruction interpreter of the broadcooom network processor
    (devices/broadcooom/microengine.cpp): registers, flags, scratch memory, RAM and the jobs the
    interpreter hands to the memory and FIFO threads. */
module Microengine {
  import opened Words
  import opened Isa

  const CONTEXTS := 4
  const REGISTERS := 256

  /** The five job queues. */
  const SCRATCH_QUEUE := 0
  const RAM_QUEUE := 1
  const TX_QUEUE := 2
  const RX_QUEUE := 3
  const PKT_IN_QUEUE := 4
  const QUEUES := 5

  /** A request to a worker thread; `wake` is the context its callback makes ready. */
  datatype Job =
    | MemJob(write: bool, offset: nat, reg: nat, count: nat, wake: Option<nat>)
    | FifoJob(sizeReg: nat, start: nat, wake: Option<nat>)

  /** The state instructions and memory jobs read and write. `csrs` are CSR_0 (the control
      register), CSR_1 and CSR_2 (the MAC address); `mems` are scratch and RAM. */
  datatype Core = Core(
    regs: seq<Word>, pc: seq<Word>, carry: nat, sign: nat, lastAlu: Word,
    csrs: seq<Word>, mems: seq<seq<Word>>)
  {
    predicate Valid() {
      |regs| == REGISTERS && |pc| == CONTEXTS && carry < 2 && sign < 2 && |csrs| == 3 && |mems| == 2
    }
  }

  function NextContext(ctx: nat): nat {
    (ctx + 1) % CONTEXTS
  }

  /** The context `k` places after `ctx` in the cyclic order. */
  function Rotate(ctx: nat, k: nat): nat {
    (ctx + k) % CONTEXTS
  }

  /** The register an operand names for a context: `absolute_register`, with its 8-bit results and
      its reduction modulo the byte size of the register file. */
  function AbsoluteRegister(ctx: nat, r: Reg): (abs: nat)
    requires ctx < CONTEXTS && RegFits(r)
    ensures abs < REGISTERS
  {
    if r.kind == ABSOLUTE then r.number
    else if r.number < 32 then (r.number + ctx * 32) % 1024 % 256
    else if r.number < 48 then ((r.number - 32 + 128) % 256 + ctx * 16) % 1024 % 256
    else ((r.number - 48 + 192) % 256 + ctx * 16) % 1024 % 256
  }

  /** Absolute operands name registers by number. Of the relative ones, each context has 32 general, 16
      write and 16 read registers; numbers of 64 and more go on from there and wrap around. */
  lemma RegisterNamed(ctx: nat, r: Reg)
    requires ctx < CONTEXTS && RegFits(r)
    ensures var n := r.number;
            AbsoluteRegister(ctx, r) ==
            if r.kind == ABSOLUTE then n
            else if n < 32 then 32 * ctx + n
            else if n < 48 then 96 + 16 * ctx + n
            else if n < 64 then 144 + 16 * ctx + n
            else (144 + 16 * ctx + n) % 256
  {
    var n := r.number;
    if n < 32 {
      ReducedSum(0, n + ctx * 32);
    } else if n < 48 {
      ReducedSum(n - 32 + 128, ctx * 16);
    } else {
      ReducedSum(n - 48 + 192, ctx * 16);
    }
  }

  lemma ReducedSum(x: nat, d: nat)
    requires x < 512 && d < 256
    ensures (x % 256 + d) % 1024 % 256 == (x + d) % 256 && d % 1024 % 256 == d
    ensures x + d < 256 ==> (x + d) % 256 == x + d
  {
    assert x % 256 == x || x % 256 == x - 256;
  }

  function Operand(core: Core, ctx: nat, r: Reg): Word
    requires core.Valid() && ctx < CONTEXTS && RegFits(r)
  {
    core.regs[AbsoluteRegister(ctx, r)]
  }

  function SetOperand(core: Core, ctx: nat, r: Reg, v: Word): (core': Core)
    requires core.Valid() && ctx < CONTEXTS && RegFits(r)
    ensures core'.Valid()
  {
    core.(regs := core.regs[AbsoluteRegister(ctx, r) := v])
  }

  // ------------------------------------------------------------- computations

  /** The 64-bit intermediate result of an ALU operation. Additions keep their carry; everything
      else is computed in 32 bits first. Operation 15 has no case in the source. */
  function AluResult(op: nat, a: Word, b: Word, carry: nat, sign: nat): (r: nat)
    requires carry < 2
    ensures r < 0x2_0000_0000
  {
    match op
    case 0 => a + b
    case 1 => Wrap(a - b)
    case 2 => Wrap(b - a)
    case 3 => b
    case 4 => Not(b)
    case 5 => And(a, b)
    case 6 => Or(a, b)
    case 7 => Xor(a, b)
    case 8 => a + b + carry
    case 9 => ShiftLeft(a, b)
    case 10 => ShiftRight(a, b)
    case 11 => if sign == 1 then a + b else b
    case 12 => Wrap(a + b) % 0x10
    case 13 => Wrap(a + b) % 0x100
    case 14 => Wrap(a + b) % 0x1_0000
    case _ => 0
  }

  function ShiftedResult(opcode: int, result: nat, shift: int, numShift: nat): Word {
    if opcode != ALU_SHF then Wrap(result)
    else if shift == SHIFT_LEFT then ShiftLeft(Wrap(result), numShift)
    else ShiftRight(Wrap(result), numShift)
  }

  function PerformRot(v: Word, rot: int): Word {
    if rot == LEFT_EIGHT then ShiftLeft(v, 8)
    else if rot == LEFT_SIXTEEN then ShiftLeft(v, 16)
    else v
  }

  lemma Quotients(x: Word)
    ensures x / 0x100 < 0x100_0000 && x / 0x1_0000 < 0x1_0000 && x / 0x100_0000 < 0x100
  {
  }

  /** The value an immediate instruction leaves in its destination. */
  function ImmediateValue(opcode: int, orig: Word, ival: nat, rot: int): Word
    requires ival < 0x1_0000
  {
    Quotients(orig);
    var b := ival % 0x100;
    if opcode == IMMED then PerformRot(ival, rot)
    else if opcode == IMMED_B0 then orig / 0x100 * 0x100 + b
    else if opcode == IMMED_B1 then orig / 0x1_0000 * 0x1_0000 + b * 0x100 + orig % 0x100
    else if opcode == IMMED_B2 then orig / 0x100_0000 * 0x100_0000 + b * 0x1_0000 + orig % 0x1_0000
    else if opcode == IMMED_B3 then b * 0x100_0000 + orig % 0x100_0000
    else if opcode == IMMED_W0 then orig / 0x1_0000 * 0x1_0000 + ival
    else if opcode == IMMED_W1 then ival * 0x1_0000 + orig % 0x1_0000
    else orig
  }

  /** One 0xff byte for every set bit of a four-bit byte mask. */
  function Bitmask(bytemask: nat): Word
    requires bytemask < 16
  {
    bytemask % 2 * 0xFF + bytemask / 2 % 2 * 0xFF00 + bytemask / 4 % 2 * 0xFF_0000 + bytemask / 8 * 0xFF00_0000
  }

  function LoadField(orig: Word, v: Word, bitmask: Word): Word {
    Xor(And(orig, Not(bitmask)), And(v, bitmask))
  }

  predicate BranchTaken(opcode: int, a: Word, b: Word, ctx: nat) {
    if opcode == BR then true
    else if opcode == BR_EQ then a == b
    else if opcode == BR_NEQ then a != b
    else if opcode == BR_LESS then Signed(a) < Signed(b)
    else if opcode == BR_LESS_EQ then Signed(a) <= Signed(b)
    else if opcode == BR_GREATER then Signed(a) > Signed(b)
    else if opcode == BR_GREATER_EQ then Signed(a) >= Signed(b)
    else if opcode == BR_EQ_CTX then a == ctx
    else if opcode == BR_NEQ_CTX then a != ctx
    else false
  }

  /** LD_FIELD copies, after rotation, exactly the bytes its mask selects. */
  lemma LoadFieldSelects(orig: Word, v: Word, bitmask: Word, k: nat)
    requires k < 32
    ensures Bit(LoadField(orig, v, bitmask), k) == if Bit(bitmask, k) then Bit(v, k) else Bit(orig, k)
  {
    var keep, take := And(orig, Not(bitmask)), And(v, bitmask);
    BitOfBitwise((x, y) => x != y, keep, take, 32, k);
    BitOfBitwise((x, y) => x && y, orig, Not(bitmask), 32, k);
    BitOfBitwise((x, y) => x && y, v, bitmask, 32, k);
    BitOfBitwise((x, y) => !x, bitmask, 0, 32, k);
  }

  // ------------------------------------------------------------- instructions

  function ExecAlu(core: Core, ctx: nat, inst: Inst<nat>): (core': Core)
    requires core.Valid() && ctx < CONTEXTS && FieldsFit(inst) && inst.Alu?
    ensures core'.Valid()
  {
    if inst.opcode != ALU && inst.opcode != ALU_SHF then core
    else
      var src1, src2 := Operand(core, ctx, inst.src1), Operand(core, ctx, inst.src2);
      var result := AluResult(inst.op, src1, src2, core.carry, core.sign);
      var v := ShiftedResult(inst.opcode, result, inst.shift, inst.numShift);
      SetOperand(core, ctx, inst.dst, v).(
        carry := result / 0x1_0000_0000 % 2, sign := result / 0x8000_0000 % 2, lastAlu := v)
  }

  function ExecImmediate(core: Core, ctx: nat, inst: Inst<nat>): (core': Core)
    requires core.Valid() && ctx < CONTEXTS && FieldsFit(inst) && inst.Immediate?
    ensures core'.Valid()
  {
    SetOperand(core, ctx, inst.dst, ImmediateValue(inst.opcode, Operand(core, ctx, inst.dst), inst.ival, inst.rot))
  }

  function ExecLoad(core: Core, ctx: nat, inst: Inst<nat>): (core': Core)
    requires core.Valid() && ctx < CONTEXTS && FieldsFit(inst) && inst.Load?
    ensures core'.Valid()
  {
    if inst.opcode != LD_FIELD && inst.opcode != LD_FIELD_W_CLR then core
    else
      var core0 := if inst.opcode == LD_FIELD_W_CLR then SetOperand(core, ctx, inst.dst, 0) else core;
      var v := PerformRot(Operand(core0, ctx, inst.src), inst.rot);
      SetOperand(core0, ctx, inst.dst, LoadField(Operand(core0, ctx, inst.dst), v, Bitmask(inst.mask)))
  }

  function ExecBranch(core: Core, ctx: nat, inst: Inst<nat>): (core': Core)
    requires core.Valid() && ctx < CONTEXTS && FieldsFit(inst) && inst.Branch?
    ensures core'.Valid()
  {
    if BranchTaken(inst.opcode, Operand(core, ctx, inst.src1), Operand(core, ctx, inst.src2), ctx)
    then core.(pc := core.pc[ctx := inst.target])
    else core
  }

  function ExecCsr(core: Core, ctx: nat, inst: Inst<nat>): (core': Core)
    requires core.Valid() && ctx < CONTEXTS && FieldsFit(inst) && inst.Csr?
    ensures core'.Valid()
  {
    if inst.csrNum < 3 then SetOperand(core, ctx, inst.dst, core.csrs[inst.csrNum]) else core
  }

  /** The effect of an instruction on registers, flags and program counter. Memory and FIFO
      instructions only post a job; CTX_ARB only yields. */
  function Exec(core: Core, ctx: nat, inst: Inst<nat>): (core': Core)
    requires core.Valid() && ctx < CONTEXTS && FieldsFit(inst)
    ensures core'.Valid()
  {
    match inst
    case Alu(_, _, _, _, _, _, _) => ExecAlu(core, ctx, inst)
    case Immediate(_, _, _, _) => ExecImmediate(core, ctx, inst)
    case Load(_, _, _, _, _) => ExecLoad(core, ctx, inst)
    case Branch(_, _, _, _) => ExecBranch(core, ctx, inst)
    case Csr(_, _, _) => ExecCsr(core, ctx, inst)
    case Memory(_, _, _, _, _, _, _) => core
    case Fifo(_, _, _, _, _) => core
    case NoArg(_) => core
  }

  function Advance(core: Core, ctx: nat): (core': Core)
    requires core.Valid() && ctx < CONTEXTS
    ensures core'.Valid()
  {
    core.(pc := core.pc[ctx := Wrap(core.pc[ctx] as int + 1)])
  }

  // --------------------------------------------------------------------- jobs

  predicate IsReadRegister(reg: nat) {
    192 <= reg < 256
  }

  predicate IsWriteRegister(reg: nat) {
    128 <= reg < 192
  }

  /** The job a SCRATCH or RAM instruction posts, if its transfer register is of the right bank. A
      count of zero takes the transfer length from the last ALU result. */
  function MemoryJob(core: Core, ctx: nat, inst: Inst<nat>): (r: Option<Job>)
    requires core.Valid() && ctx < CONTEXTS && FieldsFit(inst) && inst.Memory?
  {
    var reg := AbsoluteRegister(ctx, inst.xfer);
    var count := if inst.count == 0 then core.lastAlu % 256 else inst.count;
    if inst.direction == READ && !IsReadRegister(reg) then None
    else if inst.direction == WRITE && !IsWriteRegister(reg) then None
    else if inst.opcode != SCRATCH && inst.opcode != RAM then None
    else
      Some(MemJob(inst.direction == WRITE,
                  Wrap(Operand(core, ctx, inst.addr1) + Operand(core, ctx, inst.addr2)),
                  reg, count, if inst.token == CTX_SWAP then Some(ctx) else None))
  }

  function FifoJobOf(core: Core, ctx: nat, inst: Inst<nat>): (r: Option<Job>)
    requires core.Valid() && ctx < CONTEXTS && FieldsFit(inst) && inst.Fifo?
  {
    if inst.opcode != T_FIFO_WR && inst.opcode != R_FIFO_RD && inst.opcode != RX_PKT then None
    else
      Some(FifoJob(AbsoluteRegister(ctx, inst.size),
                   Wrap(Operand(core, ctx, inst.addr1) + Operand(core, ctx, inst.addr2)),
                   if inst.token == CTX_SWAP then Some(ctx) else None))
  }

  function JobOf(core: Core, ctx: nat, inst: Inst<nat>): (r: Option<Job>)
    requires core.Valid() && ctx < CONTEXTS && FieldsFit(inst)
    ensures r.Some? && r.value.wake.Some? ==> r.value.wake.value == ctx
  {
    if inst.Memory? then MemoryJob(core, ctx, inst)
    else if inst.Fifo? then FifoJobOf(core, ctx, inst)
    else None
  }

  /** Whether the interpreter moves to the next context after this instruction. */
  predicate Yields(inst: Inst<nat>, job: Option<Job>) {
    (inst == NoArg(CTX_ARB)) || (job.Some? && job.value.wake.Some?)
  }

  function QueueOf(opcode: int): (q: nat)
    ensures q < QUEUES
  {
    if opcode == SCRATCH then SCRATCH_QUEUE
    else if opcode == RAM then RAM_QUEUE
    else if opcode == T_FIFO_WR then TX_QUEUE
    else if opcode == R_FIFO_RD then RX_QUEUE
    else PKT_IN_QUEUE
  }

  /** A transfer that stays inside the register file and its memory. */
  predicate JobFits(core: Core, q: nat, job: Job) {
    q < |core.mems| && job.MemJob? && job.reg + job.count <= |core.regs| && job.offset + job.count <= |core.mems[q]|
  }

  function CopyWord(core: Core, q: nat, job: Job): (core': Core)
    requires JobFits(core, q, job) && job.count > 0
  {
    if job.write
    then core.(mems := core.mems[q := core.mems[q][job.offset := core.regs[job.reg]]])
    else core.(regs := core.regs[job.reg := core.mems[q][job.offset]])
  }

  function Rest(job: Job, k: nat): Job
    requires job.MemJob? && k <= job.count
  {
    job.(offset := job.offset + k, reg := job.reg + k, count := job.count - k)
  }

  /** The whole transfer, word after word. */
  function Perform(core: Core, q: nat, job: Job): (core': Core)
    requires JobFits(core, q, job)
    ensures core'.pc == core.pc && core'.carry == core.carry && core'.sign == core.sign
    ensures core'.lastAlu == core.lastAlu && core'.csrs == core.csrs
    ensures |core'.regs| == |core.regs| && |core'.mems| == |core.mems|
    ensures forall m :: 0 <= m < |core.mems| ==> |core'.mems[m]| == |core.mems[m]|
    decreases job.count
  {
    if job.count == 0 then core else Perform(CopyWord(core, q, job), q, Rest(job, 1))
  }

  // ------------------------------------------------------------ the interpreter

  /** Where the constructor puts the CRC table, in words. */
  const CRC_TABLE_AT: nat := 0x400

  method CopyTable(ram: array<Word>, crcTable: seq<Word>)
    requires ram.Length >= CRC_TABLE_AT + |crcTable|
    modifies ram
    ensures forall k :: 0 <= k < ram.Length ==>
      ram[k] == if CRC_TABLE_AT <= k < CRC_TABLE_AT + |crcTable| then crcTable[k - CRC_TABLE_AT] else old(ram[k])
  {
    for i := 0 to |crcTable|
      invariant forall k :: 0 <= k < ram.Length ==>
        ram[k] == if CRC_TABLE_AT <= k < CRC_TABLE_AT + i then crcTable[k - CRC_TABLE_AT] else old(ram[k])
    {
      ram[CRC_TABLE_AT + i] := crcTable[i];
    }
  }

  /** The Microengine object. Each method is one action of the interpreter thread or of a worker. */
  class Engine {
    const registers: array<Word>
    const pcs: array<Word>
    const ready: array<bool>
    const scratch: array<Word>
    const ram: array<Word>
    var current: nat
    var carry: nat
    var sign: nat
    var lastAlu: Word
    var csrs: seq<Word>
    var queues: seq<seq<Job>>

    ghost predicate Valid()
      reads this
    {
      && registers.Length == REGISTERS && pcs.Length == CONTEXTS && ready.Length == CONTEXTS
      && scratch.Length == 1024 && ram.Length > 1024
      && current < CONTEXTS && carry < 2 && sign < 2 && |csrs| == 3 && |queues| == QUEUES
    }

    ghost function View(): (core: Core)
      requires Valid()
      reads this, registers, pcs, scratch, ram
      ensures core.Valid()
    {
      Core(registers[..], pcs[..], carry, sign, lastAlu, csrs, [scratch[..], ram[..]])
    }

    /** `m_last_alu` and the rest of the RAM are whatever the environment left there; the CRC table is
        copied to its place in RAM. */
    constructor (ram: array<Word>, crcTable: seq<Word>, lastAlu: Word, csrs: seq<Word>)
      requires ram.Length > CRC_TABLE_AT + |crcTable| && |csrs| == 3
      modifies ram
      ensures Valid() && this.ram == ram
      ensures fresh(registers) && fresh(pcs) && fresh(ready) && fresh(scratch)
      ensures View() == Core(seq(REGISTERS, _ => 0), seq(CONTEXTS, _ => 0), 0, 0, lastAlu, csrs,
                             [seq(1024, _ => 0), ram[..]])
      ensures forall k :: 0 <= k < ram.Length ==>
        ram[k] == if CRC_TABLE_AT <= k < CRC_TABLE_AT + |crcTable| then crcTable[k - CRC_TABLE_AT] else old(ram[k])
      ensures current == 0 && queues == [[], [], [], [], []]
      ensures ready[..] == [true, true, true, true]
    {
      registers := new Word[REGISTERS](_ => 0);
      pcs := new Word[CONTEXTS](_ => 0);
      ready := new bool[CONTEXTS](_ => true);
      scratch := new Word[1024](_ => 0);
      this.ram := ram;
      current, carry, sign := 0, 0, 0;
      this.lastAlu, this.csrs := lastAlu, csrs;
      queues := [[], [], [], [], []];
      new;
      CopyTable(ram, crcTable);
      assert registers[..] == seq(REGISTERS, _ => 0);
      assert pcs[..] == seq(CONTEXTS, _ => 0);
      assert scratch[..] == seq(1024, _ => 0);
      assert ready[..] == [true, true, true, true];
    }

    /** The selection loop of `thread_ready_to_run`: with the ready flags unchanged, it stops at the
        first ready context in cyclic order. */
    method ThreadReadyToRun() returns (skipped: nat)
      requires Valid()
      requires exists c :: 0 <= c < CONTEXTS && ready[c]
      modifies this`current
      ensures Valid()
      ensures skipped < CONTEXTS && current == Rotate(old(current), skipped)
      ensures ready[current]
      ensures forall k :: 0 <= k < skipped ==> !ready[Rotate(old(current), k)]
    {
      skipped := 0;
      while !ready[current]
        invariant Valid()
        invariant skipped < CONTEXTS && current == Rotate(old(current), skipped)
        invariant forall k :: 0 <= k < skipped ==> !ready[Rotate(old(current), k)]
        decreases CONTEXTS - skipped
      {
        if skipped + 1 == CONTEXTS {
          AllSkipped(old(current), ready[..]);
          assert false;
        }
        current := NextContext(current);
        skipped := skipped + 1;
      }
    }

    method Store(r: Reg, v: Word)
      requires Valid() && RegFits(r)
      modifies registers
      ensures Valid() && View() == SetOperand(old(View()), current, r, v)
    {
      var i := AbsoluteRegister(current, r);
      registers[i] := v;
      assert registers[..] == old(registers[..])[i := v];
      assert pcs[..] == old(pcs[..]) && scratch[..] == old(scratch[..]) && ram[..] == old(ram[..]);
    }

    method InterpretAlu(inst: Inst<nat>)
      requires Valid() && FieldsFit(inst) && inst.Alu?
      modifies this`carry, this`sign, this`lastAlu, registers
      ensures Valid() && View() == ExecAlu(old(View()), current, inst)
    {
      if inst.opcode == ALU || inst.opcode == ALU_SHF {
        var a := registers[AbsoluteRegister(current, inst.src1)];
        var b := registers[AbsoluteRegister(current, inst.src2)];
        var result := AluResult(inst.op, a, b, carry, sign);
        var v := ShiftedResult(inst.opcode, result, inst.shift, inst.numShift);
        Store(inst.dst, v);
        carry := result / 0x1_0000_0000 % 2;
        sign := result / 0x8000_0000 % 2;
        lastAlu := v;
      }
    }

    method InterpretImmediate(inst: Inst<nat>)
      requires Valid() && FieldsFit(inst) && inst.Immediate?
      modifies registers
      ensures Valid() && View() == ExecImmediate(old(View()), current, inst)
    {
      var orig := registers[AbsoluteRegister(current, inst.dst)];
      Store(inst.dst, ImmediateValue(inst.opcode, orig, inst.ival, inst.rot));
    }

    /** `bytemask_to_bitmask`; flipping the top byte adds it, because the shift has cleared it. */
    method BytemaskToBitmask(bytemask: nat) returns (bitmask: Word)
      requires bytemask < 16
      ensures bitmask == Bitmask(bytemask)
    {
      bitmask := 0;
      var b := bytemask;
      for i := 0 to 4
        invariant b < 16 && b == (if i == 0 then bytemask else if i == 1 then bytemask / 2
                                  else if i == 2 then bytemask / 4 else if i == 3 then bytemask / 8 else 0)
        invariant bitmask == if i == 0 then 0
                             else if i == 1 then bytemask % 2 * 0xFF00_0000
                             else if i == 2 then bytemask % 2 * 0xFF_0000 + bytemask / 2 % 2 * 0xFF00_0000
                             else if i == 3 then bytemask % 2 * 0xFF00 + bytemask / 2 % 2 * 0xFF_0000
                                                 + bytemask / 4 % 2 * 0xFF00_0000
                             else Bitmask(bytemask)
      {
        bitmask := bitmask / 0x100;
        if b % 2 == 1 {
          bitmask := bitmask + 0xFF00_0000;
        }
        b := b / 2;
      }
    }

    method InterpretLoad(inst: Inst<nat>)
      requires Valid() && FieldsFit(inst) && inst.Load?
      modifies registers
      ensures Valid() && View() == ExecLoad(old(View()), current, inst)
    {
      if inst.opcode != LD_FIELD && inst.opcode != LD_FIELD_W_CLR {
        return;
      }
      if inst.opcode == LD_FIELD_W_CLR {
        Store(inst.dst, 0);
      }
      var v := PerformRot(registers[AbsoluteRegister(current, inst.src)], inst.rot);
      var bitmask := BytemaskToBitmask(inst.mask);
      var orig := registers[AbsoluteRegister(current, inst.dst)];
      Store(inst.dst, LoadField(orig, v, bitmask));
    }

    method InterpretBranch(inst: Inst<nat>)
      requires Valid() && FieldsFit(inst) && inst.Branch?
      modifies pcs
      ensures Valid() && View() == ExecBranch(old(View()), current, inst)
    {
      var a := registers[AbsoluteRegister(current, inst.src1)];
      var b := registers[AbsoluteRegister(current, inst.src2)];
      if BranchTaken(inst.opcode, a, b, current) {
        pcs[current] := inst.target;
        assert pcs[..] == old(pcs[..])[current := inst.target];
      }
    }

    method InterpretCsr(inst: Inst<nat>)
      requires Valid() && FieldsFit(inst) && inst.Csr?
      modifies registers
      ensures Valid() && View() == ExecCsr(old(View()), current, inst)
    {
      if inst.csrNum < 3 {
        Store(inst.dst, csrs[inst.csrNum]);
      }
    }

    /** SCRATCH, RAM and FIFO instructions: put the context to sleep if it asked for a swap, queue
        the job, and move on to the next context. */
    method PostJob(inst: Inst<nat>)
      requires Valid() && FieldsFit(inst) && (inst.Memory? || inst.Fifo?)
      modifies this`current, this`queues, ready
      ensures Valid() && View() == old(View())
      ensures var job := JobOf(old(View()), old(current), inst);
              var q := QueueOf(inst.opcode);
              var swap := job.Some? && job.value.wake.Some?;
              && queues == (if job.None? then old(queues) else old(queues)[q := old(queues)[q] + [job.value]])
              && ready[..] == (if swap then old(ready[..])[old(current) := false] else old(ready[..]))
              && current == (if swap then NextContext(old(current)) else old(current))
    {
      ghost var core := View();
      var a1 := registers[AbsoluteRegister(current, inst.addr1)];
      var a2 := registers[AbsoluteRegister(current, inst.addr2)];
      var offset := Wrap(a1 as int + a2 as int);
      var wake := if inst.token == CTX_SWAP then Some(current) else None;
      var job: Job;
      if inst.Memory? {
        var reg := AbsoluteRegister(current, inst.xfer);
        var count := if inst.count == 0 then lastAlu % 256 else inst.count;
        if (inst.direction == READ && !IsReadRegister(reg)) || (inst.direction == WRITE && !IsWriteRegister(reg)) {
          return;
        }
        if inst.opcode != SCRATCH && inst.opcode != RAM {
          return;
        }
        job := MemJob(inst.direction == WRITE, offset, reg, count, wake);
      } else {
        if inst.opcode != T_FIFO_WR && inst.opcode != R_FIFO_RD && inst.opcode != RX_PKT {
          return;
        }
        job := FifoJob(AbsoluteRegister(current, inst.size), offset, wake);
      }
      assert JobOf(core, current, inst) == Some(job);
      if inst.token == CTX_SWAP {
        ready[current] := false;
      }
      var q := QueueOf(inst.opcode);
      queues := queues[q := queues[q] + [job]];
      if inst.token == CTX_SWAP {
        current := NextContext(current);
      }
    }

    /** One instruction, dispatched on its layout. */
    method InterpretInstruction(inst: Inst<nat>)
      requires Valid() && FieldsFit(inst)
      modifies this, registers, pcs, ready
      ensures Valid() && View() == Exec(old(View()), old(current), inst)
      ensures var job := JobOf(old(View()), old(current), inst);
              var q := QueueOf(inst.opcode);
              && queues == (if job.None? then old(queues) else old(queues)[q := old(queues)[q] + [job.value]])
              && ready[..] == (if job.Some? && job.value.wake.Some? then old(ready[..])[old(current) := false]
                               else old(ready[..]))
              && current == (if Yields(inst, job) then NextContext(old(current)) else old(current))
    {
      match inst
      case Alu(_, _, _, _, _, _, _) => InterpretAlu(inst);
      case Immediate(_, _, _, _) => InterpretImmediate(inst);
      case Load(_, _, _, _, _) => InterpretLoad(inst);
      case Branch(_, _, _, _) => InterpretBranch(inst);
      case Csr(_, _, _) => InterpretCsr(inst);
      case Memory(_, _, _, _, _, _, _) => PostJob(inst);
      case Fifo(_, _, _, _, _) => PostJob(inst);
      case NoArg(opcode) =>
        if opcode == CTX_ARB {
          current := NextContext(current);
        }
    }

    method CopyOne(q: nat, job: Job)
      requires Valid() && q < 2 && JobFits(View(), q, job) && job.count > 0
      modifies registers, scratch, ram
      ensures Valid() && View() == CopyWord(old(View()), q, job)
    {
      var mem := if q == SCRATCH_QUEUE then scratch else ram;
      if job.write {
        mem[job.offset] := registers[job.reg];
      } else {
        registers[job.reg] := mem[job.offset];
      }
      assert View().regs == CopyWord(old(View()), q, job).regs;
      assert View().mems == CopyWord(old(View()), q, job).mems;
    }

    /** One round of `handle_scratch` or `handle_ram`: take the oldest job, copy its words, run its
        callback. */
    method HandleMemory(q: nat)
      requires Valid() && q < 2 && queues[q] != []
      requires JobFits(View(), q, queues[q][0])
      requires queues[q][0].wake.Some? ==> queues[q][0].wake.value < CONTEXTS
      modifies this`queues, registers, scratch, ram, ready
      ensures Valid()
      ensures queues == old(queues)[q := old(queues)[q][1..]]
      ensures View() == Perform(old(View()), q, old(queues)[q][0])
      ensures var wake := old(queues)[q][0].wake;
              ready[..] == if wake.Some? then old(ready[..])[wake.value := true] else old(ready[..])
    {
      hide CopyWord;
      var job := queues[q][0];
      queues := queues[q := queues[q][1..]];
      for i := 0 to job.count
        invariant Valid() && JobFits(View(), q, job)
        invariant Perform(View(), q, Rest(job, i)) == Perform(old(View()), q, job)
        invariant ready[..] == old(ready[..])
        invariant queues == old(queues)[q := old(queues)[q][1..]]
      {
        assert Rest(Rest(job, i), 1) == Rest(job, i + 1);
        CopyOne(q, Rest(job, i));
      }
      if job.wake.Some? {
        ready[job.wake.value] := true;
      }
    }
  }

  lemma AllSkipped(start: nat, ready: seq<bool>)
    requires start < CONTEXTS && |ready| == CONTEXTS
    requires forall k :: 0 <= k < CONTEXTS ==> !ready[Rotate(start, k)]
    ensures forall c :: 0 <= c < CONTEXTS ==> !ready[c]
  {
    forall c | 0 <= c < CONTEXTS
      ensures !ready[c]
    {
      var k := (c + CONTEXTS - start) % CONTEXTS;
      assert Rotate(start, k) == c;
    }
  }
}
